/** Sorting models in memory: the comparison by several keys, and the relations sorted by it. */
module Sorting {

  /** A field's value; `Missing` is a field the model does not have. Values of kinds without an
      order of their own are compared as the text they print as. */
  datatype Value = Missing | Text(s: string) | Number(n: int) | Decimal(r: real) | Flag(b: bool)

  datatype Direction = Asc | Desc

  /** A sort key; one without a field name is skipped. */
  datatype Sort = Sort(field: string, direction: Direction)

  datatype Model = Model(fields: map<string, Value>, rels: map<string, seq<Model>>)

  function Get(m: Model, field: string): Value {
    if field in m.fields then m.fields[field] else Missing
  }

  predicate SameKind(a: Value, b: Value) {
    || a.Missing? || b.Missing?
    || (a.Text? && b.Text?) || (a.Number? && b.Number?) || (a.Decimal? && b.Decimal?) || (a.Flag? && b.Flag?)
  }

  predicate LessText(a: string, b: string) {
    if b == "" then false
    else if a == "" then true
    else if a[0] != b[0] then a[0] < b[0]
    else LessText(a[1..], b[1..])
  }

  function CompareValues(a: Value, b: Value): int
    requires SameKind(a, b)
  {
    if a.Missing? || b.Missing? then if a.Missing? && b.Missing? then 0 else if a.Missing? then -1 else 1
    else match a
      case Text(s) => if LessText(s, b.s) then -1 else if LessText(b.s, s) then 1 else 0
      case Number(n) => if n < b.n then -1 else if n > b.n then 1 else 0
      case Decimal(r) => if r < b.r then -1 else if r > b.r then 1 else 0
      case Flag(f) => if f == b.b then 0 else if !f && b.b then -1 else 1
  }

  /** The models have values of the same kinds in the fields to sort by. */
  predicate Comparable(a: Model, b: Model, sorts: seq<Sort>) {
    forall i :: 0 <= i < |sorts| ==> SameKind(Get(a, sorts[i].field), Get(b, sorts[i].field))
  }

  lemma ComparableRest(a: Model, b: Model, sorts: seq<Sort>)
    requires Comparable(a, b, sorts) && sorts != []
    ensures Comparable(a, b, sorts[1..])
  {
    var rest := sorts[1..];
    assert forall i :: 0 <= i < |rest| ==> rest[i] == sorts[i + 1];
  }

  /** Whether the first of the keys that tells the two apart puts `a` first. */
  predicate Before(a: Model, b: Model, sorts: seq<Sort>)
    requires Comparable(a, b, sorts)
  {
    if sorts == [] then false
    else
      ComparableRest(a, b, sorts);
      var cmp := CompareValues(Get(a, sorts[0].field), Get(b, sorts[0].field));
      if sorts[0].field == "" || cmp == 0 then Before(a, b, sorts[1..])
      else if sorts[0].direction.Desc? then cmp > 0
      else cmp < 0
  }

  method CompareBySorts(a: Model, b: Model, sorts: seq<Sort>) returns (before: bool)
    requires Comparable(a, b, sorts)
    ensures before == Before(a, b, sorts)
  {
    var i := 0;
    while i < |sorts|
      invariant 0 <= i <= |sorts|
      invariant Comparable(a, b, sorts[i..]) && Before(a, b, sorts) == Before(a, b, sorts[i..])
    {
      assert sorts[i..][0] == sorts[i] && sorts[i..][1..] == sorts[i + 1..];
      ComparableRest(a, b, sorts[i..]);
      var s := sorts[i];
      i := i + 1;
      if s.field == "" {
        continue;
      }
      var cmp := CompareValues(Get(a, s.field), Get(b, s.field));
      if cmp == 0 {
        continue;
      }
      return if s.direction == Desc then cmp > 0 else cmp < 0;
    }
    before := false;
  }

  // ----- The comparison orders

  lemma {:induction false} TextOrder(a: string, b: string, c: string)
    ensures !LessText(a, a)
    ensures a == b <==> !LessText(a, b) && !LessText(b, a)
    ensures !(LessText(a, b) && LessText(b, a))
    ensures LessText(a, b) && LessText(b, c) ==> LessText(a, c)
    decreases |a| + |b| + |c|
  {
    if a != "" && b != "" {
      if c != "" {
        TextOrder(a[1..], b[1..], c[1..]);
      } else {
        TextOrder(a[1..], b[1..], c);
      }
      if a[0] == b[0] {
        assert a == b <==> a[1..] == b[1..] by {
          assert a == [a[0]] + a[1..] && b == [b[0]] + b[1..];
        }
      }
    } else if a != "" {
      TextOrder(a[1..], b, c);
    }
  }

  /** Comparing is a total order on the values of a kind, with missing values first. */
  lemma ValueOrder(a: Value, b: Value, c: Value)
    requires SameKind(a, b) && SameKind(b, c) && SameKind(a, c)
    ensures CompareValues(a, b) == -CompareValues(b, a)
    ensures CompareValues(a, b) == 0 <==> a == b
    ensures CompareValues(a, b) < 0 && CompareValues(b, c) < 0 ==> CompareValues(a, c) < 0
    ensures a.Missing? && !b.Missing? ==> CompareValues(a, b) < 0
  {
    if a.Text? && b.Text? {
      TextOrder(a.s, b.s, if c.Text? then c.s else "");
      TextOrder(b.s, a.s, "");
    }
  }

  /** Text is compared character by character: a proper beginning is less, and otherwise the first
      difference decides. */
  lemma {:induction false} TextExactlyWhen(a: string, b: string)
    ensures LessText(a, b) <==> exists k :: 0 <= k <= |a| && k < |b| && DiffersAt(a, b, k)
  {
    if b != "" && a != "" {
      TextExactlyWhen(a[1..], b[1..]);
      if LessText(a[1..], b[1..]) && a[0] == b[0] {
        var k :| 0 <= k <= |a[1..]| && k < |b[1..]| && DiffersAt(a[1..], b[1..], k);
        assert a[..k + 1] == [a[0]] + a[1..][..k] && b[..k + 1] == [b[0]] + b[1..][..k];
        assert DiffersAt(a, b, k + 1);
      } else if a[0] < b[0] {
        assert DiffersAt(a, b, 0);
      }
      if k :| 0 < k <= |a| && k < |b| && DiffersAt(a, b, k) {
        assert a[0] == a[..k][0] == b[..k][0] == b[0];
        assert a[1..][..k - 1] == a[..k][1..] && b[1..][..k - 1] == b[..k][1..];
        assert DiffersAt(a[1..], b[1..], k - 1);
      }
    } else if b != "" {
      assert DiffersAt(a, b, 0);
    }
  }

  predicate DiffersAt(a: string, b: string, k: nat)
    requires k <= |a| && k < |b|
  {
    a[..k] == b[..k] && (k == |a| || a[k] < b[k])
  }

  /** Values of a kind are ordered as numbers, as text, and false before true. */
  lemma ValueExactlyWhen(a: Value, b: Value)
    requires SameKind(a, b) && !a.Missing? && !b.Missing?
    ensures CompareValues(a, b) < 0 <==>
      || (a.Number? && a.n < b.n) || (a.Decimal? && a.r < b.r) || (a.Flag? && !a.b && b.b)
      || (a.Text? && exists k :: 0 <= k <= |a.s| && k < |b.s| && DiffersAt(a.s, b.s, k))
  {
    if a.Text? {
      TextExactlyWhen(a.s, b.s);
      TextOrder(a.s, b.s, "");
    }
  }

  /** The i-th key is the first in which the two differ. */
  predicate TellsApart(a: Model, b: Model, sorts: seq<Sort>, i: nat)
    requires i < |sorts|
  {
    && sorts[i].field != "" && Get(a, sorts[i].field) != Get(b, sorts[i].field)
    && forall j :: 0 <= j < i && sorts[j].field != "" ==> Get(a, sorts[j].field) == Get(b, sorts[j].field)
  }

  /** One model comes before another if and only if in the first key in which they differ it has the
      lesser value, or the greater one where the key is sorted descending. */
  lemma {:induction false} BeforeExactlyWhen(a: Model, b: Model, sorts: seq<Sort>)
    requires Comparable(a, b, sorts)
    ensures Before(a, b, sorts) <==> exists i ::
      0 <= i < |sorts| && TellsApart(a, b, sorts, i) &&
        if sorts[i].direction == Desc then CompareValues(Get(b, sorts[i].field), Get(a, sorts[i].field)) < 0
        else CompareValues(Get(a, sorts[i].field), Get(b, sorts[i].field)) < 0
  {
    if sorts != [] {
      var f, rest := sorts[0].field, sorts[1..];
      ComparableRest(a, b, sorts);
      BeforeExactlyWhen(a, b, rest);
      ValueOrder(Get(a, f), Get(b, f), Get(a, f));
      if f == "" || Get(a, f) == Get(b, f) {
        assert forall i :: 0 <= i < |rest| ==> rest[i] == sorts[i + 1];
        forall i | 0 <= i < |rest|
          ensures TellsApart(a, b, rest, i) <==> TellsApart(a, b, sorts, i + 1)
        {
          TellsLater(a, b, sorts, i);
        }
        if Before(a, b, sorts) {
          var i :| 0 <= i < |rest| && TellsApart(a, b, rest, i) &&
            if rest[i].direction == Desc then CompareValues(Get(b, rest[i].field), Get(a, rest[i].field)) < 0
            else CompareValues(Get(a, rest[i].field), Get(b, rest[i].field)) < 0;
          assert TellsApart(a, b, sorts, i + 1);
        }
      } else {
        assert TellsApart(a, b, sorts, 0);
        assert forall i :: 0 < i < |sorts| ==> !TellsApart(a, b, sorts, i);
      }
    }
  }

  lemma TellsLater(a: Model, b: Model, sorts: seq<Sort>, i: nat)
    requires i + 1 < |sorts| && (sorts[0].field == "" || Get(a, sorts[0].field) == Get(b, sorts[0].field))
    ensures TellsApart(a, b, sorts[1..], i) <==> TellsApart(a, b, sorts, i + 1)
  {
    assert forall j :: 0 < j < |sorts| ==> sorts[j] == sorts[1..][j - 1];
  }

  /** The keys do not tell the models apart. */
  predicate Alike(a: Model, b: Model, sorts: seq<Sort>) {
    forall i :: 0 <= i < |sorts| && sorts[i].field != "" ==> Get(a, sorts[i].field) == Get(b, sorts[i].field)
  }

  /** The comparison is a strict weak order: it is irreflexive and transitive, and neither of two
      models comes first exactly when they are alike. */
  lemma {:induction false} StrictWeakOrder(a: Model, b: Model, c: Model, sorts: seq<Sort>)
    requires Comparable(a, b, sorts) && Comparable(b, a, sorts) && Comparable(b, c, sorts) && Comparable(a, c, sorts)
    ensures !(Before(a, b, sorts) && Before(b, a, sorts))
    ensures !Before(a, b, sorts) && !Before(b, a, sorts) <==> Alike(a, b, sorts)
    ensures Before(a, b, sorts) && Before(b, c, sorts) ==> Before(a, c, sorts)
    ensures Alike(a, b, sorts) && Before(b, c, sorts) ==> Before(a, c, sorts)
    ensures Before(a, b, sorts) && Alike(b, c, sorts) ==> Before(a, c, sorts)
  {
    if sorts == [] {
    } else {
      var f, rest := sorts[0].field, sorts[1..];
      assert forall i :: 0 <= i < |rest| ==> rest[i] == sorts[i + 1];
      StrictWeakOrder(a, b, c, rest);
      KeysOrder(Get(a, f), Get(b, f), Get(c, f));
      assert Alike(a, b, sorts) <==> (f == "" || Get(a, f) == Get(b, f)) && Alike(a, b, rest);
      assert Alike(b, c, sorts) <==> (f == "" || Get(b, f) == Get(c, f)) && Alike(b, c, rest);
    }
  }

  lemma KeysOrder(x: Value, y: Value, z: Value)
    requires SameKind(x, y) && SameKind(y, z) && SameKind(x, z)
    ensures SameKind(y, x) && CompareValues(x, y) == -CompareValues(y, x)
    ensures CompareValues(x, y) == 0 <==> x == y
    ensures CompareValues(y, z) == 0 <==> y == z
    ensures CompareValues(x, y) < 0 && CompareValues(y, z) < 0 ==> CompareValues(x, z) < 0
    ensures CompareValues(x, y) > 0 && CompareValues(y, z) > 0 ==> CompareValues(x, z) > 0
  {
    ValueOrder(x, y, z);
    ValueOrder(y, z, x);
    ValueOrder(z, y, x);
    ValueOrder(z, x, y);
  }

  // ----- Sorting a list

  ghost predicate Typed(list: seq<Model>, sorts: seq<Sort>) {
    forall x, y :: x in list && y in list ==> Comparable(x, y, sorts)
  }

  /** No model comes before one that stands earlier. */
  ghost predicate Sorted(list: seq<Model>, sorts: seq<Sort>) {
    forall i, j :: 0 <= i < j < |list| ==> Ordered(list[i], list[j], sorts)
  }

  ghost predicate Ordered(x: Model, y: Model, sorts: seq<Sort>) {
    Comparable(y, x, sorts) && !Before(y, x, sorts)
  }

  /** Sorts by inserting; the library's sort may leave alike models in another order. */
  method Apply(list: seq<Model>, sorts: seq<Sort>) returns (sorted: seq<Model>)
    requires Typed(list, sorts)
    ensures multiset(sorted) == multiset(list)
    ensures sorts != [] ==> Sorted(sorted, sorts)
    ensures sorts == [] ==> sorted == list
  {
    if |list| < 2 || |sorts| == 0 {
      return list;
    }
    sorted := [];
    for i := 0 to |list|
      invariant multiset(sorted) == multiset(list[..i])
      invariant Sorted(sorted, sorts)
    {
      SameModels(sorted, list[..i]);
      assert list[..i + 1] == list[..i] + [list[i]];
      assert Fits(sorted, list[i], sorts) by {
        assert forall j :: 0 <= j < |sorted| ==> sorted[j] in list[..i];
      }
      sorted := Insert(sorted, list[i], sorts);
    }
    assert list[..|list|] == list;
  }

  lemma SameModels(a: seq<Model>, b: seq<Model>)
    requires multiset(a) == multiset(b)
    ensures forall x :: x in a <==> x in b
  {
    assert forall x :: x in a <==> x in multiset(a);
    assert forall x :: x in b <==> x in multiset(b);
  }

  /** The model can be compared with itself and with those of the list. */
  ghost predicate Fits(list: seq<Model>, m: Model, sorts: seq<Sort>) {
    Comparable(m, m, sorts) && forall i :: 0 <= i < |list| ==> Comparable(m, list[i], sorts)
  }

  method Insert(list: seq<Model>, m: Model, sorts: seq<Sort>) returns (longer: seq<Model>)
    requires Sorted(list, sorts) && Fits(list, m, sorts)
    ensures multiset(longer) == multiset(list) + multiset{m}
    ensures Sorted(longer, sorts)
  {
    var i := |list|;
    while i > 0
      invariant 0 <= i <= |list|
      invariant forall j :: i <= j < |list| ==> Before(m, list[j], sorts)
    {
      var before := CompareBySorts(m, list[i - 1], sorts);
      if !before {
        break;
      }
      i := i - 1;
    }
    longer := list[..i] + [m] + list[i..];
    Inserted(list, m, sorts, i);
  }

  lemma Symmetric(a: Model, b: Model, sorts: seq<Sort>)
    requires Comparable(a, b, sorts)
    ensures Comparable(b, a, sorts)
  {
  }

  lemma Inserted(list: seq<Model>, m: Model, sorts: seq<Sort>, i: nat)
    requires i <= |list| && Sorted(list, sorts) && Fits(list, m, sorts)
    requires forall j :: i <= j < |list| ==> Before(m, list[j], sorts)
    requires i > 0 ==> !Before(m, list[i - 1], sorts)
    ensures Sorted(list[..i] + [m] + list[i..], sorts)
    ensures multiset(list[..i] + [m] + list[i..]) == multiset(list) + multiset{m}
  {
    var longer := list[..i] + [m] + list[i..];
    InsertedContents(list, m, i);
    forall j, k | 0 <= j < k < |longer|
      ensures Ordered(longer[j], longer[k], sorts)
    {
      InsertedPair(list, m, sorts, i, j, k);
    }
  }

  function InsertedAt(list: seq<Model>, m: Model, i: nat, j: nat): Model
    requires i <= |list| && j <= |list|
  {
    if j < i then list[j] else if j == i then m else list[j - 1]
  }

  lemma InsertedContents(list: seq<Model>, m: Model, i: nat)
    requires i <= |list|
    ensures
      var longer := list[..i] + [m] + list[i..];
      && multiset(longer) == multiset(list) + multiset{m}
      && |longer| == |list| + 1 && forall j :: 0 <= j < |longer| ==> longer[j] == InsertedAt(list, m, i, j)
  {
    assert list == list[..i] + list[i..];
  }

  lemma InsertedPair(list: seq<Model>, m: Model, sorts: seq<Sort>, i: nat, j: nat, k: nat)
    requires i <= |list| && j < k <= |list| && Sorted(list, sorts) && Fits(list, m, sorts)
    requires forall j :: i <= j < |list| ==> Before(m, list[j], sorts)
    requires i > 0 ==> !Before(m, list[i - 1], sorts)
    ensures Ordered(InsertedAt(list, m, i, j), InsertedAt(list, m, i, k), sorts)
  {
    if k == i {
      AfterEarlier(list, m, sorts, i, j);
    } else if j == i {
      BeforeLater(list, m, sorts, k - 1);
    } else {
      assert Ordered(list[if j < i then j else j - 1], list[if k < i then k else k - 1], sorts);
    }
  }

  lemma AfterEarlier(list: seq<Model>, m: Model, sorts: seq<Sort>, i: nat, j: nat)
    requires j < i <= |list| && Sorted(list, sorts) && Fits(list, m, sorts) && !Before(m, list[i - 1], sorts)
    ensures !Before(m, list[j], sorts)
  {
    if j < i - 1 {
      assert Ordered(list[j], list[i - 1], sorts);
      Symmetric(list[i - 1], list[j], sorts);
      Symmetric(m, list[j], sorts);
      Symmetric(m, list[i - 1], sorts);
      NotBefore(list[j], list[i - 1], m, sorts);
    }
  }

  lemma BeforeLater(list: seq<Model>, m: Model, sorts: seq<Sort>, k: nat)
    requires k < |list| && Fits(list, m, sorts) && Before(m, list[k], sorts)
    ensures Comparable(list[k], m, sorts) && !Before(list[k], m, sorts)
  {
    Symmetric(m, list[k], sorts);
    StrictWeakOrder(m, list[k], m, sorts);
  }

  /** Not coming before an element of a sorted list is not coming before an earlier one. */
  lemma NotBefore(x: Model, y: Model, m: Model, sorts: seq<Sort>)
    requires Comparable(x, y, sorts) && Comparable(y, x, sorts) && Comparable(m, x, sorts) && Comparable(x, m, sorts)
    requires Comparable(m, y, sorts) && Comparable(y, m, sorts)
    requires !Before(y, x, sorts) && !Before(m, y, sorts)
    ensures !Before(m, x, sorts)
  {
    StrictWeakOrder(m, x, y, sorts);
    StrictWeakOrder(x, y, m, sorts);
    StrictWeakOrder(y, x, m, sorts);
  }

  // ----- Sorting the relations of a model

  datatype Structure = Structure(relations: seq<Relation>)

  datatype Relation = Relation(name: string, toMany: bool, sorts: seq<Sort>, structure: Structure)

  /** The relations come from the keys of a map. */
  ghost predicate WellNamed(s: Structure) {
    && (forall i, j :: 0 <= i < j < |s.relations| ==> s.relations[i].name != s.relations[j].name)
    && forall i :: 0 <= i < |s.relations| ==> WellNamed(s.relations[i].structure)
  }

  /** The models of a list that is sorted are of one type. */
  ghost predicate WellTyped(m: Model, s: Structure)
    decreases s
  {
    forall i :: 0 <= i < |s.relations| && s.relations[i].name in m.rels ==>
      ListTyped(m.rels[s.relations[i].name], s.relations[i])
  }

  ghost predicate ListTyped(list: seq<Model>, rel: Relation)
    decreases rel
  {
    && Typed(list, rel.sorts)
    && forall x :: x in list ==> WellTyped(x, rel.structure)
  }

  /** `now` is `was` with the relations of the structure sorted, at every depth. */
  ghost predicate SortedFrom(now: Model, was: Model, s: Structure)
    decreases s, 0
  {
    && now.fields == was.fields
    && now.rels.Keys == was.rels.Keys
    && (forall name :: name in was.rels && (forall i :: 0 <= i < |s.relations| ==> s.relations[i].name != name) ==>
          now.rels[name] == was.rels[name])
    && forall i :: 0 <= i < |s.relations| && s.relations[i].name in was.rels ==>
         ListFrom(now.rels[s.relations[i].name], was.rels[s.relations[i].name], s.relations[i])
  }

  /** A list that asks for it is in order; it holds the same models, their relations sorted. */
  ghost predicate ListFrom(now: seq<Model>, was: seq<Model>, rel: Relation)
    decreases rel, 1
  {
    && (rel.toMany && rel.sorts != [] ==> Sorted(now, rel.sorts))
    && exists order: seq<Model> :: IsOrder(order, was, rel) && EachFrom(now, order, rel)
  }

  ghost predicate IsOrder(order: seq<Model>, was: seq<Model>, rel: Relation) {
    if rel.toMany && rel.sorts != [] then multiset(order) == multiset(was) else order == was
  }

  ghost predicate EachFrom(now: seq<Model>, order: seq<Model>, rel: Relation)
    decreases rel, 0
  {
    |now| == |order| && forall i :: 0 <= i < |now| ==> SortedFrom(now[i], order[i], rel.structure)
  }

  lemma StillSorted(now: seq<Model>, order: seq<Model>, sorts: seq<Sort>)
    requires Sorted(order, sorts) && |now| == |order| && forall i :: 0 <= i < |now| ==> now[i].fields == order[i].fields
    ensures Sorted(now, sorts)
  {
    forall i, j | 0 <= i < j < |now|
      ensures Ordered(now[i], now[j], sorts)
    {
      assert Ordered(order[i], order[j], sorts);
      SameFields(order[j], order[i], now[j], now[i], sorts);
    }
  }

  lemma {:induction false} SameFields(a: Model, b: Model, c: Model, d: Model, sorts: seq<Sort>)
    requires Comparable(a, b, sorts) && a.fields == c.fields && b.fields == d.fields
    ensures Comparable(c, d, sorts) && Before(a, b, sorts) == Before(c, d, sorts)
  {
    if sorts == [] {
    } else {
      ComparableRest(a, b, sorts);
      SameFields(a, b, c, d, sorts[1..]);
    }
  }

  /** Sorts the to-many relations of a model by their configured sorts, and those below. */
  method SortRelations(m: Model, s: Structure) returns (sorted: Model)
    requires WellNamed(s) && WellTyped(m, s)
    ensures SortedFrom(sorted, m, s)
    decreases s, 1
  {
    var rels := m.rels;
    for i := 0 to |s.relations|
      invariant rels.Keys == m.rels.Keys
      invariant forall name :: name in m.rels && (forall j :: 0 <= j < i ==> s.relations[j].name != name) ==>
        rels[name] == m.rels[name]
      invariant forall j :: 0 <= j < i && s.relations[j].name in m.rels ==>
        ListFrom(rels[s.relations[j].name], m.rels[s.relations[j].name], s.relations[j])
    {
      var rel := s.relations[i];
      if rel.name in rels {
        assert rels[rel.name] == m.rels[rel.name];
        var list := SortRelation(rels[rel.name], rel);
        rels := rels[rel.name := list];
      }
    }
    sorted := Model(m.fields, rels);
  }

  method SortRelation(was: seq<Model>, rel: Relation) returns (now: seq<Model>)
    requires WellNamed(rel.structure) && ListTyped(was, rel)
    ensures ListFrom(now, was, rel)
    decreases rel, 0
  {
    var order := was;
    if rel.toMany && |rel.sorts| > 0 {
      order := Apply(was, rel.sorts);
      SameModels(order, was);
    }
    now := [];
    for i := 0 to |order|
      invariant |now| == i && forall j :: 0 <= j < i ==> SortedFrom(now[j], order[j], rel.structure)
    {
      assert order[i] in was;
      var m := SortRelations(order[i], rel.structure);
      now := now + [m];
    }
    assert IsOrder(order, was, rel) && EachFrom(now, order, rel);
    if rel.toMany && rel.sorts != [] {
      StillSorted(now, order, rel.sorts);
    }
  }

  /** The model that a route of relations and positions leads to, with its structure. */
  ghost predicate Reached(m: Model, s: Structure, route: seq<(nat, nat)>, x: Model, t: Structure)
    decreases |route|
  {
    if route == [] then x == m && t == s
    else
      var i, k := route[0].0, route[0].1;
      && i < |s.relations| && s.relations[i].name in m.rels && k < |m.rels[s.relations[i].name]|
      && Reached(m.rels[s.relations[i].name][k], s.relations[i].structure, route[1..], x, t)
  }

  /** However deep a model stands, its lists that ask for an order are in it. */
  lemma {:induction false} SortedAtEveryDepth(now: Model, was: Model, s: Structure, route: seq<(nat, nat)>, x: Model,
                                              t: Structure, i: nat)
    requires SortedFrom(now, was, s) && Reached(now, s, route, x, t)
    requires i < |t.relations| && t.relations[i].name in x.rels && t.relations[i].toMany && t.relations[i].sorts != []
    ensures Sorted(x.rels[t.relations[i].name], t.relations[i].sorts)
    decreases |route|
  {
    if route != [] {
      var rel, k := s.relations[route[0].0], route[0].1;
      assert ListFrom(now.rels[rel.name], was.rels[rel.name], rel);
      var order: seq<Model> :| IsOrder(order, was.rels[rel.name], rel) && EachFrom(now.rels[rel.name], order, rel);
      SortedAtEveryDepth(now.rels[rel.name][k], order[k], rel.structure, route[1..], x, t, i);
    }
  }
}
