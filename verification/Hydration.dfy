/** When decoding inverts flattening: exactly when no to-many relation with several models
    has its rows repeated by an earlier sibling relation. */
module Hydration {
  import opened Decoder
  import opened Folding
  import opened Flattening
  import opened Runs

  /** `o` decodes back to itself when its rows occur `n` times in a row. */
  predicate Exact(s: Structure, o: Obj, n: nat)
    decreases s, 1
  {
    ExactRels(s.relations, o.rels, n)
  }

  /** A relation's rows are repeated once for each row of the relations before it. */
  predicate ExactRels(rels: seq<Relation>, kids: seq<seq<Obj>>, n: nat)
    decreases rels, 0
  {
    rels == [] ||
    (ExactRel(rels[0], Head(kids), n) && ExactRels(rels[1..], Tail(kids), n * RowCountRel(rels[0], Head(kids))))
  }

  predicate ExactRel(r: Relation, kids: seq<Obj>, n: nat)
    decreases r, 2
  {
    (|kids| <= 1 || n == 1) && forall k :: k in kids ==> Exact(r.structure, k, n)
  }

  // ----- Rows with one key load one model

  lemma {:induction false} FoldRelSameKey(r: Relation, rows: seq<Row>, key: seq<Value>, cur: seq<Obj>)
    requires cur != [] && Rows(r.structure, rows) && !AllNull(key)
    requires forall x :: x in rows ==> RowKey(r.structure, x) == key
    requires !r.toMany || KeyOf(r.structure, Last(cur)) == key
    ensures FoldRel(r, rows, cur) == cur[..|cur| - 1] + [Fold(r.structure, rows, Last(cur))]
    ensures rows != [] ==> KeyOf(r.structure, Fold(r.structure, rows, Last(cur))) == key
    decreases |rows|
  {
    if rows == [] {
    } else {
      assert rows[0] in rows;
      LoadedKey(r.structure, rows[0], Last(cur));
      var next := LoadRel(r, rows[0], cur);
      assert next == Place(r, rows[0], cur);
      assert next[..|next| - 1] == cur[..|cur| - 1];
      FoldRelSameKey(r, rows[1..], key, next);
    }
  }

  lemma FoldRelNewKey(r: Relation, rows: seq<Row>, key: seq<Value>, cur: seq<Obj>)
    requires rows != [] && Rows(r.structure, rows) && !AllNull(key)
    requires forall x :: x in rows ==> RowKey(r.structure, x) == key
    requires cur == [] || (r.toMany && KeyOf(r.structure, Last(cur)) != key)
    ensures FoldRel(r, rows, cur) == cur + [Fold(r.structure, rows, Zero(r.structure))]
    ensures KeyOf(r.structure, Fold(r.structure, rows, Zero(r.structure))) == key
  {
    assert rows[0] in rows;
    LoadedKey(r.structure, rows[0], Zero(r.structure));
    var next := LoadRel(r, rows[0], cur);
    assert next == Place(r, rows[0], cur);
    assert next[..|next| - 1] == cur;
    FoldRelSameKey(r, rows[1..], key, next);
    if |rows| == 1 {
      assert rows[1..] == [];
    }
  }

  lemma {:induction false} FoldRelNulls(r: Relation, rows: seq<Row>, cur: seq<Obj>)
    requires forall x :: x in rows ==> AllNull(RowKey(r.structure, x))
    ensures FoldRel(r, rows, cur) == cur
    decreases |rows|
  {
    if rows != [] {
      assert rows[0] in rows;
      FoldRelNulls(r, rows[1..], cur);
    }
  }

  lemma {:induction false} FoldRelGrows(r: Relation, rows: seq<Row>, cur: seq<Obj>)
    ensures |FoldRel(r, rows, cur)| >= |cur|
    decreases |rows|
  {
    if rows != [] {
      assert |Place(r, rows[0], cur)| >= |cur|;
      FoldRelGrows(r, rows[1..], LoadRel(r, rows[0], cur));
    }
  }

  // ----- The rows of one model

  lemma {:induction false} SetFieldsPrefix(names: seq<string>, row: Row, rest: Row, m: map<string, Value>)
    requires |names| <= |row|
    ensures SetFields(names, row + rest, m) == SetFields(names, row, m)
  {
    if names != [] {
      SetFieldsPrefix(names[..|names| - 1], row, rest, m);
    }
  }

  lemma {:induction false} FoldOwn(s: Structure, own: Row, c: seq<Row>, o: Obj)
    requires c != [] && |own| == |Names(s)|
    requires forall i, j :: 0 <= i < |Names(s)| && 0 <= j < |Names(s)| && Names(s)[i] == Names(s)[j] ==>
      At(own, i) == At(own, j)
    ensures Fold(s, Prefixed(own, c), o) == Obj(SetFields(Names(s), own, o.cols), FoldRels(s.relations, c, o.rels))
    decreases |c|
  {
    var rows := Prefixed(own, c);
    SetFieldsPrefix(Names(s), own, c[0], o.cols);
    assert Drop(own + c[0], |own|) == c[0];
    var next := Load(s, rows[0], o);
    assert rows[1..] == Prefixed(own, c[1..]);
    if |c| > 1 {
      FoldOwn(s, own, c[1..], next);
      SetFieldsTwice(Names(s), own, o.cols);
    } else {
      assert rows[1..] == [] && c[1..] == [];
    }
  }

  lemma {:induction false} RepeatPrefixed(a: Row, c: seq<Row>, n: nat)
    ensures Repeat(Prefixed(a, c), n) == Prefixed(a, Repeat(c, n))
  {
    if n != 0 {
      RepeatPrefixed(a, c, n - 1);
    }
  }

  lemma OwnAgrees(s: Structure, o: Obj)
    ensures forall i, j :: 0 <= i < |Names(s)| && 0 <= j < |Names(s)| && Names(s)[i] == Names(s)[j] ==>
      At(Own(s, o), i) == At(Own(s, o), j)
  {
  }

  lemma SetOwn(s: Structure, o: Obj, m: map<string, Value>)
    requires o.cols.Keys == (set f | f in Names(s)) && m.Keys <= o.cols.Keys
    ensures SetFields(Names(s), Own(s, o), m) == o.cols
    ensures forall i, j :: 0 <= i < |Names(s)| && 0 <= j < |Names(s)| && Names(s)[i] == Names(s)[j] ==>
      At(Own(s, o), i) == At(Own(s, o), j)
  {
    OwnAgrees(s, o);
    SetFieldsAt(Names(s), Own(s, o), m);
    var cols := SetFields(Names(s), Own(s, o), m);
    assert cols.Keys == o.cols.Keys;
    forall f | f in cols
      ensures cols[f] == o.cols[f]
    {
      var i :| 0 <= i < |Names(s)| && Names(s)[i] == f;
    }
  }

  /** Loading a model's rows `n` times over sets its own columns and folds its relations' rows. */
  lemma FoldFlat(s: Structure, o: Obj, n: nat, start: Obj)
    requires Stored(s, o) && n >= 1 && start.cols.Keys <= o.cols.Keys
    ensures Fold(s, Repeat(Flat(s, o), n), start) ==
      Obj(o.cols, FoldRels(s.relations, Repeat(FlatRels(s.relations, o.rels), n), start.rels))
  {
    var own, c := Own(s, o), FlatRels(s.relations, o.rels);
    RepeatPrefixed(own, c, n);
    FlatRelsRows(s.relations, o.rels);
    assert Repeat(c, n) != [] by {
      assert Repeat(c, n) == c + Repeat(c, n - 1);
    }
    SetOwn(s, o, start.cols);
    FoldOwn(s, own, Repeat(c, n), start);
  }

  lemma FlatRepeatRows(s: Structure, o: Obj, n: nat)
    requires n >= 1
    ensures Repeat(Flat(s, o), n) != [] && Rows(s, Repeat(Flat(s, o), n))
    ensures forall x :: x in Repeat(Flat(s, o), n) ==> RowKey(s, x) == KeyOf(s, o)
  {
    FlatRows(s, o);
    RepeatLength(Flat(s, o), n);
    assert Repeat(Flat(s, o), n) == Flat(s, o) + Repeat(Flat(s, o), n - 1);
  }

  /** One step over a relation list: the first relation sees its own rows `n` times, the rest
      see theirs `n` times per row of the first. */
  lemma FoldRelsStep(rels: seq<Relation>, kids: seq<seq<Obj>>, n: nat, start: seq<seq<Obj>>)
    requires rels != [] && |kids| == |rels| == |start|
    ensures FoldRels(rels, Repeat(FlatRels(rels, kids), n), start)
         == [FoldRel(rels[0], Repeat(RelRows(rels[0], kids[0]), n), start[0])]
          + FoldRels(rels[1..], Repeat(FlatRels(rels[1..], kids[1..]), n * RowCountRel(rels[0], kids[0])), start[1..])
  {
    var a, c := RelRows(rels[0], kids[0]), FlatRels(rels[1..], kids[1..]);
    RelRowsRows(rels[0], kids[0]);
    RelRowsLength(rels[0], kids[0]);
    FlatRelsRows(rels[1..], kids[1..]);
    RepeatCross(a, c, n);
    RepeatLength(a, n);
    FoldCross(rels, Repeat(a, n), c, start);
  }

  lemma {:induction false} FoldNoRels(rows: seq<Row>)
    ensures FoldRels([], rows, []) == []
    decreases |rows|
  {
    if rows != [] {
      FoldNoRels(rows[1..]);
    }
  }

  // ----- Siblings

  function Decoded(s: Structure, kids: seq<Obj>): (got: seq<Obj>) {
    seq(|kids|, i requires 0 <= i < |kids| => Fold(s, Flat(s, kids[i]), Zero(s)))
  }

  lemma StoredTail(s: Structure, kids: seq<Obj>)
    requires StoredAll(s, kids) && kids != []
    ensures Stored(s, kids[0]) && StoredAll(s, kids[1..]) && !AllNull(KeyOf(s, kids[0]))
    ensures |kids| >= 2 ==> KeyOf(s, kids[0]) != KeyOf(s, kids[1])
  {
  }

  lemma FoldSibling(r: Relation, k: Obj, cur: seq<Obj>)
    requires !AllNull(KeyOf(r.structure, k))
    requires cur == [] || (r.toMany && KeyOf(r.structure, Last(cur)) != KeyOf(r.structure, k))
    ensures FoldRel(r, Flat(r.structure, k), cur) == cur + [Fold(r.structure, Flat(r.structure, k), Zero(r.structure))]
    ensures KeyOf(r.structure, Fold(r.structure, Flat(r.structure, k), Zero(r.structure))) == KeyOf(r.structure, k)
  {
    FlatRows(r.structure, k);
    FoldRelNewKey(r, Flat(r.structure, k), KeyOf(r.structure, k), cur);
  }

  lemma {:induction false} FoldSiblings(r: Relation, kids: seq<Obj>, cur: seq<Obj>)
    requires StoredAll(r.structure, kids)
    requires |kids| >= 2 ==> r.toMany
    requires kids != [] ==> cur == [] || (r.toMany && KeyOf(r.structure, Last(cur)) != KeyOf(r.structure, kids[0]))
    ensures FoldRel(r, FlatAll(r.structure, kids), cur) == cur + Decoded(r.structure, kids)
    decreases |kids|
  {
    if kids != [] {
      var s, k := r.structure, kids[0];
      StoredTail(s, kids);
      FoldSibling(r, k, cur);
      var first := Fold(s, Flat(s, k), Zero(s));
      var next := cur + [first];
      assert Last(next) == first;
      FoldRelConcat(r, Flat(s, k), FlatAll(s, kids[1..]), cur);
      FoldSiblings(r, kids[1..], next);
      DecodedSplit(s, kids);
      Regrouped(cur, first, Decoded(s, kids[1..]));
    } else {
      assert cur + Decoded(r.structure, kids) == cur;
    }
  }

  lemma DecodedSplit(s: Structure, kids: seq<Obj>)
    requires kids != []
    ensures Decoded(s, kids) == [Fold(s, Flat(s, kids[0]), Zero(s))] + Decoded(s, kids[1..])
  {
  }

  lemma DecodedKey(r: Relation, k: Obj)
    requires !AllNull(KeyOf(r.structure, k))
    ensures KeyOf(r.structure, Fold(r.structure, Flat(r.structure, k), Zero(r.structure))) == KeyOf(r.structure, k)
  {
    FoldSibling(r, k, []);
  }

  // ----- The characterisation

  lemma {:induction false} HydrateModel(s: Structure, o: Obj, n: nat)
    requires Stored(s, o) && n >= 1
    ensures Fold(s, Repeat(Flat(s, o), n), Zero(s)) == o <==> Exact(s, o, n)
    decreases s, 1
  {
    FoldFlat(s, o, n, Zero(s));
    HydrateRels(s.relations, o.rels, n);
  }

  lemma SameSplit<T>(x: T, xs: seq<T>, all: seq<T>)
    requires all != []
    ensures [x] + xs == all <==> x == all[0] && xs == all[1..]
  {
    assert all == [all[0]] + all[1..];
    assert ([x] + xs)[1..] == xs;
  }

  lemma RepeatCount(r: Relation, kids: seq<Obj>, n: nat) returns (m: nat)
    requires n >= 1
    ensures m == n * RowCountRel(r, kids) && m >= 1
  {
    RelRowsRows(r, kids);
    RelRowsLength(r, kids);
    m := n * RowCountRel(r, kids);
  }

  lemma {:induction false} HydrateRels(rels: seq<Relation>, kids: seq<seq<Obj>>, n: nat)
    requires StoredRels(rels, kids) && n >= 1
    ensures FoldRels(rels, Repeat(FlatRels(rels, kids), n), seq(|rels|, _ => [])) == kids <==> ExactRels(rels, kids, n)
    decreases rels, 0
  {
    var start: seq<seq<Obj>> := seq(|rels|, _ => []);
    if rels == [] {
      assert start == [];
      FoldNoRels(Repeat(FlatRels(rels, kids), n));
    } else {
      assert start[1..] == seq(|rels[1..]|, _ => []);
      FoldRelsStep(rels, kids, n, start);
      HydrateRel(rels[0], kids[0], n);
      var m := RepeatCount(rels[0], kids[0], n);
      HydrateRels(rels[1..], kids[1..], m);
      SameSplit(FoldRel(rels[0], Repeat(RelRows(rels[0], kids[0]), n), []),
                FoldRels(rels[1..], Repeat(FlatRels(rels[1..], kids[1..]), m), start[1..]), kids);
    }
  }

  lemma {:induction false} HydrateRel(r: Relation, kids: seq<Obj>, n: nat)
    requires StoredRel(r, kids) && n >= 1
    ensures FoldRel(r, Repeat(RelRows(r, kids), n), []) == kids <==> ExactRel(r, kids, n)
    decreases r, 2
  {
    var s := r.structure;
    if kids == [] {
      RepeatLength(RelRows(r, kids), n);
      FoldRelNulls(r, Repeat(RelRows(r, kids), n), []);
    } else if |kids| == 1 {
      assert kids == [kids[0]];
      FoldOnly(r, kids[0], n);
      HydrateModel(s, kids[0], n);
    } else if n == 1 {
      assert Repeat(FlatAll(s, kids), 1) == FlatAll(s, kids);
      FoldSiblings(r, kids, []);
      assert [] + Decoded(s, kids) == Decoded(s, kids);
      HydrateAll(s, kids);
    } else {
      HydrateRepeated(r, kids, n);
    }
  }

  lemma FoldOnly(r: Relation, k: Obj, n: nat)
    requires StoredRel(r, [k]) && n >= 1
    ensures FoldRel(r, Repeat(RelRows(r, [k]), n), []) ==
      [Fold(r.structure, Repeat(Flat(r.structure, k), n), Zero(r.structure))]
    ensures Stored(r.structure, k)
  {
    var s := r.structure;
    StoredTail(s, [k]);
    assert FlatAll(s, [k]) == Flat(s, k) + [] == Flat(s, k);
    FlatRepeatRows(s, k, n);
    FoldRelNewKey(r, Repeat(Flat(s, k), n), KeyOf(s, k), []);
  }

  lemma {:induction false} HydrateAll(s: Structure, kids: seq<Obj>)
    requires StoredAll(s, kids)
    ensures Decoded(s, kids) == kids <==> forall k :: k in kids ==> Exact(s, k, 1)
    decreases s, 2
  {
    forall i | 0 <= i < |kids|
      ensures Decoded(s, kids)[i] == kids[i] <==> Exact(s, kids[i], 1)
    {
      assert Repeat(Flat(s, kids[i]), 1) == Flat(s, kids[i]);
      HydrateModel(s, kids[i], 1);
    }
    if forall k :: k in kids ==> Exact(s, k, 1) {
      assert forall i :: 0 <= i < |kids| ==> Exact(s, kids[i], 1);
    }
  }

  /** Several siblings repeated decode to more models than there are. */
  lemma HydrateRepeated(r: Relation, kids: seq<Obj>, n: nat)
    requires StoredRel(r, kids) && n >= 2 && |kids| >= 2
    ensures |FoldRel(r, Repeat(RelRows(r, kids), n), [])| > |kids|
  {
    var a := FlatAll(r.structure, kids);
    assert Repeat(a, n) == a + (a + Repeat(a, n - 2));
    FoldRelConcat(r, a, a + Repeat(a, n - 2), []);
    FoldRelConcat(r, a, Repeat(a, n - 2), FoldRel(r, a, []));
    FoldRelGrows(r, Repeat(a, n - 2), FoldRel(r, a, FoldRel(r, a, [])));
    FoldSiblingsTwice(r, kids);
  }

  lemma FoldSiblingsTwice(r: Relation, kids: seq<Obj>)
    requires StoredRel(r, kids) && |kids| >= 2
    ensures |FoldRel(r, FlatAll(r.structure, kids), FoldRel(r, FlatAll(r.structure, kids), []))| == 2 * |kids|
  {
    var s := r.structure;
    var once := Decoded(s, kids);
    FoldSiblings(r, kids, []);
    assert [] + once == once;
    StoredLast(s, kids);
    LastDecoded(r, kids);
    FoldSiblings(r, kids, once);
  }

  lemma LastDecoded(r: Relation, kids: seq<Obj>)
    requires kids != [] && !AllNull(KeyOf(r.structure, Last(kids)))
    ensures KeyOf(r.structure, Last(Decoded(r.structure, kids))) == KeyOf(r.structure, Last(kids))
  {
    DecodedKey(r, Last(kids));
    assert Last(Decoded(r.structure, kids)) == Fold(r.structure, Flat(r.structure, Last(kids)), Zero(r.structure));
  }

  lemma StoredLast(s: Structure, kids: seq<Obj>)
    requires StoredAll(s, kids) && |kids| >= 2
    ensures !AllNull(KeyOf(s, Last(kids))) && KeyOf(s, Last(kids)) != KeyOf(s, kids[0])
  {
    assert Stored(s, Last(kids));
  }

  // ----- The whole result

  lemma {:induction false} DecodeIsFold(s: Structure, rows: seq<Row>, list: seq<Obj>)
    requires forall x :: x in rows ==> !AllNull(RowKey(s, x))
    ensures Decode(s, rows, list) == FoldRel(Relation("", true, s), rows, list)
    decreases |rows|
  {
    if rows != [] {
      assert rows[0] in rows;
      DecodeIsFold(s, rows[1..], Place(Relation("", true, s), rows[0], list));
    }
  }

  lemma {:induction false} FlatAllKeys(s: Structure, forest: seq<Obj>)
    requires forall o :: o in forest ==> Stored(s, o)
    ensures forall x :: x in FlatAll(s, forest) ==> !AllNull(RowKey(s, x))
    decreases |forest|
  {
    if forest != [] {
      assert Stored(s, forest[0]);
      FlatRows(s, forest[0]);
      FlatAllKeys(s, forest[1..]);
    }
  }

  /** Decoding the rows of a forest yields one model per root, each decoded from its own rows. */
  lemma DecodeForest(s: Structure, forest: seq<Obj>)
    requires StoredAll(s, forest)
    ensures Decode(s, FlatAll(s, forest), []) == Decoded(s, forest)
  {
    FlatAllKeys(s, forest);
    DecodeIsFold(s, FlatAll(s, forest), []);
    FoldSiblings(Relation("", true, s), forest, []);
    assert [] + Decoded(s, forest) == Decoded(s, forest);
  }

  /** Decoding inverts flattening if and only if every model is exact. */
  lemma HydrationExactlyWhen(s: Structure, forest: seq<Obj>)
    requires StoredAll(s, forest)
    ensures Decode(s, FlatAll(s, forest), []) == forest <==> forall o :: o in forest ==> Exact(s, o, 1)
  {
    DecodeForest(s, forest);
    HydrateAll(s, forest);
  }

  // ----- Roots that come several times

  /** Models as the database holds them, no two next to each other with the same key. One whose rows
      come back after another's, as under a sort by a to-many path, stands in the list again. */
  predicate StoredRuns(s: Structure, forest: seq<Obj>) {
    && (forall o :: o in forest ==> Stored(s, o))
    && forall i :: 0 < i < |forest| ==> KeyOf(s, forest[i - 1]) != KeyOf(s, forest[i])
  }

  lemma StoredRunsTail(s: Structure, forest: seq<Obj>)
    requires StoredRuns(s, forest) && forest != []
    ensures StoredRuns(s, forest[1..]) && Stored(s, forest[0]) && !AllNull(KeyOf(s, forest[0]))
    ensures |forest| > 1 ==> KeyOf(s, forest[0]) != KeyOf(s, forest[1])
  {
    var rest := forest[1..];
    forall i | 0 < i < |rest|
      ensures KeyOf(s, rest[i - 1]) != KeyOf(s, rest[i])
    {
      assert KeyOf(s, forest[i]) != KeyOf(s, forest[i + 1]);
    }
    assert |forest| > 1 ==> KeyOf(s, forest[1 - 1]) != KeyOf(s, forest[1]);
  }

  /** The rows of a forest where the i-th root's rows come `times[i]` times in a row, as when the
      query for the roots joins a to-many relation for its condition. */
  function RepeatedRows(s: Structure, forest: seq<Obj>, times: seq<nat>): seq<Row>
    requires |forest| == |times|
    decreases |forest|
  {
    if forest == [] then [] else Repeat(Flat(s, forest[0]), times[0]) + RepeatedRows(s, forest[1..], times[1..])
  }

  function RepeatedDecoded(s: Structure, forest: seq<Obj>, times: seq<nat>): seq<Obj>
    requires |forest| == |times|
  {
    seq(|forest|, i requires 0 <= i < |forest| => Fold(s, Repeat(Flat(s, forest[i]), times[i]), Zero(s)))
  }

  lemma {:induction false} FoldRepeated(s: Structure, forest: seq<Obj>, times: seq<nat>, cur: seq<Obj>)
    requires StoredRuns(s, forest) && |forest| == |times| && forall i :: 0 <= i < |times| ==> times[i] >= 1
    requires forest != [] ==> cur == [] || KeyOf(s, Last(cur)) != KeyOf(s, forest[0])
    ensures FoldRel(Relation("", true, s), RepeatedRows(s, forest, times), cur) == cur +
      RepeatedDecoded(s, forest, times)
    decreases |forest|
  {
    var r := Relation("", true, s);
    if forest == [] {
      assert cur + RepeatedDecoded(s, forest, times) == cur;
    } else {
      StoredRunsTail(s, forest);
      var first := FoldRepeatedSibling(s, forest[0], times[0], cur);
      var next := cur + [first];
      assert Last(next) == first;
      FoldRelConcat(r, Repeat(Flat(s, forest[0]), times[0]), RepeatedRows(s, forest[1..], times[1..]), cur);
      FoldRepeated(s, forest[1..], times[1..], next);
      RepeatedSplit(s, forest, times);
      Regrouped(cur, first, RepeatedDecoded(s, forest[1..], times[1..]));
    }
  }

  lemma FoldRepeatedSibling(s: Structure, k: Obj, n: nat, cur: seq<Obj>) returns (first: Obj)
    requires n >= 1 && !AllNull(KeyOf(s, k)) && (cur == [] || KeyOf(s, Last(cur)) != KeyOf(s, k))
    ensures first == Fold(s, Repeat(Flat(s, k), n), Zero(s)) && KeyOf(s, first) == KeyOf(s, k)
    ensures FoldRel(Relation("", true, s), Repeat(Flat(s, k), n), cur) == cur + [first]
  {
    first := Fold(s, Repeat(Flat(s, k), n), Zero(s));
    FlatRepeatRows(s, k, n);
    FoldRelNewKey(Relation("", true, s), Repeat(Flat(s, k), n), KeyOf(s, k), cur);
  }

  lemma RepeatedSplit(s: Structure, forest: seq<Obj>, times: seq<nat>)
    requires |forest| == |times| && forest != []
    ensures
      RepeatedDecoded(s, forest, times) ==
        [Fold(s, Repeat(Flat(s, forest[0]), times[0]), Zero(s))] + RepeatedDecoded(s, forest[1..], times[1..])
  {
  }

  lemma Regrouped(cur: seq<Obj>, first: Obj, rest: seq<Obj>)
    ensures (cur + [first]) + rest == cur + ([first] + rest)
  {
  }

  lemma {:induction false} RepeatedKeys(s: Structure, forest: seq<Obj>, times: seq<nat>)
    requires |forest| == |times| && forall o :: o in forest ==> Stored(s, o)
    ensures forall x :: x in RepeatedRows(s, forest, times) ==> !AllNull(RowKey(s, x))
    decreases |forest|
  {
    if forest != [] {
      assert Stored(s, forest[0]);
      FlatRows(s, forest[0]);
      RepeatLength(Flat(s, forest[0]), times[0]);
      RepeatedKeys(s, forest[1..], times[1..]);
    }
  }

  /** However often and in whatever order the roots come, there is one model for each run of rows. */
  lemma DecodeRepeated(s: Structure, forest: seq<Obj>, times: seq<nat>)
    requires StoredRuns(s, forest) && |forest| == |times| && forall i :: 0 <= i < |times| ==> times[i] >= 1
    ensures Decode(s, RepeatedRows(s, forest, times), []) == RepeatedDecoded(s, forest, times)
  {
    RepeatedKeys(s, forest, times);
    DecodeIsFold(s, RepeatedRows(s, forest, times), []);
    FoldRepeated(s, forest, times, []);
    assert [] + RepeatedDecoded(s, forest, times) == RepeatedDecoded(s, forest, times);
  }

  /** Decoding inverts flattening if and only if every root is exact for its own number of times. */
  lemma RepeatedHydrationExactlyWhen(s: Structure, forest: seq<Obj>, times: seq<nat>)
    requires StoredRuns(s, forest) && |forest| == |times| && forall i :: 0 <= i < |times| ==> times[i] >= 1
    ensures Decode(s, RepeatedRows(s, forest, times), []) == forest <==>
      forall i :: 0 <= i < |forest| ==> Exact(s, forest[i], times[i])
  {
    DecodeRepeated(s, forest, times);
    var decoded := RepeatedDecoded(s, forest, times);
    forall i | 0 <= i < |forest|
      ensures decoded[i] == forest[i] <==> Exact(s, forest[i], times[i])
    {
      HydrateModel(s, forest[i], times[i]);
    }
  }

  // ----- The rows of the inner query

  /** A key belongs to one row of the database. */
  predicate OneByKey(s: Structure, roots: seq<Obj>) {
    && (forall o :: o in roots ==> Stored(s, o))
    && forall i, j :: 0 <= i < |roots| && 0 <= j < |roots| && KeyOf(s, roots[i]) == KeyOf(s, roots[j]) ==>
      roots[i] == roots[j]
  }

  lemma {:induction false} RowsOfRuns(s: Structure, roots: seq<Obj>)
    ensures FlatAll(s, roots) == RepeatedRows(s, Collapsed(roots), Lengths(roots))
    decreases |roots|
  {
    if roots != [] {
      var rest, rows := roots[1..], Flat(s, roots[0]);
      RowsOfRuns(s, rest);
      if |roots| > 1 && roots[0] == roots[1] {
        var n, more := Lengths(rest)[0], RepeatedRows(s, Collapsed(rest)[1..], Lengths(rest)[1..]);
        assert rows + (Repeat(rows, n) + more) == Repeat(rows, n + 1) + more;
      } else {
        assert Repeat(rows, 1) == rows;
        assert Collapsed(roots)[1..] == Collapsed(rest) && Lengths(roots)[1..] == Lengths(rest);
      }
    }
  }

  lemma CollapsedStored(s: Structure, roots: seq<Obj>)
    requires OneByKey(s, roots)
    ensures StoredRuns(s, Collapsed(roots))
  {
    var runs := Collapsed(roots);
    CollapsedNoRepeat(roots);
    forall i | 0 < i < |runs|
      ensures KeyOf(s, runs[i - 1]) != KeyOf(s, runs[i])
    {
      assert runs[i - 1] in roots && runs[i] in roots;
    }
  }

  /** A query whose inner rows are of the given roots, one after another: a find makes one model of
      each run of them, and these are the roots of the runs if and only if each is exact for the
      length of its run. */
  lemma FoundExactlyWhen(s: Structure, roots: seq<Obj>)
    requires OneByKey(s, roots)
    ensures Decode(s, FlatAll(s, roots), []) == RepeatedDecoded(s, Collapsed(roots), Lengths(roots))
    ensures |Decode(s, FlatAll(s, roots), [])| == |Collapsed(roots)|
    ensures Decode(s, FlatAll(s, roots), []) == Collapsed(roots) <==>
      forall i :: 0 <= i < |Collapsed(roots)| ==> Exact(s, Collapsed(roots)[i], Lengths(roots)[i])
  {
    RowsOfRuns(s, roots);
    CollapsedStored(s, roots);
    DecodeRepeated(s, Collapsed(roots), Lengths(roots));
    RepeatedHydrationExactlyWhen(s, Collapsed(roots), Lengths(roots));
  }

  /** A root whose rows come back after another's is found twice. */
  lemma ComesBack(s: Structure, a: Obj, b: Obj)
    requires Stored(s, a) && Stored(s, b) && KeyOf(s, a) != KeyOf(s, b)
    ensures |Decode(s, FlatAll(s, [a, b, a]), [])| == 3
    ensures Decode(s, FlatAll(s, [a, b, a]), []) == [a, b, a] <==> Exact(s, a, 1) && Exact(s, b, 1)
  {
    var roots := [a, b, a];
    ThreeRuns(a, b);
    FoundExactlyWhen(s, roots);
    assert roots[0] == a && roots[1] == b;
  }
}
