/** Getting models by key: each model is looked up by its first populated key, models with the same
    kind of key in one query, and the rows found are only counted against the models given. */
module Getting {
  import opened Lookups
  import opened Options
  import opened Repositories
  import opened Writes
  import Finding
  import Sql

  predicate NoDup<T(==)>(s: seq<T>) {
    forall i, j :: 0 <= i < j < |s| ==> s[i] != s[j]
  }

  /** The rows that some of the keys name. */
  function Matching(t: Table, fields: seq<string>, keys: seq<seq<int>>): set<int> {
    set id | id in t && Values(t[id], fields) in keys
  }

  ghost predicate AllPopulated(keys: seq<seq<int>>) {
    forall key :: key in keys ==> Populated(key)
  }

  lemma OneRow(t: Table, fields: seq<string>, a: int, b: int)
    requires KeyUnique(t, fields) && a in t && b in t && Values(t[a], fields) == Values(t[b], fields) &&
      Populated(Values(t[a], fields))
    ensures a == b
  {
    assert HasValues(t[a], fields);
  }

  ghost predicate HasRow(t: Table, fields: seq<string>, key: seq<int>) {
    exists id :: id in t && Values(t[id], fields) == key
  }

  /** As many rows as keys are named exactly when no key is repeated and every key has a row. */
  lemma {:induction false} AllNamedExactlyWhen(t: Table, fields: seq<string>, keys: seq<seq<int>>)
    requires KeyUnique(t, fields) && AllPopulated(keys)
    ensures |Matching(t, fields, keys)| <= |keys|
    ensures |Matching(t, fields, keys)| == |keys| <==>
      NoDup(keys) && forall i :: 0 <= i < |keys| ==> HasRow(t, fields, keys[i])
  {
    if keys == [] {
      assert Matching(t, fields, keys) == {};
    } else {
      var n := |keys| - 1;
      var init, key := keys[..n], keys[n];
      AllNamedExactlyWhen(t, fields, init);
      assert keys == init + [key];
      if key in init {
        assert Matching(t, fields, keys) == Matching(t, fields, init);
        var i :| 0 <= i < n && init[i] == key;
        assert keys[i] == keys[n];
      } else {
        NamedByOneMore(t, fields, init, key);
        assert NoDup(keys) <==> NoDup(init);
        assert forall i :: 0 <= i < n ==> init[i] == keys[i];
      }
    }
  }

  lemma NamedByOneMore(t: Table, fields: seq<string>, init: seq<seq<int>>, key: seq<int>)
    requires KeyUnique(t, fields) && key !in init && Populated(key)
    ensures |Matching(t, fields, init + [key])| == |Matching(t, fields, init)| + if HasRow(t, fields, key) then 1 else 0
  {
    forall a | a in t
      ensures a in Matching(t, fields, init + [key]) <==> a in Matching(t, fields, init) || Values(t[a], fields) == key
    {
      InAppend(init, key, Values(t[a], fields));
    }
    if HasRow(t, fields, key) {
      var id :| id in t && Values(t[id], fields) == key;
      forall a | a in t && Values(t[a], fields) == key
        ensures a == id
      {
        OneRow(t, fields, a, id);
      }
      assert Matching(t, fields, init + [key]) == Matching(t, fields, init) + {id};
    } else {
      assert forall a :: a in t ==> Values(t[a], fields) != key;
      assert Matching(t, fields, init + [key]) == Matching(t, fields, init);
    }
  }

  lemma InAppend<T>(s: seq<T>, x: T, y: T)
    ensures y in s + [x] <==> y in s || y == x
  {
  }

  // ----- Grouping

  /** The keys of one kind, in the order of the models, and the model each was taken from last. */
  datatype Group = Group(keys: seq<seq<int>>, objects: map<seq<int>, Model>)

  /** The keys with the given fields. */
  function KeysIn(lookups: seq<Lookup>, group: seq<string>): seq<seq<int>> {
    if lookups == [] then []
    else
      var last := lookups[|lookups| - 1];
      KeysIn(lookups[..|lookups| - 1], group) + if last.group == group then [last.values] else []
  }

  lemma {:induction false} KeysInHas(lookups: seq<Lookup>, group: seq<string>, i: nat)
    requires i < |lookups| && lookups[i].group == group
    ensures lookups[i].values in KeysIn(lookups, group)
    ensures NoDup(KeysIn(lookups, group)) ==> forall j :: 0 <= j < |lookups| && j != i ==> lookups[j] != lookups[i]
  {
    var n := |lookups| - 1;
    var init := lookups[..n];
    if i < n {
      KeysInHas(init, group, i);
      var k :| 0 <= k < |KeysIn(init, group)| && KeysIn(init, group)[k] == lookups[i].values;
      if lookups[n] == lookups[i] {
        assert KeysIn(lookups, group)[k] == KeysIn(lookups, group)[|KeysIn(init, group)|];
      }
      assert forall j :: 0 <= j < n ==> init[j] == lookups[j];
      NoDupInit(KeysIn(init, group), KeysIn(lookups, group));
    } else {
      if j :| 0 <= j < n && lookups[j] == lookups[n] {
        KeysInHas(init, group, j);
        var k :| 0 <= k < |KeysIn(init, group)| && KeysIn(init, group)[k] == lookups[n].values;
        assert KeysIn(lookups, group)[k] == KeysIn(lookups, group)[|KeysIn(init, group)|];
      }
    }
  }

  lemma NoDupInit<T>(init: seq<T>, s: seq<T>)
    requires init <= s
    ensures NoDup(s) ==> NoDup(init)
  {
    assert forall i :: 0 <= i < |init| ==> init[i] == s[i];
  }

  /** How many keys a list of groups has. */
  function Sum(order: seq<seq<string>>, groups: map<seq<string>, Group>): nat {
    if order == [] then 0
    else (if order[0] in groups then |groups[order[0]].keys| else 0) + Sum(order[1..], groups)
  }

  lemma {:induction false} SumWithout(order: seq<seq<string>>, groups: map<seq<string>, Group>, i: nat)
    requires i < |order| && order[i] in groups
    ensures Sum(order, groups) == |groups[order[i]].keys| + Sum(order[..i] + order[i + 1..], groups)
  {
    if i == 0 {
      assert order[..0] + order[1..] == order[1..];
    } else {
      SumWithout(order[1..], groups, i - 1);
      var less := order[..i] + order[i + 1..];
      assert less[1..] == order[1..][..i - 1] + order[1..][i..];
    }
  }

  lemma {:induction false} SumOfOthers(order: seq<seq<string>>, before: map<seq<string>, Group>,
                                       after: map<seq<string>, Group>)
    requires forall g :: g in order ==> g in before && g in after && before[g].keys == after[g].keys
    ensures Sum(order, before) == Sum(order, after)
  {
    if order == [] {
    } else {
      SumOfOthers(order[1..], before, after);
    }
  }

  /** The groups hold every model's key, and of each kind of key the models' own. */
  ghost predicate Grouped(objs: seq<Model>, lookups: seq<Lookup>, order: seq<seq<string>>,
                          groups: map<seq<string>, Group>) {
    && |lookups| <= |objs|
    && Listed(order, groups) && Sum(order, groups) == |lookups|
    && (forall i :: 0 <= i < |lookups| ==> lookups[i].group in groups)
    && forall g :: g in groups ==> groups[g].keys != [] && GroupHolds(objs, lookups, g, groups[g])
  }

  ghost predicate Listed(order: seq<seq<string>>, groups: map<seq<string>, Group>) {
    NoDup(order) && forall g :: g in order <==> g in groups
  }

  ghost predicate GroupHolds(objs: seq<Model>, lookups: seq<Lookup>, g: seq<string>, group: Group)
    requires |lookups| <= |objs|
  {
    && group.keys == KeysIn(lookups, g)
    && (forall v :: v in group.keys <==> v in group.objects)
    && forall v :: v in group.objects ==> Takes(objs, lookups, g, v, group.objects[v])
  }

  ghost predicate Takes(objs: seq<Model>, lookups: seq<Lookup>, g: seq<string>, v: seq<int>, o: Model)
    requires |lookups| <= |objs|
  {
    exists i :: 0 <= i < |lookups| && objs[i] == o && lookups[i] == Lookup(g, v)
  }

  /** One more model joins the group of its key. */
  function Joined(groups: map<seq<string>, Group>, key: Lookup, o: Model): map<seq<string>, Group> {
    var group := if key.group in groups then groups[key.group] else Group([], map[]);
    groups[key.group := Group(group.keys + [key.values], group.objects[key.values := o])]
  }

  lemma JoinedGrouped(objs: seq<Model>, lookups: seq<Lookup>, order: seq<seq<string>>, groups: map<seq<string>, Group>,
                      key: Lookup)
    requires Grouped(objs, lookups, order, groups) && |lookups| < |objs|
    ensures
      var order' := if key.group in groups then order else order + [key.group];
      Grouped(objs, lookups + [key], order', Joined(groups, key, objs[|lookups|]))
  {
    var groups' := Joined(groups, key, objs[|lookups|]);
    if key.group !in groups {
      NoKeysOfOthers(lookups, groups, key.group);
    }
    forall h | h in groups'
      ensures groups'[h].keys != [] && GroupHolds(objs, lookups + [key], h, groups'[h])
    {
      var group := if h in groups then groups[h] else Group([], map[]);
      assert GroupHolds(objs, lookups, h, group);
      JoinedHolds(objs, lookups, h, group, key);
    }
    ListedJoined(order, groups, key, objs[|lookups|]);
    SumJoined(order, groups, key, objs[|lookups|]);
  }

  lemma ListedJoined(order: seq<seq<string>>, groups: map<seq<string>, Group>, key: Lookup, o: Model)
    requires Listed(order, groups)
    ensures Listed(if key.group in groups then order else order + [key.group], Joined(groups, key, o))
  {
  }

  lemma JoinedHolds(objs: seq<Model>, lookups: seq<Lookup>, h: seq<string>, group: Group, key: Lookup)
    requires |lookups| < |objs| && GroupHolds(objs, lookups, h, group)
    ensures
      var joined := if h == key.group then
        Group(group.keys + [key.values], group.objects[key.values := objs[|lookups|]]) else group;
      GroupHolds(objs, lookups + [key], h, joined)
  {
    var n, more := |lookups|, lookups + [key];
    var joined := if h == key.group then Group(group.keys + [key.values], group.objects[key.values := objs[n]])
      else group;
    assert more[..n] == lookups;
    forall v | v in joined.objects
      ensures Takes(objs, more, h, v, joined.objects[v])
    {
      if h == key.group && v == key.values {
        assert more[n] == Lookup(h, v);
      } else {
        assert Takes(objs, lookups, h, v, group.objects[v]);
        var i :| 0 <= i < n && objs[i] == group.objects[v] && lookups[i] == Lookup(h, v);
        assert more[i] == Lookup(h, v);
      }
    }
  }

  lemma {:induction false} NoKeysOfOthers(lookups: seq<Lookup>, groups: map<seq<string>, Group>, g: seq<string>)
    requires g !in groups && forall i :: 0 <= i < |lookups| ==> lookups[i].group in groups
    ensures KeysIn(lookups, g) == []
  {
    if lookups == [] {
    } else {
      NoKeysOfOthers(lookups[..|lookups| - 1], groups, g);
    }
  }

  lemma SumJoined(order: seq<seq<string>>, groups: map<seq<string>, Group>, key: Lookup, o: Model)
    requires Listed(order, groups)
    ensures
      var order' := if key.group in groups then order else order + [key.group];
      Sum(order', Joined(groups, key, o)) == Sum(order, groups) + 1
  {
    var g, groups' := key.group, Joined(groups, key, o);
    var order' := if g in groups then order else order + [g];
    var i :| 0 <= i < |order'| && order'[i] == g;
    var less := order'[..i] + order'[i + 1..];
    SumWithout(order', groups', i);
    SumOfOthers(less, groups, groups');
    if g in groups {
      SumWithout(order, groups, i);
    } else {
      assert i == |order|;
      assert less == order;
    }
  }

  method Join(order: seq<seq<string>>, groups: map<seq<string>, Group>, key: Lookup, o: Model)
    returns (order': seq<seq<string>>, groups': map<seq<string>, Group>)
    ensures order' == if key.group in groups then order else order + [key.group]
    ensures groups' == Joined(groups, key, o)
  {
    order', groups' := order, groups;
    if key.group !in groups {
      order', groups' := order + [key.group], groups[key.group := Group([], map[])];
    }
    var group := groups'[key.group];
    groups' := groups'[key.group := Group(group.keys + [key.values], group.objects[key.values := o])];
  }

  /** Adds the next model to the group of its key. */
  method JoinNext(objs: seq<Model>, ghost lookups: seq<Lookup>, order: seq<seq<string>>,
                  groups: map<seq<string>, Group>, key: Lookup, o: Model)
    returns (order': seq<seq<string>>, groups': map<seq<string>, Group>)
    requires Grouped(objs, lookups, order, groups) && |lookups| < |objs| && o == objs[|lookups|]
    ensures Grouped(objs, lookups + [key], order', groups')
  {
    JoinedGrouped(objs, lookups, order, groups, key);
    order', groups' := Join(order, groups, key, o);
  }

  /** The models' keys are the ones the groups were made from. */
  ghost predicate KeyedBy(keys: seq<seq<string>>, rows: seq<Row>, lookups: seq<Lookup>) {
    |rows| == |lookups| && forall i :: 0 <= i < |rows| ==> FirstPopulated(rows[i], keys) == Some(lookups[i])
  }

  lemma KeyedNext(keys: seq<seq<string>>, rows: seq<Row>, lookups: seq<Lookup>, key: Lookup)
    requires |lookups| < |rows| && KeyedBy(keys, rows[..|lookups|], lookups) &&
      FirstPopulated(rows[|lookups|], keys) == Some(key)
    ensures KeyedBy(keys, rows[..|lookups| + 1], lookups + [key])
  {
    var next := rows[..|lookups| + 1];
    forall i | 0 <= i < |next|
      ensures FirstPopulated(next[i], keys) == Some((lookups + [key])[i])
    {
      assert i < |lookups| ==> next[i] == rows[..|lookups|][i];
    }
  }

  /** Groups the models by key; fails at the first that has none. */
  method GroupAll(objs: seq<Model>, keys: seq<seq<string>>)
    returns (ok: bool, order: seq<seq<string>>, groups: map<seq<string>, Group>, ghost lookups: seq<Lookup>)
    ensures !ok ==> exists i :: 0 <= i < |objs| && FirstPopulated(objs[i].fields, keys) == None
    ensures ok ==>
      |lookups| == |objs| && Grouped(objs, lookups, order, groups) && KeyedBy(keys, Snapshot(objs), lookups)
  {
    ghost var rows := Snapshot(objs);
    ok, order, groups, lookups := true, [], map[], [];
    var i := 0;
    while i < |objs|
      invariant 0 <= i <= |objs| && |lookups| == i
      invariant Grouped(objs, lookups, order, groups)
      invariant KeyedBy(keys, rows[..i], lookups)
    {
      var key := FirstPopulated(objs[i].fields, keys);
      if key == None {
        return false, order, groups, lookups;
      }
      KeyedNext(keys, rows, lookups, key.value);
      order, groups := JoinNext(objs, lookups, order, groups, key.value, objs[i]);
      lookups := lookups + [key.value];
      i := i + 1;
    }
    assert rows[..i] == rows;
  }

  // ----- Loading

  /** The rows a query answers with: rows its condition selects, none twice, at most `limit`, and all
      of them unless the limit is reached. */
  predicate IsAnswer(found: seq<int>, selected: set<int>, limit: nat) {
    && NoDup(found)
    && (forall i :: 0 <= i < |found| ==> found[i] in selected)
    && |found| <= limit
    && (|found| == limit || forall id :: id in selected ==> id in found)
  }

  /** Keys with a value for each of their fields. */
  ghost predicate KeysFit(fields: seq<string>, keys: seq<seq<int>>) {
    keys != [] && AllPopulated(keys) && forall key :: key in keys ==> |key| == |fields|
  }

  /** Queries for the rows with one of the keys. The database cannot read the query's condition if
      the key has other than one field; otherwise the query fails only of itself. */
  method Find(db: Database, d: Sql.Dialect, t: Table, fields: seq<string>, keys: seq<seq<int>>, limit: nat)
    returns (ok: bool, found: seq<int>)
    requires KeysFit(fields, keys)
    modifies db`failed
    ensures |fields| != 1 ==> !ok && db.failed == old(db.failed)
    ensures |fields| == 1 ==> db.failed == (old(db.failed) || !ok)
    ensures ok ==> IsAnswer(found, Matching(t, fields, keys), limit)
  {
    Finding.ReadExactlyWhen(d, fields, keys);
    var condition := Finding.Condition(Finding.KeyCtx(d, fields), Finding.KeyClause(fields, keys));
    found := *;
    ok := false;
    if condition.Some? {
      Finding.SelectedByKey(d, fields, keys, t);
      ok := IsAnswer(found, Finding.Selected(t, condition.value), limit);
      db.failed := db.failed || !ok;
    }
  }

  function Elements<T>(s: seq<T>): set<T> {
    set x | x in s
  }

  lemma {:induction false} NoDupCounts<T>(s: seq<T>)
    requires NoDup(s)
    ensures |Elements(s)| == |s|
  {
    if s == [] {
      assert Elements(s) == {};
    } else {
      var n := |s| - 1;
      NoDupInit(s[..n], s);
      NoDupCounts(s[..n]);
      assert s == s[..n] + [s[n]];
      assert Elements(s) == Elements(s[..n]) + {s[n]};
    }
  }

  /** The limit, one row a key, never cuts an answer. */
  lemma AnswerIsAll(found: seq<int>, t: Table, fields: seq<string>, keys: seq<seq<int>>)
    requires KeyUnique(t, fields) && AllPopulated(keys) && IsAnswer(found, Matching(t, fields, keys), |keys|)
    ensures Elements(found) == Matching(t, fields, keys) && |found| == |Matching(t, fields, keys)|
  {
    NoDupCounts(found);
    AllNamedExactlyWhen(t, fields, keys);
    assert Elements(found) <= Matching(t, fields, keys);
    Within(Elements(found), Matching(t, fields, keys));
    if |found| < |keys| {
      forall id | id in Matching(t, fields, keys)
        ensures id in Elements(found)
      {
        assert id in found;
      }
    }
  }

  /** A model loaded from a row: all of it, or the requested fields. */
  function Loaded(orig: Row, row: Row, requested: set<string>): Row {
    if requested == {} then row else Overwrite(orig, requested, row)
  }

  /** Where fields are requested, no other differs. */
  ghost predicate RestKept(before: Row, now: Row, requested: set<string>) {
    requested != {} ==> forall f :: f !in requested ==> Field(now, f) == Field(before, f)
  }

  /** Loading a model from the row of its key changes none of the key's fields. */
  lemma LoadedKeepsRest(orig: Row, row: Row, g: seq<string>, requested: set<string>)
    requires Values(orig, g) == Values(row, g)
    ensures RestKept(orig, Loaded(orig, row, AskedFor(requested, g)), requested)
  {
    forall f | f in g
      ensures Field(orig, f) == Field(row, f)
    {
      var i :| 0 <= i < |g| && g[i] == f;
      assert Values(orig, g)[i] == Values(row, g)[i];
    }
  }

  /** The row of a model's key, if it is loaded from one. */
  ghost predicate LoadedFrom(t: Table, g: seq<string>, keys: seq<seq<int>>, v: seq<int>, orig: Row, now: Row,
                             requested: set<string>) {
    || now == orig
    || exists id :: id in Matching(t, g, keys) && Values(t[id], g) == v && now == Loaded(orig, t[id], requested)
  }

  ghost predicate Injective(objects: map<seq<int>, Model>) {
    forall v, w :: v in objects && w in objects && objects[v] == objects[w] ==> v == w
  }

  /** With the first `n` of the rows found, a model of a key is loaded from its row, or its row is not
      among them. */
  ghost predicate LoadedBy(t: Table, g: seq<string>, found: seq<int>, n: nat, v: seq<int>, orig: Row, now: Row,
                           requested: set<string>)
    requires n <= |found|
  {
    if RowOf(t, g, found, n, v) then
      exists j :: 0 <= j < n && IsRowOf(t, g, found[j], v) && now == Loaded(orig, t[found[j]], requested)
    else now == orig
  }

  ghost predicate IsRowOf(t: Table, g: seq<string>, id: int, v: seq<int>) {
    id in t && Values(t[id], g) == v
  }

  ghost predicate RowOf(t: Table, g: seq<string>, found: seq<int>, n: nat, v: seq<int>)
    requires n <= |found|
  {
    exists j :: 0 <= j < n && IsRowOf(t, g, found[j], v)
  }

  ghost predicate AllLoadedBy(t: Table, g: seq<string>, group: Group, found: seq<int>, n: nat,
                              before: map<seq<int>, Row>, requested: set<string>)
    requires n <= |found|
    reads (set v | v in group.objects :: group.objects[v])`fields
  {
    forall v :: v in group.objects ==>
      v in before && LoadedBy(t, g, found, n, v, before[v], group.objects[v].fields, requested)
  }

  /** A row that is found is of a model whose row was not among those before it. */
  lemma NotLoadedYet(t: Table, g: seq<string>, found: seq<int>, keys: seq<seq<int>>, n: nat)
    requires KeyUnique(t, g) && AllPopulated(keys) && NoDup(found) && n < |found|
    requires forall j :: 0 <= j < |found| ==> found[j] in Matching(t, g, keys)
    ensures found[n] in t && Values(t[found[n]], g) in keys && !RowOf(t, g, found, n, Values(t[found[n]], g))
  {
    assert found[n] in Matching(t, g, keys);
    if j :| 0 <= j < n && IsRowOf(t, g, found[j], Values(t[found[n]], g)) {
      OneRow(t, g, found[j], found[n]);
    }
  }

  lemma LoadedByNext(t: Table, g: seq<string>, found: seq<int>, n: nat, v: seq<int>, orig: Row, now: Row, next: Row,
                     requested: set<string>)
    requires n < |found| && found[n] in t && LoadedBy(t, g, found, n, v, orig, now, requested)
    requires
      if Values(t[found[n]], g) == v
      then !RowOf(t, g, found, n, v) && next == Loaded(now, t[found[n]], requested)
      else next == now
    ensures LoadedBy(t, g, found, n + 1, v, orig, next, requested)
  {
    assert RowOf(t, g, found, n + 1, v) <==> RowOf(t, g, found, n, v) || IsRowOf(t, g, found[n], v);
    if IsRowOf(t, g, found[n], v) {
      assert next == Loaded(orig, t[found[n]], requested);
    }
  }

  /** Loads the model of the next row found. */
  method LoadFound(t: Table, g: seq<string>, group: Group, found: seq<int>, n: nat, ghost before: map<seq<int>, Row>,
                   requested: set<string>)
    requires KeyUnique(t, g) && Injective(group.objects) && SameKeys(group) && AllPopulated(group.keys)
    requires NoDup(found) && n < |found| && forall j :: 0 <= j < |found| ==> found[j] in Matching(t, g, group.keys)
    requires AllLoadedBy(t, g, group, found, n, before, requested)
    modifies (set v | v in group.objects :: group.objects[v])`fields
    ensures AllLoadedBy(t, g, group, found, n + 1, before, requested)
  {
    NotLoadedYet(t, g, found, group.keys, n);
    ghost var now := map v | v in group.objects :: group.objects[v].fields;
    var o := group.objects[Values(t[found[n]], g)];
    o.fields := Loaded(o.fields, t[found[n]], requested);
    forall v | v in group.objects
      ensures v in before && LoadedBy(t, g, found, n + 1, v, before[v], group.objects[v].fields, requested)
    {
      LoadedByNext(t, g, found, n, v, before[v], now[v], group.objects[v].fields, requested);
    }
  }

  lemma NoneLoaded(t: Table, g: seq<string>, group: Group, found: seq<int>, before: map<seq<int>, Row>,
                   requested: set<string>)
    requires before == map v | v in group.objects :: group.objects[v].fields
    ensures AllLoadedBy(t, g, group, found, 0, before, requested)
  {
  }

  /** Loads the models of the rows found, one after the other. */
  method LoadRows(t: Table, g: seq<string>, group: Group, found: seq<int>, ghost before: map<seq<int>, Row>,
                  requested: set<string>)
    requires KeyUnique(t, g) && Injective(group.objects) && SameKeys(group) && AllPopulated(group.keys)
    requires NoDup(found) && forall j :: 0 <= j < |found| ==> found[j] in Matching(t, g, group.keys)
    requires before == map v | v in group.objects :: group.objects[v].fields
    modifies (set v | v in group.objects :: group.objects[v])`fields
    ensures AllLoadedBy(t, g, group, found, |found|, before, requested)
  {
    var i := 0;
    NoneLoaded(t, g, group, found, before, requested);
    while i < |found|
      invariant 0 <= i <= |found|
      invariant AllLoadedBy(t, g, group, found, i, before, requested)
    {
      LoadFound(t, g, group, found, i, before, requested);
      i := i + 1;
    }
  }

  /** When all the rows of the keys are found, every model with a row is loaded from it. */
  lemma LoadedByAll(t: Table, g: seq<string>, keys: seq<seq<int>>, found: seq<int>, v: seq<int>, orig: Row, now: Row,
                    requested: set<string>)
    requires KeyUnique(t, g) && AllPopulated(keys) && v in keys && Elements(found) == Matching(t, g, keys)
    requires LoadedBy(t, g, found, |found|, v, orig, now, requested)
    ensures LoadedFrom(t, g, keys, v, orig, now, requested)
    ensures forall id :: id in t && Values(t[id], g) == v ==> now == Loaded(orig, t[id], requested)
  {
    forall id | id in t && Values(t[id], g) == v
      ensures now == Loaded(orig, t[id], requested)
    {
      assert id in Elements(found);
      var k :| 0 <= k < |found| && found[k] == id;
      assert IsRowOf(t, g, found[k], v);
      var j :| 0 <= j < |found| && IsRowOf(t, g, found[j], v) && now == Loaded(orig, t[found[j]], requested);
      OneRow(t, g, found[j], id);
    }
    if j :| 0 <= j < |found| && IsRowOf(t, g, found[j], v) {
      assert found[j] in Matching(t, g, keys);
    }
  }

  /** Loads the models of one group from the rows found for their keys. */
  method LoadGroup(db: Database, d: Sql.Dialect, t: Table, g: seq<string>, group: Group, requested: set<string>)
    returns (ok: bool, count: nat)
    requires KeyUnique(t, g) && Injective(group.objects) && KeysFit(g, group.keys)
    requires forall v :: v in group.keys <==> v in group.objects
    modifies db`failed, (set v | v in group.objects :: group.objects[v])`fields
    ensures |g| != 1 ==> !ok && db.failed == old(db.failed)
    ensures |g| == 1 ==> db.failed == (old(db.failed) || !ok)
    ensures ok ==> count == |Matching(t, g, group.keys)|
    ensures ok ==> forall id :: id in Matching(t, g, group.keys) ==>
      var o := group.objects[Values(t[id], g)];
      o.fields == Loaded(old(o.fields), t[id], requested)
    ensures forall v :: v in group.objects ==>
      LoadedFrom(t, g, group.keys, v, old(group.objects[v].fields), group.objects[v].fields, requested)
    ensures requested != {} ==> forall v, f :: v in group.objects && f !in requested ==>
      group.objects[v].F(f) == old(group.objects[v].F(f))
  {
    var found;
    ok, found := Find(db, d, t, g, group.keys, |group.keys|);
    if !ok {
      return false, 0;
    }
    AnswerIsAll(found, t, g, group.keys);
    ghost var before := map v | v in group.objects :: group.objects[v].fields;
    LoadRows(t, g, group, found, before, requested);
    count := |found|;
    GroupLoaded(t, g, group, found, before, requested);
  }

  lemma GroupLoaded(t: Table, g: seq<string>, group: Group, found: seq<int>, before: map<seq<int>, Row>,
                    requested: set<string>)
    requires KeyUnique(t, g) && AllPopulated(group.keys) && SameKeys(group)
    requires Elements(found) == Matching(t, g, group.keys)
    requires AllLoadedBy(t, g, group, found, |found|, before, requested)
    ensures forall id :: id in Matching(t, g, group.keys) ==>
      group.objects[Values(t[id], g)].fields == Loaded(before[Values(t[id], g)], t[id], requested)
    ensures forall v :: v in group.objects ==>
      LoadedFrom(t, g, group.keys, v, before[v], group.objects[v].fields, requested)
    ensures requested != {} ==> forall v, f :: v in group.objects && f !in requested ==>
      group.objects[v].F(f) == Field(before[v], f)
  {
    forall v | v in group.objects
      ensures LoadedFrom(t, g, group.keys, v, before[v], group.objects[v].fields, requested)
      ensures forall id :: id in t && Values(t[id], g) == v ==>
        group.objects[v].fields == Loaded(before[v], t[id], requested)
    {
      LoadedByAll(t, g, group.keys, found, v, before[v], group.objects[v].fields, requested);
    }
  }

  /** What was asked for of a row is in the model. */
  ghost predicate Holds(now: Row, row: Row, requested: set<string>) {
    if requested == {} then now == row else forall f :: f in requested ==> Field(now, f) == Field(row, f)
  }

  /** Every key of the group has one row of its own. */
  ghost predicate Complete(t: Table, g: seq<string>, group: Group) {
    |Matching(t, g, group.keys)| == |group.keys|
  }

  /** Every model found holds what was asked for. */
  ghost predicate AllHold(t: Table, g: seq<string>, group: Group, requested: set<string>)
    reads (set v | v in group.objects :: group.objects[v])`fields
  {
    forall id :: id in Matching(t, g, group.keys) && Values(t[id], g) in group.objects ==>
      Holds(group.objects[Values(t[id], g)].fields, t[id], requested)
  }

  /** The models of a complete group each hold their own row. */
  lemma EachHolds(t: Table, objs: seq<Model>, lookups: seq<Lookup>, order: seq<seq<string>>,
                  groups: map<seq<string>, Group>, requested: set<string>, i: nat)
    requires i < |objs| == |lookups| && Grouped(objs, lookups, order, groups)
    requires
      var g := lookups[i].group;
      KeyUnique(t, g) && AllPopulated(groups[g].keys) && Complete(t, g, groups[g]) &&
        AllHold(t, g, groups[g], requested)
    ensures forall j :: 0 <= j < |objs| && j != i ==> lookups[j] != lookups[i]
    ensures exists id ::
      id in t && Values(t[id], lookups[i].group) == lookups[i].values && Holds(objs[i].fields, t[id], requested)
  {
    var g, v := lookups[i].group, lookups[i].values;
    var group := groups[g];
    AllNamedExactlyWhen(t, g, group.keys);
    assert GroupHolds(objs, lookups, g, group);
    KeysInHas(lookups, g, i);
    assert Takes(objs, lookups, g, v, group.objects[v]);
    var k :| 0 <= k < |group.keys| && group.keys[k] == v;
    assert HasRow(t, g, group.keys[k]);
    var id :| id in t && Values(t[id], g) == v;
    assert id in Matching(t, g, group.keys);
  }

  /** No model is in two places of the groups. */
  ghost predicate Apart(groups: map<seq<string>, Group>) {
    forall g, h, v, w :: g in groups && h in groups && v in groups[g].objects && w in groups[h].objects ==>
      groups[g].objects[v] == groups[h].objects[w] ==> g == h && v == w
  }

  lemma GroupsApart(objs: seq<Model>, lookups: seq<Lookup>, order: seq<seq<string>>, groups: map<seq<string>, Group>)
    requires Grouped(objs, lookups, order, groups)
    requires forall i, j :: 0 <= i < |lookups| && 0 <= j < |lookups| && objs[i] == objs[j] ==> lookups[i] == lookups[j]
    ensures Apart(groups)
    ensures forall g, v :: g in groups && v in groups[g].objects ==> groups[g].objects[v] in objs
  {
    forall g, v | g in groups && v in groups[g].objects
      ensures Takes(objs, lookups, g, v, groups[g].objects[v])
    {
      assert GroupHolds(objs, lookups, g, groups[g]);
    }
  }

  /** The rows found so far and the keys still to look up are at most as many as the models, and as
      many exactly while every group so far is complete. */
  ghost predicate Tally(t: Table, order: seq<seq<string>>, rest: seq<seq<string>>, groups: map<seq<string>, Group>,
                        total: nat, n: nat) {
    && NoDup(rest) && (forall g :: g in rest ==> g in order) && (forall g :: g in order ==> g in groups)
    && total + Sum(rest, groups) <= n
    && (total + Sum(rest, groups) == n <==> forall g :: g in order && g !in rest ==> Complete(t, g, groups[g]))
  }

  lemma TallyNext(t: Table, order: seq<seq<string>>, rest: seq<seq<string>>, groups: map<seq<string>, Group>,
                  total: nat, n: nat, i: nat, count: nat)
    requires Tally(t, order, rest, groups, total, n) && i < |rest|
    requires KeyUnique(t, rest[i]) && AllPopulated(groups[rest[i]].keys) &&
      count == |Matching(t, rest[i], groups[rest[i]].keys)|
    ensures Tally(t, order, rest[..i] + rest[i + 1..], groups, total + count, n)
  {
    var less, g := rest[..i] + rest[i + 1..], rest[i];
    SumWithout(rest, groups, i);
    AllNamedExactlyWhen(t, g, groups[g].keys);
    Without(rest, i);
    assert forall h :: h in order ==> (h !in less <==> h !in rest || h == g);
  }

  lemma Without(rest: seq<seq<string>>, i: nat)
    requires i < |rest|
    ensures forall h :: h in rest && h != rest[i] ==> h in rest[..i] + rest[i + 1..]
    ensures forall h :: h in rest[..i] + rest[i + 1..] ==> h in rest
    ensures NoDup(rest) ==> NoDup(rest[..i] + rest[i + 1..]) && rest[i] !in rest[..i] + rest[i + 1..]
  {
    var less := rest[..i] + rest[i + 1..];
    forall h | h in rest && h != rest[i]
      ensures h in less
    {
      var k :| 0 <= k < |rest| && rest[k] == h;
      assert less[if k < i then k else k - 1] == h;
    }
    assert forall k :: 0 <= k < |less| ==> less[k] == rest[if k < i then k else k + 1];
  }

  /** What a query of a group asks for: nothing in particular, or the key's fields as well. */
  function AskedFor(requested: set<string>, g: seq<string>): set<string> {
    if requested == {} then {} else requested + set f | f in g
  }

  lemma LoadedHolds(orig: Row, row: Row, g: seq<string>, requested: set<string>)
    ensures Holds(Loaded(orig, row, AskedFor(requested, g)), row, requested)
  {
  }

  /** The models still have the keys they are looked up by. */
  ghost predicate Carry(g: seq<string>, group: Group)
    reads (set v | v in group.objects :: group.objects[v])`fields
  {
    forall v :: v in group.objects ==> Values(group.objects[v].fields, g) == v
  }

  /** Loads one group; the models of the others stay as they are, and so do fields not requested. */
  method LoadOneOf(db: Database, d: Sql.Dialect, t: Table, g: seq<string>, groups: map<seq<string>, Group>,
                   objs: seq<Model>, requested: set<string>)
    returns (ok: bool, count: nat)
    requires g in groups && KeyUnique(t, g) && Apart(groups) && KeysFit(g, groups[g].keys)
    requires forall v :: v in groups[g].keys <==> v in groups[g].objects
    requires forall h, v :: h in groups && v in groups[h].objects ==> groups[h].objects[v] in objs
    modifies db`failed, (set o | o in objs)`fields
    ensures |g| != 1 ==> !ok && db.failed == old(db.failed)
    ensures |g| == 1 ==> db.failed == (old(db.failed) || !ok)
    ensures ok ==> count == |Matching(t, g, groups[g].keys)| && AllHold(t, g, groups[g], requested)
    ensures forall h :: h in groups && h != g && old(AllHold(t, h, groups[h], requested)) ==>
      AllHold(t, h, groups[h], requested)
    ensures forall h :: h in groups && h != g && old(Carry(h, groups[h])) ==> Carry(h, groups[h])
    ensures old(Carry(g, groups[g])) ==> forall o :: o in objs ==> RestKept(old(o.fields), o.fields, requested)
  {
    label Before:
    assert Injective(groups[g].objects);
    ok, count := LoadGroup(db, d, t, g, groups[g], AskedFor(requested, g));
    if ok {
      forall id | id in Matching(t, g, groups[g].keys)
        ensures Holds(groups[g].objects[Values(t[id], g)].fields, t[id], requested)
      {
        LoadedHolds(old@Before(groups[g].objects[Values(t[id], g)].fields), t[id], g, requested);
      }
    }
    if old(Carry(g, groups[g])) {
      forall v | v in groups[g].objects
        ensures RestKept(old(groups[g].objects[v].fields), groups[g].objects[v].fields, requested)
      {
        var orig, now := old(groups[g].objects[v].fields), groups[g].objects[v].fields;
        assert LoadedFrom(t, g, groups[g].keys, v, orig, now, AskedFor(requested, g));
        FromKeepsRest(t, g, groups[g].keys, v, orig, now, requested);
      }
    }
  }

  lemma FromKeepsRest(t: Table, g: seq<string>, keys: seq<seq<int>>, v: seq<int>, orig: Row, now: Row,
                      requested: set<string>)
    requires Values(orig, g) == v && LoadedFrom(t, g, keys, v, orig, now, AskedFor(requested, g))
    ensures RestKept(orig, now, requested)
  {
    if now != orig {
      var id :| id in Matching(t, g, keys) && Values(t[id], g) == v &&
        now == Loaded(orig, t[id], AskedFor(requested, g));
      LoadedKeepsRest(orig, t[id], g, requested);
    }
  }

  /** Every model's first populated key has one field and a row, and no two models have the same. */
  ghost predicate Gettable(t: Table, keys: seq<seq<string>>, rows: seq<Row>) {
    && (forall i :: 0 <= i < |rows| ==>
         var key := FirstPopulated(rows[i], keys);
         key.Some? && |key.value.group| == 1 && HasRow(t, key.value.group, key.value.values))
    && forall i, j :: 0 <= i < j < |rows| ==> FirstPopulated(rows[i], keys) != FirstPopulated(rows[j], keys)
  }

  /** A model has what was asked for of the row that its key names. */
  ghost predicate Gotten(t: Table, keys: seq<seq<string>>, before: Row, now: Row, requested: set<string>) {
    var key := FirstPopulated(before, keys);
    && key.Some?
    && exists id :: id in t && Values(t[id], key.value.group) == key.value.values && Holds(now, t[id], requested)
  }

  /** The groups are of keys of one field and all complete exactly when the models are gettable. */
  lemma CompleteExactlyWhen(t: Table, keys: seq<seq<string>>, objs: seq<Model>, rows: seq<Row>, lookups: seq<Lookup>,
                            order: seq<seq<string>>, groups: map<seq<string>, Group>)
    requires forall g :: g in keys ==> KeyUnique(t, g)
    requires |objs| == |lookups| && Grouped(objs, lookups, order, groups) && KeyedBy(keys, rows, lookups)
    requires forall g :: g in order ==> g in keys && KeysFit(g, groups[g].keys)
    ensures (forall g :: g in order ==> |g| == 1 && Complete(t, g, groups[g])) <==> Gettable(t, keys, rows)
  {
    if Gettable(t, keys, rows) {
      forall g | g in order
        ensures |g| == 1 && Complete(t, g, groups[g])
      {
        IfGettable(t, keys, objs, rows, lookups, order, groups, g);
      }
    }
    if forall g :: g in order ==> |g| == 1 && Complete(t, g, groups[g]) {
      forall i | 0 <= i < |rows|
        ensures |lookups[i].group| == 1 && HasRow(t, lookups[i].group, lookups[i].values)
        ensures forall j :: 0 <= j < |rows| && j != i ==> lookups[j] != lookups[i]
      {
        assert lookups[i].group in groups;
        assert lookups[i].group in order;
        IfComplete(t, objs, lookups, order, groups, i);
      }
      CompleteIsGettable(t, keys, rows, lookups);
    }
  }

  lemma CompleteIsGettable(t: Table, keys: seq<seq<string>>, rows: seq<Row>, lookups: seq<Lookup>)
    requires KeyedBy(keys, rows, lookups)
    requires forall i :: 0 <= i < |rows| ==> |lookups[i].group| == 1 && HasRow(t, lookups[i].group, lookups[i].values)
    requires forall i, j :: 0 <= i < |rows| && 0 <= j < |rows| && j != i ==> lookups[j] != lookups[i]
    ensures Gettable(t, keys, rows)
  {
  }

  lemma IfGettable(t: Table, keys: seq<seq<string>>, objs: seq<Model>, rows: seq<Row>, lookups: seq<Lookup>,
                   order: seq<seq<string>>, groups: map<seq<string>, Group>, g: seq<string>)
    requires |objs| == |lookups| && Grouped(objs, lookups, order, groups) && KeyedBy(keys, rows, lookups)
    requires Gettable(t, keys, rows) && g in order && KeyUnique(t, g) && KeysFit(g, groups[g].keys)
    ensures |g| == 1 && Complete(t, g, groups[g])
  {
    var group := groups[g];
    AllNamedExactlyWhen(t, g, group.keys);
    DistinctKeysIn(lookups, g);
    assert GroupHolds(objs, lookups, g, group);
    forall k | 0 <= k < |group.keys|
      ensures |g| == 1 && HasRow(t, g, group.keys[k])
    {
      assert Takes(objs, lookups, g, group.keys[k], group.objects[group.keys[k]]);
      TakenHasRow(t, keys, objs, rows, lookups, g, group.keys[k], group.objects[group.keys[k]]);
    }
    assert HasRow(t, g, group.keys[0]);
  }

  lemma TakenHasRow(t: Table, keys: seq<seq<string>>, objs: seq<Model>, rows: seq<Row>, lookups: seq<Lookup>,
                    g: seq<string>, v: seq<int>, o: Model)
    requires |lookups| <= |objs| && KeyedBy(keys, rows, lookups) && Gettable(t, keys, rows) &&
      Takes(objs, lookups, g, v, o)
    ensures |g| == 1 && HasRow(t, g, v)
  {
  }

  lemma IfComplete(t: Table, objs: seq<Model>, lookups: seq<Lookup>, order: seq<seq<string>>,
                   groups: map<seq<string>, Group>, i: nat)
    requires i < |objs| == |lookups| && Grouped(objs, lookups, order, groups)
    requires KeyUnique(t, lookups[i].group) && Complete(t, lookups[i].group, groups[lookups[i].group])
    requires AllPopulated(groups[lookups[i].group].keys)
    ensures HasRow(t, lookups[i].group, lookups[i].values)
    ensures forall j :: 0 <= j < |objs| && j != i ==> lookups[j] != lookups[i]
  {
    var g := lookups[i].group;
    assert GroupHolds(objs, lookups, g, groups[g]);
    AllNamedExactlyWhen(t, g, groups[g].keys);
    KeysInHas(lookups, g, i);
    var k :| 0 <= k < |groups[g].keys| && groups[g].keys[k] == lookups[i].values;
    assert HasRow(t, g, groups[g].keys[k]);
  }

  lemma {:induction false} DistinctKeysIn(lookups: seq<Lookup>, g: seq<string>)
    requires forall i, j :: 0 <= i < j < |lookups| ==> lookups[i] != lookups[j]
    ensures NoDup(KeysIn(lookups, g))
    ensures forall k :: 0 <= k < |KeysIn(lookups, g)| ==> Lookup(g, KeysIn(lookups, g)[k]) in lookups
  {
    if lookups == [] {
    } else {
      var n := |lookups| - 1;
      DistinctKeysIn(lookups[..n], g);
      var init := KeysIn(lookups[..n], g);
      assert lookups == lookups[..n] + [lookups[n]];
    }
  }

  /** The groups are as `GroupAll` leaves them, apart from the fields of the models. */
  ghost predicate Ready(t: Table, objs: seq<Model>, order: seq<seq<string>>, groups: map<seq<string>, Group>) {
    && Apart(groups)
    && (forall h, v :: h in groups && v in groups[h].objects ==> groups[h].objects[v] in objs)
    && (forall g :: g in order ==> g in groups && KeyUnique(t, g))
    && forall g :: g in order ==> SameKeys(groups[g]) && KeysFit(g, groups[g].keys)
  }

  ghost predicate SameKeys(group: Group) {
    forall v :: v in group.keys <==> v in group.objects
  }

  /** The models of the groups that are no longer to do hold what was asked for. */
  ghost predicate Held(t: Table, objs: seq<Model>, order: seq<seq<string>>, rest: seq<seq<string>>,
                       groups: map<seq<string>, Group>, requested: set<string>)
    requires Ready(t, objs, order, groups)
    reads (set o | o in objs)`fields
  {
    forall g :: g in order && g !in rest ==> AllHold(t, g, groups[g], requested)
  }

  /** The models of the groups that are still to do have their keys. */
  ghost predicate AllCarry(t: Table, objs: seq<Model>, order: seq<seq<string>>, rest: seq<seq<string>>,
                           groups: map<seq<string>, Group>)
    requires Ready(t, objs, order, groups)
    reads (set o | o in objs)`fields
  {
    forall g :: g in rest && g in groups ==> Carry(g, groups[g])
  }

  method LoadNext(db: Database, d: Sql.Dialect, t: Table, objs: seq<Model>, order: seq<seq<string>>,
                  rest: seq<seq<string>>, groups: map<seq<string>, Group>, requested: set<string>, total: nat, i: nat)
    returns (ok: bool, total': nat)
    requires Ready(t, objs, order, groups) && Tally(t, order, rest, groups, total, |objs|) && i < |rest|
    requires Held(t, objs, order, rest, groups, requested) && AllCarry(t, objs, order, rest, groups)
    modifies db`failed, (set o | o in objs)`fields
    ensures |rest[i]| != 1 ==> !ok && db.failed == old(db.failed)
    ensures |rest[i]| == 1 ==> db.failed == (old(db.failed) || !ok)
    ensures ok ==> Tally(t, order, rest[..i] + rest[i + 1..], groups, total', |objs|)
    ensures ok ==> Held(t, objs, order, rest[..i] + rest[i + 1..], groups, requested)
    ensures ok ==> AllCarry(t, objs, order, rest[..i] + rest[i + 1..], groups)
    ensures forall o :: o in objs ==> RestKept(old(o.fields), o.fields, requested)
  {
    var g, count := rest[i], 0;
    assert SameKeys(groups[g]);
    ok, count := LoadOneOf(db, d, t, g, groups, objs, requested);
    total' := total + count;
    if ok {
      TallyNext(t, order, rest, groups, total, |objs|, i, count);
      Without(rest, i);
    }
  }

  lemma GroupedReady(t: Table, keys: seq<seq<string>>, objs: seq<Model>, lookups: seq<Lookup>, order: seq<seq<string>>,
                     groups: map<seq<string>, Group>)
    requires Grouped(objs, lookups, order, groups) && |lookups| == |objs|
    requires forall i, j :: 0 <= i < |lookups| && 0 <= j < |lookups| && objs[i] == objs[j] ==> lookups[i] == lookups[j]
    requires forall g :: g in keys ==> KeyUnique(t, g)
    requires forall g :: g in order ==> g in keys && KeysFit(g, groups[g].keys)
    ensures Ready(t, objs, order, groups)
    ensures Tally(t, order, order, groups, 0, |objs|)
  {
    GroupsApart(objs, lookups, order, groups);
    forall g | g in order
      ensures SameKeys(groups[g])
    {
      assert GroupHolds(objs, lookups, g, groups[g]);
    }
  }

  lemma GroupsAreKeys(keys: seq<seq<string>>, objs: seq<Model>, rows: seq<Row>, lookups: seq<Lookup>,
                      order: seq<seq<string>>, groups: map<seq<string>, Group>)
    requires |rows| == |objs| == |lookups| && Grouped(objs, lookups, order, groups)
    requires forall i :: 0 <= i < |rows| ==> FirstPopulated(rows[i], keys) == Some(lookups[i])
    ensures forall g :: g in order ==> g in keys && KeysFit(g, groups[g].keys)
  {
    forall g | g in order
      ensures g in keys && KeysFit(g, groups[g].keys)
    {
      assert GroupHolds(objs, lookups, g, groups[g]);
      forall v | v in groups[g].keys
        ensures g in keys && Populated(v) && |v| == |g|
      {
        assert Takes(objs, lookups, g, v, groups[g].objects[v]);
        var i :| 0 <= i < |lookups| && lookups[i] == Lookup(g, v);
        FirstIsAKey(rows[i], keys);
      }
      assert groups[g].keys[0] in groups[g].keys;
    }
  }

  /** Queries the groups in any order; fails if a query does. */
  method LoadAll(db: Database, d: Sql.Dialect, t: Table, objs: seq<Model>, order: seq<seq<string>>,
                 groups: map<seq<string>, Group>, requested: set<string>)
    returns (ok: bool, total: nat)
    requires Ready(t, objs, order, groups) && Tally(t, order, order, groups, 0, |objs|)
    requires AllCarry(t, objs, order, order, groups)
    modifies db`failed, (set o | o in objs)`fields
    ensures !ok ==> db.failed || exists g :: g in order && |g| != 1
    ensures ok ==> db.failed == old(db.failed) && forall g :: g in order ==> |g| == 1
    ensures ok ==> Tally(t, order, [], groups, total, |objs|) && Held(t, objs, order, [], groups, requested)
    ensures forall o :: o in objs ==> RestKept(old(o.fields), o.fields, requested)
  {
    ok, total := true, 0;
    var rest := order;
    while rest != []
      invariant Tally(t, order, rest, groups, total, |objs|)
      invariant Held(t, objs, order, rest, groups, requested)
      invariant forall g :: g in order && g !in rest ==> |g| == 1
      invariant ok && db.failed == old(db.failed)
      invariant AllCarry(t, objs, order, rest, groups)
      invariant forall o :: o in objs ==> RestKept(old(o.fields), o.fields, requested)
      decreases |rest|
    {
      var i := AnyIndex(rest);
      assert rest[i] in rest;
      ok, total := LoadNext(db, d, t, objs, order, rest, groups, requested, total, i);
      if !ok {
        return;
      }
      Without(rest, i);
      rest := rest[..i] + rest[i + 1..];
    }
  }

  method AnyIndex<T>(s: seq<T>) returns (i: nat)
    requires s != []
    ensures i < |s|
  {
    i := *;
    if i >= |s| {
      i := 0;
    }
  }

  lemma AllGotten(t: Table, keys: seq<seq<string>>, objs: seq<Model>, rows: seq<Row>, lookups: seq<Lookup>,
                  order: seq<seq<string>>, groups: map<seq<string>, Group>, requested: set<string>)
    requires |rows| == |objs| == |lookups| && Grouped(objs, lookups, order, groups) && Ready(t, objs, order, groups)
    requires forall i :: 0 <= i < |rows| ==> FirstPopulated(rows[i], keys) == Some(lookups[i])
    requires (forall g :: g in order ==> Complete(t, g, groups[g])) && Held(t, objs, order, [], groups, requested)
    ensures forall i :: 0 <= i < |objs| ==> Gotten(t, keys, rows[i], objs[i].fields, requested)
  {
    forall i | 0 <= i < |objs|
      ensures Gotten(t, keys, rows[i], objs[i].fields, requested)
    {
      OneGotten(t, keys, objs, rows, lookups, order, groups, requested, i);
    }
  }

  lemma OneGotten(t: Table, keys: seq<seq<string>>, objs: seq<Model>, rows: seq<Row>, lookups: seq<Lookup>,
                  order: seq<seq<string>>, groups: map<seq<string>, Group>, requested: set<string>, i: nat)
    requires i < |rows| == |objs| == |lookups| && Grouped(objs, lookups, order, groups) && Ready(t, objs, order, groups)
    requires FirstPopulated(rows[i], keys) == Some(lookups[i])
    requires (forall g :: g in order ==> Complete(t, g, groups[g])) && Held(t, objs, order, [], groups, requested)
    ensures Gotten(t, keys, rows[i], objs[i].fields, requested)
  {
    var g := lookups[i].group;
    assert g in groups && g in order && KeysFit(g, groups[g].keys);
    EachHolds(t, objs, lookups, order, groups, requested, i);
  }

  /** What the groups need to be loaded from, and what their being complete says. */
  lemma ReadyToLoad(t: Table, keys: seq<seq<string>>, objs: seq<Model>, rows: seq<Row>, lookups: seq<Lookup>,
                    order: seq<seq<string>>, groups: map<seq<string>, Group>)
    requires |rows| == |objs| == |lookups| && Grouped(objs, lookups, order, groups) && KeyedBy(keys, rows, lookups)
    requires (forall g :: g in keys ==> KeyUnique(t, g)) && rows == Snapshot(objs)
    ensures Ready(t, objs, order, groups) && Tally(t, order, order, groups, 0, |objs|)
    ensures AllCarry(t, objs, order, order, groups)
    ensures (forall g :: g in order ==> |g| == 1 && Complete(t, g, groups[g])) <==> Gettable(t, keys, rows)
  {
    GroupsAreKeys(keys, objs, rows, lookups, order, groups);
    SameObjectSameKey(keys, objs, rows, lookups);
    GroupedReady(t, keys, objs, lookups, order, groups);
    forall g | g in order
      ensures Carry(g, groups[g])
    {
      GroupCarries(keys, objs, rows, lookups, g, groups[g]);
    }
    CompleteExactlyWhen(t, keys, objs, rows, lookups, order, groups);
  }

  lemma GroupCarries(keys: seq<seq<string>>, objs: seq<Model>, rows: seq<Row>, lookups: seq<Lookup>, g: seq<string>,
                     group: Group)
    requires |rows| == |objs| == |lookups| && GroupHolds(objs, lookups, g, group) && KeyedBy(keys, rows, lookups)
    requires rows == Snapshot(objs)
    ensures Carry(g, group)
  {
    forall v | v in group.objects
      ensures Values(group.objects[v].fields, g) == v
    {
      assert Takes(objs, lookups, g, v, group.objects[v]);
      var i :| 0 <= i < |lookups| && objs[i] == group.objects[v] && lookups[i] == Lookup(g, v);
      FirstIsAKey(rows[i], keys);
    }
  }

  lemma SameObjectSameKey(keys: seq<seq<string>>, objs: seq<Model>, rows: seq<Row>, lookups: seq<Lookup>)
    requires |rows| == |objs| && KeyedBy(keys, rows, lookups) && rows == Snapshot(objs)
    ensures forall i, j :: 0 <= i < |lookups| && 0 <= j < |lookups| && objs[i] == objs[j] ==> lookups[i] == lookups[j]
  {
  }

  method GetFrom(db: Database, d: Sql.Dialect, t: Table, keys: seq<seq<string>>, objs: seq<Model>,
                 requested: set<string>, ghost rows: seq<Row>)
    returns (ok: bool)
    requires (forall g :: g in keys ==> KeyUnique(t, g)) && rows == Snapshot(objs)
    modifies db`failed, (set o | o in objs)`fields
    ensures ok ==> db.failed == old(db.failed) && Gettable(t, keys, rows)
    ensures !ok ==> db.failed || !Gettable(t, keys, rows)
    ensures ok ==> forall i :: 0 <= i < |objs| ==> Gotten(t, keys, rows[i], objs[i].fields, requested)
    ensures forall o :: o in objs ==> RestKept(old(o.fields), o.fields, requested)
  {
    ghost var lookups;
    var order, groups, total;
    ok, order, groups, lookups := GroupAll(objs, keys);
    if !ok {
      return;
    }
    ReadyToLoad(t, keys, objs, rows, lookups, order, groups);
    ok, total := LoadAll(db, d, t, objs, order, groups, requested);
    ok := ok && total == |objs|;
    if ok {
      AllGotten(t, keys, objs, rows, lookups, order, groups, requested);
    }
  }

  /** Gets models by key. Unless the database fails, it succeeds exactly if every model has a key of
      one field and of its own with a row; then every model holds what was asked for of its own row.
      Where fields are requested, every other keeps its value, whether it succeeds or not. */
  method Get(db: Database, d: Sql.Dialect, table: string, keys: seq<seq<string>>, objs: seq<Model>,
             requested: set<string>)
    returns (ok: bool)
    requires forall g :: g in keys ==> KeyUnique(db.T(table), g)
    modifies db`failed, (set o | o in objs)`fields
    ensures ok ==> db.failed == old(db.failed) && Gettable(db.T(table), keys, old(Snapshot(objs)))
    ensures !ok ==> db.failed || !Gettable(db.T(table), keys, old(Snapshot(objs)))
    ensures ok ==> forall i :: 0 <= i < |objs| ==>
      Gotten(db.T(table), keys, old(objs[i].fields), objs[i].fields, requested)
    ensures requested != {} ==> forall i, f :: 0 <= i < |objs| && f !in requested ==> objs[i].F(f) == old(objs[i].F(f))
  {
    ok := GetFrom(db, d, db.T(table), keys, objs, requested, Snapshot(objs));
  }
}
