/** When a put of related models leaves exactly their rows pointing to the parent, in terms of the
    table, the parent's key and the models before it. */
module Orphans {
  import opened Lookups
  import opened Options
  import opened Writes

  // ----- What a chain of writes leaves

  /** The field is one that both inserts and updates write. */
  predicate IsWritten(m: Mapping, requested: Fields, f: string) {
    f != m.pk && f in Resolve(requested, m.insertable) && f in Resolve(requested, m.updatable)
  }

  /** The rows whose last write leaves `v` in field `f`. */
  function LastWith(ws: seq<Write>, f: string, v: int): set<int> {
    if ws == [] then {}
    else
      var w := ws[|ws| - 1];
      var rest := LastWith(ws[..|ws| - 1], f, v);
      if Field(w.values, f) == v then rest + {w.row} else rest - {w.row}
  }

  lemma RowsNext(ws: seq<Write>, n: nat)
    requires n < |ws|
    ensures Rows(ws[..n + 1]) == Rows(ws[..n]) + {ws[n].row}
  {
    var next := ws[..n + 1];
    forall id | id in Rows(ws[..n]) + {ws[n].row}
      ensures id in Rows(next)
    {
      if id != ws[n].row {
        var i :| 0 <= i < n && ws[..n][i].row == id;
        assert next[i].row == id;
      } else {
        assert next[n].row == id;
      }
    }
    forall id | id in Rows(next)
      ensures id in Rows(ws[..n]) + {ws[n].row}
    {
      var i :| 0 <= i <= n && next[i].row == id;
      assert i < n ==> ws[..n][i].row == id;
    }
  }

  lemma {:induction false} LastWithin(ws: seq<Write>, f: string, v: int)
    ensures LastWith(ws, f, v) <= Rows(ws)
  {
    if ws == [] {
    } else {
      var n := |ws| - 1;
      assert ws[..n + 1] == ws;
      RowsNext(ws, n);
      LastWithin(ws[..n], f, v);
    }
  }

  lemma {:induction false} AllPoint(ws: seq<Write>, f: string, v: int)
    requires forall i :: 0 <= i < |ws| ==> Field(ws[i].values, f) == v
    ensures LastWith(ws, f, v) == Rows(ws)
  {
    if ws == [] {
    } else {
      var n := |ws| - 1;
      assert ws[..n + 1] == ws;
      RowsNext(ws, n);
      AllPoint(ws[..n], f, v);
    }
  }

  /** The rows with a value in a written field: those that had it and were not written, and those
      whose last write has it. */
  lemma {:induction false} RowsAfter(t: Table, m: Mapping, requested: Fields, ws: seq<Write>, n: nat, f: string, v: int)
    requires IsWritten(m, requested, f) && IsChain(t, m, requested, ws) && n <= |ws|
    ensures RowsWith(TableAt(t, m, requested, ws, n), f, v) == (RowsWith(t, f, v) - Rows(ws[..n])) +
      LastWith(ws[..n], f, v)
  {
    if n > 0 {
      var i := n - 1;
      RowsAfter(t, m, requested, ws, i, f, v);
      assert IsLink(t, m, requested, ws, i);
      assert ws[..n][..i] == ws[..i] && ws[..n][i] == ws[i];
      RowsNext(ws, i);
      RowsWritten(m, requested, ws[i], f, v);
      WithOneMore(RowsWith(t, f, v), Rows(ws[..i]), LastWith(ws[..i], f, v), ws[i].row);
    }
  }

  lemma WithOneMore<T>(a: set<T>, b: set<T>, c: set<T>, x: T)
    ensures ((a - b) + c) - {x} == (a - (b + {x})) + (c - {x})
    ensures ((a - b) + c) + {x} == (a - (b + {x})) + (c + {x})
  {
  }

  lemma RowsWritten(m: Mapping, requested: Fields, w: Write, f: string, v: int)
    requires IsWritten(m, requested, f)
    ensures RowsWith(Written(m, requested, w), f, v) ==
      if Field(w.values, f) == v then RowsWith(w.on, f, v) + {w.row} else RowsWith(w.on, f, v) - {w.row}
  {
    assert Field(Written(m, requested, w)[w.row], f) == Field(w.values, f);
  }

  /** A row that no write has touched is as it was. */
  lemma {:induction false} Untouched(t: Table, m: Mapping, requested: Fields, ws: seq<Write>, n: nat, id: int)
    requires IsChain(t, m, requested, ws) && n <= |ws| && id !in Rows(ws[..n])
    ensures id in t <==> id in TableAt(t, m, requested, ws, n)
    ensures id in t ==> TableAt(t, m, requested, ws, n)[id] == t[id]
  {
    if n > 0 {
      assert IsLink(t, m, requested, ws, n - 1);
      RowsNext(ws, n - 1);
      Untouched(t, m, requested, ws, n - 1, id);
    }
  }

  lemma InRows(ws: seq<Write>, n: nat, i: nat)
    requires i < n <= |ws|
    ensures ws[i].row in Rows(ws[..n])
  {
    assert ws[..n][i] == ws[i];
  }

  // ----- Which of the old rows are written

  /** Some model names the row before anything is done. */
  predicate IsClaimed(t: Table, rel: Relation, before: seq<Row>, given: int, id: int) {
    exists i :: 0 <= i < |before| && id in Named(t, Filled(before[i], rel.remote, given), KeysOf(rel.mapping))
  }

  function Claimed(t: Table, rel: Relation, before: seq<Row>, given: int): set<int> {
    set id | id in t && IsClaimed(t, rel, before, given, id)
  }

  lemma NamedAlike(t: Table, u: Table, row: Row, keys: seq<seq<string>>, id: int)
    requires id in t && id in u && t[id] == u[id]
    ensures id in Named(t, row, keys) <==> id in Named(u, row, keys)
  {
  }

  ghost predicate Separate<T>(ids: seq<T>) {
    forall i, j :: 0 <= i < j < |ids| ==> ids[i] != ids[j]
  }

  lemma ValuesOf<T>(ids: seq<T>, now: seq<Row>, before: seq<Row>, rel: Relation, given: int, kept: Table,
                    ws: seq<Write>, i: nat)
    requires Progress(ids, now, before, rel, given, kept, ws) && Separate(ids) && i < |ws|
    ensures ws[i].values == Filled(before[i], rel.remote, given)
  {
    assert IsOf(ids, before, rel, given, ws, i);
  }

  /** Of the rows that were kept, exactly those are written that a model named before. */
  lemma WrittenAreClaimed<T>(ids: seq<T>, now: seq<Row>, before: seq<Row>, rel: Relation, given: int, t: Table,
                             kept: Table, ws: seq<Write>, id: int)
    requires Progress(ids, now, before, rel, given, kept, ws) && Separate(ids) && |ws| == |ids|
    requires id in kept && id in t && kept[id] == t[id]
    ensures id in Rows(ws) <==> id in Claimed(t, rel, before, given)
  {
    assert ws[..|ws|] == ws;
    if id in Claimed(t, rel, before, given) {
      var i :| 0 <= i < |before| && id in Named(t, Filled(before[i], rel.remote, given), KeysOf(rel.mapping));
      ClaimedIsWritten(ids, now, before, rel, given, t, kept, ws, id, i);
    }
    if id in Rows(ws) {
      var i := FirstWrite(ws, |ws|, id);
      Untouched(kept, rel.mapping, rel.fields, ws, i, id);
      assert IsLink(kept, rel.mapping, rel.fields, ws, i);
      ValuesOf(ids, now, before, rel, given, kept, ws, i);
      NamedAlike(t, ws[i].on, ws[i].values, KeysOf(rel.mapping), id);
      assert IsClaimed(t, rel, before, given, id);
    }
  }

  lemma ClaimedIsWritten<T>(ids: seq<T>, now: seq<Row>, before: seq<Row>, rel: Relation, given: int, t: Table,
                            kept: Table, ws: seq<Write>, id: int, i: nat)
    requires Progress(ids, now, before, rel, given, kept, ws) && Separate(ids) && |ws| == |ids|
    requires id in kept && id in t && kept[id] == t[id]
    requires i < |before| && id in Named(t, Filled(before[i], rel.remote, given), KeysOf(rel.mapping))
    ensures id in Rows(ws)
  {
    assert ws[..|ws|] == ws;
    if id !in Rows(ws[..i]) {
      Untouched(kept, rel.mapping, rel.fields, ws, i, id);
      assert IsLink(kept, rel.mapping, rel.fields, ws, i);
      ValuesOf(ids, now, before, rel, given, kept, ws, i);
      NamedAlike(t, ws[i].on, ws[i].values, KeysOf(rel.mapping), id);
      InRows(ws, |ws|, i);
    } else {
      var j :| 0 <= j < i && ws[..i][j].row == id;
      InRows(ws, |ws|, j);
    }
  }

  lemma {:induction false} FirstWrite(ws: seq<Write>, n: nat, id: int) returns (i: nat)
    requires n <= |ws| && id in Rows(ws[..n])
    ensures i < n && ws[i].row == id && id !in Rows(ws[..i])
  {
    RowsNext(ws, n - 1);
    if id in Rows(ws[..n - 1]) {
      i := FirstWrite(ws, n - 1, id);
    } else {
      i := n - 1;
    }
  }

  // ----- The sync

  /** Every model's foreign key is zero or already the parent's key. */
  predicate AllFit(before: seq<Row>, f: string, given: int) {
    forall i :: 0 <= i < |before| ==> Field(before[i], f) in {0, given}
  }

  /** The rows that point to the parent and are still there when the models are written. */
  function Spared(t: Table, rel: Relation, before: seq<Row>, given: int, page: set<int>): set<int> {
    RowsWith(t, rel.remote, given) - Orphaned(t, rel.mapping.pk, page, Provided(before, rel, given))
  }

  function KeptTable(t: Table, rel: Relation, before: seq<Row>, given: int, page: set<int>): Table {
    t - Orphaned(t, rel.mapping.pk, page, Provided(before, rel, given))
  }

  /** The rows that point to the parent afterwards are those of the models. */
  ghost predicate IsSync(rel: Relation, given: int, after: Table, ws: seq<Write>) {
    RowsWith(after, rel.remote, given) == Rows(ws)
  }

  /** A put of related models with the page of existing rows that the database returned. */
  ghost predicate IsRun<T>(ids: seq<T>, now: seq<Row>, before: seq<Row>, rel: Relation, given: int, t: Table,
                           page: set<int>, ws: seq<Write>)
  {
    && Progress(ids, now, before, rel, given, KeptTable(t, rel, before, given, page), ws)
    && Separate(ids) && |ws| == |ids|
  }

  function TableOf(t: Table, rel: Relation, before: seq<Row>, given: int, page: set<int>, ws: seq<Write>): Table {
    TableAt(KeptTable(t, rel, before, given, page), rel.mapping, rel.fields, ws, |ws|)
  }

  /** In general: every row is last written with the parent's key, and a row that pointed to the
      parent before and is not deleted is named by a model. */
  lemma SyncWhen<T>(ids: seq<T>, now: seq<Row>, before: seq<Row>, rel: Relation, given: int, t: Table, page: set<int>,
                    ws: seq<Write>)
    requires IsRun(ids, now, before, rel, given, t, page, ws) && IsWritten(rel.mapping, rel.fields, rel.remote)
    ensures IsSync(rel, given, TableOf(t, rel, before, given, page, ws), ws) <==>
      LastWith(ws, rel.remote, given) == Rows(ws) &&
        Spared(t, rel, before, given, page) <= Claimed(t, rel, before, given)
  {
    var kept, f := KeptTable(t, rel, before, given, page), rel.remote;
    assert ws[..|ws|] == ws;
    RowsAfter(kept, rel.mapping, rel.fields, ws, |ws|, f, given);
    LastWithin(ws, f, given);
    assert RowsWith(kept, f, given) == Spared(t, rel, before, given, page);
    forall id | id in RowsWith(kept, f, given)
      ensures id in Rows(ws) <==> id in Claimed(t, rel, before, given)
    {
      WrittenAreClaimed(ids, now, before, rel, given, t, kept, ws, id);
    }
  }

  lemma FitPoints<T>(ids: seq<T>, now: seq<Row>, before: seq<Row>, rel: Relation, given: int, kept: Table,
                     ws: seq<Write>, i: nat)
    requires Progress(ids, now, before, rel, given, kept, ws) && rel.remote != rel.mapping.pk && i < |ws|
    ensures Field(ws[i].values, rel.remote) == given <==> Field(before[i], rel.remote) in {0, given}
  {
    assert IsOf(ids, before, rel, given, ws, i);
    assert Field(ws[i].values, rel.remote) == Field(Filled(before[i], rel.remote, given), rel.remote);
  }

  /** Where the models' foreign keys fit, the sync is exact for a page if and only if every row that
      pointed to the parent is one the page lets be deleted or one that a model names. */
  lemma SyncExactlyWhen<T>(ids: seq<T>, now: seq<Row>, before: seq<Row>, rel: Relation, given: int, t: Table,
                           page: set<int>, ws: seq<Write>)
    requires IsRun(ids, now, before, rel, given, t, page, ws) && IsWritten(rel.mapping, rel.fields, rel.remote)
    requires AllFit(before, rel.remote, given)
    ensures IsSync(rel, given, TableOf(t, rel, before, given, page, ws), ws) <==>
      Spared(t, rel, before, given, page) <= Claimed(t, rel, before, given)
  {
    var kept := KeptTable(t, rel, before, given, page);
    forall i | 0 <= i < |ws|
      ensures Field(ws[i].values, rel.remote) == given
    {
      FitPoints(ids, now, before, rel, given, kept, ws, i);
    }
    AllPoint(ws, rel.remote, given);
    SyncWhen(ids, now, before, rel, given, t, page, ws);
  }

  /** If the foreign key of the last model does not fit, the sync is not exact. */
  lemma MisfitBreaks<T>(ids: seq<T>, now: seq<Row>, before: seq<Row>, rel: Relation, given: int, t: Table,
                        page: set<int>, ws: seq<Write>)
    requires IsRun(ids, now, before, rel, given, t, page, ws) && IsWritten(rel.mapping, rel.fields, rel.remote)
    requires before != [] && Field(before[|before| - 1], rel.remote) !in {0, given}
    ensures !IsSync(rel, given, TableOf(t, rel, before, given, page, ws), ws)
  {
    var n := |ws| - 1;
    FitPoints(ids, now, before, rel, given, KeptTable(t, rel, before, given, page), ws, n);
    InRows(ws, |ws|, n);
    assert ws[..|ws|] == ws;
    SyncWhen(ids, now, before, rel, given, t, page, ws);
  }

  // ----- Every page the database may return

  /** The rows that point to the parent and that no model names. */
  function Strays(t: Table, rel: Relation, before: seq<Row>, given: int): set<int> {
    RowsWith(t, rel.remote, given) - Claimed(t, rel, before, given)
  }

  /** The rows in scope that can be deleted by their primary keys. */
  function Removable(t: Table, rel: Relation, given: int): set<int> {
    set id | id in Scope(t, rel, given) && Field(t[id], rel.mapping.pk) != 0
  }

  /** No model names a row that points to the parent, or the scope fits a page and all those rows
      can be deleted. */
  predicate PageReaches(t: Table, rel: Relation, before: seq<Row>, given: int) {
    || Strays(t, rel, before, given) == {}
    || (|Scope(t, rel, given)| <= PAGE && Strays(t, rel, before, given) <= Removable(t, rel, given))
  }

  lemma NamesByKey(t: Table, m: Mapping, row: Row, id: int)
    requires Field(row, m.pk) != 0
    ensures id in Named(t, row, KeysOf(m)) <==> id in t && Field(t[id], m.pk) == Field(row, m.pk)
  {
    PrimaryFirst(m, row);
    if id in t {
      assert Values(t[id], [m.pk]) == [Field(t[id], m.pk)];
    }
  }

  lemma ProvidedIsClaimed(t: Table, rel: Relation, before: seq<Row>, given: int, id: int)
    requires id in t && Field(t[id], rel.mapping.pk) in Provided(before, rel, given)
    ensures id in Claimed(t, rel, before, given)
  {
    var pk := rel.mapping.pk;
    var i :| 0 <= i < |before| && Field(Filled(before[i], rel.remote, given), pk) == Field(t[id], pk) != 0;
    NamesByKey(t, rel.mapping, Filled(before[i], rel.remote, given), id);
    assert IsClaimed(t, rel, before, given, id);
  }

  lemma {:induction false} Some<T>(s: set<T>, n: nat) returns (some: set<T>)
    requires n <= |s|
    ensures some <= s && |some| == n
  {
    if n == 0 {
      some := {};
    } else {
      var x := AnyOf(s);
      some := Some(s - {x}, n - 1);
      some := some + {x};
    }
  }

  /** A page that a row is not on, where not every page has it. */
  lemma PageWithout(scope: set<int>, id: int) returns (page: set<int>)
    requires |scope| > PAGE || id !in scope
    ensures IsPage(page, scope) && id !in page
  {
    if |scope| <= PAGE {
      page := scope;
    } else {
      assert |scope - {id}| >= PAGE;
      page := Some(scope - {id}, PAGE);
    }
  }

  lemma WholePage(page: set<int>, scope: set<int>)
    requires IsPage(page, scope) && |scope| <= PAGE
    ensures page == scope
  {
    Within(page, scope);
  }

  /** Whatever page the database returns, it lets every row be deleted that no model names, if and
      only if there is none, or the scope fits a page and all of them can be deleted. */
  lemma EveryPageExactlyWhen(t: Table, rel: Relation, before: seq<Row>, given: int)
    ensures
      (forall page :: IsPage(page, Scope(t, rel, given)) ==>
         Spared(t, rel, before, given, page) <= Claimed(t, rel, before, given))
      <==> PageReaches(t, rel, before, given)
  {
    var strays, scope := Strays(t, rel, before, given), Scope(t, rel, given);
    if PageReaches(t, rel, before, given) {
      forall page | IsPage(page, scope)
        ensures Spared(t, rel, before, given, page) <= Claimed(t, rel, before, given)
      {
        ReachedPage(t, rel, before, given, page);
      }
    } else {
      var id := MissedRow(t, rel, before, given);
      var page: set<int>;
      if |scope| > PAGE || id !in scope {
        page := PageWithout(scope, id);
      } else {
        page := scope;
      }
      assert id in Spared(t, rel, before, given, page) && id !in Claimed(t, rel, before, given);
    }
  }

  lemma MissedRow(t: Table, rel: Relation, before: seq<Row>, given: int) returns (id: int)
    requires !PageReaches(t, rel, before, given)
    ensures id in Strays(t, rel, before, given)
    ensures |Scope(t, rel, given)| > PAGE || id !in Removable(t, rel, given)
  {
    var strays, removable := Strays(t, rel, before, given), Removable(t, rel, given);
    if |Scope(t, rel, given)| > PAGE {
      id := AnyOf(strays);
    } else {
      id := OneNotIn(strays, removable);
    }
  }

  lemma OneNotIn<T>(a: set<T>, b: set<T>) returns (x: T)
    requires !(a <= b)
    ensures x in a && x !in b
  {
    x :| x in a && x !in b;
  }

  lemma ReachedPage(t: Table, rel: Relation, before: seq<Row>, given: int, page: set<int>)
    requires PageReaches(t, rel, before, given) && IsPage(page, Scope(t, rel, given))
    ensures Spared(t, rel, before, given, page) <= Claimed(t, rel, before, given)
  {
    forall id | id in Spared(t, rel, before, given, page)
      ensures id in Claimed(t, rel, before, given)
    {
      if id !in Claimed(t, rel, before, given) {
        assert id in Strays(t, rel, before, given);
        WholePage(page, Scope(t, rel, given));
        if Field(t[id], rel.mapping.pk) in Provided(before, rel, given) {
          ProvidedIsClaimed(t, rel, before, given, id);
        }
      }
    }
  }

  // ----- Models that are known by their primary keys, or new

  /** Before the put every model has a primary key of its own that names a row, or no key at all. */
  predicate KnownOrNew(t: Table, rel: Relation, before: seq<Row>, given: int) {
    && (forall i :: 0 <= i < |before| ==> IsKnown(t, rel.mapping, Filled(before[i], rel.remote, given)))
    && forall i, j :: 0 <= i < j < |before| ==>
      var key := Field(Filled(before[i], rel.remote, given), rel.mapping.pk);
      key != 0 ==> key != Field(Filled(before[j], rel.remote, given), rel.mapping.pk)
  }

  predicate IsKnown(t: Table, m: Mapping, row: Row) {
    if Field(row, m.pk) != 0 then Named(t, row, KeysOf(m)) != {} else FirstPopulated(row, m.uniques) == None
  }

  /** The row of a known model keeps its primary key, and only a model with that key writes it. */
  lemma KnownStep(m: Mapping, requested: Fields, w: Write, id: int)
    requires IsPut(m, requested, w) && id in w.on && Field(w.on[id], m.pk) != 0
    requires Field(w.values, m.pk) == 0 ==> FirstPopulated(w.values, m.uniques) == None
    ensures Field(Written(m, requested, w)[id], m.pk) == Field(w.on[id], m.pk)
    ensures Field(w.values, m.pk) != Field(w.on[id], m.pk) ==> w.row != id
  {
    PrimaryFirst(m, w.values);
    if w.row == id && Field(w.values, m.pk) != 0 {
      NamesByKey(w.on, m, w.values, id);
    }
  }

  /** The model was named by its primary key or by none. */
  predicate ByKey(m: Mapping, w: Write) {
    Field(w.values, m.pk) == 0 ==> FirstPopulated(w.values, m.uniques) == None
  }

  lemma {:induction false} KnownRow(t: Table, m: Mapping, requested: Fields, ws: seq<Write>, n: nat, id: int)
    requires IsChain(t, m, requested, ws) && n <= |ws| && id in t && Field(t[id], m.pk) != 0
    requires forall i :: 0 <= i < n ==> ByKey(m, ws[i]) && Field(ws[i].values, m.pk) != Field(t[id], m.pk)
    ensures
      var u := TableAt(t, m, requested, ws, n);
      id in u && Field(u[id], m.pk) == Field(t[id], m.pk)
  {
    if n > 0 {
      KnownRow(t, m, requested, ws, n - 1, id);
      assert IsLink(t, m, requested, ws, n - 1);
      KnownStep(m, requested, ws[n - 1], id);
    }
  }

  lemma KnownDistinct<T>(ids: seq<T>, now: seq<Row>, before: seq<Row>, rel: Relation, given: int, kept: Table,
                         ws: seq<Write>, i: nat)
    requires Progress(ids, now, before, rel, given, kept, ws) && Separate(ids) && |ws| == |ids|
    requires KnownOrNew(kept, rel, before, given) && i < |ws|
    ensures IsKnown(kept, rel.mapping, ws[i].values) && ByKey(rel.mapping, ws[i])
    ensures forall j :: i < j < |ws| && Field(ws[i].values, rel.mapping.pk) != 0 ==>
      Field(ws[i].values, rel.mapping.pk) != Field(ws[j].values, rel.mapping.pk)
  {
    ValuesOf(ids, now, before, rel, given, kept, ws, i);
    forall j | i < j < |ws| && Field(ws[i].values, rel.mapping.pk) != 0
      ensures Field(ws[i].values, rel.mapping.pk) != Field(ws[j].values, rel.mapping.pk)
    {
      ValuesOf(ids, now, before, rel, given, kept, ws, j);
    }
  }

  lemma RowsDiffer<T>(ids: seq<T>, now: seq<Row>, before: seq<Row>, rel: Relation, given: int, kept: Table,
                      ws: seq<Write>, i: nat, j: nat)
    requires Progress(ids, now, before, rel, given, kept, ws) && Separate(ids) && |ws| == |ids|
    requires KnownOrNew(kept, rel, before, given) && i < j < |ws|
    ensures ws[i].row != ws[j].row
  {
    forall k | 0 <= k <= j
      ensures ByKey(rel.mapping, ws[k]) && IsKnown(kept, rel.mapping, ws[k].values)
      ensures k < j && Field(ws[k].values, rel.mapping.pk) != 0 ==>
        Field(ws[k].values, rel.mapping.pk) != Field(ws[j].values, rel.mapping.pk)
    {
      KnownDistinct(ids, now, before, rel, given, kept, ws, k);
    }
    RowDiffers(kept, rel.mapping, rel.fields, ws, i, j);
  }

  lemma RowDiffers(t: Table, m: Mapping, requested: Fields, ws: seq<Write>, i: nat, j: nat)
    requires IsChain(t, m, requested, ws) && i < j < |ws| && IsKnown(t, m, ws[j].values)
    requires forall k :: 0 <= k <= j ==> ByKey(m, ws[k])
    requires forall k :: 0 <= k < j && Field(ws[k].values, m.pk) != 0 ==>
      Field(ws[k].values, m.pk) != Field(ws[j].values, m.pk)
    ensures ws[i].row != ws[j].row
  {
    assert IsLink(t, m, requested, ws, i) && IsLink(t, m, requested, ws, j);
    PrimaryFirst(m, ws[j].values);
    if Field(ws[j].values, m.pk) != 0 {
      var id := AnyOf(Named(t, ws[j].values, KeysOf(m)));
      NamesByKey(t, m, ws[j].values, id);
      KnownRow(t, m, requested, ws, j, id);
      NamesByKey(ws[j].on, m, ws[j].values, id);
      KnownRow(t, m, requested, ws, i, id);
      KnownStep(m, requested, ws[i], id);
    } else {
      WrittenIsThere(t, m, requested, ws, i, j);
    }
  }

  lemma {:induction false} WrittenIsThere(t: Table, m: Mapping, requested: Fields, ws: seq<Write>, i: nat, n: nat)
    requires IsChain(t, m, requested, ws) && i < n <= |ws|
    ensures ws[i].row in TableAt(t, m, requested, ws, n)
  {
    if n - 1 > i {
      assert IsLink(t, m, requested, ws, n - 1);
      WrittenIsThere(t, m, requested, ws, i, n - 1);
    }
  }

  lemma {:induction false} AllPointExactlyWhen(ws: seq<Write>, n: nat, f: string, v: int)
    requires n <= |ws| && forall i, j :: 0 <= i < j < |ws| ==> ws[i].row != ws[j].row
    ensures LastWith(ws[..n], f, v) == Rows(ws[..n]) <==> forall i :: 0 <= i < n ==> Field(ws[i].values, f) == v
  {
    if n > 0 {
      var init := ws[..n - 1];
      assert ws[..n][..n - 1] == init && ws[..n][n - 1] == ws[n - 1];
      RowsNext(ws, n - 1);
      LastWithin(init, f, v);
      assert ws[n - 1].row !in Rows(init);
      AllPointExactlyWhen(ws, n - 1, f, v);
    }
  }

  /** For models that are known or new: exact, for a page, if and only if every foreign key fits and
      every row that pointed to the parent can go or is a model's. */
  lemma KnownSyncExactlyWhen<T>(ids: seq<T>, now: seq<Row>, before: seq<Row>, rel: Relation, given: int, t: Table,
                                page: set<int>, ws: seq<Write>)
    requires IsRun(ids, now, before, rel, given, t, page, ws) && IsWritten(rel.mapping, rel.fields, rel.remote)
    requires KnownOrNew(t, rel, before, given)
    ensures IsSync(rel, given, TableOf(t, rel, before, given, page, ws), ws) <==>
      AllFit(before, rel.remote, given) && Spared(t, rel, before, given, page) <= Claimed(t, rel, before, given)
  {
    var kept := KeptTable(t, rel, before, given, page);
    StillKnown(t, rel, before, given, page);
    forall i, j | 0 <= i < j < |ws|
      ensures ws[i].row != ws[j].row
    {
      RowsDiffer(ids, now, before, rel, given, kept, ws, i, j);
    }
    forall i | 0 <= i < |ws|
      ensures Field(ws[i].values, rel.remote) == given <==> Field(before[i], rel.remote) in {0, given}
    {
      FitPoints(ids, now, before, rel, given, kept, ws, i);
    }
    assert ws[..|ws|] == ws;
    AllPointExactlyWhen(ws, |ws|, rel.remote, given);
    SyncWhen(ids, now, before, rel, given, t, page, ws);
  }

  lemma StillKnown(t: Table, rel: Relation, before: seq<Row>, given: int, page: set<int>)
    requires KnownOrNew(t, rel, before, given)
    ensures KnownOrNew(KeptTable(t, rel, before, given, page), rel, before, given)
  {
    var kept := KeptTable(t, rel, before, given, page);
    forall i | 0 <= i < |before|
      ensures IsKnown(kept, rel.mapping, Filled(before[i], rel.remote, given))
    {
      var row := Filled(before[i], rel.remote, given);
      assert IsKnown(t, rel.mapping, row);
      if Field(row, rel.mapping.pk) != 0 {
        var id := AnyOf(Named(t, row, KeysOf(rel.mapping)));
        NamesByKey(t, rel.mapping, row, id);
        assert Field(row, rel.mapping.pk) in Provided(before, rel, given);
        NamesByKey(kept, rel.mapping, row, id);
      }
    }
  }

  // ----- Every run

  /** The models that are known or new can be put one after the other. */
  lemma {:induction false} SomeChain(before: seq<Row>, rel: Relation, given: int, kept: Table, n: nat)
    returns (ws: seq<Write>)
    requires KnownOrNew(kept, rel, before, given) && KeyUnique(kept, [rel.mapping.pk]) && n <= |before|
    requires Resolve(rel.fields, rel.mapping.updatable) != {}
    ensures |ws| == n && IsChain(kept, rel.mapping, rel.fields, ws)
    ensures forall i :: 0 <= i < n ==> ws[i].values == Filled(before[i], rel.remote, given)
    ensures KeyUnique(TableAt(kept, rel.mapping, rel.fields, ws, n), [rel.mapping.pk])
  {
    ws := [];
    if n > 0 {
      ws := SomeChain(before, rel, given, kept, n - 1);
      var row, u := Filled(before[n - 1], rel.remote, given), TableAt(kept, rel.mapping, rel.fields, ws, n - 1);
      assert IsKnown(kept, rel.mapping, row);
      if Field(row, rel.mapping.pk) != 0 {
        KnownThen(before, rel, given, kept, ws, n - 1);
      }
      var w := SomePut(u, rel.mapping, rel.fields, row);
      ChainNext(kept, rel.mapping, rel.fields, ws, w);
      ws := ws + [w];
    }
  }

  lemma KnownThen(before: seq<Row>, rel: Relation, given: int, kept: Table, ws: seq<Write>, n: nat)
    requires KnownOrNew(kept, rel, before, given) && n == |ws| < |before|
    requires IsChain(kept, rel.mapping, rel.fields, ws)
    requires forall i :: 0 <= i < n ==> ws[i].values == Filled(before[i], rel.remote, given)
    requires Field(Filled(before[n], rel.remote, given), rel.mapping.pk) != 0
    ensures IsKnown(TableAt(kept, rel.mapping, rel.fields, ws, n), rel.mapping, Filled(before[n], rel.remote, given))
  {
    var m, row := rel.mapping, Filled(before[n], rel.remote, given);
    assert IsKnown(kept, m, row);
    var id := AnyOf(Named(kept, row, KeysOf(m)));
    NamesByKey(kept, m, row, id);
    forall i | 0 <= i < n
      ensures ByKey(m, ws[i]) && Field(ws[i].values, m.pk) != Field(row, m.pk)
    {
      assert IsKnown(kept, m, Filled(before[i], rel.remote, given));
    }
    KnownRow(kept, m, rel.fields, ws, n, id);
    NamesByKey(TableAt(kept, m, rel.fields, ws, n), m, row, id);
  }

  /** A possible put of a known or new model; no primary key occurs twice after it. */
  lemma SomePut(t: Table, m: Mapping, requested: Fields, row: Row) returns (w: Write)
    requires KeyUnique(t, [m.pk]) && IsKnown(t, m, row) && Resolve(requested, m.updatable) != {}
    ensures w.on == t && w.values == row && IsPut(m, requested, w) && KeyUnique(Written(m, requested, w), [m.pk])
  {
    PrimaryFirst(m, row);
    var id, key;
    if Field(row, m.pk) != 0 {
      key := Field(row, m.pk);
      id := AnyOf(Named(t, row, KeysOf(m)));
      NamesByKey(t, m, row, id);
      NamesOne(t, Lookup([m.pk], [key]), id);
    } else {
      var taken := set other | other in t :: Field(t[other], m.pk);
      key := Above(taken);
      id := Above(t.Keys);
      assert forall other :: other in t ==> Field(t[other], m.pk) in taken;
    }
    w := Write(t, id, row, key);
    StillUnique(m, requested, w);
  }

  lemma StillUnique(m: Mapping, requested: Fields, w: Write)
    requires KeyUnique(w.on, [m.pk])
    requires forall other :: other in w.on && other != w.row ==> Field(w.on[other], m.pk) != w.key
    requires w.row in w.on ==> Field(w.on[w.row], m.pk) == w.key == Field(w.values, m.pk)
    ensures KeyUnique(Written(m, requested, w), [m.pk])
  {
    var t := Written(m, requested, w);
    assert Field(t[w.row], m.pk) == w.key;
    forall a, b | a in t && b in t && a != b && HasValues(t[a], [m.pk])
      ensures Values(t[a], [m.pk]) != Values(t[b], [m.pk])
    {
      var va, vb := Values(t[a], [m.pk]), Values(t[b], [m.pk]);
      assert va[0] == Field(t[a], m.pk) && vb[0] == Field(t[b], m.pk);
      if a != w.row && b != w.row {
        assert HasValues(w.on[a], [m.pk]);
      }
    }
  }

  lemma SomeRun<T>(ids: seq<T>, before: seq<Row>, rel: Relation, given: int, t: Table, page: set<int>)
    returns (now: seq<Row>, ws: seq<Write>)
    requires Separate(ids) && |ids| == |before| && KnownOrNew(t, rel, before, given) && KeyUnique(t, [rel.mapping.pk])
    requires Resolve(rel.fields, rel.mapping.updatable) != {}
    ensures IsRun(ids, now, before, rel, given, t, page, ws)
  {
    StillKnown(t, rel, before, given, page);
    var kept, n := KeptTable(t, rel, before, given, page), |ids|;
    assert KeyUnique(kept, [rel.mapping.pk]);
    ws := SomeChain(before, rel, given, kept, n);
    now := seq(n, i requires 0 <= i < n => After(rel.mapping, ws[i]));
    forall j | 0 <= j < n
      ensures IsOf(ids, before, rel, given, ws, j) && Stands(ids, now[j], before[j], rel, given, ws, ids[j])
    {
      assert IsLast(ids, n, j, ids[j]);
    }
  }

  /** Whatever page the database returns, the put leaves exactly the models' rows pointing to the
      parent: if and only if every model's foreign key is zero or the parent's key and either no row
      needs to go or the rows in scope fit a page and all that need to go can. For models that are
      known by their primary keys or new. */
  lemma PutSyncsExactlyWhen<T>(ids: seq<T>, before: seq<Row>, rel: Relation, given: int, t: Table)
    requires IsWritten(rel.mapping, rel.fields, rel.remote) && KnownOrNew(t, rel, before, given)
    requires Separate(ids) && |ids| == |before| && KeyUnique(t, [rel.mapping.pk])
    ensures
      (forall page, now, ws ::
       IsPage(page, Scope(t, rel, given)) && IsRun(ids, now, before, rel, given, t, page, ws) ==>
         IsSync(rel, given, TableOf(t, rel, before, given, page, ws), ws))
      <==> AllFit(before, rel.remote, given) && PageReaches(t, rel, before, given)
  {
    EveryPageExactlyWhen(t, rel, before, given);
    forall page, now, ws | IsPage(page, Scope(t, rel, given)) && IsRun(ids, now, before, rel, given, t, page, ws)
      ensures IsSync(rel, given, TableOf(t, rel, before, given, page, ws), ws) <==>
        AllFit(before, rel.remote, given) && Spared(t, rel, before, given, page) <= Claimed(t, rel, before, given)
    {
      KnownSyncExactlyWhen(ids, now, before, rel, given, t, page, ws);
    }
    if !(AllFit(before, rel.remote, given) && PageReaches(t, rel, before, given)) {
      var page := BadPage(t, rel, before, given);
      var now, ws := SomeRun(ids, before, rel, given, t, page);
      assert IsPage(page, Scope(t, rel, given)) && IsRun(ids, now, before, rel, given, t, page, ws);
    }
  }

  /** A page, and one that does not let every row go if there is one. */
  lemma BadPage(t: Table, rel: Relation, before: seq<Row>, given: int) returns (page: set<int>)
    ensures IsPage(page, Scope(t, rel, given))
    ensures PageReaches(t, rel, before, given) ||
      !(Spared(t, rel, before, given, page) <= Claimed(t, rel, before, given))
  {
    var scope := Scope(t, rel, given);
    if PageReaches(t, rel, before, given) {
      page := Some(scope, if |scope| <= PAGE then |scope| else PAGE);
      Within(page, scope);
    } else {
      EveryPageExactlyWhen(t, rel, before, given);
      page :| IsPage(page, scope) && !(Spared(t, rel, before, given, page) <= Claimed(t, rel, before, given));
    }
  }

  // ----- An input on which the put does not sync

  /** A table with `n` rows of the same parent. */
  function Kids(n: nat): Table {
    map id | 1 <= id <= n :: map["ID" := id, "Parent" := 1]
  }

  function Ids(n: nat): set<int> {
    Kids(n).Keys
  }

  lemma {:induction false} IdsCount(n: nat)
    ensures |Ids(n)| == n
  {
    if n > 0 {
      IdsCount(n - 1);
      assert Ids(n) == Ids(n - 1) + {n};
    }
  }

  function KidsOf(): Relation {
    Relation("Kids", Mapping("kids", "ID", [], {"Parent"}, {"Parent"}), "ID", "Parent", true, All, _ => true)
  }

  lemma KidRows(n: nat)
    ensures RowsWith(Kids(n), "Parent", 1) == Scope(Kids(n), KidsOf(), 1) == Ids(n)
    ensures forall id :: id in Ids(n) ==> Field(Kids(n)[id], "ID") == id
  {
  }

  /** A put of no models for a parent with more rows than a page, of which the database returns the
      first ten: the others still point to the parent. */
  lemma ElevenRows(n: nat)
    requires n > PAGE
    ensures IsPage(Ids(PAGE), Scope(Kids(n), KidsOf(), 1))
    ensures RowsWith(TableOf(Kids(n), KidsOf(), [], 1, Ids(PAGE), []), "Parent", 1) == Ids(n) - Ids(PAGE) != {}
    ensures !IsSync(KidsOf(), 1, TableOf(Kids(n), KidsOf(), [], 1, Ids(PAGE), []), [])
  {
    KidRows(n);
    IdsCount(PAGE);
    assert Provided([], KidsOf(), 1) == {};
    var t, after := Kids(n), TableOf(Kids(n), KidsOf(), [], 1, Ids(PAGE), []);
    assert Orphaned(t, "ID", Ids(PAGE), {}) == Ids(PAGE);
    assert after == t - Ids(PAGE);
    assert RowsWith(after, "Parent", 1) == RowsWith(t, "Parent", 1) - Ids(PAGE);
    assert n in Ids(n) - Ids(PAGE);
  }
}
