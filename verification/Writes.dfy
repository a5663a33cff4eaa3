/** What putting models writes: which row a put overwrites or inserts, what a list of puts leaves in
    a table, and the foreign keys that models get on the way. */
module Writes {
  import opened Lookups
  import opened Options

  /** The requested fields, an empty list being all, and those of a mapping they resolve to. */
  datatype Fields = All | Only(names: set<string>) | Except(names: set<string>)

  function Resolve(requested: Fields, allowed: set<string>): set<string> {
    match requested
    case All => allowed
    case Only(names) => names * allowed
    case Except(names) => allowed - names
  }

  /** A mapping with a primary key of one column and any unique keys; columns go by their fields. */
  datatype Mapping = Mapping(
    table: string, pk: string, uniques: seq<seq<string>>, insertable: set<string>, updatable: set<string>)

  function KeysOf(m: Mapping): seq<seq<string>> {
    [[m.pk]] + m.uniques
  }

  /** A relation: `local` on the parent joins `remote` on the related model. */
  datatype Relation = Relation(
    name: string, mapping: Mapping, local: string, remote: string, toMany: bool, fields: Fields, filter: Row -> bool)

  /** The foreign key is on the parent unless the relation joins by the parent's primary key. */
  predicate FkIsLocal(parent: Mapping, rel: Relation) {
    rel.local != parent.pk
  }

  /** A zero field takes the value `v`; a field that has one keeps it. */
  function Filled(row: Row, f: string, v: int): Row {
    if Field(row, f) == 0 && v != 0 then row[f := v] else row
  }

  // ----- One write

  /** What a row becomes when `written` of its fields take the given values. */
  function Overwrite(row: Row, written: set<string>, values: Row): (r: Row)
    ensures forall f :: Field(r, f) == if f in written then Field(values, f) else Field(row, f)
  {
    map f | f in row.Keys + written :: if f in written then Field(values, f) else row[f]
  }

  /** A model put on table `on`: the row written, the model's fields, and the primary key the model
      has afterwards. */
  datatype Write = Write(on: Table, row: int, values: Row, key: int)

  /** The table after the write: an update where the row exists, an insert where it does not. */
  function Written(m: Mapping, requested: Fields, w: Write): Table {
    if w.row in w.on
    then w.on[w.row := Overwrite(w.on[w.row], Resolve(requested, m.updatable), w.values)]
    else w.on[w.row := Overwrite(map[], Resolve(requested, m.insertable), w.values)[m.pk := w.key]]
  }

  /** An update gives the row those of the model's fields that may be updated and are asked for; an
      insert those that may be inserted and are asked for, and the primary key. No other row differs. */
  lemma WrittenFields(m: Mapping, requested: Fields, w: Write)
    ensures
      var t := Written(m, requested, w);
      && t.Keys == w.on.Keys + {w.row} && (forall id :: id in w.on && id != w.row ==> t[id] == w.on[id])
      && forall f ::
           var asked := requested.All? || (requested.Only? && f in requested.names) ||
             (requested.Except? && f !in requested.names);
           Field(t[w.row], f) ==
             if w.row in w.on then if f in m.updatable && asked then Field(w.values, f) else Field(w.on[w.row], f)
             else if f == m.pk then w.key
             else if f in m.insertable && asked then Field(w.values, f)
             else 0
  {
  }

  function After(m: Mapping, w: Write): Row {
    if w.key == Field(w.values, m.pk) then w.values else w.values[m.pk := w.key]
  }

  /** A new primary key. */
  ghost predicate IsFresh(t: Table, pk: string, key: int) {
    key != 0 && forall id :: id in t ==> Field(t[id], pk) != key
  }

  /** A put that is not refused updates the one row that the model's first populated key names and leaves the model's
      primary key as it is, even zero; where no row is named it inserts one, under the model's
      primary key if the inserted fields include it, else under a new one. */
  ghost predicate IsPut(m: Mapping, requested: Fields, w: Write) {
    var named := Named(w.on, w.values, KeysOf(m));
    && !Refused(w.on, m, requested, w.values)
    && if named != {} then named == {w.row} && w.key == Field(w.values, m.pk)
       else
         && w.row !in w.on
         && if m.pk in Resolve(requested, m.insertable) &&
           Field(w.values, m.pk) != 0 then w.key == Field(w.values, m.pk)
            else IsFresh(w.on, m.pk, w.key)
  }

  /** A put that the database is not to blame for refusing: it would update no field, or it names
      no row by a key that cannot be inserted. */
  predicate Refused(t: Table, m: Mapping, requested: Fields, values: Row) {
    match FirstPopulated(values, KeysOf(m))
    case None => false
    case Some(l) =>
      || Resolve(requested, m.updatable) == {}
      || (NamedBy(t, l) == {} && exists i :: 0 <= i < |l.group| && l.group[i] !in m.insertable)
  }

  /** A put is refused exactly when some key is populated, and either no updatable field is asked for,
      or no row has the key's values and one of the key's fields cannot be inserted. */
  lemma RefusedExactlyWhen(t: Table, m: Mapping, requested: Fields, values: Row)
    ensures Refused(t, m, requested, values) <==>
      exists l :: FirstPopulated(values, KeysOf(m)) == Some(l) && MayNotPut(t, m, requested, l)
  {
    var key := FirstPopulated(values, KeysOf(m));
    if key.Some? {
      var l := key.value;
      if NamedBy(t, l) != {} {
        var id := AnyOf(NamedBy(t, l));
        assert Values(t[id], l.group) == l.values;
      } else {
        assert forall id :: id in t && Values(t[id], l.group) == l.values ==> id in NamedBy(t, l);
      }
      NothingAsked(requested, m.updatable);
      assert Refused(t, m, requested, values) <==> MayNotPut(t, m, requested, l);
    }
  }

  lemma NothingAsked(requested: Fields, allowed: set<string>)
    ensures Resolve(requested, allowed) == {} <==> forall f :: f in allowed ==>
      (requested.Only? && f !in requested.names) || (requested.Except? && f in requested.names)
  {
    if Resolve(requested, allowed) != {} {
      var f := AnyOf(Resolve(requested, allowed));
    } else {
      forall f | f in allowed
        ensures (requested.Only? && f !in requested.names) || (requested.Except? && f in requested.names)
      {
        assert f !in Resolve(requested, allowed);
      }
    }
  }

  predicate MayNotPut(t: Table, m: Mapping, requested: Fields, l: Lookup) {
    || (forall f :: f in m.updatable ==>
          (requested.Only? && f !in requested.names) || (requested.Except? && f in requested.names))
    || ((forall id :: id in t ==> Values(t[id], l.group) != l.values) &&
        exists i :: 0 <= i < |l.group| && l.group[i] !in m.insertable)
  }

  /** The model has no primary key but names a row by a unique key. */
  predicate KnownByUnique(t: Table, m: Mapping, values: Row) {
    Field(values, m.pk) == 0 && Named(t, values, m.uniques) != {}
  }

  lemma PrimaryFirst(m: Mapping, values: Row)
    ensures FirstPopulated(values, KeysOf(m)) ==
      if Field(values, m.pk) != 0 then Some(Lookup([m.pk], [Field(values, m.pk)]))
        else FirstPopulated(values, m.uniques)
  {
    var keys := KeysOf(m);
    assert keys[0] == [m.pk] && keys[1..] == m.uniques;
    assert Values(values, [m.pk]) == [Field(values, m.pk)];
    assert HasValues(values, keys[0]) <==> Field(values, m.pk) != 0 by {
      assert Values(values, [m.pk])[0] == Field(values, m.pk);
    }
  }

  /** A put leaves the model without a primary key exactly if it had none and the first of its
      populated unique keys names a row. */
  lemma KeyZeroExactlyWhen(m: Mapping, requested: Fields, w: Write)
    requires IsPut(m, requested, w)
    ensures w.key == 0 <==> KnownByUnique(w.on, m, w.values)
  {
    PrimaryFirst(m, w.values);
  }

  /** The primary key of the row that was written. */
  function RowKey(m: Mapping, requested: Fields, w: Write): int {
    Field(Written(m, requested, w)[w.row], m.pk)
  }

  /** A model that has a primary key has its row's key after a put. */
  lemma KeyIsRowKey(m: Mapping, requested: Fields, w: Write)
    requires IsPut(m, requested, w) && w.key != 0
    ensures RowKey(m, requested, w) == w.key
  {
    PrimaryFirst(m, w.values);
    if w.row in w.on {
      var l := FirstPopulated(w.values, KeysOf(m)).value;
      assert l == Lookup([m.pk], [w.key]);
      assert w.row in NamedBy(w.on, l);
      assert Values(w.on[w.row], [m.pk])[0] == w.key;
    }
  }

  /** The key by which a parent refers to a related model that it was put with: the one the model
      had before, or else the one it got. */
  function RefOf(rel: Relation, w: Write): int {
    if Field(w.values, rel.remote) != 0 then Field(w.values, rel.remote)
    else if rel.remote == rel.mapping.pk then w.key
    else 0
  }

  /** Before a put: the key a model is referred to by will be its row's key. */
  predicate KeyFits(t: Table, m: Mapping, requested: Fields, values: Row) {
    if Field(values, m.pk) != 0 then Named(t, values, KeysOf(m)) != {} || m.pk in Resolve(requested, m.insertable)
    else Named(t, values, m.uniques) == {}
  }

  /** The parent refers to the model's row. */
  ghost predicate Refers(rel: Relation, w: Write) {
    RefOf(rel, w) == RowKey(rel.mapping, rel.fields, w) != 0
  }

  ghost predicate IsPutOf(rel: Relation, t: Table, values: Row, w: Write) {
    w.on == t && w.values == values && IsPut(rel.mapping, rel.fields, w)
  }

  /** A relation by the related model's primary key: whatever keys the database generates, the
      parent refers to the model's row, exactly if the model's key fits before the put or the put is
      refused, so that it has no outcome. */
  lemma RefersExactlyWhen(rel: Relation, t: Table, values: Row)
    requires rel.remote == rel.mapping.pk && forall key :: key in KeysOf(rel.mapping) ==> KeyUnique(t, key)
    ensures (forall w :: IsPutOf(rel, t, values, w) ==> Refers(rel, w)) <==>
      KeyFits(t, rel.mapping, rel.fields, values) || Refused(t, rel.mapping, rel.fields, values)
  {
    if KeyFits(t, rel.mapping, rel.fields, values) || Refused(t, rel.mapping, rel.fields, values) {
      forall w | IsPutOf(rel, t, values, w)
        ensures Refers(rel, w)
      {
        FitsRefers(rel, w);
      }
    } else {
      var w := MisfitOutcome(rel, t, values);
      assert IsPutOf(rel, t, values, w);
    }
  }

  lemma FitsRefers(rel: Relation, w: Write)
    requires rel.remote == rel.mapping.pk && IsPut(rel.mapping, rel.fields, w)
    requires KeyFits(w.on, rel.mapping, rel.fields, w.values)
    ensures Refers(rel, w)
  {
    PrimaryFirst(rel.mapping, w.values);
    KeyZeroExactlyWhen(rel.mapping, rel.fields, w);
    KeyIsRowKey(rel.mapping, rel.fields, w);
  }

  /** Where the key does not fit, one possible outcome: the named row updated, and the parent left
      without a key, or a row inserted under another key than the parent refers to. */
  lemma MisfitOutcome(rel: Relation, t: Table, values: Row) returns (w: Write)
    requires rel.remote == rel.mapping.pk
    requires !KeyFits(t, rel.mapping, rel.fields, values) && !Refused(t, rel.mapping, rel.fields, values)
    requires Field(values, rel.mapping.pk) == 0 ==> forall key :: key in KeysOf(rel.mapping) ==> KeyUnique(t, key)
    ensures IsPutOf(rel, t, values, w) && !Refers(rel, w)
  {
    var m := rel.mapping;
    PrimaryFirst(m, values);
    if Field(values, m.pk) == 0 {
      var l := FirstPopulated(values, m.uniques).value;
      FirstIsAKey(values, m.uniques);
      var id := AnyOf(NamedBy(t, l));
      assert l.group in KeysOf(m);
      NamesOne(t, l, id);
      w := Write(t, id, values, 0);
    } else {
      var row := Above(t.Keys);
      var taken := (set id | id in t :: Field(t[id], m.pk)) + {Field(values, m.pk)};
      var key := Above(taken);
      w := Write(t, row, values, key);
      forall id | id in t
        ensures Field(t[id], m.pk) != key
      {
        assert Field(t[id], m.pk) in taken;
      }
    }
  }

  // ----- Lists of writes

  function Rows(ws: seq<Write>): set<int> {
    set i | 0 <= i < |ws| :: ws[i].row
  }

  /** The table before the i-th write, and after the last one. */
  function TableAt(t: Table, m: Mapping, requested: Fields, ws: seq<Write>, i: nat): Table
    requires i <= |ws|
  {
    if i == 0 then t else Written(m, requested, ws[i - 1])
  }

  /** Puts one after the other. */
  ghost predicate IsChain(t: Table, m: Mapping, requested: Fields, ws: seq<Write>) {
    forall i :: 0 <= i < |ws| ==> IsLink(t, m, requested, ws, i)
  }

  ghost predicate IsLink(t: Table, m: Mapping, requested: Fields, ws: seq<Write>, i: nat)
    requires i < |ws|
  {
    ws[i].on == TableAt(t, m, requested, ws, i) && IsPut(m, requested, ws[i])
  }

  lemma ChainNext(t: Table, m: Mapping, requested: Fields, ws: seq<Write>, w: Write)
    requires IsChain(t, m, requested, ws) && IsPut(m, requested, w) && w.on == TableAt(t, m, requested, ws, |ws|)
    ensures IsChain(t, m, requested, ws + [w])
    ensures TableAt(t, m, requested, ws + [w], |ws| + 1) == Written(m, requested, w)
  {
    var all := ws + [w];
    forall i | 0 <= i < |all|
      ensures IsLink(t, m, requested, all, i)
    {
      if i < |ws| {
        assert IsLink(t, m, requested, ws, i) && TableAt(t, m, requested, all, i) == TableAt(t, m, requested, ws, i);
      }
    }
  }

  function Logged(table: string, ws: seq<Write>): seq<(string, Write)> {
    seq(|ws|, i requires 0 <= i < |ws| => (table, ws[i]))
  }

  lemma LoggedAppend(log: seq<(string, Write)>, table: string, ws: seq<Write>, w: Write)
    ensures log + Logged(table, ws + [w]) == log + Logged(table, ws) + [(table, w)]
  {
    assert Logged(table, ws + [w]) == Logged(table, ws) + [(table, w)];
  }

  // ----- Putting the models of a relation

  /** The same row but for one field. */
  ghost predicate SameBut(f: string, a: Row, b: Row) {
    forall g :: g != f ==> Field(a, g) == Field(b, g)
  }

  /** A model not yet put: at most its foreign key was filled in. */
  ghost predicate Half(row: Row, orig: Row, rel: Relation, given: int) {
    row == orig || row == Filled(orig, rel.remote, given)
  }

  /** The i-th write is of the i-th model with its foreign key; an object that stands in the list
      again may have got its primary key since. */
  ghost predicate IsOf<T>(ids: seq<T>, before: seq<Row>, rel: Relation, given: int, ws: seq<Write>, i: nat)
    requires i < |ws| <= |ids| == |before|
  {
    && SameBut(rel.mapping.pk, ws[i].values, Filled(before[i], rel.remote, given))
    && (ids[i] !in ids[..i] ==> ws[i].values == Filled(before[i], rel.remote, given))
  }

  ghost predicate IsLast<T>(ids: seq<T>, n: nat, i: nat, id: T)
    requires n <= |ids|
  {
    i < n && ids[i] == id && forall k :: i < k < n ==> ids[k] != id
  }

  /** A model is as its last put left it. */
  ghost predicate Stands<T>(ids: seq<T>, row: Row, orig: Row, rel: Relation, given: int, ws: seq<Write>, id: T)
    requires |ws| <= |ids|
  {
    if id in ids[..|ws|] then exists i: nat :: IsLast(ids, |ws|, i, id) && row == After(rel.mapping, ws[i])
    else Half(row, orig, rel, given)
  }

  /** Where a put of related models stands, after as many models as there are writes. */
  ghost predicate Progress<T>(ids: seq<T>, now: seq<Row>, before: seq<Row>, rel: Relation, given: int, kept: Table,
                              ws: seq<Write>) {
    && |now| == |before| == |ids| && |ws| <= |ids|
    && IsChain(kept, rel.mapping, rel.fields, ws)
    && (forall i :: 0 <= i < |ws| ==> IsOf(ids, before, rel, given, ws, i))
    && (forall j :: 0 <= j < |ids| ==> Stands(ids, now[j], before[j], rel, given, ws, ids[j]))
  }

  /** One row for one object. */
  ghost predicate ByObject<T>(ids: seq<T>, rows: seq<Row>) {
    |ids| == |rows| && forall i, j :: 0 <= i < |ids| && 0 <= j < |ids| && ids[i] == ids[j] ==> rows[i] == rows[j]
  }

  lemma Advance<T>(ids: seq<T>, now: seq<Row>, next: seq<Row>, before: seq<Row>, rel: Relation, given: int, kept: Table,
                       ws: seq<Write>, w: Write)
    requires Progress(ids, now, before, rel, given, kept, ws) && ByObject(ids, before) && |ws| < |ids| == |next|
    requires IsPut(rel.mapping, rel.fields, w) && w.on == TableAt(kept, rel.mapping, rel.fields, ws, |ws|)
    requires w.values == Filled(now[|ws|], rel.remote, given)
    requires forall j :: 0 <= j < |ids| ==> next[j] == if ids[j] == ids[|ws|] then After(rel.mapping, w) else now[j]
    ensures Progress(ids, next, before, rel, given, kept, ws + [w])
  {
    ChainNext(kept, rel.mapping, rel.fields, ws, w);
    AdvancedAllOf(ids, now, before, rel, given, kept, ws, w);
    forall j | 0 <= j < |ids|
      ensures Stands(ids, next[j], before[j], rel, given, ws + [w], ids[j])
    {
      assert Stands(ids, now[j], before[j], rel, given, ws, ids[j]);
      AdvancedStands(ids, now[j], before[j], rel, given, ws, w, ids[j]);
    }
  }

  lemma AdvancedAllOf<T>(ids: seq<T>, now: seq<Row>, before: seq<Row>, rel: Relation, given: int, kept: Table,
                         ws: seq<Write>,
                             w: Write)
    requires Progress(ids, now, before, rel, given, kept, ws) && ByObject(ids, before) && |ws| < |ids|
    requires w.values == Filled(now[|ws|], rel.remote, given)
    ensures forall i :: 0 <= i <= |ws| ==> IsOf(ids, before, rel, given, ws + [w], i)
  {
    forall i | 0 <= i <= |ws|
      ensures IsOf(ids, before, rel, given, ws + [w], i)
    {
      if i < |ws| {
        assert IsOf(ids, before, rel, given, ws, i) && (ws + [w])[i] == ws[i];
      } else {
        AdvancedIsOf(ids, now, before, rel, given, kept, ws, w);
      }
    }
  }

  lemma AdvancedIsOf<T>(ids: seq<T>, now: seq<Row>, before: seq<Row>, rel: Relation, given: int, kept: Table,
                        ws: seq<Write>,
                            w: Write)
    requires Progress(ids, now, before, rel, given, kept, ws) && ByObject(ids, before) && |ws| < |ids|
    requires w.values == Filled(now[|ws|], rel.remote, given)
    ensures IsOf(ids, before, rel, given, ws + [w], |ws|)
  {
    var n, pk := |ws|, rel.mapping.pk;
    assert Stands(ids, now[n], before[n], rel, given, ws, ids[n]);
    if ids[n] in ids[..n] {
      var i: nat :| IsLast(ids, n, i, ids[n]) && now[n] == After(rel.mapping, ws[i]);
      assert IsOf(ids, before, rel, given, ws, i) && before[i] == before[n];
      FilledAgain(ws[i], before[n], rel, given);
    }
  }

  lemma FilledAgain(w: Write, orig: Row, rel: Relation, given: int)
    requires SameBut(rel.mapping.pk, w.values, Filled(orig, rel.remote, given))
    ensures SameBut(rel.mapping.pk, Filled(After(rel.mapping, w), rel.remote, given), Filled(orig, rel.remote, given))
  {
    var pk, f, filled := rel.mapping.pk, rel.remote, Filled(orig, rel.remote, given);
    assert f != pk ==> Field(w.values, f) == Field(filled, f);
    forall g | g != pk
      ensures Field(Filled(After(rel.mapping, w), f, given), g) == Field(filled, g)
    {
      assert Field(w.values, g) == Field(filled, g);
    }
  }

  lemma AdvancedStands<T>(ids: seq<T>, row: Row, orig: Row, rel: Relation, given: int, ws: seq<Write>, w: Write, id: T)
    requires |ws| < |ids| && Stands(ids, row, orig, rel, given, ws, id)
    ensures
      var next := if id == ids[|ws|] then After(rel.mapping, w) else row;
      Stands(ids, next, orig, rel, given, ws + [w], id)
  {
    var n, all := |ws|, ws + [w];
    assert ids[..n + 1] == ids[..n] + [ids[n]];
    if id == ids[n] {
      assert IsLast(ids, n + 1, n, id) && all[n] == w;
    } else if id in ids[..n] {
      var i: nat :| IsLast(ids, n, i, id) && row == After(rel.mapping, ws[i]);
      assert IsLast(ids, n + 1, i, id) && all[i] == ws[i];
    }
  }

  /** Nothing but the primary key differs, or else the foreign key was filled in as well. */
  ghost predicate Kept(row: Row, orig: Row, rel: Relation, given: int) {
    || SameBut(rel.mapping.pk, row, orig)
    || SameBut(rel.mapping.pk, row, Filled(orig, rel.remote, given))
  }

  ghost predicate AllKept(rows: seq<Row>, before: seq<Row>, rel: Relation, given: int) {
    |rows| == |before| && forall j :: 0 <= j < |rows| ==> Kept(rows[j], before[j], rel, given)
  }

  lemma StepKept(row: Row, orig: Row, rel: Relation, given: int, now: Row)
    requires Kept(row, orig, rel, given)
    requires now == Filled(row, rel.remote, given) ||
      now == Filled(row, rel.remote, given)[rel.mapping.pk := Field(now, rel.mapping.pk)]
    ensures Kept(now, orig, rel, given)
  {
    var pk, f, filled := rel.mapping.pk, rel.remote, Filled(orig, rel.remote, given);
    var same := if SameBut(pk, row, orig) then orig else filled;
    assert f != pk ==> Field(row, f) == Field(same, f);
    forall g | g != pk
      ensures Field(now, g) == Field(filled, g)
    {
      assert Field(row, g) == Field(same, g);
    }
  }

  lemma AdvanceKept(now: seq<Row>, next: seq<Row>, before: seq<Row>, rel: Relation, given: int, i: nat)
    requires AllKept(now, before, rel, given) && i < |before| == |next|
    requires next[i] == Filled(now[i], rel.remote, given)
      || next[i] == Filled(now[i], rel.remote, given)[rel.mapping.pk := Field(next[i], rel.mapping.pk)]
    requires forall j :: 0 <= j < |next| ==> next[j] == now[j] || (now[j] == now[i] && next[j] == next[i])
    ensures AllKept(next, before, rel, given)
  {
    forall j | 0 <= j < |next|
      ensures Kept(next[j], before[j], rel, given)
    {
      if next[j] != now[j] {
        StepKept(now[j], before[j], rel, given, next[j]);
      }
    }
  }

  // ----- The rows of a relation

  /** The rows whose field `f` is `v`. */
  function RowsWith(t: Table, f: string, v: int): set<int> {
    set id | id in t && Field(t[id], f) == v
  }

  /** The rows in a relation's scope for a parent: its foreign key and its filter. */
  function Scope(t: Table, rel: Relation, parentKey: int): set<int> {
    set id | id in t && Field(t[id], rel.remote) == parentKey && rel.filter(t[id])
  }

  /** The capacity of the list the existing related rows are read into. */
  const PAGE := 10

  /** One page of the rows in a scope. */
  predicate IsPage(found: set<int>, scope: set<int>) {
    && found <= scope
    && |found| <= PAGE
    && (found == scope || |found| == PAGE)
  }

  /** The primary keys that the provided models have once they got their foreign keys. */
  function Provided(before: seq<Row>, rel: Relation, given: int): set<int> {
    set i | 0 <= i < |before| && Field(Filled(before[i], rel.remote, given), rel.mapping.pk) != 0 ::
      Field(Filled(before[i], rel.remote, given), rel.mapping.pk)
  }

  /** The rows of a page that are not provided. One without a primary key cannot be told and stays. */
  function Orphaned(t: Table, pk: string, page: set<int>, provided: set<int>): set<int> {
    set id | id in page && id in t && Field(t[id], pk) != 0 && Field(t[id], pk) !in provided
  }
}
