/** One model's part of a cascading put: the models it refers to, the model, the models that refer
    to it. */
module Cascades {
  import opened Lookups
  import opened Options
  import opened Orphans
  import opened Repositories
  import opened Writes

  /** Every object a put may change. */
  ghost function Cast(parent: Model, rels: seq<Relation>): set<Model>
    reads parent`rels
  {
    set i, c | 0 <= i < |rels| && c in parent.Related(rels[i].name) :: c
  }

  ghost predicate WellRelated(parent: Model, rel: Relation)
    reads parent`rels
  {
    && parent !in parent.Related(rel.name)
    && (forall c :: c in parent.Related(rel.name) ==> c.mapping == rel.mapping)
    && (rel.toMany ==> !FkIsLocal(parent.mapping, rel))
    && (!rel.toMany ==> |parent.Related(rel.name)| <= 1)
  }

  /** But for the primary key, a field that had a value has it still, and one that had none has
      none or the key it refers to. */
  ghost predicate OnlyFilled(row: Row, orig: Row, pk: string, key: int) {
    forall f :: f != pk ==> Field(row, f) == Field(orig, f) || (Field(orig, f) == 0 && Field(row, f) == key)
  }

  /** A field that had a value has it still. */
  ghost predicate Unlost(row: Row, orig: Row) {
    forall f :: Field(orig, f) != 0 ==> Field(row, f) == Field(orig, f)
  }

  ghost predicate UnlostBut(row: Row, orig: Row, pk: string) {
    forall f :: f != pk && Field(orig, f) != 0 ==> Field(row, f) == Field(orig, f)
  }

  /** The parent's row once it refers to the models written before it, relation by relation. */
  function Referred(row: Row, m: Mapping, rels: seq<Relation>, writes: seq<seq<Write>>): Row
    requires |rels| == |writes|
  {
    if rels == [] then row
    else
      var n := |rels| - 1;
      var init := Referred(row, m, rels[..n], writes[..n]);
      if writes[n] == [] then init else Referring(init, m, rels[n], writes[n][0])
  }

  function LogOf(rels: seq<Relation>, writes: seq<seq<Write>>): seq<(string, Write)>
    requires |rels| == |writes|
  {
    if rels == [] then []
    else
      var n := |rels| - 1;
      LogOf(rels[..n], writes[..n]) + Logged(rels[n].mapping.table, writes[n])
  }

  /** A related model and its write refer to the parent's key, unless it referred to another. */
  ghost predicate RefersTo(row: Row, before: Row, write: Write, rel: Relation, key: int) {
    var fk := if Field(before, rel.remote) != 0 then Field(before, rel.remote) else key;
    Field(row, rel.remote) == fk && Field(write.values, rel.remote) == fk
  }

  lemma KeptOnlyFills(row: Row, orig: Row, rel: Relation, given: int)
    requires Kept(row, orig, rel, given)
    ensures OnlyFilled(row, orig, rel.mapping.pk, given)
  {
  }

  lemma PutRefers<T>(ids: seq<T>, now: seq<Row>, before: seq<Row>, rel: Relation, key: int, kept: Table, ws: seq<Write>,
                     i: nat)
    requires Progress(ids, now, before, rel, key, kept, ws) && ByObject(ids, before)
    requires i < |ws| == |ids| && rel.remote != rel.mapping.pk
    ensures RefersTo(now[i], before[i], ws[i], rel, key)
  {
    OfRefers(ids, before, rel, key, ws, i);
    assert Stands(ids, now[i], before[i], rel, key, ws, ids[i]);
    assert ids[..|ws|] == ids;
    var j: nat :| IsLast(ids, |ws|, j, ids[i]) && now[i] == After(rel.mapping, ws[j]);
    OfRefers(ids, before, rel, key, ws, j);
    AfterField(rel.mapping, ws[j], rel.remote);
    assert before[j] == before[i];
  }

  lemma AfterField(m: Mapping, w: Write, f: string)
    requires f != m.pk
    ensures Field(After(m, w), f) == Field(w.values, f)
  {
  }

  lemma OfRefers<T>(ids: seq<T>, before: seq<Row>, rel: Relation, key: int, ws: seq<Write>, i: nat)
    requires i < |ws| <= |ids| == |before| && IsOf(ids, before, rel, key, ws, i) && rel.remote != rel.mapping.pk
    ensures
      var fk := Field(before[i], rel.remote);
      Field(ws[i].values, rel.remote) == if fk != 0 then fk else key
  {
    assert Field(ws[i].values, rel.remote) == Field(Filled(before[i], rel.remote, key), rel.remote);
  }

  lemma StillRefers(row: Row, mid: Row, before: Row, write: Write, rel: Relation, key: int)
    requires RefersTo(mid, before, write, rel, key) && OnlyFilled(row, mid, rel.mapping.pk, key) &&
      rel.remote != rel.mapping.pk
    ensures RefersTo(row, before, write, rel, key)
  {
  }

  lemma RefersSince(row: Row, mid: Row, before: Row, write: Write, rel: Relation, key: int)
    requires RefersTo(row, mid, write, rel, key) && OnlyFilled(mid, before, rel.mapping.pk, key) &&
      rel.remote != rel.mapping.pk
    ensures RefersTo(row, before, write, rel, key)
  {
  }

  lemma FilledThen(row: Row, mid: Row, orig: Row, pk: string, key: int)
    requires OnlyFilled(row, mid, pk, key) && OnlyFilled(mid, orig, pk, key)
    ensures OnlyFilled(row, orig, pk, key)
  {
  }

  lemma FilledNone(row: Row, orig: Row, pk: string, key: int)
    requires OnlyFilled(row, orig, pk, 0)
    ensures OnlyFilled(row, orig, pk, key)
  {
  }

  ghost predicate NonLocalFk(parent: Model, rel: Relation) {
    !FkIsLocal(parent.mapping, rel) && rel.remote != rel.mapping.pk
  }

  /** Every write is a put of its model; a to-one relation's is one of the table and the model as
      they were, with the foreign key it was given. */
  ghost predicate IsPutOfOne(rel: Relation, t: Table, rows: seq<Row>, given: int, ws: seq<Write>) {
    && (forall i :: 0 <= i < |ws| ==> IsPut(rel.mapping, rel.fields, ws[i]))
    && (!rel.toMany && ws != [] ==> rows != [] && IsPutOf(rel, t, Filled(rows[0], rel.remote, given), ws[0]))
  }

  lemma ChainOfOne<T>(ids: seq<T>, now: seq<Row>, before: seq<Row>, rel: Relation, given: int, kept: Table,
                      ws: seq<Write>)
    requires Progress(ids, now, before, rel, given, kept, ws) && (!rel.toMany ==> |ids| <= 1)
    ensures IsPutOfOne(rel, kept, before, given, ws)
    ensures rel.toMany ==> forall t :: IsPutOfOne(rel, t, before, given, ws)
  {
    forall i | 0 <= i < |ws|
      ensures IsPut(rel.mapping, rel.fields, ws[i])
    {
      assert IsLink(kept, rel.mapping, rel.fields, ws, i);
    }
    if ws != [] {
      assert IsOf(ids, before, rel, given, ws, 0) && IsLink(kept, rel.mapping, rel.fields, ws, 0);
    }
  }

  /** One relation of the cascade. */
  method PutNext(db: Database, parent: Model, rel: Relation) returns (ok: bool, ghost writes: seq<Write>)
    requires WellRelated(parent, rel) && db.Valid() && db.Maps(rel.mapping)
    modifies db, parent`fields, (set c | c in parent.Related(rel.name))`fields
    ensures parent.Key() == old(parent.Key()) && db.Valid()
    ensures OnlyTable(old(db.tables), db.tables, rel.mapping.table)
    ensures forall c :: c in parent.Related(rel.name) ==>
      OnlyFilled(c.fields, old(c.fields), c.mapping.pk, Given(parent, rel))
    ensures Tried(parent.fields, old(parent.fields), parent.mapping, rel)
    ensures if ok then db.failed == old(db.failed) else db.failed || SomeRefused(db, rel, parent.Related(rel.name))
    ensures ok ==>
      parent.fields == if writes == [] then old(parent.fields)
        else Referring(old(parent.fields), parent.mapping, rel, writes[0])
    ensures ok ==> |writes| == |parent.Related(rel.name)| && db.log == old(db.log) + Logged(rel.mapping.table, writes)
    ensures ok ==>
      IsPutOfOne(rel, old(db.T(rel.mapping.table)), old(Snapshot(parent.Related(rel.name))), Given(parent, rel), writes)
    ensures ok ==>
      TableDone(old(db.T(rel.mapping.table)), db.T(rel.mapping.table), rel, old(Snapshot(parent.Related(rel.name))),
                Given(parent, rel), writes)
    ensures ok && NonLocalFk(parent, rel) ==> forall i :: 0 <= i < |writes| ==>
      RefersTo(parent.Related(rel.name)[i].fields, old(parent.Related(rel.name)[i].fields), writes[i], rel,
               Given(parent, rel))
  {
    ghost var t, given := db.T(rel.mapping.table), Given(parent, rel);
    ghost var before, page := Snapshot(parent.Related(rel.name)), {};
    StartsByObject(parent.Related(rel.name), before);
    ok, page, writes := PutRelatedModels(db, parent, rel);
    ghost var rows := Snapshot(parent.Related(rel.name));
    forall c | c in parent.Related(rel.name)
      ensures OnlyFilled(c.fields, old(c.fields), c.mapping.pk, Given(parent, rel))
    {
      var i :| 0 <= i < |rows| && parent.Related(rel.name)[i] == c;
      assert rows[i] == c.fields && before[i] == old(c.fields);
      KeptOnlyFills(rows[i], before[i], rel, given);
    }
    if ok {
      ghost var kept := if rel.toMany then KeptTable(t, rel, before, given, page) else t;
      ChainOfOne(parent.Related(rel.name), rows, before, rel, given, kept, writes);
      if NonLocalFk(parent, rel) {
        forall i | 0 <= i < |writes|
          ensures RefersTo(rows[i], before[i], writes[i], rel, given)
        {
          PutRefers(parent.Related(rel.name), rows, before, rel, given, kept, writes, i);
        }
      }
    }
  }

  lemma ReferredAppend(row: Row, log: seq<(string, Write)>, m: Mapping, rels: seq<Relation>, writes: seq<seq<Write>>,
                       more: seq<Write>)
    requires |writes| < |rels|
    ensures
      var n := |writes|;
      && (Referred(row, m, rels[..n + 1], writes + [more]) ==
            if more == [] then Referred(row, m, rels[..n], writes)
            else Referring(Referred(row, m, rels[..n], writes), m, rels[n], more[0]))
      && log + LogOf(rels[..n + 1], writes + [more]) == log + LogOf(rels[..n], writes) +
        Logged(rels[n].mapping.table, more)
  {
    var n := |writes|;
    assert rels[..n + 1][..n] == rels[..n] && (writes + [more])[..n] == writes;
    assert LogOf(rels[..n + 1], writes + [more]) == LogOf(rels[..n], writes) + Logged(rels[n].mapping.table, more);
  }

  /** The parent's row after some of the relations, the last of which may have failed. */
  ghost predicate ReferredSoFar(row: Row, orig: Row, m: Mapping, rels: seq<Relation>, writes: seq<seq<Write>>) {
    && |writes| <= |rels|
    && var done := Referred(orig, m, rels[..|writes|], writes);
       row == done || (|writes| < |rels| && Tried(row, done, m, rels[|writes|]))
  }

  /** However far the relations were put, the parent lost nothing. */
  lemma {:induction false} ReferredUnlost(orig: Row, row: Row, m: Mapping, rels: seq<Relation>, writes: seq<seq<Write>>)
    requires ReferredSoFar(row, orig, m, rels, writes)
    ensures Unlost(row, orig)
  {
    var n := |writes|;
    if n > 0 {
      assert rels[..n][..n - 1] == rels[..n - 1] && rels[..n][n - 1] == rels[n - 1];
      ReferredUnlost(orig, Referred(orig, m, rels[..n - 1], writes[..n - 1]), m, rels, writes[..n - 1]);
    }
  }

  /** A relation that shares its column with no other: a foreign key with a value stays, a zero one
      ends as the key of the write. */
  lemma {:induction false} ReferredField(row: Row, m: Mapping, rels: seq<Relation>, writes: seq<seq<Write>>, r: nat)
    requires |rels| == |writes| && r < |rels| && writes[r] != []
    requires forall i :: 0 <= i < |rels| ==> FkIsLocal(m, rels[i])
    requires forall i :: 0 <= i < |rels| && i != r ==> rels[i].local != rels[r].local
    ensures
      var fk := Field(row, rels[r].local);
      Field(Referred(row, m, rels, writes), rels[r].local) == if fk != 0 then fk else RefOf(rels[r], writes[r][0])
  {
    var n := |rels| - 1;
    if r < n {
      ReferredField(row, m, rels[..n], writes[..n], r);
    } else {
      KeepsOthers(row, m, rels[..n], writes[..n], rels[r].local);
    }
  }

  /** The r-th write replaced. */
  function WithWrite(writes: seq<seq<Write>>, r: nat, w: Write): seq<seq<Write>>
    requires r < |writes|
  {
    writes[r := [w]]
  }

  /** A zero foreign key ends as the primary key of the related model's row: whatever keys the
      database generates, if and only if the model's key fits the table before it is put, or the put
      is refused and has no outcome. */
  lemma RefersToWritten(row: Row, m: Mapping, rels: seq<Relation>, writes: seq<seq<Write>>, r: nat, t: Table,
                        values: Row)
    requires |rels| == |writes| && r < |rels|
    requires forall i :: 0 <= i < |rels| ==> FkIsLocal(m, rels[i])
    requires forall i :: 0 <= i < |rels| && i != r ==> rels[i].local != rels[r].local
    requires Field(row, rels[r].local) == 0 && rels[r].remote == rels[r].mapping.pk
    requires forall key :: key in KeysOf(rels[r].mapping) ==> KeyUnique(t, key)
    ensures
      (forall w :: IsPutOf(rels[r], t, values, w) ==>
         Field(Referred(row, m, rels, WithWrite(writes, r, w)), rels[r].local) ==
           RowKey(rels[r].mapping, rels[r].fields, w) != 0)
      <==> KeyFits(t, rels[r].mapping, rels[r].fields, values) || Refused(t, rels[r].mapping, rels[r].fields, values)
  {
    RefersExactlyWhen(rels[r], t, values);
    forall w | IsPutOf(rels[r], t, values, w)
      ensures Field(Referred(row, m, rels, WithWrite(writes, r, w)), rels[r].local) == RefOf(rels[r], w)
    {
      ReferredField(row, m, rels, WithWrite(writes, r, w), r);
    }
  }

  lemma {:induction false} KeepsOthers(row: Row, m: Mapping, rels: seq<Relation>, writes: seq<seq<Write>>, f: string)
    requires |rels| == |writes|
    requires forall i :: 0 <= i < |rels| ==> rels[i].local != f
    ensures Field(Referred(row, m, rels, writes), f) == Field(row, f)
  {
    if rels == [] {
    } else {
      var n := |rels| - 1;
      KeepsOthers(row, m, rels[..n], writes[..n], f);
    }
  }

  /** Some put of the relations has to be refused, as the tables and the models are. */
  ghost predicate AnyRefused(db: Database, parent: Model, rels: seq<Relation>)
    reads db, parent`rels, Cast(parent, rels)`fields
  {
    exists r :: 0 <= r < |rels| && SomeRefused(db, rels[r], parent.Related(rels[r].name))
  }

  /** The database is unique in the related mappings' keys. */
  predicate AllMapped(db: Database, rels: seq<Relation>) {
    forall r :: 0 <= r < |rels| ==> db.Maps(rels[r].mapping)
  }

  /** All the relations give their models the same key. */
  ghost predicate AllGiven(parent: Model, rels: seq<Relation>, given: int)
    reads parent`rels, parent`fields
  {
    forall r :: 0 <= r < |rels| ==> WellRelated(parent, rels[r]) && Given(parent, rels[r]) == given
  }

  // ----- The objects of all relations

  ghost function RowsOf(models: set<Model>): (rows: map<Model, Row>)
    reads models`fields
  {
    map o | o in models :: o.fields
  }

  /** What became of a model since `before`. */
  ghost predicate FilledSince(o: Model, before: map<Model, Row>, given: int)
    reads o`fields
  {
    o in before && OnlyFilled(o.fields, before[o], o.mapping.pk, given)
  }

  ghost predicate AllFilledSince(models: set<Model>, before: map<Model, Row>, given: int)
    reads models`fields
  {
    forall o :: o in models ==> FilledSince(o, before, given)
  }

  /** A relation's models were all written, each referring to the key it was given, unless it
      referred to another before. */
  ghost predicate RelationDone(parent: Model, rel: Relation, before: map<Model, Row>, writes: seq<Write>, given: int)
    reads parent`rels, (set c | c in parent.Related(rel.name))`fields
  {
    && |writes| == |parent.Related(rel.name)|
    && (NonLocalFk(parent, rel) ==> forall i :: 0 <= i < |writes| ==>
        RefersSinceStart(parent.Related(rel.name)[i], before, writes[i], rel, given))
  }

  ghost predicate RefersSinceStart(c: Model, before: map<Model, Row>, write: Write, rel: Relation, given: int)
    reads c`fields
  {
    c in before && RefersTo(c.fields, before[c], write, rel, given)
  }

  ghost predicate AllDone(parent: Model, rels: seq<Relation>, before: map<Model, Row>, writes: seq<seq<Write>>,
                          given: int)
    reads parent`rels, Cast(parent, rels)`fields
  {
    && |writes| <= |rels|
    && forall r :: 0 <= r < |writes| ==> RelationDone(parent, rels[r], before, writes[r], given)
  }

  lemma InCast(parent: Model, rels: seq<Relation>, r: nat)
    requires r < |rels|
    ensures forall c :: c in parent.Related(rels[r].name) ==> c in Cast(parent, rels)
  {
  }

  /** The rows that models had at some moment. */
  function RowsThen(mid: map<Model, Row>, children: seq<Model>): seq<Row> {
    seq(|children|, i requires 0 <= i < |children| => if children[i] in mid then mid[children[i]] else map[])
  }

  /** No model but the relation's differs. */
  ghost predicate OnlyRelated(parent: Model, rel: Relation, models: set<Model>, mid: map<Model, Row>,
                              rows: map<Model, Row>)
    reads parent`rels
  {
    forall o :: o in models && o !in parent.Related(rel.name) ==> o in mid && o in rows && rows[o] == mid[o]
  }

  // ----- Where a list of relations stands

  ghost predicate WritesNone(rels: seq<Relation>, n: nat, table: string)
    requires n <= |rels|
  {
    forall q :: 0 <= q < n ==> rels[q].mapping.table != table
  }

  ghost predicate PutsNone(parent: Model, rels: seq<Relation>, n: nat, o: Model)
    requires n <= |rels|
    reads parent`rels
  {
    forall q :: 0 <= q < n ==> o !in parent.Related(rels[q].name)
  }

  /** The tables that the first relations do not write are as they were, and so are the models that
      they do not put. */
  ghost predicate AsWere(parent: Model, models: set<Model>, rels: seq<Relation>, n: nat, tables: map<string, Table>,
                         start: map<Model, Row>, now: map<string, Table>, rows: map<Model, Row>)
    requires n <= |rels|
    reads parent`rels
  {
    && (forall name :: WritesNone(rels, n, name) ==> TableNamed(now, name) == TableNamed(tables, name))
    && (forall o :: o in models && PutsNone(parent, rels, n, o) ==> o in start && o in rows && rows[o] == start[o])
  }

  /** A relation whose table and models no earlier one touches was put on the state at the start. */
  ghost predicate PutAsWere(parent: Model, rels: seq<Relation>, tables: map<string, Table>, start: map<Model, Row>,
                            given: int, r: nat, ws: seq<Write>)
    requires r < |rels|
    reads parent`rels
  {
    && (forall i :: 0 <= i < |ws| ==> IsPut(rels[r].mapping, rels[r].fields, ws[i]))
    && (WritesNone(rels, r, rels[r].mapping.table) &&
        (forall c :: c in parent.Related(rels[r].name) ==> PutsNone(parent, rels, r, c)) ==>
          IsPutOfOne(rels[r], TableNamed(tables, rels[r].mapping.table), RowsThen(start, parent.Related(rels[r].name)),
                     given, ws))
  }

  ghost predicate AllPutAsWere(parent: Model, rels: seq<Relation>, tables: map<string, Table>, start: map<Model, Row>,
                               given: int, writes: seq<seq<Write>>)
    reads parent`rels
  {
    |writes| <= |rels| && forall r :: 0 <= r < |writes| ==> PutAsWere(parent, rels, tables, start, given, r, writes[r])
  }

  lemma AllPutNext(parent: Model, rels: seq<Relation>, tables: map<string, Table>, start: map<Model, Row>, given: int,
                   writes: seq<seq<Write>>, more: seq<Write>)
    requires AllPutAsWere(parent, rels, tables, start, given, writes) && |writes| < |rels|
    requires PutAsWere(parent, rels, tables, start, given, |writes|, more)
    ensures AllPutAsWere(parent, rels, tables, start, given, writes + [more])
  {
    var all := writes + [more];
    forall r | 0 <= r < |all|
      ensures PutAsWere(parent, rels, tables, start, given, r, all[r])
    {
      assert r < |writes| ==> PutAsWere(parent, rels, tables, start, given, r, writes[r]);
    }
  }

  lemma AsWereNext(parent: Model, models: set<Model>, rels: seq<Relation>, n: nat, tables: map<string, Table>,
                   start: map<Model, Row>, was: map<string, Table>, mid: map<Model, Row>, now: map<string, Table>,
                   rows: map<Model, Row>)
    requires n < |rels| && AsWere(parent, models, rels, n, tables, start, was, mid)
    requires OnlyTable(was, now, rels[n].mapping.table) && OnlyRelated(parent, rels[n], models, mid, rows)
    ensures AsWere(parent, models, rels, n + 1, tables, start, now, rows)
  {
    forall name | WritesNone(rels, n + 1, name)
      ensures TableNamed(now, name) == TableNamed(tables, name)
    {
      assert WritesNone(rels, n, name) && rels[n].mapping.table != name;
    }
    forall o | o in models && PutsNone(parent, rels, n + 1, o)
      ensures o in start && o in rows && rows[o] == start[o]
    {
      assert PutsNone(parent, rels, n, o) && o !in parent.Related(rels[n].name);
    }
  }

  lemma PutAsWereNext(parent: Model, models: set<Model>, rels: seq<Relation>, n: nat, tables: map<string, Table>,
                      start: map<Model, Row>, was: map<string, Table>, mid: map<Model, Row>, given: int, ws: seq<Write>)
    requires n < |rels| && Cast(parent, rels) <= models && AsWere(parent, models, rels, n, tables, start, was, mid)
    requires
      IsPutOfOne(rels[n], TableNamed(was, rels[n].mapping.table), RowsThen(mid, parent.Related(rels[n].name)), given,
                 ws)
    ensures PutAsWere(parent, rels, tables, start, given, n, ws)
  {
    var children := parent.Related(rels[n].name);
    InCast(parent, rels, n);
    if forall c :: c in children ==> PutsNone(parent, rels, n, c) {
      forall i | 0 <= i < |children|
        ensures RowsThen(mid, children)[i] == RowsThen(start, children)[i]
      {
        assert children[i] in children;
      }
      assert RowsThen(mid, children) == RowsThen(start, children);
    }
  }

  // ----- The tables

  /** No other relation of the list has this one's table. */
  ghost predicate Alone(rels: seq<Relation>, n: nat, r: nat)
    requires r < n <= |rels|
  {
    forall q :: 0 <= q < n && q != r ==> rels[q].mapping.table != rels[r].mapping.table
  }

  /** The relation's models are put by no earlier one. */
  ghost predicate FirstPut(parent: Model, rels: seq<Relation>, r: nat)
    requires r < |rels|
    reads parent`rels
  {
    forall c :: c in parent.Related(rels[r].name) ==> PutsNone(parent, rels, r, c)
  }

  /** A relation with a table of its own left that table as one put of its models, as they were, does. */
  ghost predicate Ended(parent: Model, rels: seq<Relation>, n: nat, tables: map<string, Table>,
                        start: map<Model, Row>, now: map<string, Table>, given: int, r: nat, ws: seq<Write>)
    requires r < n <= |rels|
    reads parent`rels
  {
    var rel := rels[r];
    Alone(rels, n, r) && FirstPut(parent, rels, r) ==>
      TableDone(TableNamed(tables, rel.mapping.table), TableNamed(now, rel.mapping.table), rel,
                RowsThen(start, parent.Related(rel.name)), given, ws)
  }

  ghost predicate AllEnded(parent: Model, rels: seq<Relation>, tables: map<string, Table>, start: map<Model, Row>,
                           now: map<string, Table>, given: int, writes: seq<seq<Write>>)
    reads parent`rels
  {
    |writes| <= |rels| &&
      forall r :: 0 <= r < |writes| ==> Ended(parent, rels, |writes|, tables, start, now, given, r, writes[r])
  }

  lemma EndedNext(parent: Model, models: set<Model>, rels: seq<Relation>, tables: map<string, Table>,
                  start: map<Model, Row>, was: map<string, Table>, mid: map<Model, Row>, now: map<string, Table>,
                  given: int, writes: seq<seq<Write>>, more: seq<Write>)
    requires |writes| < |rels| && Cast(parent, rels) <= models
    requires AsWere(parent, models, rels, |writes|, tables, start, was, mid)
    requires AllEnded(parent, rels, tables, start, was, given, writes)
    requires
      var rel := rels[|writes|];
      && OnlyTable(was, now, rel.mapping.table)
      && TableDone(TableNamed(was, rel.mapping.table), TableNamed(now, rel.mapping.table), rel,
                   RowsThen(mid, parent.Related(rel.name)), given, more)
    ensures AllEnded(parent, rels, tables, start, now, given, writes + [more])
  {
    var n, all := |writes|, writes + [more];
    forall r | 0 <= r <= n
      ensures Ended(parent, rels, n + 1, tables, start, now, given, r, all[r])
    {
      if r < n {
        assert Ended(parent, rels, n, tables, start, was, given, r, writes[r]);
        assert Alone(rels, n + 1, r) ==> Alone(rels, n, r) && rels[n].mapping.table != rels[r].mapping.table;
      } else if Alone(rels, n + 1, n) && FirstPut(parent, rels, n) {
        SameRows(parent, models, rels, n, tables, start, was, mid);
        assert WritesNone(rels, n, rels[n].mapping.table);
      }
    }
  }

  lemma SameRows(parent: Model, models: set<Model>, rels: seq<Relation>, n: nat, tables: map<string, Table>,
                 start: map<Model, Row>, was: map<string, Table>, mid: map<Model, Row>)
    requires n < |rels| && Cast(parent, rels) <= models && AsWere(parent, models, rels, n, tables, start, was, mid)
    requires FirstPut(parent, rels, n)
    ensures RowsThen(mid, parent.Related(rels[n].name)) == RowsThen(start, parent.Related(rels[n].name))
  {
    var children := parent.Related(rels[n].name);
    InCast(parent, rels, n);
    forall i | 0 <= i < |children|
      ensures RowsThen(mid, children)[i] == RowsThen(start, children)[i]
    {
      assert children[i] in children;
    }
  }

  // ----- One relation, and what it does to all the models

  /** One relation, with what it does to all the models. */
  method PutOneOf(db: Database, parent: Model, ghost models: set<Model>, rel: Relation, ghost given: int,
                  ghost mid: map<Model, Row>)
    returns (ok: bool, ghost writes: seq<Write>)
    requires WellRelated(parent, rel) && Given(parent, rel) == given
    requires (set c | c in parent.Related(rel.name)) <= models && parent !in models && mid == RowsOf(models)
    requires db.Valid() && db.Maps(rel.mapping)
    modifies db, parent`fields, models`fields
    ensures parent.Key() == old(parent.Key()) && Tried(parent.fields, old(parent.fields), parent.mapping, rel)
    ensures db.Valid() && OnlyTable(old(db.tables), db.tables, rel.mapping.table) &&
      OnlyRelated(parent, rel, models, mid, RowsOf(models))
    ensures AllFilledSince(models, mid, given)
    ensures if ok then db.failed == old(db.failed) else db.failed || SomeRefused(db, rel, parent.Related(rel.name))
    ensures ok ==>
      && parent.fields == (if writes == [] then old(parent.fields)
                           else Referring(old(parent.fields), parent.mapping, rel, writes[0]))
      && db.log == old(db.log) + Logged(rel.mapping.table, writes)
      && RelationDone(parent, rel, mid, writes, given)
      && IsPutOfOne(rel, old(db.T(rel.mapping.table)), RowsThen(mid, parent.Related(rel.name)), given, writes)
      && TableDone(old(db.T(rel.mapping.table)), db.T(rel.mapping.table), rel,
                   RowsThen(mid, parent.Related(rel.name)), given, writes)
  {
    assert Snapshot(parent.Related(rel.name)) == RowsThen(mid, parent.Related(rel.name));
    assert forall c :: c in parent.Related(rel.name) ==> c in set c | c in parent.Related(rel.name);
    ok, writes := PutNext(db, parent, rel);
    OthersAsWere(parent, models, rel, mid, given);
    if ok {
      NowDone(parent, models, rel, mid, writes, given);
    }
  }

  lemma OthersAsWere(parent: Model, models: set<Model>, rel: Relation, mid: map<Model, Row>, given: int)
    requires forall o :: o in models ==> o in mid
    requires forall o :: o in models && o !in parent.Related(rel.name) ==> o.fields == mid[o]
    requires forall c :: c in parent.Related(rel.name) && c in mid ==>
      OnlyFilled(c.fields, mid[c], c.mapping.pk, given)
    ensures OnlyRelated(parent, rel, models, mid, RowsOf(models)) && AllFilledSince(models, mid, given)
  {
    forall o | o in models
      ensures FilledSince(o, mid, given)
    {
    }
  }

  lemma NowDone(parent: Model, models: set<Model>, rel: Relation, mid: map<Model, Row>, writes: seq<Write>, given: int)
    requires |writes| == |parent.Related(rel.name)| && forall c :: c in parent.Related(rel.name) ==> c in mid
    requires NonLocalFk(parent, rel) ==> forall i :: 0 <= i < |writes| ==>
      RefersTo(parent.Related(rel.name)[i].fields, mid[parent.Related(rel.name)[i]], writes[i], rel, given)
    ensures RelationDone(parent, rel, mid, writes, given)
  {
  }

  /** The next of a list of relations, some of which were put. */
  method PutAfter(db: Database, parent: Model, ghost models: set<Model>, rels: seq<Relation>, i: nat, ghost given: int,
                  ghost before: map<Model, Row>, ghost writes: seq<seq<Write>>)
    returns (ok: bool, ghost more: seq<Write>)
    requires i == |writes| < |rels| && AllGiven(parent, rels, given)
    requires Cast(parent, rels) <= models && parent !in models && AllMapped(db, rels) && db.Valid()
    requires AllFilledSince(models, before, given) && AllDone(parent, rels, before, writes, given)
    modifies db, parent`fields, models`fields
    ensures parent.Key() == old(parent.Key()) && Tried(parent.fields, old(parent.fields), parent.mapping, rels[i])
    ensures AllGiven(parent, rels, given) && AllFilledSince(models, before, given)
    ensures db.Valid() && OnlyTable(old(db.tables), db.tables, rels[i].mapping.table)
    ensures OnlyRelated(parent, rels[i], models, old(RowsOf(models)), RowsOf(models))
    ensures
      if ok then db.failed == old(db.failed) else db.failed || SomeRefused(db, rels[i], parent.Related(rels[i].name))
    ensures ok ==>
      && parent.fields == (if more == [] then old(parent.fields)
                           else Referring(old(parent.fields), parent.mapping, rels[i], more[0]))
      && db.log == old(db.log) + Logged(rels[i].mapping.table, more)
      && AllDone(parent, rels, before, writes + [more], given)
      && IsPutOfOne(rels[i], old(db.T(rels[i].mapping.table)),
                    RowsThen(old(RowsOf(models)), parent.Related(rels[i].name)), given, more)
      && TableDone(old(db.T(rels[i].mapping.table)), db.T(rels[i].mapping.table), rels[i],
                   RowsThen(old(RowsOf(models)), parent.Related(rels[i].name)), given, more)
  {
    ghost var mid := RowsOf(models);
    MidRows(models, mid, before, given);
    AllReferredNow(parent, models, rels, mid, before, writes, given);
    InCast(parent, rels, i);
    ok, more := PutOneOf(db, parent, models, rels[i], given, mid);
    FilledFurther(models, mid, before, given);
    if ok {
      AllStillDone(parent, models, rels, mid, before, writes, given, more);
    }
  }

  ghost predicate Mid(models: set<Model>, mid: map<Model, Row>, before: map<Model, Row>, given: int) {
    forall o :: o in models ==> o in before && o in mid && OnlyFilled(mid[o], before[o], o.mapping.pk, given)
  }

  lemma MidRows(models: set<Model>, mid: map<Model, Row>, before: map<Model, Row>, given: int)
    requires mid == RowsOf(models) && AllFilledSince(models, before, given)
    ensures Mid(models, mid, before, given)
  {
    forall o | o in models
      ensures FilledSince(o, before, given)
    {
    }
  }

  ghost predicate AllReferred(parent: Model, rels: seq<Relation>, mid: map<Model, Row>, before: map<Model, Row>,
                              writes: seq<seq<Write>>, given: int)
    reads parent`rels
  {
    && |writes| <= |rels|
    && forall r :: 0 <= r < |writes| ==>
      && |writes[r]| == |parent.Related(rels[r].name)|
      && (NonLocalFk(parent, rels[r]) ==>
          ReferredThen(mid, parent.Related(rels[r].name), before, writes[r], rels[r], given))
  }

  lemma AllReferredNow(parent: Model, models: set<Model>, rels: seq<Relation>, mid: map<Model, Row>,
                       before: map<Model, Row>, writes: seq<seq<Write>>, given: int)
    requires mid == RowsOf(models) && Cast(parent, rels) <= models && AllDone(parent, rels, before, writes, given)
    ensures AllReferred(parent, rels, mid, before, writes, given)
  {
    forall r | 0 <= r < |writes|
      ensures RelationDone(parent, rels[r], before, writes[r], given)
      ensures NonLocalFk(parent, rels[r]) ==>
        ReferredThen(mid, parent.Related(rels[r].name), before, writes[r], rels[r], given)
    {
      InCast(parent, rels, r);
      ReferredNow(parent, rels[r], mid, before, writes[r], given);
    }
  }

  lemma AllStillDone(parent: Model, models: set<Model>, rels: seq<Relation>, mid: map<Model, Row>,
                     before: map<Model, Row>, writes: seq<seq<Write>>, given: int, more: seq<Write>)
    requires |writes| < |rels| && Cast(parent, rels) <= models
    requires forall r :: 0 <= r < |rels| ==> WellRelated(parent, rels[r])
    requires AllFilledSince(models, mid, given) && Mid(models, mid, before, given)
    requires AllReferred(parent, rels, mid, before, writes, given)
    requires RelationDone(parent, rels[|writes|], mid, more, given)
    ensures AllDone(parent, rels, before, writes + [more], given)
  {
    forall r | 0 <= r <= |writes|
      ensures RelationDone(parent, rels[r], before, (writes + [more])[r], given)
    {
      InCast(parent, rels, r);
      if r < |writes| {
        StillDone(parent, rels[r], mid, before, writes[r], given);
      } else {
        DoneSince(parent, rels[r], mid, before, more, given);
      }
    }
  }

  lemma FilledFurther(models: set<Model>, mid: map<Model, Row>, before: map<Model, Row>, given: int)
    requires AllFilledSince(models, mid, given) && Mid(models, mid, before, given)
    ensures AllFilledSince(models, before, given)
  {
    forall o | o in models
      ensures FilledSince(o, before, given)
    {
      assert FilledSince(o, mid, given);
      FilledThen(o.fields, mid[o], before[o], o.mapping.pk, given);
    }
  }

  /** What a relation's models were at some moment. */
  ghost predicate ReferredThen(mid: map<Model, Row>, children: seq<Model>, before: map<Model, Row>, writes: seq<Write>,
                               rel: Relation, given: int)
  {
    && |children| == |writes|
    && forall i :: 0 <= i < |writes| ==>
      children[i] in mid && children[i] in before &&
        RefersTo(mid[children[i]], before[children[i]], writes[i], rel, given)
  }

  lemma ReferredNow(parent: Model, rel: Relation, mid: map<Model, Row>, before: map<Model, Row>, writes: seq<Write>,
                    given: int)
    requires RelationDone(parent, rel, before, writes, given)
    requires forall c :: c in parent.Related(rel.name) ==> c in mid && mid[c] == c.fields
    ensures NonLocalFk(parent, rel) ==> ReferredThen(mid, parent.Related(rel.name), before, writes, rel, given)
  {
    if NonLocalFk(parent, rel) {
      forall i | 0 <= i < |writes|
        ensures RefersSinceStart(parent.Related(rel.name)[i], before, writes[i], rel, given)
        ensures parent.Related(rel.name)[i] in parent.Related(rel.name)
      {
      }
    }
  }

  /** What was done stays done while fields are only filled in. */
  lemma StillDone(parent: Model, rel: Relation, mid: map<Model, Row>, before: map<Model, Row>, writes: seq<Write>,
                  given: int)
    requires WellRelated(parent, rel) && |writes| == |parent.Related(rel.name)|
    requires forall c :: c in parent.Related(rel.name) ==> FilledSince(c, mid, given)
    requires NonLocalFk(parent, rel) ==> ReferredThen(mid, parent.Related(rel.name), before, writes, rel, given)
    ensures RelationDone(parent, rel, before, writes, given)
  {
    if NonLocalFk(parent, rel) {
      forall i | 0 <= i < |writes|
        ensures RefersSinceStart(parent.Related(rel.name)[i], before, writes[i], rel, given)
      {
        var c := parent.Related(rel.name)[i];
        assert FilledSince(c, mid, given);
        StillRefers(c.fields, mid[c], before[c], writes[i], rel, given);
      }
    }
  }

  /** What refers from halfway refers from the start. */
  lemma DoneSince(parent: Model, rel: Relation, mid: map<Model, Row>, before: map<Model, Row>, writes: seq<Write>,
                  given: int)
    requires WellRelated(parent, rel) && |writes| == |parent.Related(rel.name)|
    requires forall c :: c in parent.Related(rel.name) ==>
      c in mid && c in before && OnlyFilled(mid[c], before[c], c.mapping.pk, given)
    requires RelationDone(parent, rel, mid, writes, given)
    ensures RelationDone(parent, rel, before, writes, given)
  {
    if NonLocalFk(parent, rel) {
      forall i | 0 <= i < |writes|
        ensures RefersSinceStart(parent.Related(rel.name)[i], before, writes[i], rel, given)
      {
        var c := parent.Related(rel.name)[i];
        assert c in parent.Related(rel.name) && RefersSinceStart(c, mid, writes[i], rel, given);
        RefersSince(c.fields, mid[c], before[c], writes[i], rel, given);
      }
    }
  }

  lemma FurtherAsWas(parent: Model, models: set<Model>, rels: seq<Relation>, tables: map<string, Table>,
                     start: map<Model, Row>, was: map<string, Table>, mid: map<Model, Row>, now: map<string, Table>,
                     rows: map<Model, Row>, given: int, writes: seq<seq<Write>>, more: seq<Write>)
    requires |writes| < |rels| && Cast(parent, rels) <= models
    requires AsWere(parent, models, rels, |writes|, tables, start, was, mid)
    requires AllPutAsWere(parent, rels, tables, start, given, writes)
    requires
      var rel := rels[|writes|];
      && OnlyTable(was, now, rel.mapping.table) && OnlyRelated(parent, rel, models, mid, rows)
      && IsPutOfOne(rel, TableNamed(was, rel.mapping.table), RowsThen(mid, parent.Related(rel.name)), given, more)
    ensures AsWere(parent, models, rels, |writes| + 1, tables, start, now, rows)
    ensures AllPutAsWere(parent, rels, tables, start, given, writes + [more])
  {
    AsWereNext(parent, models, rels, |writes|, tables, start, was, mid, now, rows);
    PutAsWereNext(parent, models, rels, |writes|, tables, start, was, mid, given, more);
    AllPutNext(parent, rels, tables, start, given, writes, more);
  }

  /** The parent's fields and the log, with as many relations put as there are writes. */
  ghost predicate Along(row: Row, now: seq<(string, Write)>, m: Mapping, rels: seq<Relation>, writes: seq<seq<Write>>,
                        orig: Row, log: seq<(string, Write)>)
  {
    && |writes| <= |rels|
    && row == Referred(orig, m, rels[..|writes|], writes) && now == log + LogOf(rels[..|writes|], writes)
  }

  lemma AlongNext(row: Row, had: seq<(string, Write)>, m: Mapping, rels: seq<Relation>, writes: seq<seq<Write>>,
                  orig: Row, log: seq<(string, Write)>, more: seq<Write>, after: Row, now: seq<(string, Write)>)
    requires |writes| < |rels| && Along(row, had, m, rels, writes, orig, log)
    requires after == (if more == [] then row else Referring(row, m, rels[|writes|], more[0]))
    requires now == had + Logged(rels[|writes|].mapping.table, more)
    ensures Along(after, now, m, rels, writes + [more], orig, log)
  {
    ReferredAppend(orig, log, m, rels, writes, more);
  }

  /** Where a list of relations stands, with as many put as there are writes. */
  ghost predicate SoFar(db: Database, parent: Model, models: set<Model>, rels: seq<Relation>, given: int,
                        before: map<Model, Row>, writes: seq<seq<Write>>, orig: Row, log: seq<(string, Write)>,
                        tables: map<string, Table>, start: map<Model, Row>)
    requires |writes| <= |rels|
    reads db, parent`rels, parent`fields, models`fields, Cast(parent, rels)`fields
  {
    && Along(parent.fields, db.log, parent.mapping, rels, writes, orig, log)
    && AllGiven(parent, rels, given)
    && AllFilledSince(models, before, given) && AllDone(parent, rels, before, writes, given)
    && AsWere(parent, models, rels, |writes|, tables, start, db.tables, RowsOf(models))
    && AllPutAsWere(parent, rels, tables, start, given, writes)
    && AllEnded(parent, rels, tables, start, db.tables, given, writes)
  }

  lemma NoneSoFar(db: Database, parent: Model, models: set<Model>, rels: seq<Relation>, given: int,
                  before: map<Model, Row>)
    requires AllGiven(parent, rels, given) && AllFilledSince(models, before, given)
    ensures SoFar(db, parent, models, rels, given, before, [], parent.fields, db.log, db.tables, RowsOf(models))
  {
  }

  lemma AllSoFar(db: Database, parent: Model, models: set<Model>, rels: seq<Relation>, given: int,
                 before: map<Model, Row>, writes: seq<seq<Write>>, orig: Row, log: seq<(string, Write)>,
                 tables: map<string, Table>, start: map<Model, Row>)
    requires |writes| == |rels|
    requires SoFar(db, parent, models, rels, given, before, writes, orig, log, tables, start)
    ensures parent.fields == Referred(orig, parent.mapping, rels, writes) && db.log == log + LogOf(rels, writes)
    ensures AllDone(parent, rels, before, writes, given) && AllPutAsWere(parent, rels, tables, start, given, writes)
    ensures AsWere(parent, models, rels, |rels|, tables, start, db.tables, RowsOf(models))
    ensures AllEnded(parent, rels, tables, start, db.tables, given, writes)
  {
    assert rels[..|rels|] == rels;
  }

  lemma SoFarNext(db: Database, parent: Model, models: set<Model>, rels: seq<Relation>, given: int,
                  before: map<Model, Row>, writes: seq<seq<Write>>, orig: Row, log: seq<(string, Write)>,
                  tables: map<string, Table>, start: map<Model, Row>, was: map<string, Table>, mid: map<Model, Row>,
                  row: Row, had: seq<(string, Write)>, more: seq<Write>)
    requires |writes| < |rels| && Cast(parent, rels) <= models
    requires Along(row, had, parent.mapping, rels, writes, orig, log)
    requires AsWere(parent, models, rels, |writes|, tables, start, was, mid)
    requires AllPutAsWere(parent, rels, tables, start, given, writes)
    requires AllEnded(parent, rels, tables, start, was, given, writes)
    requires AllGiven(parent, rels, given) && AllFilledSince(models, before, given)
    requires AllDone(parent, rels, before, writes + [more], given)
    requires
      var rel := rels[|writes|];
      TableDone(TableNamed(was, rel.mapping.table), db.T(rel.mapping.table), rel,
                RowsThen(mid, parent.Related(rel.name)), given, more)
    requires
      var rel := rels[|writes|];
      && OnlyTable(was, db.tables, rel.mapping.table) && OnlyRelated(parent, rel, models, mid, RowsOf(models))
      && IsPutOfOne(rel, TableNamed(was, rel.mapping.table), RowsThen(mid, parent.Related(rel.name)), given, more)
      && parent.fields == (if more == [] then row else Referring(row, parent.mapping, rel, more[0]))
      && db.log == had + Logged(rel.mapping.table, more)
    ensures SoFar(db, parent, models, rels, given, before, writes + [more], orig, log, tables, start)
  {
    FurtherAsWas(parent, models, rels, tables, start, was, mid, db.tables, RowsOf(models), given, writes, more);
    EndedNext(parent, models, rels, tables, start, was, mid, db.tables, given, writes, more);
    AlongNext(row, had, parent.mapping, rels, writes, orig, log, more, parent.fields, db.log);
  }

  /** Tables of no relation of the list are as they were. */
  ghost predicate OnlyTables(before: map<string, Table>, after: map<string, Table>, rels: seq<Relation>) {
    forall name :: WritesNone(rels, |rels|, name) ==> TableNamed(after, name) == TableNamed(before, name)
  }

  /** The next relation, from where the list stands. */
  method PutFurther(db: Database, parent: Model, ghost models: set<Model>, rels: seq<Relation>, i: nat,
                    ghost given: int, ghost before: map<Model, Row>, ghost writes: seq<seq<Write>>, ghost orig: Row,
                    ghost log: seq<(string, Write)>, ghost tables: map<string, Table>, ghost start: map<Model, Row>)
    returns (ok: bool, ghost more: seq<Write>)
    requires i == |writes| < |rels|
    requires Cast(parent, rels) <= models && parent !in models && AllMapped(db, rels) && db.Valid()
    requires SoFar(db, parent, models, rels, given, before, writes, orig, log, tables, start)
    modifies db, parent`fields, models`fields
    ensures parent.Key() == old(parent.Key()) && AllFilledSince(models, before, given) && db.Valid()
    ensures Tried(parent.fields, old(parent.fields), parent.mapping, rels[i])
    ensures OnlyTables(old(db.tables), db.tables, rels)
    ensures
      if ok then db.failed == old(db.failed) else db.failed || SomeRefused(db, rels[i], parent.Related(rels[i].name))
    ensures ok ==> SoFar(db, parent, models, rels, given, before, writes + [more], orig, log, tables, start)
  {
    ghost var was, mid, row, had := db.tables, RowsOf(models), parent.fields, db.log;
    ok, more := PutAfter(db, parent, models, rels, i, given, before, writes);
    if ok {
      SoFarNext(db, parent, models, rels, given, before, writes, orig, log, tables, start, was, mid, row, had, more);
    }
  }

  /** The relations of one side, in turn. */
  method PutRelations(db: Database, parent: Model, ghost models: set<Model>, rels: seq<Relation>, ghost given: int,
                      ghost before: map<Model, Row>)
    returns (ok: bool, ghost writes: seq<seq<Write>>)
    requires AllGiven(parent, rels, given) && Cast(parent, rels) <= models && parent !in models
    requires AllFilledSince(models, before, given) && AllMapped(db, rels) && db.Valid()
    modifies db, parent`fields, models`fields
    ensures parent.Key() == old(parent.Key()) && AllFilledSince(models, before, given) && db.Valid()
    ensures ReferredSoFar(parent.fields, old(parent.fields), parent.mapping, rels, writes)
    ensures OnlyTables(old(db.tables), db.tables, rels)
    ensures if ok then db.failed == old(db.failed) else db.failed || AnyRefused(db, parent, rels)
    ensures ok ==>
      && |writes| == |rels|
      && parent.fields == Referred(old(parent.fields), parent.mapping, rels, writes)
      && db.log == old(db.log) + LogOf(rels, writes)
      && AllDone(parent, rels, before, writes, given)
      && AllPutAsWere(parent, rels, old(db.tables), old(RowsOf(models)), given, writes)
      && AsWere(parent, models, rels, |rels|, old(db.tables), old(RowsOf(models)), db.tables, RowsOf(models))
      && AllEnded(parent, rels, old(db.tables), old(RowsOf(models)), db.tables, given, writes)
  {
    ghost var tables, start, orig, log := db.tables, RowsOf(models), parent.fields, db.log;
    ok, writes := true, [];
    NoneSoFar(db, parent, models, rels, given, before);
    var i := 0;
    while i < |rels|
      invariant 0 <= i <= |rels| && |writes| == i && ok && db.failed == old(db.failed)
      invariant parent.Key() == old(parent.Key()) && db.Valid()
      invariant SoFar(db, parent, models, rels, given, before, writes, orig, log, tables, start)
      invariant OnlyTables(tables, db.tables, rels)
    {
      ghost var more: seq<Write> := [];
      ok, more := PutFurther(db, parent, models, rels, i, given, before, writes, orig, log, tables, start);
      if !ok {
        return;
      }
      writes := writes + [more];
      i := i + 1;
    }
    AllSoFar(db, parent, models, rels, given, before, writes, orig, log, tables, start);
  }

  // ----- The two sides

  /** The relations whose foreign key the model holds, or does not hold. */
  function Side(m: Mapping, rels: seq<Relation>, local: bool): (side: seq<Relation>)
    ensures forall r :: 0 <= r < |side| ==> FkIsLocal(m, side[r]) == local
  {
    if rels == [] then []
    else
      var n := |rels| - 1;
      Side(m, rels[..n], local) + if FkIsLocal(m, rels[n]) == local then [rels[n]] else []
  }

  lemma {:induction false} SideOf(m: Mapping, rels: seq<Relation>, local: bool, r: nat)
    requires r < |Side(m, rels, local)|
    ensures exists i :: 0 <= i < |rels| && rels[i] == Side(m, rels, local)[r]
  {
    var n := |rels| - 1;
    if r < |Side(m, rels[..n], local)| {
      SideOf(m, rels[..n], local, r);
      var i :| 0 <= i < n && rels[..n][i] == Side(m, rels, local)[r];
      assert rels[i] == Side(m, rels, local)[r];
    } else {
      assert rels[n] == Side(m, rels, local)[r];
    }
  }

  lemma {:induction false} SideLocals(m: Mapping, rels: seq<Relation>, local: bool)
    ensures forall r :: r in Side(m, rels, local) ==> (r.local != m.pk) == local
  {
    if rels != [] {
      SideLocals(m, rels[..|rels| - 1], local);
    }
  }

  /** The sides share out the relations, those joined on the model's primary key going to one of them. */
  lemma {:induction false} SidesSplit(m: Mapping, rels: seq<Relation>)
    ensures forall r :: r in Side(m, rels, true) ==> r.local != m.pk
    ensures forall r :: r in Side(m, rels, false) ==> r.local == m.pk
    ensures multiset(Side(m, rels, true)) + multiset(Side(m, rels, false)) == multiset(rels)
  {
    SideLocals(m, rels, true);
    SideLocals(m, rels, false);
    SidesShare(m, rels);
  }

  lemma {:induction false} SidesShare(m: Mapping, rels: seq<Relation>)
    ensures multiset(Side(m, rels, true)) + multiset(Side(m, rels, false)) == multiset(rels)
  {
    if rels != [] {
      var n := |rels| - 1;
      SidesShare(m, rels[..n]);
      SideLast(m, rels, true);
      SideLast(m, rels, false);
      OneOfSides(Side(m, rels[..n], true), Side(m, rels[..n], false), rels[..n], rels[n], Side(m, rels, true),
                 Side(m, rels, false), rels);
    }
  }

  lemma SideLast(m: Mapping, rels: seq<Relation>, local: bool)
    requires rels != []
    ensures
      var n := |rels| - 1;
      Side(m, rels, local) ==
        if FkIsLocal(m, rels[n]) == local then Side(m, rels[..n], local) + [rels[n]] else Side(m, rels[..n], local)
  {
    assert Side(m, rels[..|rels| - 1], local) + [] == Side(m, rels[..|rels| - 1], local);
  }

  lemma OneOfSides<T>(a: seq<T>, b: seq<T>, all: seq<T>, x: T, a': seq<T>, b': seq<T>, all': seq<T>)
    requires multiset(a) + multiset(b) == multiset(all)
    requires all' == all + [x] && ((a' == a + [x] && b' == b) || (a' == a && b' == b + [x]))
    ensures multiset(a') + multiset(b') == multiset(all')
  {
    assert multiset(all + [x]) == multiset(all) + multiset{x};
    if a' == a + [x] {
      assert multiset(a + [x]) == multiset(a) + multiset{x};
    } else {
      assert multiset(b + [x]) == multiset(b) + multiset{x};
    }
  }

  method Categorize(m: Mapping, rels: seq<Relation>) returns (befores: seq<Relation>, afters: seq<Relation>)
    ensures befores == Side(m, rels, true) && afters == Side(m, rels, false)
  {
    befores, afters := [], [];
    for i := 0 to |rels|
      invariant befores == Side(m, rels[..i], true) && afters == Side(m, rels[..i], false)
    {
      assert rels[..i + 1][..i] == rels[..i];
      if FkIsLocal(m, rels[i]) {
        befores := befores + [rels[i]];
      } else {
        afters := afters + [rels[i]];
      }
    }
    assert rels[..|rels|] == rels;
  }

  lemma SideWithin(db: Database, parent: Model, rels: seq<Relation>, local: bool)
    requires AllMapped(db, rels) && forall r :: 0 <= r < |rels| ==> WellRelated(parent, rels[r])
    ensures
      var side := Side(parent.mapping, rels, local);
      && Cast(parent, side) <= Cast(parent, rels)
      && (forall r :: 0 <= r < |side| ==> WellRelated(parent, side[r]))
      && AllMapped(db, side)
      && (local ==> AllGiven(parent, side, 0))
  {
    var side := Side(parent.mapping, rels, local);
    forall r | 0 <= r < |side|
      ensures WellRelated(parent, side[r]) && forall c :: c in parent.Related(side[r].name) ==> c in Cast(parent, rels)
      ensures db.Maps(side[r].mapping)
    {
      SideOf(parent.mapping, rels, local, r);
    }
  }

  /** What no relation writes, none of a side does. */
  lemma SidesWrite(m: Mapping, rels: seq<Relation>, local: bool)
    ensures forall name :: WritesNone(rels, |rels|, name) ==>
      WritesNone(Side(m, rels, local), |Side(m, rels, local)|, name)
  {
    forall name | WritesNone(rels, |rels|, name)
      ensures WritesNone(Side(m, rels, local), |Side(m, rels, local)|, name)
    {
      forall r | 0 <= r < |Side(m, rels, local)|
        ensures Side(m, rels, local)[r].mapping.table != name
      {
        SideOf(m, rels, local, r);
      }
    }
  }

  lemma SideRefused(db: Database, parent: Model, rels: seq<Relation>, local: bool)
    ensures AnyRefused(db, parent, Side(parent.mapping, rels, local)) ==> AnyRefused(db, parent, rels)
  {
    var side := Side(parent.mapping, rels, local);
    if r :| 0 <= r < |side| && SomeRefused(db, side[r], parent.Related(side[r].name)) {
      SideOf(parent.mapping, rels, local, r);
      var i :| 0 <= i < |rels| && rels[i] == side[r];
      assert SomeRefused(db, rels[i], parent.Related(rels[i].name));
    }
  }

  lemma {:induction false} ReferredElsewhere(row: Row, m: Mapping, rels: seq<Relation>, writes: seq<seq<Write>>)
    requires |rels| == |writes| && forall r :: 0 <= r < |rels| ==> !FkIsLocal(m, rels[r])
    ensures Referred(row, m, rels, writes) == row
  {
    if rels == [] {
    } else {
      var n := |rels| - 1;
      ReferredElsewhere(row, m, rels[..n], writes[..n]);
    }
  }

  /** The relations put before the model touch neither its table nor its keys. */
  predicate Undisturbed(m: Mapping, befores: seq<Relation>) {
    forall r :: 0 <= r < |befores| ==>
      befores[r].mapping.table != m.table && forall key :: key in m.uniques ==> befores[r].local !in key
  }

  /** Whether the model ends without a primary key is known before. */
  lemma KnownBefore(m: Mapping, befores: seq<Relation>, requested: Fields, row: Row, early: seq<seq<Write>>, own: Write)
    requires forall r :: 0 <= r < |befores| ==> FkIsLocal(m, befores[r])
    requires Undisturbed(m, befores) && IsOwnPut(m, befores, requested, row, early, own)
    ensures own.key == 0 <==> KnownByUnique(own.on, m, row)
  {
    KeyZeroExactlyWhen(m, requested, own);
    KeepsOthers(row, m, befores, early, m.pk);
    forall key, i | key in m.uniques && 0 <= i < |key|
      ensures Field(own.values, key[i]) == Field(row, key[i])
    {
      KeepsOthers(row, m, befores, early, key[i]);
    }
    SameFirst(own.values, row, m.uniques);
  }

  /** The model's own write is a put of its row once it refers to the models written before. */
  ghost predicate IsOwnPut(m: Mapping, befores: seq<Relation>, requested: Fields, row: Row, early: seq<seq<Write>>,
                           own: Write) {
    |befores| == |early| && IsPut(m, requested, own) && own.values == Referred(row, m, befores, early)
  }

  /** The same in terms of the table and the row before anything was put. */
  ghost predicate OwnAsWas(m: Mapping, befores: seq<Relation>, requested: Fields, t: Table, row: Row,
                           early: seq<seq<Write>>, own: Write) {
    && IsOwnPut(m, befores, requested, row, early, own)
    && (WritesNone(befores, |befores|, m.table) ==> own.on == t)
    && (Undisturbed(m, befores) ==> (own.key == 0 <==> KnownByUnique(t, m, row)))
  }

  lemma OwnIsAsWas(m: Mapping, befores: seq<Relation>, requested: Fields, t: Table, row: Row, early: seq<seq<Write>>,
                   own: Write)
    requires forall r :: 0 <= r < |befores| ==> FkIsLocal(m, befores[r])
    requires IsOwnPut(m, befores, requested, row, early, own) &&
      (WritesNone(befores, |befores|, m.table) ==> own.on == t)
    ensures OwnAsWas(m, befores, requested, t, row, early, own)
  {
    if Undisturbed(m, befores) {
      KnownBefore(m, befores, requested, row, early, own);
    }
  }

  /** The model's own row, with the relations that it refers to put. */
  method PutOwn(db: Database, parent: Model, ghost befores: seq<Relation>, requested: Fields, ghost t: Table,
                ghost row: Row, ghost early: seq<seq<Write>>)
    returns (ok: bool, ghost own: Write)
    requires db.Maps(parent.mapping) && db.Valid()
    requires |befores| == |early| && parent.fields == Referred(row, parent.mapping, befores, early)
    requires forall r :: 0 <= r < |befores| ==> FkIsLocal(parent.mapping, befores[r])
    requires WritesNone(befores, |befores|, parent.mapping.table) ==> db.T(parent.mapping.table) == t
    modifies db, parent`fields
    ensures db.Valid() && UnlostBut(parent.fields, row, parent.mapping.pk)
    ensures OnlyTable(old(db.tables), db.tables, parent.mapping.table)
    ensures if ok then db.failed == old(db.failed) else db.failed || OwnRefused(db, parent, requested)
    ensures ok ==>
      && OwnAsWas(parent.mapping, befores, requested, t, row, early, own)
      && parent.fields == After(parent.mapping, own) && parent.Key() == own.key
      && db.log == old(db.log) + [(parent.mapping.table, own)]
      && db.tables == old(db.tables)[parent.mapping.table := Written(parent.mapping, requested, own)]
  {
    assert befores[..|early|] == befores;
    ReferredUnlost(row, parent.fields, parent.mapping, befores, early);
    ok, own := PutSingleModel(db, parent, requested);
    if ok {
      OnlyThat(old(db.tables), parent.mapping.table, Written(parent.mapping, requested, own));
      OwnIsAsWas(parent.mapping, befores, requested, t, row, early, own);
    }
  }

  /** Once the model's own row is written: its table is what that put makes of it, and the others are as
      the relations before left them. */
  ghost predicate HalfWay(parent: Model, models: set<Model>, befores: seq<Relation>, requested: Fields,
                          tables: map<string, Table>, start: map<Model, Row>, now: map<string, Table>,
                          rows: map<Model, Row>, early: seq<seq<Write>>, own: Write)
    reads parent`rels
  {
    var m := parent.mapping;
    && |early| == |befores| && TableNamed(now, m.table) == Written(m, requested, own)
    && (forall name :: name != m.table && WritesNone(befores, |befores|, name) ==>
          TableNamed(now, name) == TableNamed(tables, name))
    && (forall o :: o in models && PutsNone(parent, befores, |befores|, o) ==>
          o in start && o in rows && rows[o] == start[o])
    && forall r :: 0 <= r < |befores| && befores[r].mapping.table != m.table ==>
         Ended(parent, befores, |befores|, tables, start, now, 0, r, early[r])
  }

  lemma IsHalfWay(parent: Model, models: set<Model>, befores: seq<Relation>, requested: Fields,
                  tables: map<string, Table>, start: map<Model, Row>, was: map<string, Table>, rows: map<Model, Row>,
                  early: seq<seq<Write>>, own: Write)
    requires |early| == |befores| && AsWere(parent, models, befores, |befores|, tables, start, was, rows)
    requires AllEnded(parent, befores, tables, start, was, 0, early)
    ensures
      HalfWay(parent, models, befores, requested, tables, start,
              was[parent.mapping.table := Written(parent.mapping, requested, own)], rows, early, own)
  {
    var m := parent.mapping;
    var now := was[m.table := Written(m, requested, own)];
    OnlyThat(was, m.table, Written(m, requested, own));
    forall r | 0 <= r < |befores| && befores[r].mapping.table != m.table
      ensures Ended(parent, befores, |befores|, tables, start, now, 0, r, early[r])
    {
      assert Ended(parent, befores, |befores|, tables, start, was, 0, r, early[r]);
    }
  }

  /** What a put leaves in the tables. One that neither the model nor a relation has is as it was. The
      model's own holds its row, unless models put after it share the table. A relation with a table
      of its own, whose models no earlier one puts, left it as one put of its models, as they were,
      does: with the rows that it wrote, and of the others all but strays. */
  ghost predicate TablesAfter(parent: Model, befores: seq<Relation>, afters: seq<Relation>, requested: Fields,
                              tables: map<string, Table>, start: map<Model, Row>, now: map<string, Table>,
                              early: seq<seq<Write>>, own: Write, late: seq<seq<Write>>)
    reads parent`rels
  {
    var m := parent.mapping;
    && |early| == |befores| && |late| == |afters|
    && (forall name ::
          name != m.table && WritesNone(befores, |befores|, name) && WritesNone(afters, |afters|, name) ==>
            TableNamed(now, name) == TableNamed(tables, name))
    && (WritesNone(afters, |afters|, m.table) ==> TableNamed(now, m.table) == Written(m, requested, own))
    && (forall r :: 0 <= r < |befores| && OnItsOwn(m, befores[r], afters) ==>
          Ended(parent, befores, |befores|, tables, start, now, 0, r, early[r]))
    && forall r :: 0 <= r < |afters| && OnItsOwn(m, afters[r], befores) && PutsNoneOf(parent, befores, afters[r]) ==>
         Ended(parent, afters, |afters|, tables, start, now, own.key, r, late[r])
  }

  /** The relation's table is neither the model's nor that of a relation of the other side. */
  ghost predicate OnItsOwn(m: Mapping, rel: Relation, others: seq<Relation>) {
    rel.mapping.table != m.table && WritesNone(others, |others|, rel.mapping.table)
  }

  ghost predicate PutsNoneOf(parent: Model, befores: seq<Relation>, rel: Relation)
    reads parent`rels
  {
    forall c :: c in parent.Related(rel.name) ==> PutsNone(parent, befores, |befores|, c)
  }

  lemma TablesAreAfter(parent: Model, models: set<Model>, befores: seq<Relation>, afters: seq<Relation>,
                       requested: Fields, tables: map<string, Table>, start: map<Model, Row>,
                       was: map<string, Table>, mid: map<Model, Row>, now: map<string, Table>,
                       rows: map<Model, Row>, early: seq<seq<Write>>, own: Write, late: seq<seq<Write>>)
    requires HalfWay(parent, models, befores, requested, tables, start, was, mid, early, own)
    requires |late| == |afters| && AsWere(parent, models, afters, |afters|, was, mid, now, rows)
    requires AllEnded(parent, afters, was, mid, now, own.key, late) && Cast(parent, afters) <= models
    ensures TablesAfter(parent, befores, afters, requested, tables, start, now, early, own, late)
  {
    forall r | 0 <= r < |befores| && OnItsOwn(parent.mapping, befores[r], afters)
      ensures Ended(parent, befores, |befores|, tables, start, now, 0, r, early[r])
    {
      assert Ended(parent, befores, |befores|, tables, start, was, 0, r, early[r]);
    }
    forall r | 0 <= r < |afters| && OnItsOwn(parent.mapping, afters[r], befores) &&
      PutsNoneOf(parent, befores, afters[r])
      ensures Ended(parent, afters, |afters|, tables, start, now, own.key, r, late[r])
    {
      assert Ended(parent, afters, |afters|, was, mid, now, own.key, r, late[r]);
      RowsAsWere(parent, models, befores, afters, start, mid, r);
    }
  }

  lemma RowsAsWere(parent: Model, models: set<Model>, befores: seq<Relation>, afters: seq<Relation>,
                   start: map<Model, Row>, mid: map<Model, Row>, r: nat)
    requires r < |afters| && Cast(parent, afters) <= models && PutsNoneOf(parent, befores, afters[r])
    requires forall o :: o in models && PutsNone(parent, befores, |befores|, o) ==>
      o in start && o in mid && mid[o] == start[o]
    ensures RowsThen(mid, parent.Related(afters[r].name)) == RowsThen(start, parent.Related(afters[r].name))
  {
    var children := parent.Related(afters[r].name);
    InCast(parent, afters, r);
    forall i | 0 <= i < |children|
      ensures RowsThen(mid, children)[i] == RowsThen(start, children)[i]
    {
      assert children[i] in children;
    }
  }

  /** The model's own put has to be refused, as the table and the model are. */
  ghost predicate OwnRefused(db: Database, parent: Model, requested: Fields)
    reads db, parent`fields
  {
    Refused(db.T(parent.mapping.table), parent.mapping, requested, parent.fields)
  }

  twostate lemma SameRowsOf(models: set<Model>)
    requires forall o :: o in models ==> o.fields == old(o.fields)
    ensures RowsOf(models) == old(RowsOf(models))
  {
  }

  /** The model's own row after the relations that it refers to. */
  method PutOwnAfter(db: Database, parent: Model, ghost models: set<Model>, befores: seq<Relation>, requested: Fields,
                     ghost tables: map<string, Table>, ghost start: map<Model, Row>, ghost row: Row,
                     ghost early: seq<seq<Write>>)
    returns (ok: bool, ghost own: Write)
    requires db.Maps(parent.mapping) && db.Valid() && parent !in models
    requires |befores| == |early| && parent.fields == Referred(row, parent.mapping, befores, early)
    requires forall r :: 0 <= r < |befores| ==> FkIsLocal(parent.mapping, befores[r])
    requires AsWere(parent, models, befores, |befores|, tables, start, db.tables, RowsOf(models))
    requires AllEnded(parent, befores, tables, start, db.tables, 0, early)
    modifies db, parent`fields
    ensures db.Valid() && UnlostBut(parent.fields, row, parent.mapping.pk)
    ensures OnlyTable(old(db.tables), db.tables, parent.mapping.table)
    ensures if ok then db.failed == old(db.failed) else db.failed || OwnRefused(db, parent, requested)
    ensures ok ==>
      && OwnAsWas(parent.mapping, befores, requested, TableNamed(tables, parent.mapping.table), row, early, own)
      && parent.fields == After(parent.mapping, own) && parent.Key() == own.key
      && db.log == old(db.log) + [(parent.mapping.table, own)]
      && HalfWay(parent, models, befores, requested, tables, start, db.tables, RowsOf(models), early, own)
  {
    ghost var was, rows := db.tables, RowsOf(models);
    ok, own := PutOwn(db, parent, befores, requested, TableNamed(tables, parent.mapping.table), row, early);
    SameRowsOf(models);
    if ok {
      IsHalfWay(parent, models, befores, requested, tables, start, was, rows, early, own);
    }
  }

  /** Tables neither of the model nor of a relation are as they were. */
  ghost predicate TablesBut(before: map<string, Table>, after: map<string, Table>, m: Mapping, rels: seq<Relation>) {
    forall name :: name != m.table && WritesNone(rels, |rels|, name) ==>
      TableNamed(after, name) == TableNamed(before, name)
  }

  /** The relations that the model refers to, and the model's own row. */
  method PutReferring(db: Database, parent: Model, ghost models: set<Model>, befores: seq<Relation>, requested: Fields,
                      ghost before: map<Model, Row>)
    returns (ok: bool, ghost early: seq<seq<Write>>, ghost own: Write)
    requires AllGiven(parent, befores, 0) && Cast(parent, befores) <= models && parent !in models
    requires forall r :: 0 <= r < |befores| ==> FkIsLocal(parent.mapping, befores[r])
    requires before == RowsOf(models) && AllFilledSince(models, before, 0)
    requires AllMapped(db, befores) && db.Maps(parent.mapping) && db.Valid()
    modifies db, parent`fields, models`fields
    ensures UnlostBut(parent.fields, old(parent.fields), parent.mapping.pk)
    ensures AllFilledSince(models, before, 0) && db.Valid()
    ensures TablesBut(old(db.tables), db.tables, parent.mapping, befores)
    ensures
      if ok then db.failed == old(db.failed)
      else db.failed || OwnRefused(db, parent, requested) || AnyRefused(db, parent, befores)
    ensures ok ==>
      && |early| == |befores|
      && OwnAsWas(parent.mapping, befores, requested, old(db.T(parent.mapping.table)), old(parent.fields), early, own)
      && parent.fields == After(parent.mapping, own) && parent.Key() == own.key
      && AllPutAsWere(parent, befores, old(db.tables), before, 0, early)
      && db.log == old(db.log) + LogOf(befores, early) + [(parent.mapping.table, own)]
      && HalfWay(parent, models, befores, requested, old(db.tables), before, db.tables, RowsOf(models), early, own)
  {
    own := Write(map[], 0, map[], 0);
    ok, early := PutRelations(db, parent, models, befores, 0, before);
    if !ok {
      ReferredUnlost(old(parent.fields), parent.fields, parent.mapping, befores, early);
    } else {
      ok, own := PutOwnAfter(db, parent, models, befores, requested, old(db.tables), before, old(parent.fields),
                             early);
    }
  }

  lemma SinceNow(models: set<Model>, before: map<Model, Row>)
    requires before == RowsOf(models)
    ensures AllFilledSince(models, before, 0)
  {
  }

  lemma SinceAnyKey(models: set<Model>, before: map<Model, Row>, key: int)
    requires AllFilledSince(models, before, 0)
    ensures AllFilledSince(models, before, key)
  {
    forall o | o in models
      ensures FilledSince(o, before, key)
    {
      assert FilledSince(o, before, 0);
      FilledNone(o.fields, before[o], o.mapping.pk, key);
    }
  }

  /** The relations that refer to the model, which is left as it is. */
  method PutReferrers(db: Database, parent: Model, ghost models: set<Model>, afters: seq<Relation>,
                      ghost before: map<Model, Row>)
    returns (ok: bool, ghost late: seq<seq<Write>>)
    requires forall r :: 0 <= r < |afters| ==> WellRelated(parent, afters[r]) && !FkIsLocal(parent.mapping, afters[r])
    requires Cast(parent, afters) <= models && parent !in models
    requires AllFilledSince(models, before, parent.Key()) && AllMapped(db, afters) && db.Valid()
    modifies db, parent`fields, models`fields
    ensures parent.fields == old(parent.fields) && AllFilledSince(models, before, parent.Key()) && db.Valid()
    ensures OnlyTables(old(db.tables), db.tables, afters)
    ensures if ok then db.failed == old(db.failed) else db.failed || AnyRefused(db, parent, afters)
    ensures ok ==>
      && |late| == |afters| && db.log == old(db.log) + LogOf(afters, late)
      && AllDone(parent, afters, before, late, parent.Key())
      && AsWere(parent, models, afters, |afters|, old(db.tables), old(RowsOf(models)), db.tables, RowsOf(models))
      && AllEnded(parent, afters, old(db.tables), old(RowsOf(models)), db.tables, parent.Key(), late)
  {
    ok, late := PutRelations(db, parent, models, afters, parent.Key(), before);
    ReferredElsewhere(old(parent.fields), parent.mapping, afters[..|late|], late);
  }

  /** What the two sides and the model itself leave alone. */
  lemma SidesLeave(before: map<string, Table>, mid: map<string, Table>, after: map<string, Table>, m: Mapping,
                   rels: seq<Relation>)
    requires TablesBut(before, mid, m, Side(m, rels, true)) && OnlyTables(mid, after, Side(m, rels, false))
    ensures TablesBut(before, after, m, rels)
  {
    SidesWrite(m, rels, true);
    SidesWrite(m, rels, false);
  }

  /** The same, with what the whole put leaves in the tables. */
  method PutReferrersAfter(db: Database, parent: Model, ghost models: set<Model>, ghost befores: seq<Relation>,
                           afters: seq<Relation>, ghost requested: Fields, ghost before: map<Model, Row>,
                           ghost tables: map<string, Table>, ghost early: seq<seq<Write>>, ghost own: Write)
    returns (ok: bool, ghost late: seq<seq<Write>>)
    requires forall r :: 0 <= r < |afters| ==> WellRelated(parent, afters[r]) && !FkIsLocal(parent.mapping, afters[r])
    requires Cast(parent, afters) <= models && parent !in models && own.key == parent.Key()
    requires AllFilledSince(models, before, own.key) && AllMapped(db, afters) && db.Valid()
    requires HalfWay(parent, models, befores, requested, tables, before, db.tables, RowsOf(models), early, own)
    modifies db, parent`fields, models`fields
    ensures parent.fields == old(parent.fields) && AllFilledSince(models, before, own.key) && db.Valid()
    ensures OnlyTables(old(db.tables), db.tables, afters)
    ensures if ok then db.failed == old(db.failed) else db.failed || AnyRefused(db, parent, afters)
    ensures ok ==>
      && |late| == |afters| && db.log == old(db.log) + LogOf(afters, late)
      && AllDone(parent, afters, before, late, own.key)
      && TablesAfter(parent, befores, afters, requested, tables, before, db.tables, early, own, late)
  {
    ghost var was, mid := db.tables, RowsOf(models);
    ok, late := PutReferrers(db, parent, models, afters, before);
    if ok {
      TablesAreAfter(parent, models, befores, afters, requested, tables, before, was, mid, db.tables, RowsOf(models),
                     early, own, late);
    }
  }

  /** Puts a model with its relations. The writes are those of the relations it refers to, then its
      own row, which refers to them, then those of the relations that refer to it, whose models
      refer to its key. That key is zero exactly if the model had none and is known by a unique key.
      No field that has a value is overwritten but a primary key. */
  method Put(db: Database, parent: Model, rels: seq<Relation>, requested: Fields)
    returns (ok: bool, ghost early: seq<seq<Write>>, ghost own: Write, ghost late: seq<seq<Write>>)
    requires forall r :: 0 <= r < |rels| ==> WellRelated(parent, rels[r])
    requires AllMapped(db, rels) && db.Maps(parent.mapping) && db.Valid()
    modifies db, parent`fields, Cast(parent, rels)`fields
    ensures db.Valid()
    ensures ok ==>
      var m := parent.mapping;
      var befores, afters := Side(m, rels, true), Side(m, rels, false);
      && |early| == |befores| && |late| == |afters|
      && OwnAsWas(m, befores, requested, old(db.T(m.table)), old(parent.fields), early, own)
      && parent.fields == After(m, own)
      && AllPutAsWere(parent, befores, old(db.tables), old(RowsOf(Cast(parent, rels))), 0, early)
      && db.log == old(db.log) + LogOf(befores, early) + [(m.table, own)] + LogOf(afters, late)
      && AllDone(parent, afters, old(RowsOf(Cast(parent, rels))), late, own.key)
      && TablesAfter(parent, befores, afters, requested, old(db.tables), old(RowsOf(Cast(parent, rels))), db.tables,
                     early, own, late)
    ensures
      if ok then db.failed == old(db.failed)
      else db.failed || OwnRefused(db, parent, requested) || AnyRefused(db, parent, rels)
    ensures UnlostBut(parent.fields, old(parent.fields), parent.mapping.pk)
    ensures AllFilledSince(Cast(parent, rels), old(RowsOf(Cast(parent, rels))), parent.Key())
    ensures TablesBut(old(db.tables), db.tables, parent.mapping, rels)
  {
    late := [];
    ghost var models, before := Cast(parent, rels), RowsOf(Cast(parent, rels));
    var befores, afters := Categorize(parent.mapping, rels);
    SinceNow(models, before);
    SideWithin(db, parent, rels, true);
    SideWithin(db, parent, rels, false);
    ok, early, own := PutReferring(db, parent, models, befores, requested, before);
    SinceAnyKey(models, before, parent.Key());
    ghost var mid := db.tables;
    if ok {
      ok, late := PutReferrersAfter(db, parent, models, befores, afters, requested, before, old(db.tables), early, own);
    }
    SidesLeave(old(db.tables), mid, db.tables, parent.mapping, rels);
    SideRefused(db, parent, rels, true);
    SideRefused(db, parent, rels, false);
  }

  /** A relation put before the parent whose table and model no earlier one touches: in terms of the
      state before the call, the parent's zero foreign key ends as the key of the related model's row
      if that model's key fits, and stays zero if the model is known by a unique key alone. */
  lemma ReferredAsWas(parent: Model, befores: seq<Relation>, tables: map<string, Table>, start: map<Model, Row>,
                      row: Row, early: seq<seq<Write>>, r: nat)
    requires |early| == |befores| && AllPutAsWere(parent, befores, tables, start, 0, early)
    requires forall i :: 0 <= i < |befores| ==> FkIsLocal(parent.mapping, befores[i])
    requires r < |befores| && forall i :: 0 <= i < |befores| && i != r ==> befores[i].local != befores[r].local
    requires WritesNone(befores, r, befores[r].mapping.table)
    requires forall c :: c in parent.Related(befores[r].name) ==> PutsNone(parent, befores, r, c)
    requires !befores[r].toMany && early[r] != [] && befores[r].remote == befores[r].mapping.pk
    requires Field(row, befores[r].local) == 0
    ensures
      var rel, rows := befores[r], RowsThen(start, parent.Related(befores[r].name));
      var t, fk := TableNamed(tables, rel.mapping.table),
        Field(Referred(row, parent.mapping, befores, early), rel.local);
      && rows != []
      && (KeyFits(t, rel.mapping, rel.fields, rows[0]) ==> fk == RowKey(rel.mapping, rel.fields, early[r][0]) != 0)
      && (KnownByUnique(t, rel.mapping, rows[0]) ==> fk == 0)
  {
    var rel, rows, w := befores[r], RowsThen(start, parent.Related(befores[r].name)), early[r][0];
    var t := TableNamed(tables, rel.mapping.table);
    assert PutAsWere(parent, befores, tables, start, 0, r, early[r]);
    assert IsPutOf(rel, t, rows[0], w);
    ReferredField(row, parent.mapping, befores, early, r);
    if KeyFits(t, rel.mapping, rel.fields, rows[0]) {
      FitsRefers(rel, w);
    }
    KeyZeroExactlyWhen(rel.mapping, rel.fields, w);
  }

  // ----- Models that are known by a unique key

  /** A model put with its parent, that referred to none before, ends referring to the parent's row:
      if and only if the parent was not known by a unique key alone before the put. */
  lemma RefersToParentExactlyWhen(m: Mapping, befores: seq<Relation>, requested: Fields, t: Table, orig: Row,
                                  early: seq<seq<Write>>, own: Write, rel: Relation, row: Row, before: Row, w: Write)
    requires OwnAsWas(m, befores, requested, t, orig, early, own) && Undisturbed(m, befores)
    requires RefersTo(row, before, w, rel, own.key) && Field(before, rel.remote) == 0
    ensures Field(row, rel.remote) == RowKey(m, requested, own) != 0 <==> !KnownByUnique(t, m, orig)
  {
    if own.key != 0 {
      KeyIsRowKey(m, requested, own);
    }
  }

  /** An account by its company's name, which is a unique key: it has a row under another number. */
  function Accounts(): Table {
    map[1 := map["ID" := 7, "Company" := 3]]
  }

  function AccountMapping(): Mapping {
    Mapping("accounts", "ID", [["Company"]], {"Company", "Plan"}, {"Company", "Plan"})
  }

  /** Put with the company only, the account ends without a primary key: a user that refers to it
      gets none, and the account gives none to its users. */
  lemma CompanyOnly(own: Write)
    requires own.on == Accounts() && own.values == map["Company" := 3] && IsPut(AccountMapping(), All, own)
    ensures own.row == 1 && RowKey(AccountMapping(), All, own) == 7 && own.key == 0
    ensures
      var account := Relation("Account", AccountMapping(), "AccountID", "ID", false, All, _ => true);
      forall user: Row :: Referring(user, Mapping("users", "ID", [], {}, {"AccountID"}), account, own) == user
    ensures
      var users := Relation("Users", Mapping("users", "ID", [], {}, {"AccountID"}), "ID", "AccountID", true, All,
                            _ => true);
      forall user: Row :: Filled(user, users.remote, own.key) == user
  {
    var m, t, v := AccountMapping(), Accounts(), own.values;
    PrimaryFirst(m, v);
    assert m.uniques[0] == ["Company"];
    assert Values(v, ["Company"]) == [3] == Values(t[1], ["Company"]);
    assert FirstPopulated(v, m.uniques) == Some(Lookup(["Company"], [3]));
    assert 1 in Named(t, v, KeysOf(m));
  }
}
