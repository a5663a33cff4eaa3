/** Putting models: the upsert of one model by its first populated key, and the synchronisation of a
    relation's rows. */
module Repositories {
  import opened Lookups
  import opened Options
  import opened Orphans
  import opened Writes

  /** A model object: the type's mapping, the fields, and the related objects it points to. */
  class Model {
    const mapping: Mapping
    var fields: Row
    var rels: map<string, seq<Model>>

    constructor (mapping: Mapping, fields: Row, rels: map<string, seq<Model>>)
      ensures this.mapping == mapping && this.fields == fields && this.rels == rels
    {
      this.mapping, this.fields, this.rels := mapping, fields, rels;
    }

    function F(f: string): int
      reads this`fields
    {
      Field(fields, f)
    }

    function Key(): int
      reads this`fields
    {
      F(mapping.pk)
    }

    function Related(name: string): seq<Model>
      reads this`rels
    {
      if name in rels then rels[name] else []
    }
  }

  // ----- The database

  function TableNamed(tables: map<string, Table>, name: string): Table {
    if name in tables then tables[name] else map[]
  }

  /** Nothing but one table differs. */
  ghost predicate OnlyTable(before: map<string, Table>, after: map<string, Table>, name: string) {
    forall n :: n != name ==> TableNamed(after, n) == TableNamed(before, n)
  }

  lemma OnlyThat(before: map<string, Table>, name: string, t: Table)
    ensures OnlyTable(before, before[name := t], name) && TableNamed(before[name := t], name) == t
  {
  }

  predicate Obeys(t: Table, keys: set<seq<string>>) {
    forall key :: key in keys ==> KeyUnique(t, key)
  }

  /** The rows a statement does not touch keep the keys unique. */
  lemma LessObeys(t: Table, less: Table, keys: set<seq<string>>)
    requires Obeys(t, keys) && less.Keys <= t.Keys && forall id :: id in less ==> less[id] == t[id]
    ensures Obeys(less, keys)
  {
    forall key | key in keys
      ensures KeyUnique(less, key)
    {
      assert KeyUnique(t, key);
    }
  }

  class Database {
    /** The keys that each table is unique in. */
    const keys: map<string, set<seq<string>>>
    var tables: map<string, Table>
    /** The rows written by updates and inserts, oldest first. */
    ghost var log: seq<(string, Write)>
    /** Whether a statement has failed of itself. */
    ghost var failed: bool

    constructor (keys: map<string, set<seq<string>>>)
      ensures Valid() && this.keys == keys && tables == map[] && log == [] && !failed
    {
      this.keys, tables, log, failed := keys, map[], [], false;
    }

    ghost predicate Valid()
      reads this
    {
      forall name :: name in keys ==> Obeys(T(name), keys[name])
    }

    function T(name: string): Table
      reads this
    {
      TableNamed(tables, name)
    }

    /** The table is unique in the mapping's keys. */
    predicate Maps(m: Mapping) {
      m.table in keys && forall key :: key in KeysOf(m) ==> key in keys[m.table]
    }

    lemma Unique(m: Mapping, key: seq<string>)
      requires Valid() && Maps(m) && key in KeysOf(m)
      ensures KeyUnique(T(m.table), key)
    {
      assert Obeys(T(m.table), keys[m.table]);
    }

    /** Replaces a table, unless that would break one of its keys. */
    method Store(name: string, t: Table, ghost entry: seq<(string, Write)>) returns (ok: bool)
      requires Valid() && name in keys
      modifies this
      ensures Valid() && failed == (old(failed) || !ok)
      ensures tables == if ok then old(tables)[name := t] else old(tables)
      ensures log == if ok then old(log) + entry else old(log)
      ensures Obeys(t, keys[name]) && !failed ==> ok
    {
      ok := *;
      ok := ok && Obeys(t, keys[name]);
      if ok {
        tables, log := tables[name := t], log + entry;
      } else {
        failed := true;
      }
    }

    /** Updates the rows with the values of a key; any statement may fail and then changes nothing. */
    method Update(m: Mapping, l: Lookup, values: Row, requested: Fields)
      returns (ok: bool, affected: nat, ghost w: Write)
      requires Valid() && Maps(m) && l.group in KeysOf(m) && Populated(l.values)
      modifies this
      ensures Valid()
      ensures !ok ==> tables == old(tables) && log == old(log)
      ensures if ok then failed == old(failed) else failed || Resolve(requested, m.updatable) == {}
      ensures Resolve(requested, m.updatable) == {} ==> !ok
      ensures ok ==> affected == |NamedBy(old(T(m.table)), l)| <= 1
      ensures ok && affected == 0 ==> tables == old(tables) && log == old(log)
      ensures ok && affected == 1 ==>
        && NamedBy(old(T(m.table)), l) == {w.row}
        && w == Write(old(T(m.table)), w.row, values, Field(values, m.pk))
        && tables == old(tables)[m.table := Written(m, requested, w)]
        && log == old(log) + [(m.table, w)]
      ensures ok && affected == 1 ==> forall f ::
        var asked := requested.All? || (requested.Only? && f in requested.names) ||
          (requested.Except? && f !in requested.names);
        Field(T(m.table)[w.row], f) ==
          if f in m.updatable && asked then Field(values, f) else Field(old(T(m.table))[w.row], f)
      ensures ok && affected == 1 ==>
        && T(m.table).Keys == old(T(m.table)).Keys
        && forall row :: row in T(m.table) && row != w.row ==> T(m.table)[row] == old(T(m.table))[row]
    {
      var t, written, named := T(m.table), Resolve(requested, m.updatable), NamedBy(T(m.table), l);
      w := Write(t, 0, values, Field(values, m.pk));
      affected := |named|;
      if written == {} {
        return false, 0, w;
      }
      if named == {} {
        ok := *;
        failed := failed || !ok;
        return;
      }
      Unique(m, l.group);
      ghost var id := AnyOf(named);
      NamesOne(t, l, id);
      w := Write(t, id, values, Field(values, m.pk));
      var updated := map row | row in t :: if row in named then Overwrite(t[row], written, values) else t[row];
      assert updated == Written(m, requested, w);
      WrittenFields(m, requested, w);
      ok := Store(m.table, updated, [(m.table, w)]);
    }

    /** Inserts a row under its own primary key, or under a generated one when it has none. */
    method Insert(m: Mapping, values: Row, requested: Fields) returns (ok: bool, id: int, ghost w: Write)
      requires Valid() && Maps(m)
      modifies this
      ensures Valid()
      ensures !ok ==> tables == old(tables) && log == old(log)
      ensures failed == (old(failed) || !ok)
      ensures ok ==>
        var own := m.pk in Resolve(requested, m.insertable) && Field(values, m.pk) != 0;
        && w == Write(old(T(m.table)), w.row, values, if own then Field(values, m.pk) else id)
        && w.row !in w.on
        && (if own then id == 0 else IsFresh(w.on, m.pk, id))
        && tables == old(tables)[m.table := Written(m, requested, w)]
        && log == old(log) + [(m.table, w)]
      ensures ok ==> forall f ::
        var asked := requested.All? || (requested.Only? && f in requested.names) ||
          (requested.Except? && f !in requested.names);
        Field(T(m.table)[w.row], f) ==
          if f == m.pk then if f in m.insertable && asked && Field(values, f) != 0 then Field(values, f) else id
          else if f in m.insertable && asked then Field(values, f)
          else 0
      ensures ok ==>
        && T(m.table).Keys == old(T(m.table)).Keys + {w.row}
        && forall row :: row in old(T(m.table)) ==> T(m.table)[row] == old(T(m.table))[row]
    {
      var t, written := T(m.table), Resolve(requested, m.insertable);
      var row := NextId(t.Keys);
      var key := Field(values, m.pk);
      id := 0;
      if m.pk !in written || key == 0 {
        id := NextKey(t, m.pk);
        key := id;
      }
      w := Write(t, row, values, key);
      WrittenFields(m, requested, w);
      ok := Store(m.table, t[row := Overwrite(map[], written, values)[m.pk := key]], [(m.table, w)]);
    }

    method NextKey(t: Table, pk: string) returns (key: int)
      ensures IsFresh(t, pk, key)
    {
      var taken := set id | id in t :: Field(t[id], pk);
      key := NextId(taken);
      assert forall id :: id in t ==> Field(t[id], pk) in taken;
    }

    /** A number that is not taken. */
    method NextId(taken: set<int>) returns (id: int)
      ensures id > 0 && id !in taken
    {
      id := 1;
      ghost var seen := {};
      while id in taken
        invariant id > 0 && seen <= taken && (forall k :: k in seen ==> k < id)
        decreases taken - seen
      {
        seen := seen + {id};
        id := id + 1;
      }
    }

    /** Deletes the rows with the given primary keys. */
    method Delete(m: Mapping, pks: set<int>) returns (ok: bool)
      requires Valid() && Maps(m)
      modifies this
      ensures Valid() && log == old(log) && failed == (old(failed) || !ok)
      ensures
        var t := old(T(m.table));
        tables == if ok then old(tables)[m.table := t - set id | id in t && Field(t[id], m.pk) in pks] else old(tables)
    {
      var t := T(m.table);
      var less := t - set id | id in t && Field(t[id], m.pk) in pks;
      LessObeys(t, less, keys[m.table]);
      ok := Store(m.table, less, []);
    }

    /** The rows in scope that the database returns first, at most a page of them. */
    method FindRelated(rel: Relation, parentKey: int) returns (ok: bool, found: set<int>)
      modifies this`failed
      ensures failed == (old(failed) || !ok)
      ensures ok ==> IsPage(found, Scope(T(rel.mapping.table), rel, parentKey))
    {
      found := *;
      ok := IsPage(found, Scope(T(rel.mapping.table), rel, parentKey));
      failed := failed || !ok;
    }
  }

  // ----- One model

  predicate CanInsert(m: Mapping, key: seq<string>) {
    forall i :: 0 <= i < |key| ==> key[i] in m.insertable
  }

  /** Updates the row of the model's first populated key, or inserts one. The put fails only if the
      database does or if it has to be refused, and a failure changes nothing. */
  method PutSingleModel(db: Database, obj: Model, requested: Fields) returns (ok: bool, ghost w: Write)
    requires db.Valid() && db.Maps(obj.mapping)
    modifies db, obj`fields
    ensures db.Valid()
    ensures !ok ==> obj.fields == old(obj.fields) && db.tables == old(db.tables) && db.log == old(db.log)
    ensures ok ==>
      && IsPut(obj.mapping, requested, w)
      && w.on == old(db.T(obj.mapping.table)) && w.values == old(obj.fields)
      && obj.fields == After(obj.mapping, w)
      && db.tables == old(db.tables)[obj.mapping.table := Written(obj.mapping, requested, w)]
      && db.log == old(db.log) + [(obj.mapping.table, w)]
    ensures ok ==> forall f ::
      var m, t, row := obj.mapping, old(db.T(obj.mapping.table)), db.T(obj.mapping.table)[w.row];
      var asked := requested.All? || (requested.Only? && f in requested.names) ||
        (requested.Except? && f !in requested.names);
      if w.row in t then Field(row, f) == if f in m.updatable && asked then old(obj.F(f)) else Field(t[w.row], f)
      else f != m.pk ==> Field(row, f) == if f in m.insertable && asked then old(obj.F(f)) else 0
    ensures ok ==>
      var t, now := old(db.T(obj.mapping.table)), db.T(obj.mapping.table);
      now.Keys == t.Keys + {w.row} && forall row :: row in t && row != w.row ==> now[row] == t[row]
    ensures ok ==> forall f :: f != obj.mapping.pk ==> obj.F(f) == old(obj.F(f))
    ensures ok ==>
      db.failed == old(db.failed) && !Refused(old(db.T(obj.mapping.table)), obj.mapping, requested, old(obj.fields))
    ensures !ok ==> db.failed || Refused(old(db.T(obj.mapping.table)), obj.mapping, requested, old(obj.fields))
    ensures ok ==> obj.Key() == if w.row in old(db.T(obj.mapping.table)) then old(obj.Key())
                                else Field(db.T(obj.mapping.table)[w.row], obj.mapping.pk)
  {
    var m, id := obj.mapping, 0;
    var key := FirstPopulated(obj.fields, KeysOf(m));
    FirstIsAKey(obj.fields, KeysOf(m));
    PrimaryFirst(m, obj.fields);
    if key.Some? {
      var affected;
      ok, affected, w := db.Update(m, key.value, obj.fields, requested);
      if !ok || affected == 1 {
        return;
      }
      if !CanInsert(m, key.value.group) {
        return false, w;
      }
    }
    ok, id, w := db.Insert(m, obj.fields, requested);
    if ok && id != 0 {
      obj.fields := obj.fields[m.pk := id];
    }
  }

  // ----- Related models

  /** The foreign key a parent gives to its related models; none when it holds the key itself. */
  function Given(parent: Model, rel: Relation): int
    reads parent`fields
  {
    if FkIsLocal(parent.mapping, rel) then 0 else parent.F(rel.local)
  }

  /** Copies the key over the join, where one side has it and the side with the foreign key has
      none yet. */
  method CopyFk(parent: Model, child: Model, rel: Relation)
    requires parent != child
    modifies parent`fields, child`fields
    ensures child.fields == Filled(old(child.fields), rel.remote, old(Given(parent, rel)))
    ensures parent.fields ==
      if FkIsLocal(parent.mapping, rel) then Filled(old(parent.fields), rel.local, old(child.F(rel.remote)))
      else old(parent.fields)
    ensures rel.local == parent.mapping.pk ==>
      && parent.fields == old(parent.fields)
      && child.F(rel.remote) == (if old(child.F(rel.remote)) == 0 then parent.F(rel.local)
                                 else old(child.F(rel.remote)))
      && forall f :: f != rel.remote ==> child.F(f) == old(child.F(f))
    ensures rel.local != parent.mapping.pk ==>
      && child.fields == old(child.fields)
      && parent.F(rel.local) == (if old(parent.F(rel.local)) == 0 then child.F(rel.remote)
                                 else old(parent.F(rel.local)))
      && forall f :: f != rel.local ==> parent.F(f) == old(parent.F(f))
  {
    if FkIsLocal(parent.mapping, rel) {
      if child.F(rel.remote) != 0 && parent.F(rel.local) == 0 {
        parent.fields := parent.fields[rel.local := child.F(rel.remote)];
      }
    } else {
      if parent.F(rel.local) != 0 && child.F(rel.remote) == 0 {
        child.fields := child.fields[rel.remote := parent.F(rel.local)];
      }
    }
  }

  function Snapshot(models: seq<Model>): (rows: seq<Row>)
    reads models
    ensures |rows| == |models| && forall i :: 0 <= i < |rows| ==> rows[i] == models[i].fields
  {
    seq(|models|, i requires 0 <= i < |models| reads models => models[i].fields)
  }

  /** Gives the provided models their foreign keys and collects their primary keys. */
  method ProvideKeys(parent: Model, rel: Relation, children: seq<Model>) returns (provided: set<int>)
    requires !FkIsLocal(parent.mapping, rel) && parent !in children
    modifies parent`fields, (set c | c in children)`fields
    ensures parent.fields == old(parent.fields)
    ensures forall c :: c in children ==> c.fields == Filled(old(c.fields), rel.remote, parent.F(rel.local))
    ensures provided == Provided(old(Snapshot(children)), rel, parent.F(rel.local))
  {
    ghost var before, given := Snapshot(children), parent.F(rel.local);
    provided := {};
    for i := 0 to |children|
      invariant parent.fields == old(parent.fields)
      invariant forall c :: c in children ==>
        c.fields == if c in children[..i] then Filled(old(c.fields), rel.remote, given) else old(c.fields)
      invariant provided == Provided(before[..i], rel, given)
    {
      FilledTwice(before[i], rel.remote, given);
      ProvidedNext(before, rel, given, i);
      assert children[..i + 1] == children[..i] + [children[i]];
      CopyFk(parent, children[i], rel);
      if children[i].F(rel.mapping.pk) != 0 {
        provided := provided + {children[i].F(rel.mapping.pk)};
      }
    }
    assert before[..|children|] == before && children[..|children|] == children;
  }

  lemma FilledTwice(row: Row, f: string, v: int)
    ensures Filled(Filled(row, f, v), f, v) == Filled(row, f, v)
  {
  }

  lemma ProvidedNext(before: seq<Row>, rel: Relation, given: int, i: nat)
    requires i < |before|
    ensures
      var key := Field(Filled(before[i], rel.remote, given), rel.mapping.pk);
      Provided(before[..i + 1], rel, given) == Provided(before[..i], rel, given) + if key != 0 then {key} else {}
  {
    var next, init := before[..i + 1], before[..i];
    assert forall j :: 0 <= j < i ==> next[j] == init[j];
    forall key | key in Provided(init, rel, given)
      ensures key in Provided(next, rel, given)
    {
      var j :| 0 <= j < i && Field(Filled(init[j], rel.remote, given), rel.mapping.pk) == key;
      assert Field(Filled(next[j], rel.remote, given), rel.mapping.pk) == key;
    }
    assert next[i] == before[i];
  }

  /** Deletes the rows of one page of the relation's scope that are not provided. */
  method DeleteOrphaned(db: Database, parent: Model, rel: Relation, children: seq<Model>)
    returns (ok: bool, ghost page: set<int>)
    requires !FkIsLocal(parent.mapping, rel) && parent !in children && db.Valid() && db.Maps(rel.mapping)
    modifies db, parent`fields, (set c | c in children)`fields
    ensures parent.fields == old(parent.fields) && db.Valid()
    ensures db.log == old(db.log) && OnlyTable(old(db.tables), db.tables, rel.mapping.table)
    ensures db.failed == (old(db.failed) || !ok)
    ensures forall c :: c in children ==>
      || c.fields == old(c.fields)
      || c.fields == Filled(old(c.fields), rel.remote, parent.F(rel.local))
    ensures ok ==> IsPage(page, Scope(old(db.T(rel.mapping.table)), rel, parent.F(rel.local)))
    ensures
      var t := old(db.T(rel.mapping.table));
      db.T(rel.mapping.table) ==
        if ok then KeptTable(t, rel, old(Snapshot(children)), parent.F(rel.local), page) else t
    ensures
      var t, now := old(db.T(rel.mapping.table)), db.T(rel.mapping.table);
      && OnlyStraysGo(t, now, rel, parent.F(rel.local), KeysNow(children, rel), {})
      && (ok ==> AllStraysGo(t, now, rel, parent.F(rel.local), KeysNow(children, rel), {}))
  {
    ghost var t, before := db.T(rel.mapping.table), Snapshot(children);
    var existing;
    ok, existing := db.FindRelated(rel, parent.F(rel.local));
    page := existing;
    if !ok || existing == {} {
      NoneGo(t, rel, parent.F(rel.local), page, KeysNow(children, rel));
      return;
    }
    assert Snapshot(children) == before;
    ok := DeleteStrays(db, parent, rel, children, existing, before);
  }

  /** Gives the models their foreign keys and deletes those of a page that are not among them. */
  method DeleteStrays(db: Database, parent: Model, rel: Relation, children: seq<Model>, page: set<int>,
                      ghost before: seq<Row>)
    returns (ok: bool)
    requires before == Snapshot(children)
    requires !FkIsLocal(parent.mapping, rel) && parent !in children && db.Valid() && db.Maps(rel.mapping)
    requires IsPage(page, Scope(db.T(rel.mapping.table), rel, parent.F(rel.local)))
    modifies db, parent`fields, (set c | c in children)`fields
    ensures parent.fields == old(parent.fields) && db.Valid()
    ensures db.log == old(db.log) && OnlyTable(old(db.tables), db.tables, rel.mapping.table)
    ensures db.failed == (old(db.failed) || !ok)
    ensures forall c :: c in children ==> c.fields == Filled(old(c.fields), rel.remote, parent.F(rel.local))
    ensures
      var t := old(db.T(rel.mapping.table));
      db.T(rel.mapping.table) == if ok then KeptTable(t, rel, before, parent.F(rel.local), page) else t
    ensures
      var t, now := old(db.T(rel.mapping.table)), db.T(rel.mapping.table);
      && OnlyStraysGo(t, now, rel, parent.F(rel.local), KeysNow(children, rel), {})
      && (ok ==> AllStraysGo(t, now, rel, parent.F(rel.local), KeysNow(children, rel), {}))
  {
    ghost var t := db.T(rel.mapping.table);
    var provided := ProvideKeys(parent, rel, children);
    ok := DeleteOthers(db, rel, page, provided);
    if ok {
      ProvidedAre(before, children, rel, parent.F(rel.local));
      StraysGo(t, rel, before, parent.F(rel.local), page, KeysNow(children, rel));
    } else {
      NoneGo(t, rel, parent.F(rel.local), page, KeysNow(children, rel));
    }
  }

  /** The primary keys that the related models have. */
  ghost function KeysNow(children: seq<Model>, rel: Relation): set<int>
    reads (set c | c in children)`fields
  {
    set c | c in children :: c.F(rel.mapping.pk)
  }

  /** Deletes the rows of a page by their primary keys, but for those provided. */
  method DeleteOthers(db: Database, rel: Relation, existing: set<int>, provided: set<int>) returns (ok: bool)
    requires db.Valid() && db.Maps(rel.mapping)
    modifies db
    ensures db.Valid() && db.log == old(db.log) && OnlyTable(old(db.tables), db.tables, rel.mapping.table)
    ensures db.failed == (old(db.failed) || !ok)
    ensures
      var t := old(db.T(rel.mapping.table));
      db.T(rel.mapping.table) == if ok then t - Orphaned(t, rel.mapping.pk, existing, provided) else t
  {
    var t := db.T(rel.mapping.table);
    var orphans := set id | id in existing && id in t && Field(t[id], rel.mapping.pk) !in provided + {0} ::
      Field(t[id], rel.mapping.pk);
    db.Unique(rel.mapping, [rel.mapping.pk]);
    OrphansByKey(t, rel.mapping.pk, existing, provided, orphans);
    if orphans == {} {
      return true;
    }
    ok := db.Delete(rel.mapping, orphans);
    OnlyThat(old(db.tables), rel.mapping.table, t - Orphaned(t, rel.mapping.pk, existing, provided));
  }

  /** Of the rows that no write touched, only those are gone that pointed to the parent, passed the
      relation's filter, and had a primary key that is not provided, and at most ten of them. */
  ghost predicate OnlyStraysGo(t: Table, now: Table, rel: Relation, key: int, provided: set<int>, touched: set<int>) {
    && (forall id :: id in now && id !in touched ==> id in t && now[id] == t[id])
    && (forall id :: id in t && id !in now ==>
          && Field(t[id], rel.remote) == key && rel.filter(t[id])
          && Field(t[id], rel.mapping.pk) != 0 && Field(t[id], rel.mapping.pk) !in provided)
    && |t.Keys - now.Keys| <= 10
  }

  /** If at most ten rows pointed to the parent and passed the filter, all of those are gone that had a
      primary key that is not provided and that no write touched. */
  ghost predicate AllStraysGo(t: Table, now: Table, rel: Relation, key: int, provided: set<int>, touched: set<int>) {
    |set id | id in t && Field(t[id], rel.remote) == key && rel.filter(t[id])| <= 10 ==>
      forall id :: id in t && id in now && id !in touched && Field(t[id], rel.remote) == key && rel.filter(t[id]) ==>
        Field(t[id], rel.mapping.pk) == 0 || Field(t[id], rel.mapping.pk) in provided
  }

  /** The keys provided, but for zero. */
  ghost predicate Provides(before: seq<Row>, rel: Relation, given: int, provided: set<int>) {
    forall key :: key != 0 ==> (key in provided <==> key in Provided(before, rel, given))
  }

  lemma StraysGo(t: Table, rel: Relation, before: seq<Row>, given: int, page: set<int>, provided: set<int>)
    requires IsPage(page, Scope(t, rel, given)) && Provides(before, rel, given, provided)
    ensures OnlyStraysGo(t, KeptTable(t, rel, before, given, page), rel, given, provided, {})
    ensures AllStraysGo(t, KeptTable(t, rel, before, given, page), rel, given, provided, {})
  {
    Within(t.Keys - KeptTable(t, rel, before, given, page).Keys, page);
    var scope := Scope(t, rel, given);
    assert scope == set id | id in t && Field(t[id], rel.remote) == given && rel.filter(t[id]);
    if |scope| <= 10 {
      WholePage(page, scope);
    }
  }

  /** Writes take no row away, and change none but theirs. */
  lemma WritesKeep(kept: Table, rel: Relation, ws: seq<Write>)
    requires IsChain(kept, rel.mapping, rel.fields, ws)
    ensures
      var now := TableAt(kept, rel.mapping, rel.fields, ws, |ws|);
      && kept.Keys <= now.Keys
      && forall id :: id in now && id !in Rows(ws) ==> id in kept && now[id] == kept[id]
  {
    var now := TableAt(kept, rel.mapping, rel.fields, ws, |ws|);
    assert ws[..|ws|] == ws;
    forall id | id !in Rows(ws)
      ensures id in kept <==> id in now
      ensures id in now ==> now[id] == kept[id]
    {
      Untouched(kept, rel.mapping, rel.fields, ws, |ws|, id);
    }
    forall id | id in kept
      ensures id in now
    {
      StillThere(kept, rel, ws, |ws|, id);
    }
  }

  lemma {:induction false} StillThere(kept: Table, rel: Relation, ws: seq<Write>, n: nat, id: int)
    requires IsChain(kept, rel.mapping, rel.fields, ws) && n <= |ws| && id in kept
    ensures id in TableAt(kept, rel.mapping, rel.fields, ws, n)
  {
    if n > 0 {
      StillThere(kept, rel, ws, n - 1, id);
      assert IsLink(kept, rel.mapping, rel.fields, ws, n - 1);
    }
  }

  /** The keys that the models of a relation provide: their own, or where the relation is by that
      key and a model has none, the parent's. */
  function ProvidedKeys(before: seq<Row>, rel: Relation, given: int): set<int> {
    set i | 0 <= i < |before| ::
      if rel.remote == rel.mapping.pk && Field(before[i], rel.mapping.pk) == 0 then given
      else Field(before[i], rel.mapping.pk)
  }

  lemma ProvidesKeys(before: seq<Row>, rel: Relation, given: int)
    ensures Provides(before, rel, given, ProvidedKeys(before, rel, given))
  {
    var pk, keys := rel.mapping.pk, ProvidedKeys(before, rel, given);
    forall i | 0 <= i < |before|
      ensures Field(Filled(before[i], rel.remote, given), pk) in keys
    {
      assert Field(Filled(before[i], rel.remote, given), pk) ==
        if rel.remote == pk && Field(before[i], pk) == 0 then given else Field(before[i], pk);
    }
    forall key | key in keys && key != 0
      ensures key in Provided(before, rel, given)
    {
      var i :| 0 <= i < |before| && key ==
        if rel.remote == pk && Field(before[i], pk) == 0 then given else Field(before[i], pk);
      assert Field(Filled(before[i], rel.remote, given), pk) == key;
    }
  }

  lemma StraysGoOfAll(t: Table, rel: Relation, before: seq<Row>, given: int, page: set<int>, ws: seq<Write>)
    requires IsPage(page, Scope(t, rel, given))
    requires IsChain(KeptTable(t, rel, before, given, page), rel.mapping, rel.fields, ws)
    ensures
      var now := TableAt(KeptTable(t, rel, before, given, page), rel.mapping, rel.fields, ws, |ws|);
      && OnlyStraysGo(t, now, rel, given, ProvidedKeys(before, rel, given), Rows(ws))
      && AllStraysGo(t, now, rel, given, ProvidedKeys(before, rel, given), Rows(ws))
  {
    var kept := KeptTable(t, rel, before, given, page);
    WritesKeep(kept, rel, ws);
    ProvidesKeys(before, rel, given);
    StraysGo(t, rel, before, given, page, ProvidedKeys(before, rel, given));
    var now := TableAt(kept, rel.mapping, rel.fields, ws, |ws|);
    assert t.Keys - now.Keys <= t.Keys - kept.Keys;
    Within(t.Keys - now.Keys, t.Keys - kept.Keys);
  }

  /** What a put of related models leaves in their table, however far it came: the rows that it wrote,
      and the others but for strays, which may go for a to-many relation only. */
  ghost predicate TableLeft(t: Table, now: Table, rel: Relation, before: seq<Row>, given: int, ws: seq<Write>) {
    && (rel.toMany ==> OnlyStraysGo(t, now, rel, given, ProvidedKeys(before, rel, given), Rows(ws)))
    && (!rel.toMany ==>
          t.Keys <= now.Keys && forall id :: id in now && id !in Rows(ws) ==> id in t && now[id] == t[id])
    && (ws != [] ==> now == Written(rel.mapping, rel.fields, ws[|ws| - 1]))
  }

  /** At the end no stray is left where they fit a page. */
  ghost predicate TableDone(t: Table, now: Table, rel: Relation, before: seq<Row>, given: int, ws: seq<Write>) {
    && TableLeft(t, now, rel, before, given, ws)
    && (rel.toMany ==> AllStraysGo(t, now, rel, given, ProvidedKeys(before, rel, given), Rows(ws)))
  }

  lemma DoneWith(t: Table, rel: Relation, before: seq<Row>, given: int, page: set<int>, ws: seq<Write>)
    requires rel.toMany ==> IsPage(page, Scope(t, rel, given))
    requires IsChain(if rel.toMany then KeptTable(t, rel, before, given, page) else t, rel.mapping, rel.fields, ws)
    ensures
      var kept := if rel.toMany then KeptTable(t, rel, before, given, page) else t;
      TableDone(t, TableAt(kept, rel.mapping, rel.fields, ws, |ws|), rel, before, given, ws)
  {
    if rel.toMany {
      StraysGoOfAll(t, rel, before, given, page, ws);
    } else {
      WritesKeep(t, rel, ws);
    }
  }

  lemma NothingDone(t: Table, rel: Relation, before: seq<Row>, given: int)
    ensures TableLeft(t, t, rel, before, given, [])
  {
  }

  /** Without a row in the page nothing goes, and nothing has to. */
  lemma NoneGo(t: Table, rel: Relation, given: int, page: set<int>, provided: set<int>)
    ensures OnlyStraysGo(t, t, rel, given, provided, {})
    ensures page == {} && IsPage(page, Scope(t, rel, given)) ==> AllStraysGo(t, t, rel, given, provided, {})
  {
    if page == {} && IsPage(page, Scope(t, rel, given)) {
      assert forall id :: id in t && Field(t[id], rel.remote) == given && rel.filter(t[id]) ==>
        id in Scope(t, rel, given);
    }
  }

  /** The keys provided are those that the models have once they got their foreign keys. */
  lemma ProvidedAre(before: seq<Row>, children: seq<Model>, rel: Relation, given: int)
    requires |before| == |children|
    requires forall i :: 0 <= i < |children| ==> children[i].fields == Filled(before[i], rel.remote, given)
    ensures Provides(before, rel, given, KeysNow(children, rel))
  {
    forall key | key != 0
      ensures key in KeysNow(children, rel) <==> key in Provided(before, rel, given)
    {
      if c :| c in children && key == c.F(rel.mapping.pk) {
        var i :| 0 <= i < |children| && children[i] == c;
        assert Field(Filled(before[i], rel.remote, given), rel.mapping.pk) == key;
      }
      if key in Provided(before, rel, given) {
        var i :| 0 <= i < |before| && Field(Filled(before[i], rel.remote, given), rel.mapping.pk) == key;
        assert children[i] in children;
      }
    }
  }

  /** Deleting by primary keys deletes no other row. */
  lemma OrphansByKey(t: Table, pk: string, page: set<int>, provided: set<int>, keys: set<int>)
    requires KeyUnique(t, [pk])
    requires keys == set id | id in page && id in t && Field(t[id], pk) !in provided + {0} :: Field(t[id], pk)
    ensures (set id | id in t && Field(t[id], pk) in keys) == Orphaned(t, pk, page, provided)
  {
    forall id | id in t && Field(t[id], pk) in keys
      ensures id in Orphaned(t, pk, page, provided)
    {
      var other :| other in page && other in t && Field(t[other], pk) !in provided + {0} &&
        Field(t[other], pk) == Field(t[id], pk);
      SameKeySameRow(t, pk, id, other);
    }
    forall id | id in Orphaned(t, pk, page, provided)
      ensures Field(t[id], pk) in keys
    {
      assert id in page && Field(t[id], pk) !in provided + {0};
    }
  }

  lemma SameKeySameRow(t: Table, pk: string, a: int, b: int)
    requires KeyUnique(t, [pk]) && a in t && b in t && Field(t[a], pk) == Field(t[b], pk) != 0
    ensures a == b
  {
    assert Values(t[a], [pk]) == Values(t[b], [pk]) == [Field(t[a], pk)];
  }

  function Referring(parent: Row, m: Mapping, rel: Relation, w: Write): Row {
    if FkIsLocal(m, rel) then Filled(parent, rel.local, RefOf(rel, w)) else parent
  }

  /** At most the foreign key differs, and only where it was zero. */
  ghost predicate Tried(row: Row, orig: Row, m: Mapping, rel: Relation) {
    row == orig || (FkIsLocal(m, rel) && Field(orig, rel.local) == 0 && row == orig[rel.local := Field(row, rel.local)])
  }

  /** A put of the related model has to be refused, as the table and the model are. */
  ghost predicate IsRefused(db: Database, rel: Relation, child: Model)
    reads db, child`fields
  {
    Refused(db.T(rel.mapping.table), rel.mapping, rel.fields, child.fields)
  }

  ghost predicate SomeRefused(db: Database, rel: Relation, children: seq<Model>)
    reads db, (set c | c in children)`fields
  {
    exists i :: 0 <= i < |children| && IsRefused(db, rel, children[i])
  }

  /** Puts one related model between its two key copies. */
  method PutRelated(db: Database, parent: Model, rel: Relation, child: Model) returns (ok: bool, ghost w: Write)
    requires parent != child && child.mapping == rel.mapping && db.Valid() && db.Maps(rel.mapping)
    modifies db, parent`fields, child`fields
    ensures OnlyTable(old(db.tables), db.tables, rel.mapping.table) && db.Valid()
    ensures child.fields == Filled(old(child.fields), rel.remote, old(Given(parent, rel)))
      || child.fields == Filled(old(child.fields), rel.remote, old(Given(parent, rel)))[rel.mapping.pk := child.Key()]
    ensures ok ==> parent.fields == Referring(old(parent.fields), parent.mapping, rel, w)
    ensures Tried(parent.fields, old(parent.fields), parent.mapping, rel)
    ensures !ok ==> db.tables == old(db.tables) && db.log == old(db.log)
    ensures if ok then db.failed == old(db.failed) else db.failed || IsRefused(db, rel, child)
    ensures ok ==>
      && IsPut(rel.mapping, rel.fields, w) && w.on == old(db.T(rel.mapping.table))
      && w.values == Filled(old(child.fields), rel.remote, old(Given(parent, rel)))
      && child.fields == After(rel.mapping, w)
      && db.T(rel.mapping.table) == Written(rel.mapping, rel.fields, w)
      && db.log == old(db.log) + [(rel.mapping.table, w)]
  {
    CopyFk(parent, child, rel);
    ok, w := PutSingleModel(db, child, rel.fields);
    if ok {
      OnlyThat(old(db.tables), rel.mapping.table, Written(rel.mapping, rel.fields, w));
      CopyFk(parent, child, rel);
    }
  }

  lemma StartsByObject(children: seq<Model>, rows: seq<Row>)
    requires rows == Snapshot(children)
    ensures ByObject(children, rows)
  {
  }

  /** The next of a list of related models, some of which were put. */
  method PutNth(db: Database, parent: Model, rel: Relation, children: seq<Model>, i: nat, ghost before: seq<Row>,
                ghost kept: Table, ghost ws: seq<Write>)
    returns (ok: bool, ghost w: Write)
    requires i == |ws| < |children| && parent !in children && (forall c :: c in children ==> c.mapping == rel.mapping)
    requires ByObject(children, before) && db.Valid() && db.Maps(rel.mapping)
    requires db.T(rel.mapping.table) == TableAt(kept, rel.mapping, rel.fields, ws, i)
    requires Progress(children, Snapshot(children), before, rel, Given(parent, rel), kept, ws)
    requires AllKept(Snapshot(children), before, rel, Given(parent, rel))
    modifies db, parent`fields, (set c | c in children)`fields
    ensures OnlyTable(old(db.tables), db.tables, rel.mapping.table) && db.Valid()
    ensures if ok then db.failed == old(db.failed) else db.failed || SomeRefused(db, rel, children)
    ensures AllKept(Snapshot(children), before, rel, old(Given(parent, rel)))
    ensures Tried(parent.fields, old(parent.fields), parent.mapping, rel)
    ensures !ok ==> db.tables == old(db.tables) && db.log == old(db.log)
    ensures ok ==>
      && parent.fields == Referring(old(parent.fields), parent.mapping, rel, w)
      && db.T(rel.mapping.table) == TableAt(kept, rel.mapping, rel.fields, ws + [w], i + 1)
      && db.log == old(db.log) + [(rel.mapping.table, w)]
      && Progress(children, Snapshot(children), before, rel, old(Given(parent, rel)), kept, ws + [w])
  {
    ghost var now, given := Snapshot(children), Given(parent, rel);
    ok, w := PutRelated(db, parent, rel, children[i]);
    ghost var next := Snapshot(children);
    assert |next| == |now| == |children|;
    assert forall j :: 0 <= j < |next| ==> next[j] == if children[j] == children[i] then next[i] else now[j];
    AdvanceKept(now, next, before, rel, given, i);
    if ok {
      Advance(children, now, next, before, rel, given, kept, ws, w);
    }
  }

  /** Puts each related model in turn. */
  method PutEach(db: Database, parent: Model, rel: Relation, children: seq<Model>, ghost before: seq<Row>)
    returns (ok: bool, ghost ws: seq<Write>)
    requires parent !in children && (forall c :: c in children ==> c.mapping == rel.mapping)
    requires FkIsLocal(parent.mapping, rel) ==> |children| <= 1
    requires ByObject(children, before) && db.Valid() && db.Maps(rel.mapping)
    requires forall j :: 0 <= j < |before| ==> Half(children[j].fields, before[j], rel, Given(parent, rel))
    modifies db, parent`fields, (set c | c in children)`fields
    ensures OnlyTable(old(db.tables), db.tables, rel.mapping.table) && db.Valid()
    ensures if ok then db.failed == old(db.failed) else db.failed || SomeRefused(db, rel, children)
    ensures db.log == old(db.log) + Logged(rel.mapping.table, ws) && (ok ==> |ws| == |children|)
    ensures IsChain(old(db.T(rel.mapping.table)), rel.mapping, rel.fields, ws)
    ensures
      db.T(rel.mapping.table) == TableAt(old(db.T(rel.mapping.table)), rel.mapping, rel.fields, ws, |ws|)
    ensures ok ==>
      Progress(children, Snapshot(children), before, rel, old(Given(parent, rel)), old(db.T(rel.mapping.table)), ws)
    ensures AllKept(Snapshot(children), before, rel, old(Given(parent, rel)))
    ensures children == [] ==> parent.fields == old(parent.fields)
    ensures ok && children != [] ==> parent.fields == Referring(old(parent.fields), parent.mapping, rel, ws[0])
    ensures Tried(parent.fields, old(parent.fields), parent.mapping, rel)
  {
    ghost var given, kept := Given(parent, rel), db.T(rel.mapping.table);
    ok, ws := true, [];
    var i := 0;
    while i < |children|
      invariant 0 <= i <= |children| && |ws| == i && ok && db.failed == old(db.failed) && db.Valid()
      invariant OnlyTable(old(db.tables), db.tables, rel.mapping.table)
      invariant db.log == old(db.log) + Logged(rel.mapping.table, ws)
      invariant Progress(children, Snapshot(children), before, rel, given, kept, ws)
      invariant db.T(rel.mapping.table) == TableAt(kept, rel.mapping, rel.fields, ws, i)
      invariant AllKept(Snapshot(children), before, rel, given)
      invariant i == 0 ==> parent.fields == old(parent.fields)
      invariant i > 0 ==> parent.fields == Referring(old(parent.fields), parent.mapping, rel, ws[0])
      invariant Given(parent, rel) == given
    {
      ghost var w := Write(map[], 0, map[], 0);
      ok, w := PutNth(db, parent, rel, children, i, before, kept, ws);
      if !ok {
        return;
      }
      LoggedAppend(old(db.log), rel.mapping.table, ws, w);
      ws := ws + [w];
      i := i + 1;
    }
  }

  /** Puts a parent's related models: for a to-many relation the rows of a page that are not
      provided go, then every model is written with its foreign key. A field that has a value
      keeps it, but for a generated primary key. */
  method PutRelatedModels(db: Database, parent: Model, rel: Relation)
    returns (ok: bool, ghost page: set<int>, ghost ws: seq<Write>)
    requires parent !in parent.Related(rel.name) && db.Valid() && db.Maps(rel.mapping)
    requires forall c :: c in parent.Related(rel.name) ==> c.mapping == rel.mapping
    requires rel.toMany ==> !FkIsLocal(parent.mapping, rel)
    requires !rel.toMany ==> |parent.Related(rel.name)| <= 1
    modifies db, parent`fields, (set c | c in parent.Related(rel.name))`fields
    ensures OnlyTable(old(db.tables), db.tables, rel.mapping.table) && db.Valid()
    ensures if ok then db.failed == old(db.failed) else db.failed || SomeRefused(db, rel, parent.Related(rel.name))
    ensures ok ==>
      var t, given, before := old(db.T(rel.mapping.table)), old(Given(parent, rel)),
        old(Snapshot(parent.Related(rel.name)));
      var kept := if rel.toMany then KeptTable(t, rel, before, given, page) else t;
      && (if rel.toMany then IsPage(page, Scope(t, rel, given)) else page == {})
      && Progress(parent.Related(rel.name), Snapshot(parent.Related(rel.name)), before, rel, given, kept, ws)
      && db.T(rel.mapping.table) == TableAt(kept, rel.mapping, rel.fields, ws, |ws|)
    ensures db.log == old(db.log) + Logged(rel.mapping.table, ws) && (ok ==> |ws| == |parent.Related(rel.name)|)
    ensures
      TableLeft(old(db.T(rel.mapping.table)), db.T(rel.mapping.table), rel, old(Snapshot(parent.Related(rel.name))),
                old(Given(parent, rel)), ws)
    ensures AllKept(Snapshot(parent.Related(rel.name)), old(Snapshot(parent.Related(rel.name))), rel,
                    old(Given(parent, rel)))
    ensures parent.Related(rel.name) == [] ==> parent.fields == old(parent.fields)
    ensures ok && ws != [] ==> parent.fields == Referring(old(parent.fields), parent.mapping, rel, ws[0])
    ensures Tried(parent.fields, old(parent.fields), parent.mapping, rel)
    ensures ok ==>
      TableDone(old(db.T(rel.mapping.table)), db.T(rel.mapping.table), rel, old(Snapshot(parent.Related(rel.name))),
                old(Given(parent, rel)), ws)
    ensures ok && rel.toMany && Separate(parent.Related(rel.name)) && IsWritten(rel.mapping, rel.fields, rel.remote) ==>
      var t, given, before := old(db.T(rel.mapping.table)), old(Given(parent, rel)),
        old(Snapshot(parent.Related(rel.name)));
      SyncFacts(rel, given, t, before, IsSync(rel, given, db.T(rel.mapping.table), ws))
  {
    var children := parent.Related(rel.name);
    ghost var before, t, given := Snapshot(children), db.T(rel.mapping.table), Given(parent, rel);
    page, ws := {}, [];
    ok := true;
    StartsByObject(children, before);
    if rel.toMany {
      ok, page := DeleteOrphaned(db, parent, rel, children);
      if !ok {
        NothingDone(t, rel, before, given);
        return;
      }
    }
    ok, ws := PutEach(db, parent, rel, children, before);
    DoneWith(t, rel, before, given, page, ws);
    if ok && rel.toMany && Separate(children) && IsWritten(rel.mapping, rel.fields, rel.remote) {
      RunSyncs(children, Snapshot(children), before, rel, given, t, page, ws);
    }
  }

  /** When the rows pointing to the parent after a put are those of the models: always if the foreign
      keys fit and a page reaches, and for models that are known or new only then, but for a scope
      beyond a page, where the page decides. */
  ghost predicate SyncFacts(rel: Relation, given: int, t: Table, before: seq<Row>, synced: bool) {
    && (AllFit(before, rel.remote, given) && PageReaches(t, rel, before, given) ==> synced)
    && (synced && KnownOrNew(t, rel, before, given) ==> AllFit(before, rel.remote, given))
    && (synced && KnownOrNew(t, rel, before, given) && |Scope(t, rel, given)| <= PAGE ==>
        PageReaches(t, rel, before, given))
  }

  lemma RunSyncs<T>(ids: seq<T>, now: seq<Row>, before: seq<Row>, rel: Relation, given: int, t: Table, page: set<int>,
                    ws: seq<Write>)
    requires IsRun(ids, now, before, rel, given, t, page, ws) && IsWritten(rel.mapping, rel.fields, rel.remote)
    requires IsPage(page, Scope(t, rel, given))
    ensures SyncFacts(rel, given, t, before, IsSync(rel, given, TableOf(t, rel, before, given, page, ws), ws))
  {
    if AllFit(before, rel.remote, given) && PageReaches(t, rel, before, given) {
      SyncExactlyWhen(ids, now, before, rel, given, t, page, ws);
      ReachedPage(t, rel, before, given, page);
    }
    if KnownOrNew(t, rel, before, given) {
      KnownSyncExactlyWhen(ids, now, before, rel, given, t, page, ws);
      if |Scope(t, rel, given)| <= PAGE {
        WholePage(page, Scope(t, rel, given));
      }
    }
  }
}
