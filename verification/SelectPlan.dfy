/** The decoder as the plan runs it: positional offsets into one scan target, a null-key test,
    and one remembered primary key per to-many relation that outlives its parent. */
module SelectPlan {
  import opened Decoder
  import opened Folding

  /** The remembered keys have the shape of the structure. */
  predicate Shaped(rels: seq<Relation>, ps: seq<Prev>)
    decreases rels
  {
    |ps| == |rels| && forall i :: 0 <= i < |rels| ==> Shaped(rels[i].structure.relations, ps[i].subs)
  }

  /** Along the last loaded model of each relation, the remembered key is that model's own
      key. Where nothing is loaded yet any stale key may be remembered. */
  predicate Tracks(rels: seq<Relation>, kids: seq<seq<Obj>>, ps: seq<Prev>)
    decreases rels, 0
  {
    |kids| == |ps| == |rels| && forall i :: 0 <= i < |rels| ==> TracksRel(rels[i], kids[i], ps[i])
  }

  predicate TracksRel(r: Relation, cur: seq<Obj>, p: Prev)
    decreases r, 1
  {
    && (cur == [] ==> Shaped(r.structure.relations, p.subs))
    && (cur != [] ==>
        (r.toMany ==> p.key == KeyOf(r.structure, Last(cur))) && Tracks(r.structure.relations, Last(cur).rels, p.subs))
  }

  lemma {:induction false} TracksShaped(rels: seq<Relation>, kids: seq<seq<Obj>>, ps: seq<Prev>)
    requires Tracks(rels, kids, ps)
    ensures Shaped(rels, ps)
    decreases rels
  {
    forall i | 0 <= i < |rels|
      ensures Shaped(rels[i].structure.relations, ps[i].subs)
    {
      assert TracksRel(rels[i], kids[i], ps[i]);
      if kids[i] != [] {
        TracksShaped(rels[i].structure.relations, Last(kids[i]).rels, ps[i].subs);
      }
    }
  }

  lemma ZeroTracks(s: Structure, ps: seq<Prev>)
    requires Shaped(s.relations, ps)
    ensures Tracks(s.relations, Zero(s).rels, ps)
  {
  }

  /** Peels the first relation off the columns that remain. */
  lemma Peel(rels: seq<Relation>, row: Row, fs: seq<seq<Obj>>)
    requires rels != [] && |fs| == |rels| && |row| == WidthAll(rels) && ConsistentAll(rels, row)
    ensures Width(rels[0].structure) <= |row| && |row[Width(rels[0].structure)..]| == WidthAll(rels[1..])
    ensures Consistent(rels[0].structure, row[..Width(rels[0].structure)])
    ensures ConsistentAll(rels[1..], row[Width(rels[0].structure)..])
    ensures LoadRels(rels, row, fs)
         == [LoadRel(rels[0], row[..Width(rels[0].structure)], fs[0])] +
           LoadRels(rels[1..], row[Width(rels[0].structure)..], fs[1..])
  {
  }

  /** The columns `row` stand in the scan target at `offset`. */
  ghost predicate IsAt(row: Row, target: Row, offset: nat) {
    offset + |row| <= |target| && forall i :: 0 <= i < |row| ==> row[i] == target[offset + i]
  }

  lemma Cut(row: Row, target: Row, offset: nat, w: nat)
    requires IsAt(row, target, offset) && w <= |row|
    ensures IsAt(row[..w], target, offset) && IsAt(row[w..], target, offset + w)
  {
  }

  method LoadFields(names: seq<string>, target: Row, offset: nat, m: map<string, Value>, ghost row: Row)
    returns (cols: map<string, Value>)
    requires IsAt(row, target, offset) && |names| <= |row|
    ensures cols == SetFields(names, row, m)
  {
    cols := m;
    for i := 0 to |names|
      invariant cols == SetFields(names[..i], row, m)
    {
      assert names[..i + 1][..i] == names[..i] && At(row, i) == target[i + offset];
      cols := cols[names[i] := target[i + offset]];
    }
    assert names[..|names|] == names;
  }

  /** Loads one structure from the target at `offset`, whose columns there are `row`; the
      result offset is past all of them. */
  method LoadStructure(s: Structure, target: Row, offset: nat, o: Obj, prev: seq<Prev>, ghost row: Row)
    returns (next: nat, loaded: Obj, ps: seq<Prev>)
    requires IsAt(row, target, offset) && |row| == Width(s) && Consistent(s, row)
    requires Tracks(s.relations, o.rels, prev)
    ensures next == offset + Width(s)
    ensures loaded == Load(s, row, o)
    ensures Tracks(s.relations, loaded.rels, ps)
    decreases s, 1
  {
    var names := s.primaryKeyFields + s.fields;
    var cols := LoadFields(names, target, offset, o.cols, row);
    var kids;
    Cut(row, target, offset, |names|);
    assert Drop(row, |names|) == row[|names|..];
    next, kids, ps := LoadRelations(s.relations, target, offset + |names|, o.rels, prev, row[|names|..]);
    loaded := Obj(cols, kids);
  }

  method LoadRelations(rels: seq<Relation>, target: Row, offset: nat, fs: seq<seq<Obj>>, prev: seq<Prev>,
                       ghost row: Row)
    returns (next: nat, kids: seq<seq<Obj>>, ps: seq<Prev>)
    requires IsAt(row, target, offset) && |row| == WidthAll(rels) && ConsistentAll(rels, row)
    requires Tracks(rels, fs, prev)
    ensures next == offset + WidthAll(rels)
    ensures kids == LoadRels(rels, row, fs)
    ensures Tracks(rels, kids, ps)
    decreases rels, 1
  {
    next, kids, ps := offset, [], [];
    ghost var cells := row;
    Start(rels, row, fs);
    for i := 0 to |rels|
      invariant next + |cells| == offset + |row|
      invariant IsAt(cells, target, next) && Loaded(rels, i, row, cells, fs, kids, ps)
    {
      var cur, p;
      next, cur, p, cells := LoadNext(rels, i, target, next, fs, prev, row, cells, kids, ps);
      kids, ps := kids + [cur], ps + [p];
    }
    Finish(rels, row, cells, fs, kids, ps);
  }

  /** The next relation of a row, read from its own columns. */
  method LoadNext(rels: seq<Relation>, i: nat, target: Row, offset: nat, fs: seq<seq<Obj>>, prev: seq<Prev>,
                  ghost row: Row, ghost cells: Row, ghost kids: seq<seq<Obj>>, ghost ps: seq<Prev>)
    returns (next: nat, cur: seq<Obj>, p: Prev, ghost rest: Row)
    requires i < |rels| && IsAt(cells, target, offset) && Loaded(rels, i, row, cells, fs, kids, ps) &&
      Tracks(rels, fs, prev)
    ensures next + |rest| == offset + |cells| && IsAt(rest, target, next)
    ensures Loaded(rels, i + 1, row, rest, fs, kids + [cur], ps + [p])
    decreases rels, 0
  {
    ghost var w := Width(rels[i].structure);
    Ready(rels, i, row, cells, fs, kids, ps, prev);
    Cut(cells, target, offset, w);
    next, cur, p := LoadRelation(rels[i], target, offset, fs[i], prev[i], cells[..w]);
    Step(rels, i, row, cells, fs, kids, ps, cur, p);
    rest := cells[w..];
  }

  /** The first `i` relations are loaded and `cells` are the columns of the others. */
  ghost predicate Loaded(rels: seq<Relation>, i: nat, row: Row, cells: Row, fs: seq<seq<Obj>>, kids: seq<seq<Obj>>,
                         ps: seq<Prev>) {
    && i <= |rels| == |fs|
    && |cells| == WidthAll(rels[i..]) && ConsistentAll(rels[i..], cells)
    && LoadRels(rels, row, fs) == kids + LoadRels(rels[i..], cells, fs[i..])
    && Tracks(rels[..i], kids, ps)
  }

  lemma Start(rels: seq<Relation>, row: Row, fs: seq<seq<Obj>>)
    requires |fs| == |rels| && |row| == WidthAll(rels) && ConsistentAll(rels, row)
    ensures Loaded(rels, 0, row, row, fs, [], [])
  {
    assert rels[0..] == rels && fs[0..] == fs && rels[..0] == [] &&
      [] + LoadRels(rels, row, fs) == LoadRels(rels, row, fs);
  }

  lemma Finish(rels: seq<Relation>, row: Row, cells: Row, fs: seq<seq<Obj>>, kids: seq<seq<Obj>>, ps: seq<Prev>)
    requires Loaded(rels, |rels|, row, cells, fs, kids, ps)
    ensures cells == [] && kids == LoadRels(rels, row, fs) && Tracks(rels, kids, ps)
  {
    assert rels[|rels|..] == [] && rels[..|rels|] == rels && kids + [] == kids;
  }

  lemma Ready(rels: seq<Relation>, i: nat, row: Row, cells: Row, fs: seq<seq<Obj>>, kids: seq<seq<Obj>>, ps: seq<Prev>,
              prev: seq<Prev>)
    requires i < |rels| && Loaded(rels, i, row, cells, fs, kids, ps) && Tracks(rels, fs, prev)
    ensures TracksRel(rels[i], fs[i], prev[i])
    ensures Width(rels[i].structure) <= |cells| && Consistent(rels[i].structure, cells[..Width(rels[i].structure)])
  {
    assert rels[i..][0] == rels[i];
    Peel(rels[i..], cells, fs[i..]);
  }

  lemma Step(rels: seq<Relation>, i: nat, row: Row, cells: Row, fs: seq<seq<Obj>>, kids: seq<seq<Obj>>, ps: seq<Prev>,
             cur: seq<Obj>, p: Prev)
    requires i < |rels| && Loaded(rels, i, row, cells, fs, kids, ps) && Width(rels[i].structure) <= |cells|
    requires cur == LoadRel(rels[i], cells[..Width(rels[i].structure)], fs[i]) && TracksRel(rels[i], cur, p)
    ensures Loaded(rels, i + 1, row, cells[Width(rels[i].structure)..], fs, kids + [cur], ps + [p])
  {
    var rest, w := rels[i..], Width(rels[i].structure);
    assert rest[0] == rels[i] && rest[1..] == rels[i + 1..] && fs[i..][0] == fs[i] && fs[i..][1..] == fs[i + 1..];
    Peel(rest, cells, fs[i..]);
    Append(LoadRels(rels, row, fs), kids, cur, LoadRels(rest[1..], cells[w..], fs[i..][1..]));
    TracksMore(rels, i, kids, ps, cur, p);
  }

  lemma Append<T>(all: seq<T>, xs: seq<T>, x: T, ys: seq<T>)
    requires all == xs + ([x] + ys)
    ensures all == (xs + [x]) + ys
  {
  }

  lemma TracksMore(rels: seq<Relation>, i: nat, kids: seq<seq<Obj>>, ps: seq<Prev>, cur: seq<Obj>, p: Prev)
    requires i < |rels| && Tracks(rels[..i], kids, ps) && TracksRel(rels[i], cur, p)
    ensures Tracks(rels[..i + 1], kids + [cur], ps + [p])
  {
    forall j | 0 <= j <= i
      ensures TracksRel(rels[..i + 1][j], (kids + [cur])[j], (ps + [p])[j])
    {
      if j < i {
        assert TracksRel(rels[..i][j], kids[j], ps[j]);
      }
    }
  }

  /** One relation of the row: skipped when its key is null, otherwise loaded into the model
      already there, or into a new one when a to-many relation's key differs from the remembered key. */
  method LoadRelation(r: Relation, target: Row, offset: nat, f: seq<Obj>, prev: Prev, ghost row: Row)
    returns (next: nat, cur: seq<Obj>, p: Prev)
    requires IsAt(row, target, offset) && |row| == Width(r.structure) && Consistent(r.structure, row)
    requires TracksRel(r, f, prev)
    ensures next == offset + Width(r.structure)
    ensures cur == LoadRel(r, row, f)
    ensures TracksRel(r, cur, p)
    decreases r, 2
  {
    var s := r.structure;
    var key := target[offset..offset + |s.primaryKeyFields|];
    assert RowKey(s, row) == key;
    if AllNull(key) {
      next, cur, p := offset + Width(s), f, prev;
      return;
    }
    assert LoadRel(r, row, f) == Place(r, row, f);
    var elem, ps;
    if f != [] {
      TracksShaped(s.relations, Last(f).rels, prev.subs);
    }
    if !r.toMany {
      if f == [] {
        ZeroTracks(s, prev.subs);
        next, elem, ps := LoadStructure(s, target, offset, Zero(s), prev.subs, row);
        cur := [elem];
      } else {
        next, elem, ps := LoadStructure(s, target, offset, f[|f| - 1], prev.subs, row);
        cur := f[..|f| - 1] + [elem];
      }
      p := prev.(subs := ps);
    } else {
      if |f| == 0 || key != prev.key {
        ZeroTracks(s, prev.subs);
        next, elem, ps := LoadStructure(s, target, offset, Zero(s), prev.subs, row);
        LoadedKey(s, row, Zero(s));
        cur := f + [elem];
      } else {
        next, elem, ps := LoadStructure(s, target, offset, f[|f| - 1], prev.subs, row);
        LoadedKey(s, row, Last(f));
        cur := f[..|f| - 1] + [elem];
      }
      p := Prev(key, ps);
    }
    assert Last(cur) == elem;
  }

  lemma {:induction false} DecodeGrows(s: Structure, rows: seq<Row>, list: seq<Obj>)
    ensures |Decode(s, rows, list)| >= |list|
    decreases |rows|
  {
    if rows != [] {
      DecodeGrows(s, rows[1..], Place(Relation("", true, s), rows[0], list));
    }
  }

  class Plan {
    const structure: Structure
    /** The remembered keys kept inside the structure. */
    var prev: seq<Prev>

    constructor (structure: Structure, prev: seq<Prev>)
      ensures this.structure == structure && this.prev == prev
    {
      this.structure, this.prev := structure, prev;
    }

    /** Decodes the result rows into a list that can hold `cap` models. Growing the list past
        its capacity panics, which `Find` reports as an error. Whatever keys are remembered
        at the start, the outcome is that of the reference decoder. */
    method Process(rows: seq<Row>, cap: nat) returns (ok: bool, list: seq<Obj>)
      requires Shaped(structure.relations, prev) && Rows(structure, rows)
      modifies this
      ensures ok <==> |Decode(structure, rows, [])| <= cap
      ensures ok ==> list == Decode(structure, rows, [])
    {
      list := [];
      var count := 0;
      var currentPrimaryKey: seq<Value> := [];
      ghost var all := Decode(structure, rows, []);
      for i := 0 to |rows|
        invariant count == |list| <= cap
        invariant Tracked(list, currentPrimaryKey)
        invariant all == Decode(structure, rows[i..], list)
      {
        var row := rows[i];
        assert row in rows && rows[i..][0] == row && rows[i..][1..] == rows[i + 1..] && row[0..|row|] == row;
        var newPrimaryKey := row[..|structure.primaryKeyFields|];
        assert RowKey(structure, row) == newPrimaryKey;
        ghost var placed := Place(Relation("", true, structure), row, list);
        var isNew := count == 0 || newPrimaryKey != currentPrimaryKey;
        currentPrimaryKey := newPrimaryKey;
        if isNew {
          count := count + 1;
          list := LoadNew(row, list);
          if count > cap {
            DecodeGrows(structure, rows[i + 1..], placed);
            return false, list;
          }
        } else {
          list := LoadLast(row, list);
        }
        assert list == placed;
      }
      assert rows[|rows|..] == [];
      ok := true;
    }

    /** The remembered keys follow the last loaded root, whose key is `key`. */
    ghost predicate Tracked(list: seq<Obj>, key: seq<Value>)
      reads this
    {
      if list == [] then Shaped(structure.relations, prev)
      else key == KeyOf(structure, Last(list)) && Tracks(structure.relations, Last(list).rels, prev)
    }

    method LoadNew(row: Row, list: seq<Obj>) returns (longer: seq<Obj>)
      requires |row| == Width(structure) && Consistent(structure, row) && exists key :: Tracked(list, key)
      modifies this
      ensures longer == list + [Load(structure, row, Zero(structure))] && Tracked(longer, RowKey(structure, row))
    {
      assert row[0..|row|] == row;
      if list != [] {
        TracksShaped(structure.relations, Last(list).rels, prev);
      }
      ZeroTracks(structure, prev);
      LoadedKey(structure, row, Zero(structure));
      var next, loaded, ps := LoadStructure(structure, row, 0, Zero(structure), prev, row);
      prev := ps;
      longer := list + [loaded];
      assert Last(longer) == loaded;
    }

    method LoadLast(row: Row, list: seq<Obj>) returns (updated: seq<Obj>)
      requires |row| == Width(structure) && Consistent(structure, row)
      requires list != [] && Tracked(list, RowKey(structure, row))
      modifies this
      ensures updated == list[..|list| - 1] + [Load(structure, row, Last(list))] &&
        Tracked(updated, RowKey(structure, row))
    {
      assert row[0..|row|] == row;
      LoadedKey(structure, row, Last(list));
      var next, loaded, ps := LoadStructure(structure, row, 0, list[|list| - 1], prev, row);
      prev := ps;
      updated := list[..|list| - 1] + [loaded];
      assert Last(updated) == loaded;
    }
  }
}
