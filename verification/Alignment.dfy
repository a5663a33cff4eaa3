/** The columns a plan selects and the positions the decoder reads them at: every field, at any
    depth, is set from its own column. */
module Alignment {
  import opened Decoder
  import opened Folding

  /** The column of a field, for the relation at a path. */
  datatype Source = Source(path: seq<string>, field: string)

  function Own(path: seq<string>, names: seq<string>): seq<Source> {
    seq(|names|, i requires 0 <= i < |names| => Source(path, names[i]))
  }

  function FullColumns(s: Structure, path: seq<string>): seq<Source>
    decreases s, 1
  {
    Own(path, s.primaryKeyFields) + Own(path, s.fields) + RelationColumns(s.relations, path)
  }

  function RelationColumns(rels: seq<Relation>, path: seq<string>): seq<Source>
    decreases rels, 0
  {
    if rels == [] then [] else FullColumns(rels[0].structure, path + [rels[0].name]) + RelationColumns(rels[1..], path)
  }

  /** What a field of the relation at a path is scanned into. */
  datatype Slot = Slot(path: seq<string>, field: string)

  function Slots(path: seq<string>, names: seq<string>): seq<Slot> {
    seq(|names|, i requires 0 <= i < |names| => Slot(path, names[i]))
  }

  /** The columns and the scan targets of a structure, in lists of their own. */
  datatype Built = Built(
    primaryKey: seq<Source>, columns: seq<Source>, primaryKeyTarget: seq<Slot>, target: seq<Slot>,
      relations: seq<Built>)

  predicate IsBuilt(s: Structure, path: seq<string>, b: Built)
    decreases s
  {
    && b.primaryKey == Own(path, s.primaryKeyFields) && b.columns == Own(path, s.fields)
    && b.primaryKeyTarget == Slots(path, s.primaryKeyFields) && b.target == Slots(path, s.fields)
    && |b.relations| == |s.relations|
    && forall i :: 0 <= i < |s.relations| ==>
      IsBuilt(s.relations[i].structure, path + [s.relations[i].name], b.relations[i])
  }

  lemma OneMore(path: seq<string>, fields: seq<string>, i: nat)
    requires i < |fields|
    ensures Own(path, fields[..i + 1]) == Own(path, fields[..i]) + [Source(path, fields[i])]
    ensures Slots(path, fields[..i + 1]) == Slots(path, fields[..i]) + [Slot(path, fields[i])]
  {
  }

  /** Appends a column and a target for each field, the key's first, and splits both lists after the
      key; then the same for each relation. */
  method MapStructure(s: Structure, path: seq<string>) returns (b: Built)
    ensures IsBuilt(s, path, b)
    decreases s
  {
    var fields, n := Names(s), |s.primaryKeyFields|;
    var columns, target := [], [];
    for i := 0 to |fields|
      invariant columns == Own(path, fields[..i]) && target == Slots(path, fields[..i])
    {
      OneMore(path, fields, i);
      columns, target := columns + [Source(path, fields[i])], target + [Slot(path, fields[i])];
    }
    assert fields[..|fields|] == fields;
    var relations := [];
    for i := 0 to |s.relations|
      invariant |relations| == i
      invariant forall j :: 0 <= j < i ==> IsBuilt(s.relations[j].structure, path + [s.relations[j].name], relations[j])
    {
      var relation := MapStructure(s.relations[i].structure, path + [s.relations[i].name]);
      relations := relations + [relation];
    }
    b := Built(columns[..n], columns[n..], target[..n], target[n..], relations);
  }

  function AllColumns(b: Built): seq<Source> {
    b.primaryKey + b.columns + ColumnsOfAll(b.relations)
  }

  function ColumnsOfAll(bs: seq<Built>): seq<Source> {
    if bs == [] then [] else AllColumns(bs[0]) + ColumnsOfAll(bs[1..])
  }

  function AllTargets(b: Built): seq<Slot> {
    b.primaryKeyTarget + b.target + TargetsOfAll(b.relations)
  }

  function TargetsOfAll(bs: seq<Built>): seq<Slot> {
    if bs == [] then [] else AllTargets(bs[0]) + TargetsOfAll(bs[1..])
  }

  method FullColumnList(b: Built) returns (result: seq<Source>)
    ensures result == AllColumns(b)
    decreases b
  {
    result := b.primaryKey;
    result := result + b.columns;
    ghost var own := result;
    for i := 0 to |b.relations|
      invariant result + ColumnsOfAll(b.relations[i..]) == own + ColumnsOfAll(b.relations)
    {
      var more := FullColumnList(b.relations[i]);
      assert b.relations[i..][1..] == b.relations[i + 1..];
      result := result + more;
    }
  }

  method FullTarget(b: Built) returns (result: seq<Slot>)
    ensures result == AllTargets(b)
    decreases b
  {
    result := b.primaryKeyTarget;
    result := result + b.target;
    ghost var own := result;
    for i := 0 to |b.relations|
      invariant result + TargetsOfAll(b.relations[i..]) == own + TargetsOfAll(b.relations)
    {
      var more := FullTarget(b.relations[i]);
      assert b.relations[i..][1..] == b.relations[i + 1..];
      result := result + more;
    }
  }

  function TargetsOf(columns: seq<Source>): seq<Slot> {
    seq(|columns|, i requires 0 <= i < |columns| => Slot(columns[i].path, columns[i].field))
  }

  /** The two lists of a built structure have one length, the structure's width, and at each position
      the column and the target of one field. */
  lemma {:induction false} TargetsMatchColumns(s: Structure, path: seq<string>, b: Built)
    requires IsBuilt(s, path, b)
    ensures AllColumns(b) == FullColumns(s, path) && AllTargets(b) == TargetsOf(AllColumns(b))
    ensures |AllTargets(b)| == |AllColumns(b)| == Width(s)
    decreases s, 1
  {
    RelationsMatch(s.relations, path, b.relations);
    WidthOfColumns(s, path);
    var columns, more := b.primaryKey + b.columns, ColumnsOfAll(b.relations);
    assert TargetsOf(columns + more) == TargetsOf(columns) + TargetsOf(more);
    assert TargetsOf(columns) == b.primaryKeyTarget + b.target;
  }

  lemma {:induction false} RelationsMatch(rels: seq<Relation>, path: seq<string>, bs: seq<Built>)
    requires |rels| == |bs|
    requires forall i :: 0 <= i < |rels| ==> IsBuilt(rels[i].structure, path + [rels[i].name], bs[i])
    ensures ColumnsOfAll(bs) == RelationColumns(rels, path) && TargetsOfAll(bs) == TargetsOf(ColumnsOfAll(bs))
    decreases rels, 0
  {
    if rels != [] {
      TargetsMatchColumns(rels[0].structure, path + [rels[0].name], bs[0]);
      RelationsMatch(rels[1..], path, bs[1..]);
      var first, rest := AllColumns(bs[0]), ColumnsOfAll(bs[1..]);
      assert TargetsOf(first + rest) == TargetsOf(first) + TargetsOf(rest);
    }
  }

  lemma {:induction false} WidthOfColumns(s: Structure, path: seq<string>)
    ensures |FullColumns(s, path)| == Width(s)
    decreases s, 1
  {
    WidthOfRelations(s.relations, path);
  }

  lemma {:induction false} WidthOfRelations(rels: seq<Relation>, path: seq<string>)
    ensures |RelationColumns(rels, path)| == WidthAll(rels)
    decreases rels, 0
  {
    if rels == [] {
    } else {
      WidthOfColumns(rels[0].structure, path + [rels[0].name]);
      WidthOfRelations(rels[1..], path);
    }
  }

  /** A row of the selected columns, each with its value. */
  function Values(columns: seq<Source>, v: Source -> Value): Row {
    seq(|columns|, i requires 0 <= i < |columns| => v(columns[i]))
  }

  /** The model that one row stands for: each field has its column's value, and a relation is
      there unless its key is null. */
  function Meant(s: Structure, path: seq<string>, v: Source -> Value): Obj
    decreases s, 1
  {
    Obj(map f | f in Names(s) :: v(Source(path, f)), MeantAll(s.relations, path, v))
  }

  function MeantAll(rels: seq<Relation>, path: seq<string>, v: Source -> Value): seq<seq<Obj>>
    decreases rels, 0
  {
    if rels == [] then []
    else
      var r := rels[0];
      [if AllNull(Values(Own(path + [r.name], r.structure.primaryKeyFields), v)) then []
       else [Meant(r.structure, path + [r.name], v)]]
      + MeantAll(rels[1..], path, v)
  }

  lemma SplitValues(a: seq<Source>, b: seq<Source>, v: Source -> Value)
    ensures Values(a + b, v) == Values(a, v) + Values(b, v)
  {
  }

  /** Loading a row of the selected columns gives exactly the model the columns mean. */
  lemma {:induction false} Aligned(s: Structure, path: seq<string>, v: Source -> Value)
    ensures Load(s, Values(FullColumns(s, path), v), Zero(s)) == Meant(s, path, v)
    decreases s, 1
  {
    var names, row := Names(s), Values(FullColumns(s, path), v);
    var own := Own(path, s.primaryKeyFields) + Own(path, s.fields);
    assert own == Own(path, names);
    SplitValues(own, RelationColumns(s.relations, path), v);
    assert Drop(row, |names|) == Values(RelationColumns(s.relations, path), v);
    assert forall i :: 0 <= i < |names| ==> At(row, i) == v(Source(path, names[i]));
    SetFieldsAt(names, row, map[]);
    assert SetFields(names, row, map[]) == map f | f in names :: v(Source(path, f));
    AlignedAll(s.relations, path, v, Zero(s).rels);
  }

  lemma {:induction false} AlignedAll(rels: seq<Relation>, path: seq<string>, v: Source -> Value, kids: seq<seq<Obj>>)
    requires |kids| == |rels| && forall i :: 0 <= i < |kids| ==> kids[i] == []
    ensures LoadRels(rels, Values(RelationColumns(rels, path), v), kids) == MeantAll(rels, path, v)
    decreases rels, 0
  {
    if rels == [] {
    } else {
      var r, below := rels[0], path + [rels[0].name];
      var first, rest := FullColumns(r.structure, below), RelationColumns(rels[1..], path);
      WidthOfColumns(r.structure, below);
      SplitValues(first, rest, v);
      var row := Values(first + rest, v);
      assert Take(row, Width(r.structure)) == Values(first, v) && Drop(row, Width(r.structure)) == Values(rest, v);
      AlignedKey(r.structure, below, v);
      Aligned(r.structure, below, v);
      AlignedAll(rels[1..], path, v, kids[1..]);
      var one := Values(first, v);
      assert [] + [Load(r.structure, one, Zero(r.structure))] == [Load(r.structure, one, Zero(r.structure))];
      assert LoadRel(r, one, Head(kids)) == if AllNull(RowKey(r.structure, one)) then []
        else [Meant(r.structure, below, v)];
    }
  }

  lemma AlignedKey(s: Structure, path: seq<string>, v: Source -> Value)
    ensures RowKey(s, Values(FullColumns(s, path), v)) == Values(Own(path, s.primaryKeyFields), v)
  {
    var keys := Own(path, s.primaryKeyFields);
    assert FullColumns(s, path) == keys + (Own(path, s.fields) + RelationColumns(s.relations, path));
    SplitValues(keys, Own(path, s.fields) + RelationColumns(s.relations, path), v);
  }
}
