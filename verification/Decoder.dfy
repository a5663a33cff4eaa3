/** The row decoder of a select plan: the structure it decodes into, the reference
    decoder, and the in-place decoder with remembered primary keys that refines it. */
module Decoder {

  /** A scanned column value. `Null` also stands for the zero value a NULL is loaded as. */
  datatype Value = Null | V(v: int)

  type Row = seq<Value>

  /** The part of `structure` that drives decoding. The relations are listed in column order. */
  datatype Structure = Structure(primaryKeyFields: seq<string>, fields: seq<string>, relations: seq<Relation>)

  datatype Relation = Relation(name: string, toMany: bool, structure: Structure)

  /** A loaded model: its column fields, and one list of loaded models for each relation
      of the structure. A to-one relation holds at most one model; `[]` is nil. */
  datatype Obj = Obj(cols: map<string, Value>, rels: seq<seq<Obj>>)

  /** The remembered key of a to-many relation and those of the relations below it. */
  datatype Prev = Prev(key: seq<Value>, subs: seq<Prev>)

  function Names(s: Structure): seq<string> {
    s.primaryKeyFields + s.fields
  }

  /** The number of columns a structure takes in a row. */
  function Width(s: Structure): nat
    decreases s, 1
  {
    |Names(s)| + WidthAll(s.relations)
  }

  function WidthAll(rels: seq<Relation>): nat
    decreases rels, 0
  {
    if rels == [] then 0 else Width(rels[0].structure) + WidthAll(rels[1..])
  }

  function At(row: Row, i: nat): Value {
    if i < |row| then row[i] else Null
  }

  function Take(row: Row, n: nat): Row {
    if n <= |row| then row[..n] else row
  }

  function Drop(row: Row, n: nat): Row {
    if n <= |row| then row[n..] else []
  }

  predicate AllNull(key: seq<Value>) {
    forall i :: 0 <= i < |key| ==> key[i] == Null
  }

  function Zero(s: Structure): Obj {
    Obj(map[], seq(|s.relations|, _ => []))
  }

  /** The primary key as the model itself holds it. */
  function KeyOf(s: Structure, o: Obj): seq<Value> {
    seq(|s.primaryKeyFields|, i requires 0 <= i < |s.primaryKeyFields| =>
      var f := s.primaryKeyFields[i]; if f in o.cols then o.cols[f] else Null)
  }

  function RowKey(s: Structure, row: Row): seq<Value> {
    Take(row, |s.primaryKeyFields|)
  }

  function SetFields(names: seq<string>, row: Row, m: map<string, Value>): map<string, Value> {
    if names == [] then m
    else
      var n := |names| - 1;
      SetFields(names[..n], row, m)[names[n] := At(row, n)]
  }

  function Head<T>(kids: seq<seq<T>>): seq<T> {
    if kids == [] then [] else kids[0]
  }

  function Tail<T>(xs: seq<T>): seq<T> {
    if xs == [] then [] else xs[1..]
  }

  function Last<T>(xs: seq<T>): T
    requires xs != []
  {
    xs[|xs| - 1]
  }

  // ----- Reference decoder: a row extends the last model with the same key, else starts a new one.

  function Load(s: Structure, row: Row, o: Obj): Obj
    decreases s, 1
  {
    Obj(SetFields(Names(s), row, o.cols), LoadRels(s.relations, Drop(row, |Names(s)|), o.rels))
  }

  function LoadRels(rels: seq<Relation>, row: Row, kids: seq<seq<Obj>>): seq<seq<Obj>>
    decreases rels, 0
  {
    if rels == [] then []
    else
      var w := Width(rels[0].structure);
      [LoadRel(rels[0], Take(row, w), Head(kids))] + LoadRels(rels[1..], Drop(row, w), Tail(kids))
  }

  function LoadRel(r: Relation, row: Row, cur: seq<Obj>): seq<Obj>
    decreases r, 3
  {
    if AllNull(RowKey(r.structure, row)) then cur else Place(r, row, cur)
  }

  function Place(r: Relation, row: Row, cur: seq<Obj>): seq<Obj>
    decreases r, 2
  {
    if cur == [] || (r.toMany && RowKey(r.structure, row) != KeyOf(r.structure, Last(cur)))
    then cur + [Load(r.structure, row, Zero(r.structure))]
    else cur[..|cur| - 1] + [Load(r.structure, row, Last(cur))]
  }

  /** The rows of a result, decoded from the top: a root row is never null. */
  function Decode(s: Structure, rows: seq<Row>, list: seq<Obj>): seq<Obj>
    decreases |rows|
  {
    if rows == [] then list
    else Decode(s, rows[1..], Place(Relation("", true, s), rows[0], list))
  }
}
