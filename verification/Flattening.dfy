/** The rows the outer query returns for a forest of models: nested-loop left joins, with
    every column NULL where a relation has no model. */
module Flattening {
  import opened Decoder
  import opened Folding

  function Own(s: Structure, o: Obj): Row {
    seq(|Names(s)|, i requires 0 <= i < |Names(s)| => if Names(s)[i] in o.cols then o.cols[Names(s)[i]] else Null)
  }

  function Nulls(n: nat): Row {
    seq(n, _ => Null)
  }

  function Flat(s: Structure, o: Obj): seq<Row>
    decreases s, 1
  {
    Prefixed(Own(s, o), FlatRels(s.relations, o.rels))
  }

  function FlatRels(rels: seq<Relation>, kids: seq<seq<Obj>>): seq<Row>
    decreases rels, 0
  {
    if rels == [] then [[]] else Cross(RelRows(rels[0], Head(kids)), FlatRels(rels[1..], Tail(kids)))
  }

  function RelRows(r: Relation, kids: seq<Obj>): seq<Row>
    decreases r, 2, 0
  {
    if kids == [] then [Nulls(Width(r.structure))] else FlatAll(r.structure, kids)
  }

  function FlatAll(s: Structure, kids: seq<Obj>): seq<Row>
    decreases s, 2, |kids|
  {
    if kids == [] then [] else Flat(s, kids[0]) + FlatAll(s, kids[1..])
  }

  /** A model as the database holds it: all selected columns present, some key column not
      null, at most one model in a to-one relation, distinct keys among siblings. */
  predicate Stored(s: Structure, o: Obj)
    decreases s, 1
  {
    && o.cols.Keys == (set f | f in Names(s))
    && !AllNull(KeyOf(s, o))
    && |o.rels| == |s.relations|
    && forall i :: 0 <= i < |s.relations| ==> StoredRel(s.relations[i], o.rels[i])
  }

  predicate StoredRel(r: Relation, kids: seq<Obj>)
    decreases r, 0
  {
    && (!r.toMany ==> |kids| <= 1)
    && StoredAll(r.structure, kids)
  }

  predicate StoredAll(s: Structure, kids: seq<Obj>)
    decreases s, 2
  {
    && (forall k :: k in kids ==> Stored(s, k))
    && (forall i, j :: 0 <= i < j < |kids| ==> KeyOf(s, kids[i]) != KeyOf(s, kids[j]))
  }

  predicate StoredRels(rels: seq<Relation>, kids: seq<seq<Obj>>) {
    |kids| == |rels| && forall i :: 0 <= i < |rels| ==> StoredRel(rels[i], kids[i])
  }

  // ----- Every row has the structure's width, agrees with itself, and starts with the model's own columns

  lemma OwnConsistent(s: Structure, o: Obj, rest: Row)
    requires |rest| == WidthAll(s.relations) && ConsistentAll(s.relations, rest)
    ensures Consistent(s, Own(s, o) + rest)
    ensures |Own(s, o) + rest| == Width(s)
    ensures RowKey(s, Own(s, o) + rest) == KeyOf(s, o)
  {
    var row := Own(s, o) + rest;
    assert Drop(row, |Names(s)|) == rest;
    assert forall i :: 0 <= i < |Names(s)| ==> At(row, i) == Own(s, o)[i];
    forall i | 0 <= i < |s.primaryKeyFields|
      ensures RowKey(s, row)[i] == KeyOf(s, o)[i]
    {
      assert Names(s)[i] == s.primaryKeyFields[i];
    }
  }

  ghost predicate WideAll(rels: seq<Relation>, rows: seq<Row>) {
    forall x :: x in rows ==> |x| == WidthAll(rels) && ConsistentAll(rels, x)
  }

  lemma {:induction false} FlatRows(s: Structure, o: Obj)
    ensures Flat(s, o) != [] && Rows(s, Flat(s, o))
    ensures forall x :: x in Flat(s, o) ==> RowKey(s, x) == KeyOf(s, o)
    decreases s, 1
  {
    var rest := FlatRels(s.relations, o.rels);
    FlatRelsRows(s.relations, o.rels);
    forall x | x in Flat(s, o)
      ensures |x| == Width(s) && Consistent(s, x) && RowKey(s, x) == KeyOf(s, o)
    {
      var i :| 0 <= i < |rest| && x == Own(s, o) + rest[i];
      OwnConsistent(s, o, rest[i]);
    }
  }

  lemma {:induction false} FlatRelsRows(rels: seq<Relation>, kids: seq<seq<Obj>>)
    ensures FlatRels(rels, kids) != [] && WideAll(rels, FlatRels(rels, kids))
    decreases rels, 0
  {
    if rels != [] {
      RelRowsRows(rels[0], Head(kids));
      FlatRelsRows(rels[1..], Tail(kids));
      CrossRows(rels, RelRows(rels[0], Head(kids)), FlatRels(rels[1..], Tail(kids)));
    }
  }

  lemma {:induction false} CrossRows(rels: seq<Relation>, a: seq<Row>, c: seq<Row>)
    requires rels != [] && c != []
    requires Rows(rels[0].structure, a) && WideAll(rels[1..], c)
    ensures a != [] ==> Cross(a, c) != []
    ensures WideAll(rels, Cross(a, c))
    decreases |a|
  {
    if a != [] {
      CrossRows(rels, a[1..], c);
      forall x | x in Prefixed(a[0], c)
        ensures |x| == WidthAll(rels) && ConsistentAll(rels, x)
      {
        var i :| 0 <= i < |c| && x == a[0] + c[i];
        assert Take(x, Width(rels[0].structure)) == a[0] && Drop(x, Width(rels[0].structure)) == c[i];
      }
    }
  }

  lemma {:induction false} RelRowsRows(r: Relation, kids: seq<Obj>)
    ensures RelRows(r, kids) != [] && Rows(r.structure, RelRows(r, kids))
    decreases r, 2, 0
  {
    if kids == [] {
      NullsConsistent(r.structure, Nulls(Width(r.structure)));
    } else {
      FlatAllRows(r.structure, kids);
    }
  }

  lemma {:induction false} FlatAllRows(s: Structure, kids: seq<Obj>)
    ensures kids != [] ==> FlatAll(s, kids) != []
    ensures Rows(s, FlatAll(s, kids))
    decreases s, 2, |kids|
  {
    if kids != [] {
      FlatRows(s, kids[0]);
      FlatAllRows(s, kids[1..]);
    }
  }

  lemma {:induction false} NullsConsistent(s: Structure, row: Row)
    requires AllNull(row) && |row| == Width(s)
    ensures Consistent(s, row)
    decreases s, 1
  {
    NullsConsistentAll(s.relations, Drop(row, |Names(s)|));
  }

  lemma {:induction false} NullsConsistentAll(rels: seq<Relation>, row: Row)
    requires AllNull(row) && |row| == WidthAll(rels)
    ensures ConsistentAll(rels, row)
    decreases rels, 0
  {
    if rels != [] {
      var w := Width(rels[0].structure);
      NullsConsistent(rels[0].structure, Take(row, w));
      NullsConsistentAll(rels[1..], Drop(row, w));
    }
  }

  // ----- How many rows a model becomes

  function RowCount(s: Structure, o: Obj): nat
    decreases s, 1
  {
    RowCountRels(s.relations, o.rels)
  }

  function RowCountRels(rels: seq<Relation>, kids: seq<seq<Obj>>): nat
    decreases rels, 0
  {
    if rels == [] then 1 else RowCountRel(rels[0], Head(kids)) * RowCountRels(rels[1..], Tail(kids))
  }

  function RowCountRel(r: Relation, kids: seq<Obj>): nat
    decreases r, 2, 0
  {
    if kids == [] then 1 else RowCountAll(r.structure, kids)
  }

  function RowCountAll(s: Structure, kids: seq<Obj>): nat
    decreases s, 2, |kids|
  {
    if kids == [] then 0 else RowCount(s, kids[0]) + RowCountAll(s, kids[1..])
  }

  lemma {:induction false} CrossLength(a: seq<Row>, c: seq<Row>)
    ensures |Cross(a, c)| == |a| * |c|
  {
    if a != [] {
      CrossLength(a[1..], c);
      assert |a| * |c| == |c| + (|a| - 1) * |c|;
    }
  }

  lemma {:induction false} FlatLength(s: Structure, o: Obj)
    ensures |Flat(s, o)| == RowCount(s, o)
    decreases s, 1
  {
    FlatRelsLength(s.relations, o.rels);
  }

  lemma {:induction false} FlatRelsLength(rels: seq<Relation>, kids: seq<seq<Obj>>)
    ensures |FlatRels(rels, kids)| == RowCountRels(rels, kids)
    decreases rels, 0
  {
    if rels != [] {
      RelRowsLength(rels[0], Head(kids));
      FlatRelsLength(rels[1..], Tail(kids));
      CrossLength(RelRows(rels[0], Head(kids)), FlatRels(rels[1..], Tail(kids)));
    }
  }

  lemma {:induction false} RelRowsLength(r: Relation, kids: seq<Obj>)
    ensures |RelRows(r, kids)| == RowCountRel(r, kids)
    decreases r, 2, 0
  {
    if kids != [] {
      FlatAllLength(r.structure, kids);
    }
  }

  lemma {:induction false} FlatAllLength(s: Structure, kids: seq<Obj>)
    ensures |FlatAll(s, kids)| == RowCountAll(s, kids)
    decreases s, 2, |kids|
  {
    if kids != [] {
      FlatLength(s, kids[0]);
      FlatAllLength(s, kids[1..]);
    }
  }
}
