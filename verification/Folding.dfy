/** What loading a sequence of rows does: it is idempotent on a repeated row, and it
    splits over the cross product that sibling relations produce. */
module Folding {
  import opened Decoder

  /** Columns selected twice under one field name carry the same value. */
  predicate Consistent(s: Structure, row: Row)
    decreases s, 1
  {
    && (forall i, j :: 0 <= i < |Names(s)| && 0 <= j < |Names(s)| && Names(s)[i] == Names(s)[j] ==>
        At(row, i) == At(row, j))
    && ConsistentAll(s.relations, Drop(row, |Names(s)|))
  }

  predicate ConsistentAll(rels: seq<Relation>, row: Row)
    decreases rels, 0
  {
    rels == [] ||
    var w := Width(rels[0].structure);
    Consistent(rels[0].structure, Take(row, w)) && ConsistentAll(rels[1..], Drop(row, w))
  }

  function Fold(s: Structure, rows: seq<Row>, o: Obj): Obj
    decreases |rows|
  {
    if rows == [] then o else Fold(s, rows[1..], Load(s, rows[0], o))
  }

  function FoldRel(r: Relation, rows: seq<Row>, cur: seq<Obj>): seq<Obj>
    decreases |rows|
  {
    if rows == [] then cur else FoldRel(r, rows[1..], LoadRel(r, rows[0], cur))
  }

  function FoldRels(rels: seq<Relation>, rows: seq<Row>, kids: seq<seq<Obj>>): seq<seq<Obj>>
    decreases |rows|
  {
    if rows == [] then kids else FoldRels(rels, rows[1..], LoadRels(rels, rows[0], kids))
  }

  // ----- Fields

  lemma {:induction false} SetFieldsAt(names: seq<string>, row: Row, m: map<string, Value>)
    requires forall i, j :: 0 <= i < |names| && 0 <= j < |names| && names[i] == names[j] ==> At(row, i) == At(row, j)
    ensures forall i :: 0 <= i < |names| ==>
      names[i] in SetFields(names, row, m) && SetFields(names, row, m)[names[i]] == At(row, i)
    ensures forall f :: f in SetFields(names, row, m) <==> f in m || f in names
    ensures forall f :: f in m && f !in names ==> SetFields(names, row, m)[f] == m[f]
  {
    if names != [] {
      var n := |names| - 1;
      var init := names[..n];
      forall i, j | 0 <= i < |init| && 0 <= j < |init| && init[i] == init[j]
        ensures At(row, i) == At(row, j)
      {
        assert names[i] == names[j];
      }
      SetFieldsAt(init, row, m);
      assert names == init + [names[n]];
      forall i | 0 <= i < |names|
        ensures names[i] in SetFields(names, row, m) && SetFields(names, row, m)[names[i]] == At(row, i)
      {
        if i < n {
          assert names[i] == init[i];
        }
      }
    }
  }

  lemma SetFieldsTwice(names: seq<string>, row: Row, m: map<string, Value>)
    requires forall i, j :: 0 <= i < |names| && 0 <= j < |names| && names[i] == names[j] ==> At(row, i) == At(row, j)
    ensures SetFields(names, row, SetFields(names, row, m)) == SetFields(names, row, m)
  {
    SetFieldsAt(names, row, m);
    SetFieldsAt(names, row, SetFields(names, row, m));
    var once, twice := SetFields(names, row, m), SetFields(names, row, SetFields(names, row, m));
    forall f | f in once
      ensures once[f] == twice[f]
    {
      if f in names {
        var i :| 0 <= i < |names| && names[i] == f;
      }
    }
  }

  /** After a row is loaded the model holds exactly the key the row carries. */
  lemma LoadedKey(s: Structure, row: Row, o: Obj)
    requires Consistent(s, row) && |row| >= |Names(s)|
    ensures KeyOf(s, Load(s, row, o)) == RowKey(s, row)
  {
    SetFieldsAt(Names(s), row, o.cols);
    var k := KeyOf(s, Load(s, row, o));
    forall i | 0 <= i < |k|
      ensures k[i] == RowKey(s, row)[i]
    {
      assert Names(s)[i] == s.primaryKeyFields[i];
    }
  }

  // ----- Loading a row twice is loading it once

  lemma {:induction false} LoadTwice(s: Structure, row: Row, o: Obj)
    requires Consistent(s, row) && |row| == Width(s)
    ensures Load(s, row, Load(s, row, o)) == Load(s, row, o)
    decreases s, 1
  {
    SetFieldsTwice(Names(s), row, o.cols);
    LoadRelsTwice(s.relations, Drop(row, |Names(s)|), o.rels);
  }

  lemma {:induction false} LoadRelsTwice(rels: seq<Relation>, row: Row, kids: seq<seq<Obj>>)
    requires ConsistentAll(rels, row) && |row| == WidthAll(rels)
    ensures LoadRels(rels, row, LoadRels(rels, row, kids)) == LoadRels(rels, row, kids)
    decreases rels, 0
  {
    if rels != [] {
      var w := Width(rels[0].structure);
      LoadRelTwice(rels[0], Take(row, w), Head(kids));
      LoadRelsTwice(rels[1..], Drop(row, w), Tail(kids));
      var once := LoadRels(rels, row, kids);
      assert Head(once) == LoadRel(rels[0], Take(row, w), Head(kids));
      assert Tail(once) == LoadRels(rels[1..], Drop(row, w), Tail(kids));
    }
  }

  lemma {:induction false} LoadRelTwice(r: Relation, row: Row, cur: seq<Obj>)
    requires Consistent(r.structure, row) && |row| == Width(r.structure)
    ensures LoadRel(r, row, LoadRel(r, row, cur)) == LoadRel(r, row, cur)
    decreases r, 2
  {
    if !AllNull(RowKey(r.structure, row)) {
      var next := Place(r, row, cur);
      if cur == [] || (r.toMany && RowKey(r.structure, row) != KeyOf(r.structure, Last(cur))) {
        LoadedKey(r.structure, row, Zero(r.structure));
        LoadTwice(r.structure, row, Zero(r.structure));
      } else {
        LoadedKey(r.structure, row, Last(cur));
        LoadTwice(r.structure, row, Last(cur));
      }
      assert next[..|next| - 1] + [Last(next)] == next;
    }
  }

  // ----- Folding over concatenations and cross products

  lemma {:induction false} FoldRelConcat(r: Relation, a: seq<Row>, b: seq<Row>, cur: seq<Obj>)
    ensures FoldRel(r, a + b, cur) == FoldRel(r, b, FoldRel(r, a, cur))
    decreases |a|
  {
    if a == [] {
      assert a + b == b;
    } else {
      assert (a + b)[1..] == a[1..] + b;
      FoldRelConcat(r, a[1..], b, LoadRel(r, a[0], cur));
    }
  }

  lemma {:induction false} FoldRelsConcat(rels: seq<Relation>, a: seq<Row>, b: seq<Row>, kids: seq<seq<Obj>>)
    ensures FoldRels(rels, a + b, kids) == FoldRels(rels, b, FoldRels(rels, a, kids))
    decreases |a|
  {
    if a == [] {
      assert a + b == b;
    } else {
      assert (a + b)[1..] == a[1..] + b;
      FoldRelsConcat(rels, a[1..], b, LoadRels(rels, a[0], kids));
    }
  }

  function Prefixed(a: Row, rows: seq<Row>): seq<Row> {
    seq(|rows|, i requires 0 <= i < |rows| => a + rows[i])
  }

  /** Every row of `a` followed by every row of `b`, `b` varying fastest. */
  function Cross(a: seq<Row>, b: seq<Row>): seq<Row> {
    if a == [] then [] else Prefixed(a[0], b) + Cross(a[1..], b)
  }

  function Repeat(rows: seq<Row>, n: nat): seq<Row> {
    if n == 0 then [] else rows + Repeat(rows, n - 1)
  }

  ghost predicate Rows(s: Structure, rows: seq<Row>) {
    forall x :: x in rows ==> |x| == Width(s) && Consistent(s, x)
  }

  lemma {:induction false} RepeatLength(rows: seq<Row>, n: nat)
    ensures |Repeat(rows, n)| == n * |rows|
    ensures forall x :: x in Repeat(rows, n) ==> x in rows
  {
    if n != 0 {
      RepeatLength(rows, n - 1);
      assert n * |rows| == (n - 1) * |rows| + |rows|;
    }
  }

  lemma {:induction false} CrossConcat(a: seq<Row>, b: seq<Row>, c: seq<Row>)
    ensures Cross(a + b, c) == Cross(a, c) + Cross(b, c)
  {
    if a == [] {
      assert a + b == b;
    } else {
      assert (a + b)[1..] == a[1..] + b;
      CrossConcat(a[1..], b, c);
    }
  }

  lemma {:induction false} RepeatCross(a: seq<Row>, c: seq<Row>, n: nat)
    ensures Repeat(Cross(a, c), n) == Cross(Repeat(a, n), c)
  {
    if n != 0 {
      RepeatCross(a, c, n - 1);
      CrossConcat(a, Repeat(a, n - 1), c);
    }
  }

  /** The rows that share a prefix load the first relation once and the others row by row. */
  lemma {:induction false} FoldPrefixed(rels: seq<Relation>, a: Row, c: seq<Row>, kids: seq<seq<Obj>>)
    requires rels != [] && |kids| == |rels| && c != []
    requires |a| == Width(rels[0].structure) && Consistent(rels[0].structure, a)
    ensures FoldRels(rels, Prefixed(a, c), kids) == [LoadRel(rels[0], a, kids[0])] + FoldRels(rels[1..], c, kids[1..])
    decreases |c|
  {
    var rows := Prefixed(a, c);
    var next := LoadRels(rels, rows[0], kids);
    assert Take(a + c[0], |a|) == a && Drop(a + c[0], |a|) == c[0];
    assert next == [LoadRel(rels[0], a, kids[0])] + LoadRels(rels[1..], c[0], kids[1..]);
    LoadRelsLength(rels, rows[0], kids);
    if |c| > 1 {
      assert rows[1..] == Prefixed(a, c[1..]);
      FoldPrefixed(rels, a, c[1..], next);
      LoadRelTwice(rels[0], a, kids[0]);
      assert next[1..] == LoadRels(rels[1..], c[0], kids[1..]);
    } else {
      assert rows[1..] == [] && c[1..] == [];
    }
  }

  lemma {:induction false} LoadRelsLength(rels: seq<Relation>, row: Row, kids: seq<seq<Obj>>)
    ensures |LoadRels(rels, row, kids)| == |rels|
  {
    if rels != [] {
      var w := Width(rels[0].structure);
      LoadRelsLength(rels[1..], Drop(row, w), Tail(kids));
    }
  }

  lemma {:induction false} FoldRelsLength(rels: seq<Relation>, rows: seq<Row>, kids: seq<seq<Obj>>)
    requires |kids| == |rels|
    ensures |FoldRels(rels, rows, kids)| == |rels|
    decreases |rows|
  {
    if rows != [] {
      LoadRelsLength(rels, rows[0], kids);
      FoldRelsLength(rels, rows[1..], LoadRels(rels, rows[0], kids));
    }
  }

  /** A cross product loads its first relation from the left factor alone, and the others
      from the right factor repeated once per row of the left one. */
  lemma {:induction false} FoldCross(rels: seq<Relation>, a: seq<Row>, c: seq<Row>, kids: seq<seq<Obj>>)
    requires rels != [] && |kids| == |rels| && c != []
    requires Rows(rels[0].structure, a)
    ensures FoldRels(rels, Cross(a, c), kids) == [FoldRel(rels[0], a, kids[0])] +
      FoldRels(rels[1..], Repeat(c, |a|), kids[1..])
    decreases |a|
  {
    if a == [] {
    } else {
      FoldRelsConcat(rels, Prefixed(a[0], c), Cross(a[1..], c), kids);
      FoldPrefixed(rels, a[0], c, kids);
      var next := FoldRels(rels, Prefixed(a[0], c), kids);
      FoldRelsLength(rels, Prefixed(a[0], c), kids);
      FoldCross(rels, a[1..], c, next);
      assert next[1..] == FoldRels(rels[1..], c, kids[1..]);
      FoldRelsConcat(rels[1..], c, Repeat(c, |a| - 1), kids[1..]);
    }
  }
}
