/** What decoding guarantees for every structure: linear structures decode exactly, and with
    sibling to-many relations each loaded model still has exactly its own children, if
    possibly more than once. */
module Mirroring {
  import opened Decoder
  import opened Folding
  import opened Flattening
  import opened Hydration

  // ----- Linear structures

  predicate HasMany(r: Relation)
    decreases r, 1
  {
    r.toMany || exists q :: q in r.structure.relations && HasMany(q)
  }

  /** At each node at most one relation leads to a to-many relation. */
  predicate Linear(s: Structure) {
    && (forall i, j :: 0 <= i < j < |s.relations| ==> !(HasMany(s.relations[i]) && HasMany(s.relations[j])))
    && forall q :: q in s.relations ==> Linear(q.structure)
  }

  lemma {:induction false} SingleRow(r: Relation, kids: seq<Obj>, n: nat)
    requires !HasMany(r) && StoredRel(r, kids)
    ensures RowCountRel(r, kids) == 1 && ExactRel(r, kids, n)
    decreases r, 2
  {
    if kids != [] {
      var k := kids[0];
      assert kids == [k] && Stored(r.structure, k);
      assert RowCountAll(r.structure, kids) == RowCount(r.structure, k);
      SingleRowRels(r.structure.relations, k.rels, n);
    }
  }

  lemma {:induction false} SingleRowRels(rels: seq<Relation>, kids: seq<seq<Obj>>, n: nat)
    requires StoredRels(rels, kids) && forall q :: q in rels ==> !HasMany(q)
    ensures RowCountRels(rels, kids) == 1 && ExactRels(rels, kids, n)
    decreases rels, 0
  {
    if rels != [] {
      SingleRow(rels[0], kids[0], n);
      SingleRowRels(rels[1..], kids[1..], n);
    }
  }

  lemma {:induction false} LinearExact(s: Structure, o: Obj)
    requires Linear(s) && Stored(s, o)
    ensures Exact(s, o, 1)
    decreases s, 1
  {
    LinearExactRels(s.relations, o.rels);
  }

  lemma StoredMember(r: Relation, kids: seq<Obj>, k: Obj)
    requires StoredRel(r, kids) && k in kids
    ensures Stored(r.structure, k) && !AllNull(KeyOf(r.structure, k))
  {
  }

  lemma {:induction false} LinearExactRels(rels: seq<Relation>, kids: seq<seq<Obj>>)
    requires StoredRels(rels, kids) && forall q :: q in rels ==> Linear(q.structure)
    requires forall i, j :: 0 <= i < j < |rels| ==> !(HasMany(rels[i]) && HasMany(rels[j]))
    ensures ExactRels(rels, kids, 1)
    decreases rels, 0
  {
    if rels != [] {
      var r := rels[0];
      if HasMany(r) {
        assert StoredRel(r, kids[0]);
        assert ExactRel(r, kids[0], 1) by {
          forall k | k in kids[0]
            ensures Exact(r.structure, k, 1)
          {
            StoredMember(r, kids[0], k);
            LinearExact(r.structure, k);
          }
        }
        assert forall q :: q in rels[1..] ==> !HasMany(q);
        SingleRowRels(rels[1..], kids[1..], RowCountRel(r, kids[0]));
      } else {
        SingleRow(r, kids[0], 1);
        LinearExactRels(rels[1..], kids[1..]);
      }
    }
  }

  /** Over a linear structure decoding inverts flattening for every forest. */
  lemma LinearHydration(s: Structure, forest: seq<Obj>)
    requires Linear(s) && StoredAll(s, forest)
    ensures Decode(s, FlatAll(s, forest), []) == forest
  {
    forall o | o in forest
      ensures Exact(s, o, 1)
    {
      LinearExact(s, o);
    }
    HydrationExactlyWhen(s, forest);
  }

  // ----- Arbitrary structures

  /** The same model, except that a to-many list may hold a child several times. */
  ghost predicate Mirrors(s: Structure, got: Obj, want: Obj)
    decreases s, 1
  {
    && got.cols == want.cols
    && |got.rels| == |want.rels| == |s.relations|
    && forall i :: 0 <= i < |s.relations| ==> MirrorsRel(s.relations[i], got.rels[i], want.rels[i])
  }

  ghost predicate MirrorsRel(r: Relation, got: seq<Obj>, want: seq<Obj>)
    decreases r, 2
  {
    && (!r.toMany ==> |got| <= 1)
    && (forall g :: g in got ==> Known(r.structure, g, want))
    && (forall w :: w in want ==> Found(r.structure, got, w))
  }

  ghost predicate Known(s: Structure, g: Obj, want: seq<Obj>)
    decreases s, 2
  {
    exists w :: w in want && Mirrors(s, g, w)
  }

  ghost predicate Found(s: Structure, got: seq<Obj>, w: Obj)
    decreases s, 2
  {
    exists g :: g in got && Mirrors(s, g, w)
  }

  /** A list under construction: every model in it mirrors one of the true children. */
  ghost predicate Partial(r: Relation, got: seq<Obj>, want: seq<Obj>) {
    && (!r.toMany ==> |got| <= 1)
    && forall g :: g in got ==> Known(r.structure, g, want)
  }

  ghost predicate MirrorsRels(rels: seq<Relation>, got: seq<seq<Obj>>, want: seq<seq<Obj>>) {
    |got| == |want| == |rels| && forall i :: 0 <= i < |rels| ==> MirrorsRel(rels[i], got[i], want[i])
  }

  ghost predicate PartialRels(rels: seq<Relation>, got: seq<seq<Obj>>, want: seq<seq<Obj>>) {
    |got| == |want| == |rels| && forall i :: 0 <= i < |rels| ==> Partial(rels[i], got[i], want[i])
  }

  lemma {:induction false} MirrorModel(s: Structure, o: Obj, n: nat, start: Obj)
    requires Stored(s, o) && n >= 1 && (start == Zero(s) || Mirrors(s, start, o))
    ensures Mirrors(s, Fold(s, Repeat(Flat(s, o), n), start), o)
    decreases s, 1
  {
    FoldFlat(s, o, n, start);
    assert PartialRels(s.relations, start.rels, o.rels);
    MirrorRels(s.relations, o.rels, n, start.rels);
  }

  lemma {:induction false} MirrorRels(rels: seq<Relation>, kids: seq<seq<Obj>>, n: nat, start: seq<seq<Obj>>)
    requires StoredRels(rels, kids) && n >= 1 && PartialRels(rels, start, kids)
    ensures MirrorsRels(rels, FoldRels(rels, Repeat(FlatRels(rels, kids), n), start), kids)
    decreases rels, 0
  {
    if rels == [] {
      FoldNoRels(Repeat(FlatRels(rels, kids), n));
    } else {
      FoldRelsStep(rels, kids, n, start);
      MirrorRel(rels[0], kids[0], n, start[0]);
      var m := RepeatCount(rels[0], kids[0], n);
      MirrorRels(rels[1..], kids[1..], m, start[1..]);
      var first := FoldRel(rels[0], Repeat(RelRows(rels[0], kids[0]), n), start[0]);
      var rest := FoldRels(rels[1..], Repeat(FlatRels(rels[1..], kids[1..]), m), start[1..]);
      MirrorsCons(rels, first, rest, kids);
    }
  }

  lemma MirrorsCons(rels: seq<Relation>, first: seq<Obj>, rest: seq<seq<Obj>>, kids: seq<seq<Obj>>)
    requires rels != [] && |kids| == |rels|
    requires MirrorsRel(rels[0], first, kids[0]) && MirrorsRels(rels[1..], rest, kids[1..])
    ensures MirrorsRels(rels, [first] + rest, kids)
  {
    var got := [first] + rest;
    forall i | 0 <= i < |rels|
      ensures MirrorsRel(rels[i], got[i], kids[i])
    {
      if i > 0 {
        assert MirrorsRel(rels[1..][i - 1], rest[i - 1], kids[1..][i - 1]);
      }
    }
  }

  lemma PartialNone(r: Relation, got: seq<Obj>)
    requires Partial(r, got, [])
    ensures got == []
  {
    HeadIn(got);
  }

  lemma HeadIn(got: seq<Obj>)
    ensures got != [] ==> got[0] in got
  {
  }

  lemma {:induction false} MirrorRel(r: Relation, kids: seq<Obj>, n: nat, start: seq<Obj>)
    requires StoredRel(r, kids) && n >= 1 && Partial(r, start, kids)
    ensures MirrorsRel(r, FoldRel(r, Repeat(RelRows(r, kids), n), start), kids)
    decreases r, 2, n
  {
    var rows := RelRows(r, kids);
    if kids == [] {
      PartialNone(r, start);
      RepeatLength(rows, n);
      FoldRelNulls(r, Repeat(rows, n), start);
    } else {
      assert Repeat(rows, n) == rows + Repeat(rows, n - 1);
      FoldRelConcat(r, rows, Repeat(rows, n - 1), start);
      MirrorSiblings(r, kids, 0, start);
      var next := FoldRel(r, rows, start);
      assert kids[0..] == kids;
      if n > 1 {
        MirrorRel(r, kids, n - 1, next);
      } else {
        assert Repeat(rows, n - 1) == [];
      }
    }
  }

  /** Loading the rows of the siblings from `i` on finds each of them and loses none found before. */
  lemma {:induction false} MirrorSiblings(r: Relation, kids: seq<Obj>, i: nat, cur: seq<Obj>)
    requires StoredRel(r, kids) && i <= |kids| && Partial(r, cur, kids)
    ensures Partial(r, FoldRel(r, FlatAll(r.structure, kids[i..]), cur), kids)
    ensures forall w :: w in kids && Found(r.structure, cur, w) ==>
      Found(r.structure, FoldRel(r, FlatAll(r.structure, kids[i..]), cur), w)
    ensures forall w :: w in kids[i..] ==> Found(r.structure, FoldRel(r, FlatAll(r.structure, kids[i..]), cur), w)
    decreases r, 1, |kids| - i
  {
    var s := r.structure;
    if i < |kids| {
      var k := kids[i];
      assert kids[i..][0] == k && kids[i..][1..] == kids[i + 1..];
      FoldRelConcat(r, Flat(s, k), FlatAll(s, kids[i + 1..]), cur);
      MirrorSibling(r, kids, i, cur);
      MirrorSiblings(r, kids, i + 1, FoldRel(r, Flat(s, k), cur));
    }
  }

  lemma {:induction false} MirrorSibling(r: Relation, kids: seq<Obj>, i: nat, cur: seq<Obj>)
    requires StoredRel(r, kids) && i < |kids| && Partial(r, cur, kids)
    ensures Progress(r, kids, kids[i], cur, FoldRel(r, Flat(r.structure, kids[i]), cur))
    decreases r, 0
  {
    var s, k := r.structure, kids[i];
    StoredMember(r, kids, k);
    var rows := Flat(s, k);
    FlatRows(s, k);
    assert Repeat(rows, 1) == rows;
    if cur == [] || (r.toMany && KeyOf(s, Last(cur)) != KeyOf(s, k)) {
      FoldRelNewKey(r, rows, KeyOf(s, k), cur);
      MirrorModel(s, k, 1, Zero(s));
      Appended(r, kids, k, cur, Fold(s, rows, Zero(s)));
    } else {
      LastMirrors(r, kids, i, cur);
      FoldRelSameKey(r, rows, KeyOf(s, k), cur);
      MirrorModel(s, k, 1, Last(cur));
      Extended(r, kids, k, cur, Fold(s, rows, Last(cur)));
    }
  }

  /** `next` is still partial, has `k`, and has every child `cur` had. */
  ghost predicate Progress(r: Relation, kids: seq<Obj>, k: Obj, cur: seq<Obj>, next: seq<Obj>) {
    && Partial(r, next, kids)
    && Found(r.structure, next, k)
    && forall w :: w in kids && Found(r.structure, cur, w) ==> Found(r.structure, next, w)
  }

  lemma Appended(r: Relation, kids: seq<Obj>, k: Obj, cur: seq<Obj>, g: Obj)
    requires Partial(r, cur, kids) && k in kids && Mirrors(r.structure, g, k) && (cur == [] || r.toMany)
    ensures Progress(r, kids, k, cur, cur + [g])
  {
    var next := cur + [g];
    assert g in next && forall x :: x in cur ==> x in next;
    assert Known(r.structure, g, kids);
    forall w | w in kids && Found(r.structure, cur, w)
      ensures Found(r.structure, next, w)
    {
      var x :| x in cur && Mirrors(r.structure, x, w);
      assert x in next;
    }
  }

  lemma Extended(r: Relation, kids: seq<Obj>, k: Obj, cur: seq<Obj>, g: Obj)
    requires StoredRel(r, kids) && Partial(r, cur, kids) && cur != [] && k in kids
    requires Mirrors(r.structure, Last(cur), k) && Mirrors(r.structure, g, k)
    ensures Progress(r, kids, k, cur, cur[..|cur| - 1] + [g])
  {
    var next := cur[..|cur| - 1] + [g];
    assert Known(r.structure, g, kids);
    assert g in next;
    forall x | x in next
      ensures Known(r.structure, x, kids)
    {
      assert x == g || x in cur;
    }
    forall w | w in kids && Found(r.structure, cur, w)
      ensures Found(r.structure, next, w)
    {
      if KeyOf(r.structure, w) == KeyOf(r.structure, k) {
        SameKeySame(r, kids, w, k);
      }
      StillFound(r.structure, k, cur, g, w);
    }
  }

  lemma StillFound(s: Structure, k: Obj, cur: seq<Obj>, g: Obj, w: Obj)
    requires cur != [] && Found(s, cur, w) && Mirrors(s, Last(cur), k) && Mirrors(s, g, k)
    requires KeyOf(s, w) == KeyOf(s, k) ==> w == k
    ensures Found(s, cur[..|cur| - 1] + [g], w)
  {
    var next := cur[..|cur| - 1] + [g];
    var i :| 0 <= i < |cur| && Mirrors(s, cur[i], w);
    if i == |cur| - 1 {
      MirrorsKey(s, cur[i], w);
      MirrorsKey(s, cur[i], k);
    }
    FoundAt(s, next, i, w);
  }

  lemma FoundAt(s: Structure, got: seq<Obj>, i: nat, w: Obj)
    requires i < |got| && Mirrors(s, got[i], w)
    ensures Found(s, got, w)
  {
    assert got[i] in got;
  }

  lemma MirrorsKey(s: Structure, g: Obj, w: Obj)
    requires Mirrors(s, g, w)
    ensures KeyOf(s, g) == KeyOf(s, w)
  {
  }

  lemma SameKeySame(r: Relation, kids: seq<Obj>, a: Obj, b: Obj)
    requires StoredRel(r, kids) && a in kids && b in kids && KeyOf(r.structure, a) == KeyOf(r.structure, b)
    ensures a == b
  {
    var i :| 0 <= i < |kids| && kids[i] == a;
    var j :| 0 <= j < |kids| && kids[j] == b;
  }

  /** The last model loaded mirrors the child whose row comes next, when the row extends it. */
  lemma LastMirrors(r: Relation, kids: seq<Obj>, i: nat, cur: seq<Obj>)
    requires StoredRel(r, kids) && i < |kids| && Partial(r, cur, kids) && cur != []
    requires !r.toMany || KeyOf(r.structure, Last(cur)) == KeyOf(r.structure, kids[i])
    ensures Mirrors(r.structure, Last(cur), kids[i])
  {
    assert Last(cur) in cur;
    var w :| w in kids && Mirrors(r.structure, Last(cur), w);
    MirrorsKey(r.structure, Last(cur), w);
    if r.toMany {
      SameKeySame(r, kids, w, kids[i]);
    }
  }

  /** For every structure: one model per root, in order, with its own columns, and at every
      depth each loaded list holds exactly the true children of its parent. */
  lemma HydrationMirrors(s: Structure, forest: seq<Obj>)
    requires StoredAll(s, forest)
    ensures |Decode(s, FlatAll(s, forest), [])| == |forest|
    ensures forall i :: 0 <= i < |forest| ==> Mirrors(s, Decode(s, FlatAll(s, forest), [])[i], forest[i])
  {
    DecodeForest(s, forest);
    forall i | 0 <= i < |forest|
      ensures Mirrors(s, Decoded(s, forest)[i], forest[i])
    {
      assert Repeat(Flat(s, forest[i]), 1) == Flat(s, forest[i]);
      MirrorModel(s, forest[i], 1, Zero(s));
    }
  }
}
