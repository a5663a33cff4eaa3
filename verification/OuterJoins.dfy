/** The joins of the outer query: the root's table, then one for each relation of the structure, and
    the aliases they introduce. */
module OuterJoins {
  import opened Decoder
  import opened Paths
  import opened Runs
  import Alignment
  import Planning

  /** The alias of the inner query's rows, and that of the root's table. */
  const INNER := "inner"
  const ROOT := "$"

  /** Relations by their paths; the root has the empty one. */
  function AliasOf(path: seq<string>): string {
    if path == [] then ROOT else Join('_', path)
  }

  datatype Edge = Edge(left: seq<string>, right: seq<string>)

  function Edges(s: Structure, path: seq<string>): seq<Edge>
    decreases s, 1
  {
    EdgesOf(s.relations, path)
  }

  function EdgesOf(rels: seq<Relation>, path: seq<string>): seq<Edge>
    decreases rels, 0
  {
    if rels == [] then []
    else
      var below := path + [rels[0].name];
      [Edge(path, below)] + Edges(rels[0].structure, below) + EdgesOf(rels[1..], path)
  }

  lemma NextEdges(joins: seq<Edge>, rels: seq<Relation>, i: nat, path: seq<string>)
    requires i < |rels|
    ensures
      var below := path + [rels[i].name];
      joins + EdgesOf(rels[i..], path) ==
        (joins + [Edge(path, below)] + Edges(rels[i].structure, below)) + EdgesOf(rels[i + 1..], path)
  {
    var below := path + [rels[i].name];
    assert rels[i..][0] == rels[i] && rels[i..][1..] == rels[i + 1..];
    FourParts(joins, [Edge(path, below)], Edges(rels[i].structure, below), EdgesOf(rels[i + 1..], path));
  }

  lemma FourParts<T>(a: seq<T>, b: seq<T>, c: seq<T>, d: seq<T>)
    ensures a + (b + c + d) == (a + b + c) + d
  {
  }

  /** A join for each relation, each followed by those of the relations below it. */
  method Visit(s: Structure, path: seq<string>) returns (joins: seq<Edge>)
    ensures joins == Edges(s, path)
    decreases s
  {
    joins := [];
    for i := 0 to |s.relations|
      invariant joins + EdgesOf(s.relations[i..], path) == Edges(s, path)
    {
      var r, below := s.relations[i], path + [s.relations[i].name];
      var more := Visit(r.structure, below);
      NextEdges(joins, s.relations, i, path);
      joins := joins + [Edge(path, below)] + more;
    }
  }

  /** The relations of a model have names of their own, as the keys of a map. */
  predicate NamesDistinct(s: Structure)
    decreases s
  {
    && (forall i, j :: 0 <= i < j < |s.relations| ==> s.relations[i].name != s.relations[j].name)
    && forall r :: r in s.relations ==> NamesDistinct(r.structure)
  }

  function Rights(edges: seq<Edge>): seq<seq<string>> {
    seq(|edges|, i requires 0 <= i < |edges| => edges[i].right)
  }

  lemma RightsBoth(a: seq<Edge>, b: seq<Edge>)
    ensures Rights(a + b) == Rights(a) + Rights(b)
  {
  }

  // ----- The paths are distinct, and start with the one they are below

  predicate Below(p: seq<string>, path: seq<string>) {
    |path| < |p| && p[..|path|] == path
  }

  ghost predicate AllBelow(edges: seq<Edge>, path: seq<string>) {
    forall e :: e in edges ==> Below(e.right, path)
  }

  lemma {:induction false} EdgesBelow(s: Structure, path: seq<string>)
    ensures AllBelow(Edges(s, path), path)
    decreases s, 1
  {
    EdgesOfBelow(s.relations, path);
  }

  /** The first step below `path` is the name of one of the relations. */
  lemma {:induction false} EdgesOfBelow(rels: seq<Relation>, path: seq<string>)
    ensures AllBelow(EdgesOf(rels, path), path)
    ensures forall e :: e in EdgesOf(rels, path) ==>
      Below(e.right, path) && exists i :: 0 <= i < |rels| && rels[i].name == e.right[|path|]
    decreases rels, 0
  {
    if rels != [] {
      var below := path + [rels[0].name];
      EdgesBelow(rels[0].structure, below);
      EdgesOfBelow(rels[1..], path);
      forall e | e in EdgesOf(rels, path)
        ensures Below(e.right, path) && exists i :: 0 <= i < |rels| && rels[i].name == e.right[|path|]
      {
        if e in EdgesOf(rels[1..], path) {
          var i :| 0 <= i < |rels| - 1 && rels[1..][i].name == e.right[|path|];
          assert rels[i + 1].name == e.right[|path|];
        } else {
          FirstStep(e.right, below, path);
          assert rels[0].name == e.right[|path|];
        }
      }
    }
  }

  lemma FirstStep(p: seq<string>, below: seq<string>, path: seq<string>)
    requires |below| == |path| + 1 && below[..|path|] == path && (p == below || Below(p, below))
    ensures Below(p, path) && p[|path|] == below[|path|]
  {
    assert p[..|below|] == below;
    assert p[..|path|] == p[..|below|][..|path|];
  }

  lemma {:induction false} EdgesDistinct(s: Structure, path: seq<string>)
    requires NamesDistinct(s)
    ensures Distinct(Rights(Edges(s, path)))
    decreases s, 1
  {
    EdgesOfDistinct(s.relations, path);
  }

  lemma {:induction false} EdgesOfDistinct(rels: seq<Relation>, path: seq<string>)
    requires forall i, j :: 0 <= i < j < |rels| ==> rels[i].name != rels[j].name
    requires forall r :: r in rels ==> NamesDistinct(r.structure)
    ensures Distinct(Rights(EdgesOf(rels, path)))
    decreases rels, 0
  {
    if rels != [] {
      var below := path + [rels[0].name];
      var first, inner, rest := [Edge(path, below)], Edges(rels[0].structure, below), EdgesOf(rels[1..], path);
      EdgesDistinct(rels[0].structure, below);
      EdgesOfDistinct(rels[1..], path);
      RightsBoth(first, inner);
      RightsBoth(first + inner, rest);
      FirstDistinct(rels[0].structure, below, path);
      RestApart(rels, path);
      DistinctBoth(Rights(first + inner), Rights(rest));
    }
  }

  lemma FirstDistinct(s: Structure, below: seq<string>, path: seq<string>)
    requires Distinct(Rights(Edges(s, below)))
    ensures Distinct(Rights([Edge(path, below)] + Edges(s, below)))
  {
    var first, inner := [Edge(path, below)], Edges(s, below);
    RightsBoth(first, inner);
    EdgesBelow(s, below);
    forall i | 0 <= i < |inner|
      ensures inner[i].right != below
    {
      assert inner[i] in inner;
    }
    DistinctBoth(Rights(first), Rights(inner));
  }

  /** The paths through the first relation are not those through another. */
  lemma RestApart(rels: seq<Relation>, path: seq<string>)
    requires rels != [] && forall i, j :: 0 <= i < j < |rels| ==> rels[i].name != rels[j].name
    ensures
      var below := path + [rels[0].name];
      forall p :: p in Rights([Edge(path, below)] + Edges(rels[0].structure, below)) ==>
        p !in Rights(EdgesOf(rels[1..], path))
  {
    var below := path + [rels[0].name];
    var firsts, rest := [Edge(path, below)] + Edges(rels[0].structure, below), EdgesOf(rels[1..], path);
    EdgesBelow(rels[0].structure, below);
    EdgesOfBelow(rels[1..], path);
    forall i | 0 <= i < |firsts|
      ensures Below(firsts[i].right, path) && firsts[i].right[|path|] == rels[0].name
    {
      assert firsts[i] in firsts;
      FirstStep(firsts[i].right, below, path);
    }
    forall j | 0 <= j < |rest|
      ensures Below(rest[j].right, path) && rest[j].right[|path|] != rels[0].name
    {
      assert rest[j] in rest;
      var k :| 0 <= k < |rels| - 1 && rels[1..][k].name == rest[j].right[|path|];
      assert rels[k + 1].name == rest[j].right[|path|];
    }
  }

  lemma DistinctBoth<T>(a: seq<T>, b: seq<T>)
    requires Distinct(a) && Distinct(b) && forall x :: x in a ==> x !in b
    ensures Distinct(a + b)
  {
    var all := a + b;
    forall i, j | 0 <= i < j < |all|
      ensures all[i] != all[j]
    {
      if i < |a| <= j {
        assert all[i] in a && all[j] in b;
      }
    }
  }

  // ----- Aliases

  /** The relations of a structure, in the order of their joins. */
  function RelationPaths(s: Structure): seq<seq<string>> {
    Rights(Edges(s, []))
  }

  function AliasesOf(paths: seq<seq<string>>): seq<string> {
    seq(|paths|, i requires 0 <= i < |paths| => AliasOf(paths[i]))
  }

  /** The aliases of the outer query, in order. */
  function Aliases(s: Structure): seq<string> {
    [INNER, ROOT] + AliasesOf(RelationPaths(s))
  }

  function PathsIn(paths: seq<seq<string>>): set<seq<string>> {
    set p | p in paths
  }

  /** Different paths have different aliases, none of them taken. */
  ghost predicate Unshared(paths: seq<seq<string>>) {
    Planning.NoClash(PathsIn(paths)) && forall p :: p in paths ==> AliasOf(p) !in {INNER, ROOT}
  }

  lemma {:induction false} RelationPathsDistinct(s: Structure)
    requires NamesDistinct(s)
    ensures Distinct(RelationPaths(s)) && forall p :: p in RelationPaths(s) ==> p != []
  {
    EdgesDistinct(s, []);
    EdgesBelow(s, []);
    forall p | p in RelationPaths(s)
      ensures p != []
    {
      var i :| 0 <= i < |Edges(s, [])| && Edges(s, [])[i].right == p;
      assert Edges(s, [])[i] in Edges(s, []);
    }
  }

  /** The inner query and the root have aliases of their own; a relation's is its path. */
  lemma {:induction false} AliasesAre(s: Structure, i: nat)
    requires NamesDistinct(s) && i < |RelationPaths(s)|
    ensures |Aliases(s)| == 2 + |RelationPaths(s)| && Aliases(s)[0] == "inner" && Aliases(s)[1] == "$"
    ensures RelationPaths(s)[i] != [] && Aliases(s)[i + 2] == Join('_', RelationPaths(s)[i])
  {
    RelationPathsDistinct(s);
    assert RelationPaths(s)[i] in RelationPaths(s);
    assert Aliases(s)[i + 2] == AliasesOf(RelationPaths(s))[i];
  }

  /** Every alias of the outer query is introduced once: if and only if no two relations have the same
      alias and none is called as the inner query or as the root. */
  lemma {:induction false} OuterAliasesExactlyWhen(s: Structure)
    requires NamesDistinct(s)
    ensures Distinct(Aliases(s)) <==> Unshared(RelationPaths(s))
  {
    var paths := RelationPaths(s);
    RelationPathsDistinct(s);
    if Distinct(Aliases(s)) {
      DistinctParts([INNER, ROOT], AliasesOf(paths));
      DistinctNoClash(paths);
      assert forall p :: p in paths ==> AliasOf(p) in AliasesOf(paths) by {
        AliasesHave(paths);
      }
    }
    if Unshared(paths) {
      NoClashDistinct(paths);
      forall x | x in AliasesOf(paths)
        ensures x !in [INNER, ROOT]
      {
        var i :| 0 <= i < |paths| && AliasOf(paths[i]) == x;
        assert paths[i] in paths;
      }
      DistinctBoth([INNER, ROOT], AliasesOf(paths));
    }
  }

  lemma {:induction false} AliasesHave(paths: seq<seq<string>>)
    ensures forall p :: p in paths ==> AliasOf(p) in AliasesOf(paths)
  {
    forall p | p in paths
      ensures AliasOf(p) in AliasesOf(paths)
    {
      var i :| 0 <= i < |paths| && paths[i] == p;
      assert AliasesOf(paths)[i] == AliasOf(p);
    }
  }

  lemma {:induction false} DistinctNoClash(paths: seq<seq<string>>)
    requires Distinct(AliasesOf(paths))
    ensures Planning.NoClash(PathsIn(paths))
  {
    forall p, q | p in PathsIn(paths) && q in PathsIn(paths) && p != [] && q != [] && Join('_', p) == Join('_', q)
      ensures p == q
    {
      var i :| 0 <= i < |paths| && paths[i] == p;
      var j :| 0 <= j < |paths| && paths[j] == q;
      assert AliasesOf(paths)[i] == AliasesOf(paths)[j];
    }
  }

  lemma {:induction false} NoClashDistinct(paths: seq<seq<string>>)
    requires Distinct(paths) && Planning.NoClash(PathsIn(paths)) && forall p :: p in paths ==> p != []
    ensures Distinct(AliasesOf(paths))
  {
    forall i, j | 0 <= i < j < |paths|
      ensures AliasesOf(paths)[i] != AliasesOf(paths)[j]
    {
      assert paths[i] in PathsIn(paths) && paths[j] in PathsIn(paths) && paths[i] != paths[j];
    }
  }

  lemma {:induction false} DistinctParts<T>(a: seq<T>, b: seq<T>)
    requires Distinct(a + b)
    ensures Distinct(b) && forall x :: x in a ==> x !in b
  {
    var all := a + b;
    forall i, j | 0 <= i < j < |b|
      ensures b[i] != b[j]
    {
      assert all[|a| + i] != all[|a| + j];
    }
    forall i, j | 0 <= i < |a| && 0 <= j < |b|
      ensures a[i] != b[j]
    {
      assert all[i] != all[|a| + j];
    }
  }

  // ----- What is selected is joined

  /** Every selected column is of the root or of a relation that is joined. */
  lemma {:induction false} ColumnsAreJoined(s: Structure, path: seq<string>, c: Alignment.Source)
    requires c in Alignment.FullColumns(s, path)
    ensures c.path == path || exists e :: e in Edges(s, path) && e.right == c.path
    decreases s, 1
  {
    if c in Alignment.RelationColumns(s.relations, path) {
      RelationColumnsJoined(s.relations, path, c);
    }
  }

  lemma {:induction false} RelationColumnsJoined(rels: seq<Relation>, path: seq<string>, c: Alignment.Source)
    requires c in Alignment.RelationColumns(rels, path)
    ensures exists e :: e in EdgesOf(rels, path) && e.right == c.path
    decreases rels, 0
  {
    var below := path + [rels[0].name];
    if c in Alignment.FullColumns(rels[0].structure, below) {
      ColumnsAreJoined(rels[0].structure, below, c);
      if c.path == below {
        assert Edge(path, below) in EdgesOf(rels, path);
      } else {
        var e :| e in Edges(rels[0].structure, below) && e.right == c.path;
        assert e in EdgesOf(rels, path);
      }
    } else {
      RelationColumnsJoined(rels[1..], path, c);
      var e :| e in EdgesOf(rels[1..], path) && e.right == c.path;
      assert e in EdgesOf(rels, path);
    }
  }

  /** The names lead from the structure through relations of it. */
  predicate Leads(s: Structure, names: seq<string>)
    decreases |names|
  {
    names == [] || exists r :: r in s.relations && r.name == names[0] && Leads(r.structure, names[1..])
  }

  /** The edge goes one relation further, to where relations of the structure lead. */
  predicate IsEdge(s: Structure, path: seq<string>, e: Edge) {
    Below(e.right, path) && Leads(s, e.right[|path|..]) && e.left == e.right[..|e.right| - 1]
  }

  /** There is a join for each list of relations that leads somewhere, from the one before it, and no
      other. */
  lemma {:induction false} EdgesExactlyWhen(s: Structure, path: seq<string>, e: Edge)
    ensures e in Edges(s, path) <==> IsEdge(s, path, e)
    decreases s, 1
  {
    EdgesOfExactlyWhen(s.relations, path, e);
    if Below(e.right, path) {
      assert e.right[|path|..][0] == e.right[|path|] && e.right[|path|..][1..] == e.right[|path| + 1..];
    }
  }

  predicate IsEdgeOf(rels: seq<Relation>, path: seq<string>, e: Edge) {
    && Below(e.right, path) && e.left == e.right[..|e.right| - 1]
    && exists r :: r in rels && r.name == e.right[|path|] && Leads(r.structure, e.right[|path| + 1..])
  }

  lemma {:induction false} EdgesOfExactlyWhen(rels: seq<Relation>, path: seq<string>, e: Edge)
    ensures e in EdgesOf(rels, path) <==> IsEdgeOf(rels, path, e)
    decreases rels, 0
  {
    if rels != [] {
      var r, below := rels[0], path + [rels[0].name];
      EdgesExactlyWhen(r.structure, below, e);
      EdgesOfExactlyWhen(rels[1..], path, e);
      FirstEdges(r, path, e);
      assert rels == [r] + rels[1..];
    }
  }

  lemma FirstEdges(r: Relation, path: seq<string>, e: Edge)
    ensures
      var below := path + [r.name];
      e == Edge(path, below) || IsEdge(r.structure, below, e) <==> IsEdgeOf([r], path, e)
  {
    var below := path + [r.name];
    if e == Edge(path, below) {
      assert below[|path| + 1..] == [] && below[..|below| - 1] == path && below[..|path|] == path;
      assert r in [r];
    }
    if IsEdge(r.structure, below, e) {
      FirstStep(e.right, below, path);
      assert e.right[|below|..] == e.right[|path| + 1..] && r in [r];
    }
    if IsEdgeOf([r], path, e) {
      assert e.right[..|below|] == below;
      if |e.right| == |below| {
        assert e.right == below;
      } else {
        assert e.right[|below|..] == e.right[|path| + 1..];
      }
    }
  }

  /** Every join starts from the root or from a relation that an earlier join introduces. */
  ghost predicate StartsAt(edges: seq<Edge>, i: nat, path: seq<string>)
    requires i < |edges|
  {
    edges[i].left == path || exists j :: 0 <= j < i && edges[j].right == edges[i].left
  }

  lemma {:induction false} OuterScoped(s: Structure, path: seq<string>)
    ensures forall i :: 0 <= i < |Edges(s, path)| ==> StartsAt(Edges(s, path), i, path)
    decreases s, 1
  {
    OuterScopedOf(s.relations, path);
  }

  lemma {:induction false} OuterScopedOf(rels: seq<Relation>, path: seq<string>)
    ensures forall i :: 0 <= i < |EdgesOf(rels, path)| ==> StartsAt(EdgesOf(rels, path), i, path)
    decreases rels, 0
  {
    if rels != [] {
      var below := path + [rels[0].name];
      var inner, rest := Edges(rels[0].structure, below), EdgesOf(rels[1..], path);
      OuterScoped(rels[0].structure, below);
      OuterScopedOf(rels[1..], path);
      forall i | 0 <= i < |EdgesOf(rels, path)|
        ensures StartsAt(EdgesOf(rels, path), i, path)
      {
        ScopedAt(Edge(path, below), inner, rest, path, below, i);
      }
    }
  }

  lemma ScopedAt(first: Edge, inner: seq<Edge>, rest: seq<Edge>, path: seq<string>, below: seq<string>, i: nat)
    requires i < 1 + |inner| + |rest| && first == Edge(path, below)
    requires forall j :: 0 <= j < |inner| ==> StartsAt(inner, j, below)
    requires forall j :: 0 <= j < |rest| ==> StartsAt(rest, j, path)
    ensures StartsAt([first] + inner + rest, i, path)
  {
    var all := [first] + inner + rest;
    if 1 <= i <= |inner| {
      assert StartsAt(inner, i - 1, below) && all[i] == inner[i - 1];
      if inner[i - 1].left == below {
        assert all[0].right == below;
      } else {
        var j :| 0 <= j < i - 1 && inner[j].right == inner[i - 1].left;
        assert all[j + 1] == inner[j];
      }
    } else if i > |inner| {
      var k := i - 1 - |inner|;
      assert StartsAt(rest, k, path) && all[i] == rest[k];
      if rest[k].left != path {
        var j :| 0 <= j < k && rest[j].right == rest[k].left;
        assert all[j + 1 + |inner|] == rest[j];
      }
    }
  }
}
