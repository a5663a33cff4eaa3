/** The field paths a condition mentions, and that the compiled condition reads no column but
    theirs. */
module FieldPaths {
  import opened Options
  import opened Sql
  import opened Clauses
  import opened Paths
  import opened Planning
  import Queries

  function ElementPaths(e: Element): seq<string>
    decreases e, 1
  {
    match e
    case Value(_) => []
    case Field(path) => [path]
    case Method(_, params) => ElementsPaths(params)
  }

  function ElementsPaths(es: seq<Element>): seq<string>
    decreases es, 0
  {
    if es == [] then [] else ElementPaths(es[0]) + ElementsPaths(es[1..])
  }

  function RowsPaths(rows: seq<seq<Element>>): seq<string> {
    if rows == [] then [] else ElementsPaths(rows[0]) + RowsPaths(rows[1..])
  }

  function ClausePaths(c: Clause): seq<string>
    decreases c, 1
  {
    match c
    case Compare(_, l, r) => ElementPaths(l) + ElementPaths(r)
    case Neq(l, r) => ElementPaths(l) + ElementPaths(r)
    case Not(x) => ClausePaths(x)
    case And(cs) => ClausesPaths(cs)
    case Or(cs) => ClausesPaths(cs)
    case Truthy(e) => ElementPaths(e)
    case In(lefts, rows) => ElementsPaths(lefts) + RowsPaths(rows)
  }

  function ClausesPaths(cs: seq<Clause>): seq<string>
    decreases cs, 0
  {
    if cs == [] then [] else ClausePaths(cs[0]) + ClausesPaths(cs[1..])
  }

  // ----- What a clause mentions

  /** The element is the field, or one of its parameters mentions it. */
  predicate Mentions(e: Element, path: string)
    decreases e
  {
    match e
    case Value(_) => false
    case Field(p) => p == path
    case Method(_, params) => exists i :: 0 <= i < |params| && Mentions(params[i], path)
  }

  predicate SomeMentions(es: seq<Element>, path: string) {
    exists i :: 0 <= i < |es| && Mentions(es[i], path)
  }

  predicate ClauseMentions(c: Clause, path: string)
    decreases c
  {
    match c
    case Compare(_, l, r) => Mentions(l, path) || Mentions(r, path)
    case Neq(l, r) => Mentions(l, path) || Mentions(r, path)
    case Not(x) => ClauseMentions(x, path)
    case And(cs) => exists i :: 0 <= i < |cs| && ClauseMentions(cs[i], path)
    case Or(cs) => exists i :: 0 <= i < |cs| && ClauseMentions(cs[i], path)
    case Truthy(e) => Mentions(e, path)
    case In(lefts, rows) => SomeMentions(lefts, path) || exists i :: 0 <= i < |rows| && SomeMentions(rows[i], path)
  }

  lemma {:induction false} ElementPathsAre(e: Element, path: string)
    ensures path in ElementPaths(e) <==> Mentions(e, path)
    decreases e, 1
  {
    if e.Method? {
      ElementsPathsAre(e.params, path);
    }
  }

  lemma {:induction false} ElementsPathsAre(es: seq<Element>, path: string)
    ensures path in ElementsPaths(es) <==> SomeMentions(es, path)
    decreases es, 0
  {
    if es != [] {
      ElementPathsAre(es[0], path);
      ElementsPathsAre(es[1..], path);
      assert es == [es[0]] + es[1..];
    }
  }

  lemma {:induction false} RowsPathsAre(rows: seq<seq<Element>>, path: string)
    ensures path in RowsPaths(rows) <==> exists i :: 0 <= i < |rows| && SomeMentions(rows[i], path)
  {
    if rows != [] {
      ElementsPathsAre(rows[0], path);
      RowsPathsAre(rows[1..], path);
      assert rows == [rows[0]] + rows[1..];
    }
  }

  /** The paths found are exactly the fields that stand anywhere in the clause. */
  lemma {:induction false} PathsAreMentioned(c: Clause, path: string)
    ensures path in ClausePaths(c) <==> ClauseMentions(c, path)
    decreases c, 1
  {
    match c {
      case Compare(_, l, r) => ElementPathsAre(l, path); ElementPathsAre(r, path);
      case Neq(l, r) => ElementPathsAre(l, path); ElementPathsAre(r, path);
      case Not(x) => PathsAreMentioned(x, path);
      case And(cs) => ClausesPathsAre(cs, path);
      case Or(cs) => ClausesPathsAre(cs, path);
      case Truthy(e) => ElementPathsAre(e, path);
      case In(lefts, rows) => ElementsPathsAre(lefts, path); RowsPathsAre(rows, path);
    }
  }

  lemma {:induction false} ClausesPathsAre(cs: seq<Clause>, path: string)
    ensures path in ClausesPaths(cs) <==> exists i :: 0 <= i < |cs| && ClauseMentions(cs[i], path)
    decreases cs, 0
  {
    if cs != [] {
      PathsAreMentioned(cs[0], path);
      ClausesPathsAre(cs[1..], path);
      assert cs == [cs[0]] + cs[1..];
    }
  }

  /** Collects the paths by visiting, as the compiler does. */
  class FieldPathExtractor {
    var paths: seq<string>

    constructor ()
      ensures paths == []
    {
      paths := [];
    }

    method VisitElement(e: Element)
      modifies this
      ensures paths == old(paths) + ElementPaths(e)
      decreases e, 1
    {
      match e {
        case Value(_) =>
        case Field(path) => paths := paths + [path];
        case Method(_, params) => VisitElements(params);
      }
    }

    method VisitElements(es: seq<Element>)
      modifies this
      ensures paths == old(paths) + ElementsPaths(es)
      decreases es, 0
    {
      var i := 0;
      while i < |es|
        invariant 0 <= i <= |es| && paths + ElementsPaths(es[i..]) == old(paths) + ElementsPaths(es)
      {
        VisitElement(es[i]);
        assert es[i..][1..] == es[i + 1..];
        i := i + 1;
      }
    }

    method VisitRows(rows: seq<seq<Element>>)
      modifies this
      ensures paths == old(paths) + RowsPaths(rows)
    {
      var i := 0;
      while i < |rows|
        invariant 0 <= i <= |rows| && paths + RowsPaths(rows[i..]) == old(paths) + RowsPaths(rows)
      {
        VisitElements(rows[i]);
        assert rows[i..][1..] == rows[i + 1..];
        i := i + 1;
      }
    }

    method Visit(c: Clause)
      modifies this
      ensures paths == old(paths) + ClausePaths(c)
      decreases c, 1
    {
      match c {
        case Compare(_, l, r) => VisitElement(l); VisitElement(r);
        case Neq(l, r) => VisitElement(l); VisitElement(r);
        case Not(x) => Visit(x);
        case And(cs) => VisitClauses(cs);
        case Or(cs) => VisitClauses(cs);
        case Truthy(e) => VisitElement(e);
        case In(lefts, rows) => VisitElements(lefts); VisitRows(rows);
      }
    }

    method VisitClauses(cs: seq<Clause>)
      modifies this
      ensures paths == old(paths) + ClausesPaths(cs)
      decreases cs, 0
    {
      var i := 0;
      while i < |cs|
        invariant 0 <= i <= |cs| && paths + ClausesPaths(cs[i..]) == old(paths) + ClausesPaths(cs)
      {
        Visit(cs[i]);
        assert cs[i..][1..] == cs[i + 1..];
        i := i + 1;
      }
    }
  }

  // ----- What the compiled condition reads

  /** Every column in the text is that of one of the paths. */
  ghost predicate Reads(ctx: Ctx, ts: seq<Token>, paths: seq<string>) {
    forall i :: 0 <= i < |ts| && ts[i].Col? ==> IsColumnOf(ctx, ts[i].col, paths)
  }

  ghost predicate IsColumnOf(ctx: Ctx, col: Column, paths: seq<string>) {
    exists p :: p in paths && p in ctx.columns && ctx.columns[p] == col
  }

  lemma ReadsBoth(ctx: Ctx, a: seq<Token>, b: seq<Token>, p: seq<string>, q: seq<string>)
    requires Reads(ctx, a, p) && Reads(ctx, b, q)
    ensures Reads(ctx, a + b, p + q)
  {
    forall i | 0 <= i < |a + b| && (a + b)[i].Col?
      ensures IsColumnOf(ctx, (a + b)[i].col, p + q)
    {
      if i < |a| {
        assert IsColumnOf(ctx, a[i].col, p);
      } else {
        assert IsColumnOf(ctx, b[i - |a|].col, q);
      }
    }
  }

  lemma {:induction false} ReadsFilled(ctx: Ctx, ts: seq<Token>, sub: seq<Token>, p: seq<string>, q: seq<string>)
    requires Reads(ctx, ts, p) && Reads(ctx, sub, q)
    ensures Reads(ctx, Fill(ts, sub), p + q)
  {
    if ts == [] {
      assert [] + sub == sub;
      ReadsBoth(ctx, [], sub, p, q);
    } else {
      assert Reads(ctx, ts[1..], p) by {
        assert forall i :: 0 <= i < |ts[1..]| ==> ts[1..][i] == ts[i + 1];
      }
      if ts[0] == Hole {
        ReadsBoth(ctx, sub, ts[1..], q, p);
        assert forall x :: x in q + p ==> x in p + q;
      } else {
        ReadsFilled(ctx, ts[1..], sub, p, q);
        assert Reads(ctx, [ts[0]], p) by {
          assert [ts[0]][0] == ts[0];
        }
        ReadsBoth(ctx, [ts[0]], Fill(ts[1..], sub), p, p + q);
        assert forall x :: x in p + (p + q) ==> x in p + q;
      }
    }
  }

  lemma {:induction false} ElementReads(ctx: Ctx, e: Element)
    requires WriteElement(ctx, e).Some?
    ensures Reads(ctx, WriteElement(ctx, e).value.text, ElementPaths(e))
    decreases e, 1
  {
    match e {
      case Value(_) =>
      case Field(path) =>
        assert path in [path];
      case Method(name, params) =>
        match Template(ctx.dialect, name) {
          case Some(template) =>
            FilledReads(ctx, Plain(template), params, []);
            assert [] + ElementsPaths(params) == ElementsPaths(params);
          case None =>
            JoinedReads(ctx, params);
        }
    }
  }

  lemma {:induction false} FilledReads(ctx: Ctx, w: Written, params: seq<Element>, paths: seq<string>)
    requires WriteFilled(ctx, w, params).Some? && Reads(ctx, w.text, paths)
    ensures Reads(ctx, WriteFilled(ctx, w, params).value.text, paths + ElementsPaths(params))
    decreases params, 0
  {
    if params == [] {
      assert paths + ElementsPaths(params) == paths;
    } else {
      ElementReads(ctx, params[0]);
      var sub := WriteElement(ctx, params[0]).value;
      ReadsFilled(ctx, w.text, sub.text, paths, ElementPaths(params[0]));
      FilledReads(ctx, Written(Fill(w.text, sub.text), w.values + sub.values), params[1..], paths +
                  ElementPaths(params[0]));
      assert paths + ElementPaths(params[0]) + ElementsPaths(params[1..]) == paths + ElementsPaths(params);
    }
  }

  lemma {:induction false} JoinedReads(ctx: Ctx, es: seq<Element>)
    requires WriteJoined(ctx, es).Some?
    ensures Reads(ctx, WriteJoined(ctx, es).value.text, ElementsPaths(es))
    decreases es, 0
  {
    if es == [] {
    } else {
      ElementReads(ctx, es[0]);
      JoinedReads(ctx, es[1..]);
      if |es| == 1 {
        assert ElementsPaths(es) == ElementPaths(es[0]);
      } else {
        ReadsBoth(ctx, WriteElement(ctx, es[0]).value.text + [Comma], WriteJoined(ctx, es[1..]).value.text,
                  ElementPaths(es[0]),
          ElementsPaths(es[1..]));
      }
    }
  }

  lemma {:induction false} RunReads(ctx: Ctx, es: seq<Element>)
    requires WriteRun(ctx, es).Some?
    ensures Reads(ctx, WriteRun(ctx, es).value.text, ElementsPaths(es))
    decreases es, 0
  {
    if es == [] {
    } else {
      ElementReads(ctx, es[0]);
      RunReads(ctx, es[1..]);
      ReadsBoth(ctx, WriteElement(ctx, es[0]).value.text, WriteRun(ctx, es[1..]).value.text, ElementPaths(es[0]),
        ElementsPaths(es[1..]));
    }
  }

  lemma {:induction false} RowsRead(ctx: Ctx, rows: seq<seq<Element>>)
    requires WriteRows(ctx, rows).Some?
    ensures Reads(ctx, WriteRows(ctx, rows).value.text, RowsPaths(rows))
  {
    if rows == [] {
    } else {
      JoinedReads(ctx, rows[0]);
      var row := Both(Both(Plain([LP]), WriteJoined(ctx, rows[0]).value), Plain([RP])).text;
      assert Reads(ctx, row, ElementsPaths(rows[0]));
      if |rows| == 1 {
        assert RowsPaths(rows) == ElementsPaths(rows[0]);
      } else {
        RowsRead(ctx, rows[1..]);
        ReadsBoth(ctx, row + [Comma], WriteRows(ctx, rows[1..]).value.text, ElementsPaths(rows[0]),
                  RowsPaths(rows[1..]));
      }
    }
  }

  lemma CompareReads(ctx: Ctx, op: Op, l: Element, r: Element)
    requires WriteCompare(ctx, op, l, r).Some?
    ensures Reads(ctx, WriteCompare(ctx, op, l, r).value.text, ElementPaths(l) + ElementPaths(r))
  {
    ElementReads(ctx, l);
    ElementReads(ctx, r);
    ReadsBoth(ctx, WriteElement(ctx, l).value.text + [Cmp(op)], WriteElement(ctx, r).value.text, ElementPaths(l),
              ElementPaths(r));
  }

  /** The compiled condition reads only columns of paths that the extractor finds. */
  lemma {:induction false} ClauseReads(ctx: Ctx, c: Clause)
    requires Write(ctx, c).Some?
    ensures Reads(ctx, Write(ctx, c).value.text, ClausePaths(c))
    decreases c, 1
  {
    match c {
      case Compare(op, l, r) => CompareReads(ctx, op, l, r);
      case Neq(l, r) => CompareReads(ctx, NullSafeEq, l, r);
      case Not(x) => ClauseReads(ctx, x);
      case And(cs) => ClausesRead(ctx, AndT, cs);
      case Or(cs) => ClausesRead(ctx, OrT, cs);
      case Truthy(e) => ElementReads(ctx, e);
      case In(lefts, rows) =>
        if rows != [] {
          RunReads(ctx, lefts);
          RowsRead(ctx, rows);
          var l, r := WriteRun(ctx, lefts).value.text, WriteRows(ctx, rows).value.text;
          var left, right := [LP] + l, [RP, InT, LP] + r + [RP];
          assert Reads(ctx, left, ElementsPaths(lefts)) && Reads(ctx, right, RowsPaths(rows));
          ReadsBoth(ctx, left, right, ElementsPaths(lefts), RowsPaths(rows));
          assert Write(ctx, c).value.text == left + right;
        }
    }
  }

  lemma {:induction false} ClausesRead(ctx: Ctx, joiner: Token, cs: seq<Clause>)
    requires WriteClauses(ctx, joiner, cs).Some? && !joiner.Col?
    ensures Reads(ctx, WriteClauses(ctx, joiner, cs).value.text, ClausesPaths(cs))
    decreases cs, 0
  {
    if cs == [] {
    } else {
      ClauseReads(ctx, cs[0]);
      if |cs| == 1 {
        assert ClausesPaths(cs) == ClausePaths(cs[0]);
      } else {
        ClausesRead(ctx, joiner, cs[1..]);
        ReadsBoth(ctx, Write(ctx, cs[0]).value.text + [joiner], WriteClauses(ctx, joiner, cs[1..]).value.text,
                  ClausePaths(cs[0]),
          ClausesPaths(cs[1..]));
      }
    }
  }

  /** The columns that paths resolve to from a table. */
  ghost predicate ResolvesFrom(ctx: Ctx, schema: Schema, mapping: string, start: Table) {
    forall p :: p in ctx.columns ==> Resolve(schema, mapping, start, p) == Some(ctx.columns[p])
  }

  function SortElements(sorts: seq<Queries.Sort>): seq<Element> {
    if sorts == [] then [] else [sorts[0].elem] + SortElements(sorts[1..])
  }

  lemma {:induction false} SortsRead(ctx: Ctx, sorts: seq<Queries.Sort>)
    requires Queries.WriteSorts(ctx, sorts).Some?
    ensures Reads(ctx, Queries.WriteSorts(ctx, sorts).value.text, ElementsPaths(SortElements(sorts)))
  {
    if sorts != [] {
      var paths := ElementPaths(sorts[0].elem);
      ElementReads(ctx, sorts[0].elem);
      var text := Queries.WriteSort(ctx, sorts[0]).value.text;
      assert Reads(ctx, text, paths);
      assert SortElements(sorts)[1..] == SortElements(sorts[1..]);
      if |sorts| == 1 {
        assert paths + [] == paths;
      } else {
        SortsRead(ctx, sorts[1..]);
        assert Reads(ctx, text + [Comma], paths);
        ReadsBoth(ctx, text + [Comma], Queries.WriteSorts(ctx, sorts[1..]).value.text, paths,
                  ElementsPaths(SortElements(sorts[1..])));
      }
    }
  }

  /** Every column of the compiled condition and of the compiled sorts is read from the query's own
      table or from a joined one, where the joins are those for the paths that were extracted from
      them; if no alias is shared and none is the query's own, from only one of these. */
  lemma ColumnsInScope(ctx: Ctx, schema: Schema, mapping: string, start: Table, c: Clause, sorts: seq<Queries.Sort>,
                       joins: seq<TableJoin>, i: nat)
    requires ResolvesFrom(ctx, schema, mapping, start)
    requires Joining(schema, mapping, start, InUse(ClausePaths(c) + ElementsPaths(SortElements(sorts))), joins)
    requires Write(ctx, c).Some? && Queries.WriteSorts(ctx, sorts).Some?
    ensures
      var text := Write(ctx, c).value.text + Queries.WriteSorts(ctx, sorts).value.text;
      var lists := InUse(ClausePaths(c) + ElementsPaths(SortElements(sorts)));
      i < |text| && text[i].Col? ==>
        && InScope(start, joins, text[i].col.tbl)
        && (NoClash(lists) && (forall r :: r in lists ==> Join('_', r) != start.alias) ==>
              OneSource(start, joins, text[i].col.tbl))
  {
    var paths := ClausePaths(c) + ElementsPaths(SortElements(sorts));
    var where, orders := Write(ctx, c).value.text, Queries.WriteSorts(ctx, sorts).value.text;
    var text: seq<Token> := where + orders;
    ClauseReads(ctx, c);
    SortsRead(ctx, sorts);
    ReadsBoth(ctx, where, orders, ClausePaths(c), ElementsPaths(SortElements(sorts)));
    if i < |text| && text[i].Col? {
      assert IsColumnOf(ctx, text[i].col, paths);
      ColumnInScope(ctx, schema, mapping, start, paths, joins, text[i].col);
      AliasesUniqueExactlyWhen(schema, mapping, start, paths, joins);
    }
  }

  lemma ColumnInScope(ctx: Ctx, schema: Schema, mapping: string, start: Table, paths: seq<string>,
                      joins: seq<TableJoin>, col: Column)
    requires ResolvesFrom(ctx, schema, mapping, start) && IsColumnOf(ctx, col, paths)
    requires Joining(schema, mapping, start, InUse(paths), joins)
    ensures InScope(start, joins, col.tbl)
    ensures Unambiguous(start, joins) ==> OneSource(start, joins, col.tbl)
  {
    var p :| p in paths && p in ctx.columns && ctx.columns[p] == col;
    var rels := RelationsOf(p);
    if rels != [] {
      assert rels == rels[..|rels|];
      UsedBy(paths, p, rels);
      UsedIsJoined(schema, mapping, start, paths, joins, rels);
    }
    if k :| 0 <= k < |joins| && joins[k].right.alias == col.tbl {
      assert Unambiguous(start, joins) ==> OnlyJoinUnder(joins, k, col.tbl);
    }
  }

  /** The alias is the query's own or that of a join. */
  ghost predicate InScope(start: Table, joins: seq<TableJoin>, alias: string) {
    alias == start.alias || exists k :: 0 <= k < |joins| && joins[k].right.alias == alias
  }

  /** The alias is the query's own and of no join, or of one join and not the query's own. */
  ghost predicate OneSource(start: Table, joins: seq<TableJoin>, alias: string) {
    if alias == start.alias then forall k :: 0 <= k < |joins| ==> joins[k].right.alias != alias
    else exists k :: 0 <= k < |joins| && OnlyJoinUnder(joins, k, alias)
  }

  ghost predicate OnlyJoinUnder(joins: seq<TableJoin>, k: nat, alias: string)
    requires k < |joins|
  {
    joins[k].right.alias == alias && forall j :: 0 <= j < |joins| && j != k ==> joins[j].right.alias != alias
  }
}
