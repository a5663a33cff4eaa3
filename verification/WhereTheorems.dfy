/** The main results about compiled conditions: which parameter each value reaches, when the
    parsed condition is the clause's tree, and what it then evaluates to. */
module WhereTheorems {
  import opened Options
  import opened Sql
  import opened Clauses
  import opened WhereMeaning

  // ----- Parameters

  lemma {:induction false} LitsConcat(a: seq<Token>, b: seq<Token>)
    ensures Lits(a + b) == Lits(a) + Lits(b)
  {
    if a == [] {
      assert a + b == b;
    } else {
      assert (a + b)[0] == a[0] && (a + b)[1..] == a[1..] + b;
      LitsConcat(a[1..], b);
      var first := if a[0].Lit? then [a[0].v] else [];
      assert first + (Lits(a[1..]) + Lits(b)) == (first + Lits(a[1..])) + Lits(b);
    }
  }

  lemma {:induction false} NoLits(ts: seq<Token>)
    requires forall t :: t in ts ==> !t.Lit?
    ensures Lits(ts) == []
  {
    if ts != [] {
      assert ts[0] in ts;
      NoLits(ts[1..]);
    }
  }

  /** The values collected while visiting are those of the text, from left to right. */
  predicate InOrder(w: Written) {
    w.values == Lits(w.text)
  }

  lemma BothInOrder(a: Written, b: Written)
    requires InOrder(a) && InOrder(b)
    ensures InOrder(Both(a, b))
  {
    LitsConcat(a.text, b.text);
  }

  lemma PlainInOrder(ts: seq<Token>)
    requires forall t :: t in ts ==> !t.Lit?
    ensures InOrder(Plain(ts))
  {
    NoLits(ts);
  }

  /** Wrapping a text in fixed tokens keeps its values in order. */
  lemma WrappedInOrder(pre: seq<Token>, w: Written, post: seq<Token>)
    requires InOrder(w) && (forall t :: t in pre + post ==> !t.Lit?)
    ensures InOrder(Both(Both(Plain(pre), w), Plain(post)))
  {
    assert forall t :: t in pre ==> t in pre + post;
    assert forall t :: t in post ==> t in pre + post;
    PlainInOrder(pre);
    PlainInOrder(post);
    BothInOrder(Plain(pre), w);
    BothInOrder(Both(Plain(pre), w), Plain(post));
  }

  lemma SeparatedInOrder(a: Written, t: Token, b: Written)
    requires InOrder(a) && InOrder(b) && !t.Lit?
    ensures InOrder(Both(Both(a, Plain([t])), b))
  {
    PlainInOrder([t]);
    BothInOrder(a, Plain([t]));
    BothInOrder(Both(a, Plain([t])), b);
  }

  lemma {:induction false} ElementInOrder(ctx: Ctx, e: Element)
    requires WellCalled(ctx.dialect, e) && WriteElement(ctx, e).Some?
    ensures InOrder(WriteElement(ctx, e).value)
    decreases e, 1
  {
    match e
    case Value(v) =>
      assert [Lit(v)][1..] == [];
    case Field(path) =>
      PlainInOrder([Col(ctx.columns[path])]);
    case Method(name, params) =>
      if IsContains(e) {
        ContainsInOrder(ctx, e);
      } else {
        JoinedInOrder(ctx, params);
        WrappedInOrder([Name(name), LP], WriteJoined(ctx, params).value, [RP]);
      }
  }

  lemma {:induction false} ContainsInOrder(ctx: Ctx, e: Element)
    requires IsContains(e) && WellCalled(ctx.dialect, e) && WriteElement(ctx, e).Some?
    ensures InOrder(WriteElement(ctx, e).value)
    decreases e, 0
  {
    ContainsText(ctx, e);
    JoinedInOrder(ctx, e.params);
    var w := WriteJoined(ctx, e.params).value;
    WrappedInOrder([Name("INSTR"), LP], w, [RP]);
    var call, above := Both(Both(Plain([Name("INSTR"), LP]), w), Plain([RP])), Plain([Cmp(Gt), Num(0)]);
    PlainInOrder([Cmp(Gt), Num(0)]);
    BothInOrder(call, above);
    assert WriteElement(ctx, e).value == Both(call, above) by {
      assert call.values == [] + w.values + [] == w.values;
      assert Both(call, above).values == w.values + [] == w.values;
    }
  }

  lemma {:induction false} JoinedInOrder(ctx: Ctx, es: seq<Element>)
    requires AllWellCalled(ctx.dialect, es) && WriteJoined(ctx, es).Some?
    ensures InOrder(WriteJoined(ctx, es).value)
    decreases es, 0
  {
    if es != [] {
      ElementInOrder(ctx, es[0]);
      if |es| > 1 {
        JoinedInOrder(ctx, es[1..]);
        SeparatedInOrder(WriteElement(ctx, es[0]).value, Comma, WriteJoined(ctx, es[1..]).value);
      }
    }
  }

  lemma {:induction false} RunInOrder(ctx: Ctx, es: seq<Element>)
    requires AllWellCalled(ctx.dialect, es) && WriteRun(ctx, es).Some?
    ensures InOrder(WriteRun(ctx, es).value)
    decreases es, 0
  {
    if es != [] {
      ElementInOrder(ctx, es[0]);
      RunInOrder(ctx, es[1..]);
      BothInOrder(WriteElement(ctx, es[0]).value, WriteRun(ctx, es[1..]).value);
    }
  }

  lemma {:induction false} RowsInOrder(ctx: Ctx, rows: seq<seq<Element>>)
    requires (forall row :: row in rows ==> AllWellCalled(ctx.dialect, row)) && WriteRows(ctx, rows).Some?
    ensures InOrder(WriteRows(ctx, rows).value)
    decreases |rows|
  {
    if rows != [] {
      assert rows[0] in rows;
      JoinedInOrder(ctx, rows[0]);
      var w := WriteJoined(ctx, rows[0]).value;
      WrappedInOrder([LP], w, [RP]);
      if |rows| > 1 {
        RowsInOrder(ctx, rows[1..]);
        SeparatedInOrder(Both(Both(Plain([LP]), w), Plain([RP])), Comma, WriteRows(ctx, rows[1..]).value);
      }
    }
  }

  lemma CompareInOrder(ctx: Ctx, op: Op, l: Element, r: Element)
    requires WellCalled(ctx.dialect, l) && WellCalled(ctx.dialect, r) && WriteCompare(ctx, op, l, r).Some?
    ensures InOrder(WriteCompare(ctx, op, l, r).value)
  {
    ElementInOrder(ctx, l);
    ElementInOrder(ctx, r);
    SeparatedInOrder(WriteElement(ctx, l).value, Cmp(op), WriteElement(ctx, r).value);
  }

  lemma {:induction false} ClauseInOrder(ctx: Ctx, c: Clause)
    requires Callable(ctx.dialect, c) && Write(ctx, c).Some?
    ensures InOrder(Write(ctx, c).value)
    decreases c, 1
  {
    match c
    case Compare(op, l, r) =>
      CompareInOrder(ctx, op, l, r);
    case Neq(l, r) =>
      CompareInOrder(ctx, NullSafeEq, l, r);
      WrappedInOrder([NotT, LP], WriteCompare(ctx, NullSafeEq, l, r).value, [RP]);
    case Not(x) =>
      ClauseInOrder(ctx, x);
      WrappedInOrder([NotT, LP], Write(ctx, x).value, [RP]);
    case And(cs) =>
      NodeInOrder(ctx, AndT, cs);
    case Or(cs) =>
      NodeInOrder(ctx, OrT, cs);
    case Truthy(e) =>
      ElementInOrder(ctx, e);
    case In(lefts, rows) =>
      if rows == [] {
        PlainInOrder([FalseT]);
      } else {
        RunInOrder(ctx, lefts);
        RowsInOrder(ctx, rows);
        var l, r := WriteRun(ctx, lefts).value, WriteRows(ctx, rows).value;
        PlainInOrder([LP]);
        PlainInOrder([RP, InT, LP]);
        PlainInOrder([RP]);
        BothInOrder(Plain([LP]), l);
        BothInOrder(Plain([RP, InT, LP]), r);
        BothInOrder(Both(Plain([LP]), l), Both(Plain([RP, InT, LP]), r));
        BothInOrder(Both(Both(Plain([LP]), l), Both(Plain([RP, InT, LP]), r)), Plain([RP]));
      }
  }

  lemma {:induction false} NodeInOrder(ctx: Ctx, joiner: Token, cs: seq<Clause>)
    requires (forall x :: x in cs ==> Callable(ctx.dialect, x)) && WriteNode(ctx, joiner, cs).Some? && !joiner.Lit?
    ensures InOrder(WriteNode(ctx, joiner, cs).value)
    decreases cs, 1
  {
    if cs != [] {
      ClausesInOrder(ctx, joiner, cs);
      WrappedInOrder([LP], WriteClauses(ctx, joiner, cs).value, [RP]);
    }
  }

  lemma {:induction false} ClausesInOrder(ctx: Ctx, joiner: Token, cs: seq<Clause>)
    requires (forall x :: x in cs ==> Callable(ctx.dialect, x)) && WriteClauses(ctx, joiner, cs).Some? && !joiner.Lit?
    ensures InOrder(WriteClauses(ctx, joiner, cs).value)
    decreases cs, 0
  {
    if cs != [] {
      ClauseInOrder(ctx, cs[0]);
      if |cs| > 1 {
        ClausesInOrder(ctx, joiner, cs[1..]);
        SeparatedInOrder(Write(ctx, cs[0]).value, joiner, WriteClauses(ctx, joiner, cs[1..]).value);
      }
    }
  }

  /** Binding a text's own values, left to right, to its erased form gives the text back. */
  lemma {:induction false} BindErased(ts: seq<Token>)
    requires Param !in ts
    ensures Bind(Erase(ts), Lits(ts)) == ts
  {
    if ts != [] {
      assert Erase(ts)[1..] == Erase(ts[1..]);
      BindErased(ts[1..]);
      if ts[0].Lit? {
        assert Lits(ts) == [ts[0].v] + Lits(ts[1..]);
        assert Lits(ts)[1..] == Lits(ts[1..]);
      } else {
        assert Lits(ts) == Lits(ts[1..]);
        assert Erase(ts)[0] == ts[0] != Param;
      }
    }
  }

  // ----- How many parameters there are, for every clause

  function ElementMatches(d: Dialect, e: Element): nat
    decreases e, 1
  {
    if e.Method? then (if d.MySQL? && e.name == MATCH then 1 else 0) + ElementsMatches(d, e.params) else 0
  }

  function ElementsMatches(d: Dialect, es: seq<Element>): nat
    decreases es, 0
  {
    if es == [] then 0 else ElementMatches(d, es[0]) + ElementsMatches(d, es[1..])
  }

  function RowsMatches(d: Dialect, rows: seq<seq<Element>>): nat
    decreases |rows|
  {
    if rows == [] then 0 else ElementsMatches(d, rows[0]) + RowsMatches(d, rows[1..])
  }

  /** The uses of MySQL's `match` in the written text. */
  function Matches(d: Dialect, c: Clause): nat
    decreases c, 1
  {
    match c
    case Compare(_, l, r) => ElementMatches(d, l) + ElementMatches(d, r)
    case Neq(l, r) => ElementMatches(d, l) + ElementMatches(d, r)
    case Not(x) => Matches(d, x)
    case And(cs) => ClausesMatches(d, cs)
    case Or(cs) => ClausesMatches(d, cs)
    case Truthy(e) => ElementMatches(d, e)
    case In(lefts, rows) => if rows == [] then 0 else ElementsMatches(d, lefts) + RowsMatches(d, rows)
  }

  function ClausesMatches(d: Dialect, cs: seq<Clause>): nat
    decreases cs, 0
  {
    if cs == [] then 0 else Matches(d, cs[0]) + ClausesMatches(d, cs[1..])
  }

  lemma {:induction false} MarksConcat(a: seq<Token>, b: seq<Token>)
    ensures Marks(Erase(a + b)) == Marks(Erase(a)) + Marks(Erase(b))
  {
    if a == [] {
      assert a + b == b;
    } else {
      assert (a + b)[1..] == a[1..] + b;
      assert Erase(a + b)[1..] == Erase((a + b)[1..]) && Erase(a)[1..] == Erase(a[1..]);
      MarksConcat(a[1..], b);
    }
  }

  lemma {:induction false} MarksFill(ts: seq<Token>, sub: seq<Token>)
    ensures Marks(Erase(Fill(ts, sub))) == Marks(Erase(ts)) + Marks(Erase(sub))
  {
    if ts == [] {
    } else {
      assert Erase(ts)[1..] == Erase(ts[1..]);
      if ts[0] == Hole {
        MarksConcat(sub, ts[1..]);
      } else {
        MarksFill(ts[1..], sub);
        var filled := Fill(ts, sub);
        assert filled[1..] == Fill(ts[1..], sub);
        assert Erase(filled)[1..] == Erase(filled[1..]);
      }
    }
  }

  /** The marks of a text exceed its values by `n`. */
  predicate Surplus(w: Written, n: nat) {
    Marks(Erase(w.text)) == |w.values| + n
  }

  lemma BothSurplus(a: Written, m: nat, b: Written, n: nat)
    requires Surplus(a, m) && Surplus(b, n)
    ensures Surplus(Both(a, b), m + n)
  {
    MarksConcat(a.text, b.text);
  }

  lemma {:induction false} PlainSurplus(ts: seq<Token>)
    requires forall t :: t in ts ==> t != Param && !t.Lit?
    ensures Surplus(Plain(ts), 0)
  {
    if ts != [] {
      assert ts[0] in ts && Erase(ts)[1..] == Erase(ts[1..]);
      assert forall t :: t in ts[1..] ==> t in ts;
      PlainSurplus(ts[1..]);
    }
  }

  lemma WrappedSurplus(pre: seq<Token>, w: Written, n: nat, post: seq<Token>)
    requires Surplus(w, n) && (forall t :: t in pre + post ==> t != Param && !t.Lit?)
    ensures Surplus(Both(Both(Plain(pre), w), Plain(post)), n)
  {
    assert forall t :: t in pre ==> t in pre + post;
    assert forall t :: t in post ==> t in pre + post;
    PlainSurplus(pre);
    PlainSurplus(post);
    BothSurplus(Plain(pre), 0, w, n);
    BothSurplus(Both(Plain(pre), w), n, Plain(post), 0);
  }

  lemma SeparatedSurplus(a: Written, m: nat, t: Token, b: Written, n: nat)
    requires Surplus(a, m) && Surplus(b, n) && t != Param && !t.Lit?
    ensures Surplus(Both(Both(a, Plain([t])), b), m + n)
  {
    PlainSurplus([t]);
    BothSurplus(a, m, Plain([t]), 0);
    BothSurplus(Both(a, Plain([t])), m, b, n);
  }

  lemma {:induction false} ElementSurplus(ctx: Ctx, e: Element)
    requires WriteElement(ctx, e).Some?
    ensures Surplus(WriteElement(ctx, e).value, ElementMatches(ctx.dialect, e))
    decreases e, 1
  {
    match e
    case Value(v) =>
      assert Erase([Lit(v)]) == [Param] && [Param][1..] == [];
    case Field(path) =>
      PlainSurplus([Col(ctx.columns[path])]);
    case Method(name, params) =>
      match Template(ctx.dialect, name)
      case None =>
        JoinedSurplus(ctx, params);
        WrappedSurplus([Name(name), LP], WriteJoined(ctx, params).value, ElementsMatches(ctx.dialect, params), [RP]);
      case Some(template) =>
        TemplateSurplus(ctx.dialect, name);
        FilledSurplus(ctx, Plain(template), if name == CONTAINS then 0 else 1, params);
  }

  lemma TemplateSurplus(d: Dialect, name: string)
    requires Template(d, name).Some?
    ensures Surplus(Plain(Template(d, name).value), if name == CONTAINS then 0 else 1)
  {
    if name == CONTAINS {
      PlainSurplus([Name("INSTR"), LP, Hole, Comma, Hole, RP, Cmp(Gt), Num(0)]);
    } else {
      MatchSurplus();
    }
  }

  lemma MatchSurplus()
    ensures Surplus(Plain([Name("MATCH"), LP, Hole, RP, Name("AGAINST"), LP, Param, InT, Name("BOOLEAN"), Name("MODE"),
                           RP]), 1)
  {
    var a, b := [Name("MATCH"), LP, Hole, RP, Name("AGAINST"), LP], [InT, Name("BOOLEAN"), Name("MODE"), RP];
    OneMark();
    WrappedSurplus(a, Plain([Param]), 1, b);
    var w := Both(Both(Plain(a), Plain([Param])), Plain(b));
    assert w.text == [Name("MATCH"), LP, Hole, RP, Name("AGAINST"), LP, Param, InT, Name("BOOLEAN"), Name("MODE"),
                      RP] && w.values == [];
  }

  lemma OneMark()
    ensures Surplus(Plain([Param]), 1)
  {
    assert Erase([Param]) == [Param] && [Param][1..] == [];
    assert Marks([]) == 0;
  }

  lemma {:induction false} FilledSurplus(ctx: Ctx, w: Written, n: nat, params: seq<Element>)
    requires Surplus(w, n) && WriteFilled(ctx, w, params).Some?
    ensures Surplus(WriteFilled(ctx, w, params).value, n + ElementsMatches(ctx.dialect, params))
    decreases params, 0
  {
    if params != [] {
      var sub := WriteElement(ctx, params[0]).value;
      ElementSurplus(ctx, params[0]);
      MarksFill(w.text, sub.text);
      FilledSurplus(ctx, Written(Fill(w.text, sub.text), w.values + sub.values), n +
                    ElementMatches(ctx.dialect, params[0]), params[1..]);
    }
  }

  lemma {:induction false} JoinedSurplus(ctx: Ctx, es: seq<Element>)
    requires WriteJoined(ctx, es).Some?
    ensures Surplus(WriteJoined(ctx, es).value, ElementsMatches(ctx.dialect, es))
    decreases es, 0
  {
    if es == [] {
      PlainSurplus([]);
    } else {
      ElementSurplus(ctx, es[0]);
      if |es| > 1 {
        JoinedSurplus(ctx, es[1..]);
        SeparatedSurplus(WriteElement(ctx, es[0]).value, ElementMatches(ctx.dialect, es[0]), Comma,
                         WriteJoined(ctx, es[1..]).value, ElementsMatches(ctx.dialect, es[1..]));
      } else {
        assert ElementsMatches(ctx.dialect, es[1..]) == 0;
      }
    }
  }

  lemma {:induction false} RunSurplus(ctx: Ctx, es: seq<Element>)
    requires WriteRun(ctx, es).Some?
    ensures Surplus(WriteRun(ctx, es).value, ElementsMatches(ctx.dialect, es))
    decreases es, 0
  {
    if es == [] {
      PlainSurplus([]);
    } else {
      ElementSurplus(ctx, es[0]);
      RunSurplus(ctx, es[1..]);
      BothSurplus(WriteElement(ctx, es[0]).value, ElementMatches(ctx.dialect, es[0]),
                  WriteRun(ctx, es[1..]).value, ElementsMatches(ctx.dialect, es[1..]));
    }
  }

  lemma {:induction false} RowsSurplus(ctx: Ctx, rows: seq<seq<Element>>)
    requires WriteRows(ctx, rows).Some?
    ensures Surplus(WriteRows(ctx, rows).value, RowsMatches(ctx.dialect, rows))
    decreases |rows|
  {
    if rows == [] {
      PlainSurplus([]);
    } else {
      var d, w := ctx.dialect, WriteJoined(ctx, rows[0]).value;
      JoinedSurplus(ctx, rows[0]);
      WrappedSurplus([LP], w, ElementsMatches(d, rows[0]), [RP]);
      if |rows| > 1 {
        RowsSurplus(ctx, rows[1..]);
        SeparatedSurplus(Both(Both(Plain([LP]), w), Plain([RP])), ElementsMatches(d, rows[0]), Comma,
                         WriteRows(ctx, rows[1..]).value, RowsMatches(d, rows[1..]));
      } else {
        assert RowsMatches(d, rows[1..]) == 0;
      }
    }
  }

  lemma {:induction false} ClauseSurplus(ctx: Ctx, c: Clause)
    requires Write(ctx, c).Some?
    ensures Surplus(Write(ctx, c).value, Matches(ctx.dialect, c))
    decreases c, 1
  {
    var d := ctx.dialect;
    match c
    case Compare(op, l, r) =>
      CompareSurplus(ctx, op, l, r);
    case Neq(l, r) =>
      CompareSurplus(ctx, NullSafeEq, l, r);
      WrappedSurplus([NotT, LP], WriteCompare(ctx, NullSafeEq, l, r).value, Matches(d, c), [RP]);
    case Not(x) =>
      ClauseSurplus(ctx, x);
      WrappedSurplus([NotT, LP], Write(ctx, x).value, Matches(d, x), [RP]);
    case And(cs) =>
      NodeSurplus(ctx, AndT, cs);
    case Or(cs) =>
      NodeSurplus(ctx, OrT, cs);
    case Truthy(e) =>
      ElementSurplus(ctx, e);
    case In(lefts, rows) =>
      if rows == [] {
        PlainSurplus([FalseT]);
      } else {
        InSurplus(ctx, lefts, rows);
      }
  }

  lemma InSurplus(ctx: Ctx, lefts: seq<Element>, rows: seq<seq<Element>>)
    requires rows != [] && Write(ctx, In(lefts, rows)).Some?
    ensures Surplus(Write(ctx, In(lefts, rows)).value, ElementsMatches(ctx.dialect, lefts) +
                    RowsMatches(ctx.dialect, rows))
  {
    RunSurplus(ctx, lefts);
    RowsSurplus(ctx, rows);
    var l, r := WriteRun(ctx, lefts).value, WriteRows(ctx, rows).value;
    var m, n := ElementsMatches(ctx.dialect, lefts), RowsMatches(ctx.dialect, rows);
    PlainSurplus([LP]);
    PlainSurplus([RP, InT, LP]);
    PlainSurplus([RP]);
    BothSurplus(Plain([LP]), 0, l, m);
    BothSurplus(Plain([RP, InT, LP]), 0, r, n);
    BothSurplus(Both(Plain([LP]), l), m, Both(Plain([RP, InT, LP]), r), n);
    BothSurplus(Both(Both(Plain([LP]), l), Both(Plain([RP, InT, LP]), r)), m + n, Plain([RP]), 0);
  }

  lemma CompareSurplus(ctx: Ctx, op: Op, l: Element, r: Element)
    requires WriteCompare(ctx, op, l, r).Some?
    ensures Surplus(WriteCompare(ctx, op, l, r).value, ElementMatches(ctx.dialect, l) + ElementMatches(ctx.dialect, r))
  {
    ElementSurplus(ctx, l);
    ElementSurplus(ctx, r);
    SeparatedSurplus(WriteElement(ctx, l).value, ElementMatches(ctx.dialect, l), Cmp(op), WriteElement(ctx, r).value,
                     ElementMatches(ctx.dialect, r));
  }

  lemma {:induction false} NodeSurplus(ctx: Ctx, joiner: Token, cs: seq<Clause>)
    requires WriteNode(ctx, joiner, cs).Some? && joiner != Param && !joiner.Lit?
    ensures Surplus(WriteNode(ctx, joiner, cs).value, ClausesMatches(ctx.dialect, cs))
    decreases cs, 1
  {
    if cs == [] {
      PlainSurplus([]);
    } else {
      ClausesSurplus(ctx, joiner, cs);
      WrappedSurplus([LP], WriteClauses(ctx, joiner, cs).value, ClausesMatches(ctx.dialect, cs), [RP]);
    }
  }

  lemma {:induction false} ClausesSurplus(ctx: Ctx, joiner: Token, cs: seq<Clause>)
    requires WriteClauses(ctx, joiner, cs).Some? && joiner != Param && !joiner.Lit?
    ensures Surplus(WriteClauses(ctx, joiner, cs).value, ClausesMatches(ctx.dialect, cs))
    decreases cs, 0
  {
    var d := ctx.dialect;
    if cs == [] {
      PlainSurplus([]);
    } else {
      ClauseSurplus(ctx, cs[0]);
      if |cs| > 1 {
        ClausesSurplus(ctx, joiner, cs[1..]);
        SeparatedSurplus(Write(ctx, cs[0]).value, Matches(d, cs[0]), joiner, WriteClauses(ctx, joiner, cs[1..]).value,
                         ClausesMatches(d, cs[1..]));
      } else {
        assert ClausesMatches(d, cs[1..]) == 0;
      }
    }
  }

  /** Whatever the clause, the marks outnumber the values by the uses of MySQL's `match`:
      the counts agree exactly when it is not used. */
  lemma ParametersAgreeExactlyWhen(ctx: Ctx, c: Clause)
    requires Write(ctx, c).Some?
    ensures Marks(Erase(Write(ctx, c).value.text)) == |Write(ctx, c).value.values| <==> Matches(ctx.dialect, c) == 0
  {
    ClauseSurplus(ctx, c);
  }

  /** MySQL's `match` of a field against a value: the text has the template's mark and one more for the
      value, which is written after it. */
  lemma MatchText(ctx: Ctx, path: string, v: Val)
    requires ctx.dialect == MySQL && path in ctx.columns
    ensures WriteElement(ctx, Method("match", [Field(path), Value(v)])) ==
      Some(Written([Name("MATCH"), LP, Col(ctx.columns[path]), RP] +
                   [Name("AGAINST"), LP, Param, InT, Name("BOOLEAN"), Name("MODE"), RP] + [Lit(v)], [v]))
  {
    var col, end := Col(ctx.columns[path]), [Name("AGAINST"), LP, Param, InT, Name("BOOLEAN"), Name("MODE"), RP];
    var filled := [Name("MATCH"), LP, col, RP] + end;
    MatchFilled(col, end, filled);
    FillAfter(filled, [], [Lit(v)]);
    assert filled + [] == filled;
    FillBoth(ctx, Template(MySQL, MATCH).value, [Field(path), Value(v)], filled, v);
  }

  lemma MatchFilled(col: Token, end: seq<Token>, filled: seq<Token>)
    requires end == [Name("AGAINST"), LP, Param, InT, Name("BOOLEAN"), Name("MODE"), RP]
    requires filled == [Name("MATCH"), LP, col, RP] + end
    ensures Fill(Template(MySQL, MATCH).value, [col]) == filled
  {
    MatchTemplate(end);
    FillHole([Name("MATCH"), LP], [RP] + end, [col]);
    AroundHole(Name("MATCH"), col, end);
  }

  lemma MatchTemplate(end: seq<Token>)
    requires end == [Name("AGAINST"), LP, Param, InT, Name("BOOLEAN"), Name("MODE"), RP]
    ensures Template(MySQL, MATCH) == Some([Name("MATCH"), LP] + ([Hole] + ([RP] + end)))
  {
    AroundHole(Name("MATCH"), Hole, end);
    assert Template(MySQL, MATCH).value == [Name("MATCH"), LP, Hole, RP] + end;
  }

  lemma AroundHole(name: Token, x: Token, end: seq<Token>)
    ensures [name, LP] + ([x] + ([RP] + end)) == [name, LP, x, RP] + end
  {
  }

  lemma FillBoth(ctx: Ctx, template: seq<Token>, params: seq<Element>, filled: seq<Token>, v: Val)
    requires |params| == 2 && WriteElement(ctx, params[0]).Some? && params[1] == Value(v)
    requires WriteElement(ctx, params[0]).value.values == []
    requires Fill(template, WriteElement(ctx, params[0]).value.text) == filled
    requires Fill(filled, [Lit(v)]) == filled + [Lit(v)]
    ensures WriteFilled(ctx, Plain(template), params) == Some(Written(filled + [Lit(v)], [v]))
  {
    var none: seq<Val> := [];
    assert params[1..] == [Value(v)] && params[1..][1..] == [];
    assert none + none == none && none + [v] == [v];
    assert WriteFilled(ctx, Plain(template), params) == WriteFilled(ctx, Plain(filled), [Value(v)]);
    assert WriteFilled(ctx, Plain(filled), [Value(v)]) == WriteFilled(ctx, Written(filled + [Lit(v)], [v]), []);
  }

  // ----- The condition the database parses

  lemma {:induction false} ParsedTree(ctx: Ctx, c: Clause)
    requires Callable(ctx.dialect, c) && Write(ctx, c).Some?
    ensures ParseCondition(ctx.dialect, Write(ctx, c).value.text) == Actual(ctx, c)
  {
    var text := Write(ctx, c).value.text;
    ParseClause(ctx, c, []);
    ParseOrFromNot(ctx.dialect, text, Actual(ctx, c), []);
    assert text + [] == text;
  }

  lemma {:induction false} ActualTree(ctx: Ctx, c: Clause)
    ensures Actual(ctx, c) == Some(Tree(ctx, c)) <==> Sound(ctx.dialect, c)
    decreases c, 1
  {
    match c
    case Compare(op, l, r) =>
      RegroupedDiffers(ctx, op, l, r);
    case Neq(l, r) =>
      RegroupedDiffers(ctx, NullSafeEq, l, r);
    case Not(x) =>
      ActualTree(ctx, x);
    case And(cs) =>
      ActualTrees(ctx, cs);
    case Or(cs) =>
      ActualTrees(ctx, cs);
    case Truthy(e) =>
    case In(lefts, rows) =>
  }

  lemma RegroupedDiffers(ctx: Ctx, op: Op, l: Element, r: Element)
    ensures Regrouped(ctx, op, l, r) == CmpE(op, TreeElement(ctx, l), TreeElement(ctx, r)) <==>
      !Regroups(ctx.dialect, op, r)
  {
  }

  lemma {:induction false} ActualTrees(ctx: Ctx, cs: seq<Clause>)
    ensures |Trees(ctx, cs)| == |cs|
    ensures Actuals(ctx, cs) == Some(Trees(ctx, cs)) <==> forall x :: x in cs ==> Sound(ctx.dialect, x)
    decreases cs, 0
  {
    if cs != [] {
      ActualTree(ctx, cs[0]);
      ActualTrees(ctx, cs[1..]);
      assert forall x :: x in cs <==> x == cs[0] || x in cs[1..];
      if Actuals(ctx, cs).Some? {
        var t, ts := Actual(ctx, cs[0]).value, Actuals(ctx, cs[1..]).value;
        assert [t] + ts == Trees(ctx, cs) <==> t == Tree(ctx, cs[0]) && ts == Trees(ctx, cs[1..]) by {
          assert ([t] + ts)[1..] == ts && Trees(ctx, cs)[1..] == Trees(ctx, cs[1..]);
        }
      }
    }
  }

  /** The text sent to the database, with the k-th mark bound to the k-th value, parses to the
      clause's own tree if and only if the clause is sound. */
  lemma CompiledExactlyWhen(ctx: Ctx, c: Clause)
    requires Callable(ctx.dialect, c) && Write(ctx, c).Some?
    ensures var w := Write(ctx, c).value;
            Bind(Erase(w.text), w.values) == w.text
            && (ParseCondition(ctx.dialect, Bind(Erase(w.text), w.values)) == Some(Tree(ctx, c)) <==>
                Sound(ctx.dialect, c))
  {
    var w := Write(ctx, c).value;
    NoParams(ctx, c);
    ClauseInOrder(ctx, c);
    BindErased(w.text);
    ParsedTree(ctx, c);
    ActualTree(ctx, c);
  }

  lemma {:induction false} NoParams(ctx: Ctx, c: Clause)
    requires Callable(ctx.dialect, c) && Write(ctx, c).Some?
    ensures Param !in Write(ctx, c).value.text
    decreases c, 1
  {
    match c
    case Compare(op, l, r) =>
      NoHoles(ctx, l);
      NoHoles(ctx, r);
    case Neq(l, r) =>
      NoHoles(ctx, l);
      NoHoles(ctx, r);
    case Not(x) =>
      NoParams(ctx, x);
    case And(cs) =>
      NoParamsNode(ctx, AndT, cs);
    case Or(cs) =>
      NoParamsNode(ctx, OrT, cs);
    case Truthy(e) =>
      NoHoles(ctx, e);
    case In(lefts, rows) =>
      if rows != [] {
        NoParamsRun(ctx, lefts);
        NoParamsRows(ctx, rows);
      }
  }

  lemma {:induction false} NoParamsNode(ctx: Ctx, joiner: Token, cs: seq<Clause>)
    requires (forall x :: x in cs ==> Callable(ctx.dialect, x)) && WriteNode(ctx, joiner, cs).Some? && joiner != Param
    ensures Param !in WriteNode(ctx, joiner, cs).value.text
    ensures cs != [] ==> Param !in WriteClauses(ctx, joiner, cs).value.text
    decreases cs, 0
  {
    if cs != [] {
      NoParams(ctx, cs[0]);
      if |cs| > 1 {
        NoParamsNode(ctx, joiner, cs[1..]);
      }
    }
  }

  lemma {:induction false} NoParamsRun(ctx: Ctx, es: seq<Element>)
    requires AllWellCalled(ctx.dialect, es) && WriteRun(ctx, es).Some?
    ensures Param !in WriteRun(ctx, es).value.text
    decreases es, 0
  {
    if es != [] {
      NoHoles(ctx, es[0]);
      NoParamsRun(ctx, es[1..]);
    }
  }

  lemma {:induction false} NoParamsRows(ctx: Ctx, rows: seq<seq<Element>>)
    requires (forall row :: row in rows ==> AllWellCalled(ctx.dialect, row)) && WriteRows(ctx, rows).Some?
    ensures Param !in WriteRows(ctx, rows).value.text
    decreases |rows|
  {
    if rows != [] {
      assert rows[0] in rows;
      NoHolesJoined(ctx, rows[0]);
      if |rows| > 1 {
        NoParamsRows(ctx, rows[1..]);
      }
    }
  }

  // ----- What it evaluates to

  lemma {:induction false} EvalElement(ctx: Ctx, e: Element, env: Env)
    requires WellCalled(ctx.dialect, e) && WriteElement(ctx, e).Some?
    ensures Eval(TreeElement(ctx, e), env) == ElementValue(ctx, e, env)
    decreases e, 1
  {
    if e.Method? {
      if IsContains(e) {
        ContainsText(ctx, e);
      }
      EvalElements(ctx, e.params, env);
    }
  }

  lemma {:induction false} EvalElements(ctx: Ctx, es: seq<Element>, env: Env)
    requires AllWellCalled(ctx.dialect, es) && WriteJoined(ctx, es).Some?
    ensures Evals(TreeElements(ctx, es), env) == ElementValues(ctx, es, env)
    decreases es, 0
  {
    if es != [] {
      EvalElement(ctx, es[0], env);
      assert TreeElements(ctx, es)[1..] == TreeElements(ctx, es[1..]);
      if |es| > 1 {
        EvalElements(ctx, es[1..], env);
      }
    }
  }

  lemma {:induction false} EvalClause(ctx: Ctx, c: Clause, env: Env)
    requires Callable(ctx.dialect, c) && Write(ctx, c).Some? && Sound(ctx.dialect, c)
    ensures Eval(Tree(ctx, c), env) == Meaning(ctx, c, env)
    decreases c, 1
  {
    match c
    case Compare(op, l, r) =>
      EvalElement(ctx, l, env);
      EvalElement(ctx, r, env);
    case Neq(l, r) =>
      EvalElement(ctx, l, env);
      EvalElement(ctx, r, env);
    case Not(x) =>
      EvalClause(ctx, x, env);
    case And(cs) =>
      EvalAnd(ctx, cs, env);
    case Or(cs) =>
      EvalOr(ctx, cs, env);
    case Truthy(e) =>
      EvalElement(ctx, e, env);
    case In(lefts, rows) =>
      EvalIn(ctx, lefts, rows, env);
  }

  lemma {:induction false} EvalAnd(ctx: Ctx, cs: seq<Clause>, env: Env)
    requires cs != [] && WriteClauses(ctx, AndT, cs).Some?
    requires forall x :: x in cs ==> Callable(ctx.dialect, x) && Sound(ctx.dialect, x)
    ensures Eval(Tree(ctx, And(cs)), env) == Conjunction(ctx, cs, env)
    decreases cs, 1
  {
    EvalConjunction(ctx, cs, env);
    ActualTrees(ctx, cs);
  }

  lemma {:induction false} EvalOr(ctx: Ctx, cs: seq<Clause>, env: Env)
    requires cs != [] && WriteClauses(ctx, OrT, cs).Some?
    requires forall x :: x in cs ==> Callable(ctx.dialect, x) && Sound(ctx.dialect, x)
    ensures Eval(Tree(ctx, Or(cs)), env) == Disjunction(ctx, cs, env)
    decreases cs, 1
  {
    EvalDisjunction(ctx, cs, env);
    ActualTrees(ctx, cs);
  }

  lemma EvalIn(ctx: Ctx, lefts: seq<Element>, rows: seq<seq<Element>>, env: Env)
    requires Callable(ctx.dialect, In(lefts, rows)) && Write(ctx, In(lefts, rows)).Some? &&
      Sound(ctx.dialect, In(lefts, rows))
    ensures Eval(Tree(ctx, In(lefts, rows)), env) == Meaning(ctx, In(lefts, rows), env)
  {
    if rows != [] {
      EvalElement(ctx, lefts[0], env);
      EvalFirsts(ctx, rows, env);
    }
  }

  /** What AND takes from an operand: whether it is false, unknown or true. */
  lemma AndNormal(a: Val, b: Val)
    ensures AndV(a, AndV(b, N(1))) == AndV(a, b)
    ensures OrV(a, OrV(b, N(0))) == OrV(a, b)
  {
  }

  lemma {:induction false} EvalConjunction(ctx: Ctx, cs: seq<Clause>, env: Env)
    requires cs != [] && WriteClauses(ctx, AndT, cs).Some?
    requires forall x :: x in cs ==> Callable(ctx.dialect, x) && Sound(ctx.dialect, x)
    ensures |cs| == 1 ==> Eval(Trees(ctx, cs)[0], env) == Conjunction(ctx, cs, env)
    ensures |cs| == 1 ==> AllV(Evals(Trees(ctx, cs), env)) == AndV(Conjunction(ctx, cs, env), N(1))
    ensures |cs| > 1 ==> AllV(Evals(Trees(ctx, cs), env)) == Conjunction(ctx, cs, env)
    decreases cs, 0
  {
    EvalClause(ctx, cs[0], env);
    assert Trees(ctx, cs)[0] == Tree(ctx, cs[0]) && Trees(ctx, cs)[1..] == Trees(ctx, cs[1..]);
    assert Evals(Trees(ctx, cs), env)[1..] == Evals(Trees(ctx, cs[1..]), env);
    if |cs| > 1 {
      EvalConjunction(ctx, cs[1..], env);
      AndNormal(Meaning(ctx, cs[0], env), Conjunction(ctx, cs[1..], env));
    } else {
      assert Evals(Trees(ctx, cs[1..]), env) == [];
    }
  }

  lemma {:induction false} EvalDisjunction(ctx: Ctx, cs: seq<Clause>, env: Env)
    requires cs != [] && WriteClauses(ctx, OrT, cs).Some?
    requires forall x :: x in cs ==> Callable(ctx.dialect, x) && Sound(ctx.dialect, x)
    ensures |cs| == 1 ==> Eval(Trees(ctx, cs)[0], env) == Disjunction(ctx, cs, env)
    ensures |cs| == 1 ==> AnyV(Evals(Trees(ctx, cs), env)) == OrV(Disjunction(ctx, cs, env), N(0))
    ensures |cs| > 1 ==> AnyV(Evals(Trees(ctx, cs), env)) == Disjunction(ctx, cs, env)
    decreases cs, 0
  {
    EvalClause(ctx, cs[0], env);
    assert Trees(ctx, cs)[0] == Tree(ctx, cs[0]) && Trees(ctx, cs)[1..] == Trees(ctx, cs[1..]);
    assert Evals(Trees(ctx, cs), env)[1..] == Evals(Trees(ctx, cs[1..]), env);
    if |cs| > 1 {
      EvalDisjunction(ctx, cs[1..], env);
      AndNormal(Meaning(ctx, cs[0], env), Disjunction(ctx, cs[1..], env));
    } else {
      assert Evals(Trees(ctx, cs[1..]), env) == [];
    }
  }

  lemma {:induction false} EvalFirsts(ctx: Ctx, rows: seq<seq<Element>>, env: Env)
    requires WriteRows(ctx, rows).Some?
    requires forall row :: row in rows ==> |row| == 1 && AllWellCalled(ctx.dialect, row)
    ensures Evals(TreeFirsts(ctx, rows), env) == Firsts(ctx, rows, env)
    decreases |rows|
  {
    if rows != [] {
      assert rows[0] in rows && rows[0] == [rows[0][0]] && WellCalled(ctx.dialect, rows[0][0]);
      assert WriteJoined(ctx, rows[0]) == WriteElement(ctx, rows[0][0]);
      EvalElement(ctx, rows[0][0], env);
      assert TreeFirsts(ctx, rows)[1..] == TreeFirsts(ctx, rows[1..]);
      if |rows| > 1 {
        EvalFirsts(ctx, rows[1..], env);
      }
    }
  }

  /** A sound clause is compiled to a condition that has the clause's truth value on every row. */
  lemma CompiledMeaning(ctx: Ctx, c: Clause, env: Env)
    requires Callable(ctx.dialect, c) && Write(ctx, c).Some? && Sound(ctx.dialect, c)
    ensures var w := Write(ctx, c).value;
            var parsed := ParseCondition(ctx.dialect, Bind(Erase(w.text), w.values));
            parsed.Some? && Eval(parsed.value, env) == Meaning(ctx, c, env)
  {
    CompiledExactlyWhen(ctx, c);
    EvalClause(ctx, c, env);
  }
}
