/** The text written for a clause, with each value bound to its parameter mark, parses back to
    the clause's own tree exactly when the clause avoids three shapes; it then evaluates to the
    clause's meaning on every row. */
module WhereMeaning {
  import opened Options
  import opened Sql
  import opened Clauses

  // ----- The trees clauses stand for

  function TreeElement(ctx: Ctx, e: Element): Expr
    decreases e, 1
  {
    match e
    case Value(v) => LitE(v)
    case Field(path) => if path in ctx.columns then ColE(ctx.columns[path]) else FalseE
    case Method(name, params) =>
      if name == CONTAINS then CmpE(Gt, Call("INSTR", TreeElements(ctx, params)), NumE(0))
      else Call(name, TreeElements(ctx, params))
  }

  function TreeElements(ctx: Ctx, es: seq<Element>): seq<Expr>
    decreases es, 0
  {
    if es == [] then [] else [TreeElement(ctx, es[0])] + TreeElements(ctx, es[1..])
  }

  function Tree(ctx: Ctx, c: Clause): Expr
    decreases c, 1
  {
    match c
    case Compare(op, l, r) => CmpE(op, TreeElement(ctx, l), TreeElement(ctx, r))
    case Neq(l, r) => NotE(CmpE(NullSafeEq, TreeElement(ctx, l), TreeElement(ctx, r)))
    case Not(x) => NotE(Tree(ctx, x))
    case And(cs) => var ts := Trees(ctx, cs); if |ts| == 1 then ts[0] else AndE(ts)
    case Or(cs) => var ts := Trees(ctx, cs); if |ts| == 1 then ts[0] else OrE(ts)
    case Truthy(e) => TreeElement(ctx, e)
    case In(lefts, rows) =>
      if rows == [] then FalseE
      else if |lefts| == 1 then InE(TreeElement(ctx, lefts[0]), TreeFirsts(ctx, rows))
      else InE(RowE(TreeElements(ctx, lefts)), TreeFirsts(ctx, rows))
  }

  function Trees(ctx: Ctx, cs: seq<Clause>): seq<Expr>
    decreases cs, 0
  {
    if cs == [] then [] else [Tree(ctx, cs[0])] + Trees(ctx, cs[1..])
  }

  function TreeFirsts(ctx: Ctx, rows: seq<seq<Element>>): seq<Expr>
    decreases |rows|
  {
    if rows == [] then []
    else
      [if |rows[0]| == 1 then TreeElement(ctx, rows[0][0]) else RowE(TreeElements(ctx, rows[0]))]
      + TreeFirsts(ctx, rows[1..])
  }

  // ----- The shapes that go wrong

  predicate IsContains(e: Element) {
    e.Method? && e.name == CONTAINS
  }

  /** `contains` has its two arguments, and MySQL's `match` is not used. */
  predicate WellCalled(d: Dialect, e: Element)
    decreases e, 1
  {
    e.Method? ==>
      && (e.name == CONTAINS ==> |e.params| == 2)
      && !(d.MySQL? && e.name == MATCH)
      && AllWellCalled(d, e.params)
  }

  predicate AllWellCalled(d: Dialect, es: seq<Element>)
    decreases es, 0
  {
    es == [] || (WellCalled(d, es[0]) && AllWellCalled(d, es[1..]))
  }

  predicate Callable(d: Dialect, c: Clause) {
    match c
    case Compare(_, l, r) => WellCalled(d, l) && WellCalled(d, r)
    case Neq(l, r) => WellCalled(d, l) && WellCalled(d, r)
    case Not(x) => Callable(d, x)
    case And(cs) => forall x :: x in cs ==> Callable(d, x)
    case Or(cs) => forall x :: x in cs ==> Callable(d, x)
    case Truthy(e) => WellCalled(d, e)
    case In(lefts, rows) => AllWellCalled(d, lefts) && forall row :: row in rows ==> AllWellCalled(d, row)
  }

  /** `x op INSTR(..) > 0` groups to the left, unless `op` binds looser than `>`. */
  predicate Regroups(d: Dialect, op: Op, right: Element) {
    IsContains(right) && (d.MySQL? || !Loose(d, op))
  }

  /** No empty And or Or, no IN over other than one column unless its list is empty, and no
      `contains` as the right side of a comparison it would regroup. */
  predicate Sound(d: Dialect, c: Clause) {
    match c
    case Compare(op, _, r) => !Regroups(d, op, r)
    case Neq(_, r) => !Regroups(d, NullSafeEq, r)
    case Not(x) => Sound(d, x)
    case And(cs) => cs != [] && forall x :: x in cs ==> Sound(d, x)
    case Or(cs) => cs != [] && forall x :: x in cs ==> Sound(d, x)
    case Truthy(_) => true
    case In(lefts, rows) => rows == [] || |lefts| == 1
  }

  // ----- What the database actually parses

  function Regrouped(ctx: Ctx, op: Op, l: Element, r: Element): Expr {
    if Regroups(ctx.dialect, op, r)
    then CmpE(Gt, CmpE(op, TreeElement(ctx, l), Call("INSTR", TreeElements(ctx, r.params))), NumE(0))
    else CmpE(op, TreeElement(ctx, l), TreeElement(ctx, r))
  }

  function Actual(ctx: Ctx, c: Clause): Option<Expr>
    decreases c, 1
  {
    match c
    case Compare(op, l, r) => Some(Regrouped(ctx, op, l, r))
    case Neq(l, r) => Some(NotE(Regrouped(ctx, NullSafeEq, l, r)))
    case Not(x) =>
      (match Actual(ctx, x)
       case None => None
       case Some(t) => Some(NotE(t)))
    case And(cs) =>
      if cs == [] then None
      else (match Actuals(ctx, cs)
            case None => None
            case Some(ts) => Some(JoinAnd(ts)))
    case Or(cs) =>
      if cs == [] then None
      else (match Actuals(ctx, cs)
            case None => None
            case Some(ts) => Some(JoinOr(ts)))
    case Truthy(e) => Some(TreeElement(ctx, e))
    case In(lefts, rows) =>
      if rows == [] then Some(FalseE)
      else if |lefts| == 1 then Some(InE(TreeElement(ctx, lefts[0]), TreeFirsts(ctx, rows)))
      else None
  }

  function Actuals(ctx: Ctx, cs: seq<Clause>): (r: Option<seq<Expr>>)
    ensures r.Some? ==> |r.value| == |cs|
    decreases cs, 0
  {
    if cs == [] then Some([])
    else match Actual(ctx, cs[0])
      case None => None
      case Some(t) =>
        match Actuals(ctx, cs[1..])
        case None => None
        case Some(ts) => Some([t] + ts)
  }

  // ----- Elements

  predicate StartsPrimary(ts: seq<Token>) {
    ts != [] && (ts[0].Lit? || ts[0].Col? || ts[0].Name?)
  }

  /** No operator continues an expression before `ts`. */
  predicate NoOp(ts: seq<Token>) {
    ts == [] || !(ts[0].Cmp? || ts[0] == InT)
  }

  predicate NoJoin(ts: seq<Token>) {
    NoOp(ts) && (ts == [] || (ts[0] != AndT && ts[0] != OrT))
  }

  /** The rest of ParseLoose once its first operand is known. */
  function Continue(d: Dialect, acc: Expr, ts: seq<Token>): Parsed {
    match ParseTightTail(d, acc, ts)
    case None => None
    case Some((e, rest)) => ParseLooseTail(d, e, rest)
  }

  lemma FillHole(pre: seq<Token>, ts: seq<Token>, sub: seq<Token>)
    requires forall t :: t in pre ==> t != Hole
    ensures Fill(pre + ([Hole] + ts), sub) == pre + (sub + ts)
  {
    FillAfter(pre, [Hole] + ts, sub);
    assert ([Hole] + ts)[1..] == ts;
  }

  lemma FillTwo(a: seq<Token>, b: seq<Token>)
    requires forall t :: t in a ==> t != Hole
    ensures Fill(Fill([Name("INSTR"), LP, Hole, Comma, Hole, RP, Cmp(Gt), Num(0)], a), b)
         == [Name("INSTR"), LP] + (a + [Comma] + b) + [RP] + [Cmp(Gt), Num(0)]
  {
    var pre, post := [Name("INSTR"), LP], [RP, Cmp(Gt), Num(0)];
    assert [Name("INSTR"), LP, Hole, Comma, Hole, RP, Cmp(Gt), Num(0)] == pre + ([Hole] + ([Comma] + ([Hole] + post)));
    FillHole(pre, [Comma] + ([Hole] + post), a);
    assert pre + (a + ([Comma] + ([Hole] + post))) == (pre + a + [Comma]) + ([Hole] + post);
    FillHole(pre + a + [Comma], post, b);
    assert (pre + a + [Comma]) + (b + post) == pre + (a + [Comma] + b) + [RP] + [Cmp(Gt), Num(0)];
  }

  lemma {:induction false} FillAfter(pre: seq<Token>, ts: seq<Token>, sub: seq<Token>)
    requires forall t :: t in pre ==> t != Hole
    ensures Fill(pre + ts, sub) == pre + Fill(ts, sub)
  {
    if pre == [] {
      assert pre + ts == ts;
    } else {
      assert pre[0] in pre && forall t :: t in pre[1..] ==> t in pre;
      assert (pre + ts)[1..] == pre[1..] + ts;
      FillAfter(pre[1..], ts, sub);
      assert pre == [pre[0]] + pre[1..];
    }
  }

  /** `contains` is written as a call followed by `> 0`. */
  lemma ContainsTextIf(ctx: Ctx, e: Element)
    requires IsContains(e) && WellCalled(ctx.dialect, e) && WriteElement(ctx, e).Some?
    requires WriteElement(ctx, e.params[0]).Some? ==> forall t :: t in WriteElement(ctx, e.params[0]).value.text ==>
      t != Hole
    ensures WriteJoined(ctx, e.params).Some?
    ensures WriteElement(ctx, e).value.text == [Name("INSTR"), LP] + WriteJoined(ctx, e.params).value.text + [RP] +
      [Cmp(Gt), Num(0)]
    ensures WriteElement(ctx, e).value.values == WriteJoined(ctx, e.params).value.values
  {
    var p, q := e.params[0], e.params[1];
    var t := Template(ctx.dialect, e.name).value;
    assert e.params == [p, q];
    FilledTwo(ctx, Plain(t), p, q);
    JoinedTwo(ctx, p, q);
    var a, b := WriteElement(ctx, p).value, WriteElement(ctx, q).value;
    FillTwo(a.text, b.text);
    assert [] + a.values + b.values == a.values + b.values;
  }

  lemma FilledTwo(ctx: Ctx, w: Written, p: Element, q: Element)
    requires WriteFilled(ctx, w, [p, q]).Some?
    ensures WriteElement(ctx, p).Some? && WriteElement(ctx, q).Some?
    ensures var a, b := WriteElement(ctx, p).value, WriteElement(ctx, q).value;
            WriteFilled(ctx, w, [p, q]).value ==
              Written(Fill(Fill(w.text, a.text), b.text), w.values + a.values + b.values)
  {
    assert [p, q] == [p] + [q] && [q] == [q] + [];
    FilledFirst(ctx, w, p, [q]);
    var a := WriteElement(ctx, p).value;
    FilledFirst(ctx, Written(Fill(w.text, a.text), w.values + a.values), q, []);
  }

  lemma FilledFirst(ctx: Ctx, w: Written, p: Element, rest: seq<Element>)
    requires WriteFilled(ctx, w, [p] + rest).Some?
    ensures WriteElement(ctx, p).Some?
    ensures var a := WriteElement(ctx, p).value;
            WriteFilled(ctx, w, [p] + rest) ==
              WriteFilled(ctx, Written(Fill(w.text, a.text), w.values + a.values), rest)
  {
    assert ([p] + rest)[0] == p && ([p] + rest)[1..] == rest;
  }

  lemma JoinedTwo(ctx: Ctx, p: Element, q: Element)
    requires WriteElement(ctx, p).Some? && WriteElement(ctx, q).Some?
    ensures WriteJoined(ctx, [p, q]).Some?
    ensures var a, b := WriteElement(ctx, p).value, WriteElement(ctx, q).value;
            WriteJoined(ctx, [p, q]).value == Written(a.text + [Comma] + b.text, a.values + b.values)
  {
    assert [p, q][1..] == [q] && WriteJoined(ctx, [q]) == WriteElement(ctx, q);
    var a := WriteElement(ctx, p).value;
    assert a.values + [] == a.values;
  }

  lemma {:induction false} NoHoles(ctx: Ctx, e: Element)
    requires WellCalled(ctx.dialect, e) && WriteElement(ctx, e).Some?
    ensures forall t :: t in WriteElement(ctx, e).value.text ==> t != Hole && t != Param
    ensures StartsPrimary(WriteElement(ctx, e).value.text)
    decreases e, 1
  {
    if e.Method? {
      if e.name == CONTAINS {
        if WriteElement(ctx, e.params[0]).Some? {
          NoHoles(ctx, e.params[0]);
        }
        ContainsTextIf(ctx, e);
      }
      NoHolesJoined(ctx, e.params);
    }
  }

  lemma {:induction false} NoHolesJoined(ctx: Ctx, es: seq<Element>)
    requires AllWellCalled(ctx.dialect, es) && WriteJoined(ctx, es).Some?
    ensures forall t :: t in WriteJoined(ctx, es).value.text ==> t != Hole && t != Param
    ensures es != [] ==> StartsPrimary(WriteJoined(ctx, es).value.text)
    decreases es, 0
  {
    if es != [] {
      NoHoles(ctx, es[0]);
      if |es| > 1 {
        NoHolesJoined(ctx, es[1..]);
      }
    }
  }

  lemma ContainsText(ctx: Ctx, e: Element)
    requires IsContains(e) && WellCalled(ctx.dialect, e) && WriteElement(ctx, e).Some?
    ensures WriteJoined(ctx, e.params).Some?
    ensures WriteElement(ctx, e).value.text == [Name("INSTR"), LP] + WriteJoined(ctx, e.params).value.text + [RP] +
      [Cmp(Gt), Num(0)]
    ensures WriteElement(ctx, e).value.values == WriteJoined(ctx, e.params).value.values
  {
    if WriteElement(ctx, e.params[0]).Some? {
      NoHoles(ctx, e.params[0]);
    }
    ContainsTextIf(ctx, e);
  }

  // ----- Parsing elements

  /** The part of an element's text that is one primary expression, and its tree. */
  function PrimText(ctx: Ctx, e: Element): seq<Token>
    requires WriteElement(ctx, e).Some?
  {
    var text := WriteElement(ctx, e).value.text;
    if IsContains(e) && |text| >= 2 then text[..|text| - 2] else text
  }

  function PrimTree(ctx: Ctx, e: Element): Expr {
    if IsContains(e) then Call("INSTR", TreeElements(ctx, e.params)) else TreeElement(ctx, e)
  }

  lemma SplitText(ctx: Ctx, e: Element)
    requires WellCalled(ctx.dialect, e) && WriteElement(ctx, e).Some?
    ensures WriteElement(ctx, e).value.text == PrimText(ctx, e) + (if IsContains(e) then [Cmp(Gt), Num(0)] else [])
    ensures IsContains(e) ==> WriteJoined(ctx, e.params).Some?
    ensures IsContains(e) ==> PrimText(ctx, e) == [Name("INSTR"), LP] + WriteJoined(ctx, e.params).value.text + [RP]
  {
    if IsContains(e) {
      ContainsText(ctx, e);
    }
  }

  lemma {:induction false} ParsePrimElement(ctx: Ctx, e: Element, rest: seq<Token>)
    requires WellCalled(ctx.dialect, e) && WriteElement(ctx, e).Some?
    ensures ParsePrim(ctx.dialect, PrimText(ctx, e) + rest) == Some((PrimTree(ctx, e), rest))
    decreases e, 1
  {
    SplitText(ctx, e);
    if e.Method? {
      ParseCall(ctx, if IsContains(e) then "INSTR" else e.name, e.params, rest);
    }
  }

  lemma {:induction false} ParseCall(ctx: Ctx, f: string, params: seq<Element>, rest: seq<Token>)
    requires AllWellCalled(ctx.dialect, params) && WriteJoined(ctx, params).Some?
    ensures ParsePrim(ctx.dialect, [Name(f), LP] + WriteJoined(ctx, params).value.text + [RP] + rest) ==
      Some((Call(f, TreeElements(ctx, params)), rest))
    decreases params, 1
  {
    var args := WriteJoined(ctx, params).value.text;
    var ts := [Name(f), LP] + args + [RP] + rest;
    assert ts[0] == Name(f) && ts[1] == LP;
    if params == [] {
      assert args == [] && ts[2] == RP && ts[3..] == rest;
    } else {
      assert ts[2..] == args + ([RP] + rest);
      NoHolesJoined(ctx, params);
      assert ts[2] == args[0];
      ParseJoined(ctx, params, rest);
    }
  }

  lemma {:induction false} ParseJoined(ctx: Ctx, es: seq<Element>, rest: seq<Token>)
    requires es != [] && AllWellCalled(ctx.dialect, es) && WriteJoined(ctx, es).Some?
    ensures ParseList(ctx.dialect, WriteJoined(ctx, es).value.text + ([RP] + rest)) ==
      Some((TreeElements(ctx, es), rest))
    decreases es, 0
  {
    var w := WriteElement(ctx, es[0]).value.text;
    if |es| == 1 {
      ParseOrElement(ctx, es[0], [RP] + rest);
      assert ([RP] + rest)[1..] == rest && es[1..] == [];
      assert TreeElements(ctx, es) == [TreeElement(ctx, es[0])];
      assert WriteJoined(ctx, es).value.text == w;
    } else {
      var tail := WriteJoined(ctx, es[1..]).value.text + ([RP] + rest);
      assert WriteJoined(ctx, es).value.text + ([RP] + rest) == w + ([Comma] + tail);
      ParseOrElement(ctx, es[0], [Comma] + tail);
      assert ([Comma] + tail)[1..] == tail;
      ParseJoined(ctx, es[1..], rest);
    }
  }

  /** `> 0` after an operand: on MySQL at the loose level, on SQLite at the tight one. */
  lemma ParseAboveZero(d: Dialect, acc: Expr, rest: seq<Token>)
    ensures d.MySQL? ==>
      ParseLooseTail(d, acc, [Cmp(Gt), Num(0)] + rest) == ParseLooseTail(d, CmpE(Gt, acc, NumE(0)), rest)
    ensures d.MySQL? ==> ParseTightTail(d, acc, [Cmp(Gt), Num(0)] + rest) == Some((acc, [Cmp(Gt), Num(0)] + rest))
    ensures d.SQLite? ==>
      ParseTightTail(d, acc, [Cmp(Gt), Num(0)] + rest) == ParseTightTail(d, CmpE(Gt, acc, NumE(0)), rest)
  {
    var after := [Cmp(Gt), Num(0)] + rest;
    assert after[1..] == [Num(0)] + rest && ([Num(0)] + rest)[1..] == rest;
    assert ParsePrim(d, after[1..]) == Some((NumE(0), rest));
    if d.MySQL? {
      assert ParseTightTail(d, NumE(0), rest) == Some((NumE(0), rest));
      assert ParseTight(d, after[1..]) == Some((NumE(0), rest));
    }
  }

  /** Parsing an element's text leaves the parser with the element's tree as its first operand. */
  lemma {:induction false} ParseLooseElement(ctx: Ctx, e: Element, rest: seq<Token>)
    requires WellCalled(ctx.dialect, e) && WriteElement(ctx, e).Some?
    ensures ParseLoose(ctx.dialect, WriteElement(ctx, e).value.text + rest) ==
      Continue(ctx.dialect, TreeElement(ctx, e), rest)
    decreases e, 2
  {
    var text := WriteElement(ctx, e).value.text;
    SplitText(ctx, e);
    if IsContains(e) {
      var after := [Cmp(Gt), Num(0)] + rest;
      assert text + rest == PrimText(ctx, e) + after;
      ParsePrimElement(ctx, e, after);
      LooseAboveZero(ctx.dialect, PrimText(ctx, e), PrimTree(ctx, e), rest);
    } else {
      ParsePrimElement(ctx, e, rest);
    }
  }

  lemma LooseAboveZero(d: Dialect, text: seq<Token>, tree: Expr, rest: seq<Token>)
    requires ParsePrim(d, text + ([Cmp(Gt), Num(0)] + rest)) == Some((tree, [Cmp(Gt), Num(0)] + rest))
    ensures ParseLoose(d, text + ([Cmp(Gt), Num(0)] + rest)) == Continue(d, CmpE(Gt, tree, NumE(0)), rest)
  {
    ParseAboveZero(d, tree, rest);
  }

  lemma ParseOrElement(ctx: Ctx, e: Element, rest: seq<Token>)
    requires WellCalled(ctx.dialect, e) && WriteElement(ctx, e).Some? && NoJoin(rest)
    ensures ParseOr(ctx.dialect, WriteElement(ctx, e).value.text + rest) == Some((TreeElement(ctx, e), rest))
    decreases e, 3
  {
    NoHoles(ctx, e);
    ParseLooseElement(ctx, e, rest);
    var ts := WriteElement(ctx, e).value.text + rest;
    assert ParseNot(ctx.dialect, ts) == Some((TreeElement(ctx, e), rest));
    assert ParseAnd(ctx.dialect, ts) == Some((TreeElement(ctx, e), rest));
  }

  // ----- Comparisons

  lemma ContinuePlain(ctx: Ctx, op: Op, l: Expr, r: Element, rest: seq<Token>)
    requires WellCalled(ctx.dialect, r) && WriteElement(ctx, r).Some? && !IsContains(r) && NoOp(rest)
    ensures Continue(ctx.dialect, l, [Cmp(op)] + (WriteElement(ctx, r).value.text + rest)) ==
      Some((CmpE(op, l, TreeElement(ctx, r)), rest))
  {
    var d, b, t := ctx.dialect, WriteElement(ctx, r).value.text, TreeElement(ctx, r);
    var right := [Cmp(op)] + (b + rest);
    assert right[1..] == b + rest;
    ParsePrimElement(ctx, r, rest);
    assert ParseTight(d, b + rest) == Some((t, rest));
    if Loose(d, op) {
      assert ParseLooseTail(d, l, right) == ParseLooseTail(d, CmpE(op, l, t), rest);
    } else {
      assert ParseTightTail(d, l, right) == ParseTightTail(d, CmpE(op, l, t), rest);
    }
  }

  lemma ContinueContains(ctx: Ctx, op: Op, l: Expr, r: Element, rest: seq<Token>)
    requires WellCalled(ctx.dialect, r) && WriteElement(ctx, r).Some? && IsContains(r) && NoOp(rest)
    ensures Continue(ctx.dialect, l, [Cmp(op)] + (WriteElement(ctx, r).value.text + rest))
         == Some((if Regroups(ctx.dialect, op, r) then CmpE(Gt, CmpE(op, l, PrimTree(ctx, r)), NumE(0))
                  else CmpE(op, l, TreeElement(ctx, r)), rest))
  {
    var d, b, t := ctx.dialect, WriteElement(ctx, r).value.text, PrimTree(ctx, r);
    var right, after := [Cmp(op)] + (b + rest), [Cmp(Gt), Num(0)] + rest;
    SplitText(ctx, r);
    assert right[1..] == b + rest == PrimText(ctx, r) + after;
    ParsePrimElement(ctx, r, after);
    ParseAboveZero(d, t, rest);
    ParseAboveZero(d, CmpE(op, l, t), rest);
    if d.MySQL? {
      assert ParseTight(d, right[1..]) == Some((t, after));
      assert ParseLooseTail(d, l, right) == ParseLooseTail(d, CmpE(op, l, t), after);
    } else if Loose(d, op) {
      assert ParseTight(d, right[1..]) == Some((TreeElement(ctx, r), rest));
      assert ParseLooseTail(d, l, right) == ParseLooseTail(d, CmpE(op, l, TreeElement(ctx, r)), rest);
    } else {
      assert ParseTightTail(d, l, right) == ParseTightTail(d, CmpE(op, l, t), after);
    }
  }

  lemma ParseCompare(ctx: Ctx, op: Op, l: Element, r: Element, rest: seq<Token>)
    requires WellCalled(ctx.dialect, l) && WellCalled(ctx.dialect, r) && NoOp(rest)
    requires WriteCompare(ctx, op, l, r).Some?
    ensures ParseNot(ctx.dialect, WriteCompare(ctx, op, l, r).value.text + rest) ==
      Some((Regrouped(ctx, op, l, r), rest))
  {
    var a, b := WriteElement(ctx, l).value.text, WriteElement(ctx, r).value.text;
    var right := [Cmp(op)] + (b + rest);
    assert WriteCompare(ctx, op, l, r).value.text + rest == a + right;
    NoHoles(ctx, l);
    ParseLooseElement(ctx, l, right);
    if IsContains(r) {
      ContinueContains(ctx, op, TreeElement(ctx, l), r, rest);
    } else {
      ContinuePlain(ctx, op, TreeElement(ctx, l), r, rest);
    }
  }

  // ----- Clauses

  /** What may follow a clause: the end, a closing parenthesis, AND, OR, or a word that calls nothing. */
  predicate Stops(ts: seq<Token>) {
    ts == [] || ts[0] == RP || ts[0] == AndT || ts[0] == OrT || (ts[0].Name? && (|ts| < 2 || ts[1] != LP))
  }

  function After(t: Option<Expr>, rest: seq<Token>): Parsed {
    match t
    case None => None
    case Some(e) => Some((e, rest))
  }

  /** A primary that nothing continues is the whole operand. */
  lemma FromPrim(d: Dialect, ts: seq<Token>, t: Option<Expr>, rest: seq<Token>)
    requires ParsePrim(d, ts) == After(t, rest) && NoOp(rest) && (ts == [] || ts[0] != NotT)
    ensures ParseNot(d, ts) == After(t, rest)
  {
    if t.Some? {
      assert ParseTight(d, ts) == Some((t.value, rest));
      assert ParseLoose(d, ts) == Some((t.value, rest));
    } else {
      assert ParseTight(d, ts) == None;
      assert ParseLoose(d, ts) == None;
    }
  }

  lemma ParseParens(d: Dialect, ts: seq<Token>, t: Option<Expr>, rest: seq<Token>)
    requires ParseOr(d, ts + ([RP] + rest)) == After(t, [RP] + rest) && NoOp(rest)
    ensures ParseNot(d, [LP] + ts + [RP] + rest) == After(t, rest)
  {
    var all := [LP] + ts + [RP] + rest;
    assert all[1..] == ts + ([RP] + rest) && ([RP] + rest)[1..] == rest;
    assert ParsePrim(d, all) == After(t, rest);
    FromPrim(d, all, t, rest);
  }

  /** One clause alone, up to where no further operand follows. */
  lemma ParseOrFromNot(d: Dialect, ts: seq<Token>, t: Option<Expr>, rest: seq<Token>)
    requires ParseNot(d, ts + rest) == After(t, rest) && (rest == [] || (rest[0] != AndT && rest[0] != OrT))
    ensures ParseOr(d, ts + rest) == After(t, rest)
  {
    if t.Some? {
      assert ParseAnd(d, ts + rest) == Some((t.value, rest));
    }
  }

  lemma ParseNegated(d: Dialect, w: Written, t: Option<Expr>, rest: seq<Token>)
    requires ParseNot(d, w.text + ([RP] + rest)) == After(t, [RP] + rest) && NoOp(rest)
    ensures ParseNot(d, Negated(w).text + rest) == After(if t.Some? then Some(NotE(t.value)) else None, rest)
  {
    ParseOrFromNot(d, w.text, t, [RP] + rest);
    ParseParens(d, w.text, t, rest);
    NegatedText(w, rest);
    var all := [NotT] + ([LP] + w.text + [RP] + rest);
    assert all[0] == NotT && all[1..] == [LP] + w.text + [RP] + rest;
  }

  lemma NegatedText(w: Written, rest: seq<Token>)
    ensures Negated(w).text + rest == [NotT] + ([LP] + w.text + [RP] + rest)
  {
  }

  lemma {:induction false} ParseClause(ctx: Ctx, c: Clause, rest: seq<Token>)
    requires Callable(ctx.dialect, c) && Write(ctx, c).Some? && Stops(rest)
    ensures ParseNot(ctx.dialect, Write(ctx, c).value.text + rest) == After(Actual(ctx, c), rest)
    decreases c, 1
  {
    var d, text := ctx.dialect, Write(ctx, c).value.text;
    match c
    case Compare(op, l, r) =>
      ParseCompare(ctx, op, l, r, rest);
    case Neq(l, r) =>
      ParseCompare(ctx, NullSafeEq, l, r, [RP] + rest);
      ParseNegated(d, WriteCompare(ctx, NullSafeEq, l, r).value, Some(Regrouped(ctx, NullSafeEq, l, r)), rest);
    case Not(x) =>
      ParseClause(ctx, x, [RP] + rest);
      ParseNegated(d, Write(ctx, x).value, Actual(ctx, x), rest);
    case And(cs) =>
      ParseNodeClause(ctx, AndT, cs, rest);
    case Or(cs) =>
      ParseNodeClause(ctx, OrT, cs, rest);
    case Truthy(e) =>
      NoHoles(ctx, e);
      ParseLooseElement(ctx, e, rest);
    case In(lefts, rows) =>
      ParseIn(ctx, lefts, rows, rest);
  }

  function ActualNode(ctx: Ctx, joiner: Token, cs: seq<Clause>): Option<Expr>
    decreases cs, 2
  {
    if cs == [] then None
    else match Actuals(ctx, cs)
      case None => None
      case Some(ts) => Some(if joiner == AndT then JoinAnd(ts) else JoinOr(ts))
  }

  lemma {:induction false} ParseNodeClause(ctx: Ctx, joiner: Token, cs: seq<Clause>, rest: seq<Token>)
    requires joiner == AndT || joiner == OrT
    requires (forall x :: x in cs ==> Callable(ctx.dialect, x)) && WriteNode(ctx, joiner, cs).Some? && Stops(rest)
    ensures ParseNot(ctx.dialect, WriteNode(ctx, joiner, cs).value.text + rest) ==
      After(ActualNode(ctx, joiner, cs), rest)
    decreases cs, 1
  {
    var d := ctx.dialect;
    if cs == [] {
      ParseStop(d, rest);
      assert WriteNode(ctx, joiner, cs).value.text + rest == rest;
    } else {
      var text := WriteClauses(ctx, joiner, cs).value.text;
      var closed := [RP] + rest;
      if joiner == AndT {
        ParseAndClauses(ctx, cs, [], closed);
        NoneBefore(d, text + closed);
        if Actuals(ctx, cs).Some? {
          assert [] + Actuals(ctx, cs).value == Actuals(ctx, cs).value;
        }
        assert ParseAnd(d, text + closed) == After(ActualNode(ctx, joiner, cs), closed);
      } else {
        ParseOrClauses(ctx, cs, [], closed);
        NoneBefore(d, text + closed);
        if Actuals(ctx, cs).Some? {
          assert [] + Actuals(ctx, cs).value == Actuals(ctx, cs).value;
        }
      }
      assert ParseOr(d, text + closed) == After(ActualNode(ctx, joiner, cs), closed);
      ParseParens(d, text, ActualNode(ctx, joiner, cs), rest);
    }
  }

  lemma ParseStop(d: Dialect, rest: seq<Token>)
    requires Stops(rest)
    ensures ParseNot(d, rest) == None
  {
    assert ParsePrim(d, rest) == None;
    FromPrim(d, rest, None, []);
  }

  /** The operands of AND still to come, after those already parsed. */
  function AndRest(d: Dialect, acc: seq<Expr>, ts: seq<Token>): Parsed {
    match ParseNot(d, ts)
    case None => None
    case Some((e, rest)) => ParseAndTail(d, acc + [e], rest)
  }

  function OrRest(d: Dialect, acc: seq<Expr>, ts: seq<Token>): Parsed {
    match ParseAnd(d, ts)
    case None => None
    case Some((e, rest)) => ParseOrTail(d, acc + [e], rest)
  }

  lemma NoneBefore(d: Dialect, ts: seq<Token>)
    ensures ParseAnd(d, ts) == AndRest(d, [], ts) && ParseOr(d, ts) == OrRest(d, [], ts)
  {
    var a, o := ParseNot(d, ts), ParseAnd(d, ts);
    if a.Some? {
      assert [] + [a.value.0] == [a.value.0];
    }
    if o.Some? {
      assert [] + [o.value.0] == [o.value.0];
    }
  }

  lemma OneActual(ctx: Ctx, c: Clause)
    ensures Actuals(ctx, [c]) == match Actual(ctx, c) { case None => None case Some(t) => Some([t]) }
  {
    assert [c][0] == c && [c][1..] == [] && Actuals(ctx, []) == Some([]);
    var t := Actual(ctx, c);
    if t.Some? {
      assert [t.value] + [] == [t.value];
    }
  }

  lemma Regroup<T>(acc: seq<T>, x: T, xs: Option<seq<T>>)
    ensures xs.Some? ==> (acc + [x]) + xs.value == acc + ([x] + xs.value)
  {
  }

  /** One operand of a chain: the last one ends it, any other is followed by the rest. */
  lemma AndOperand(d: Dialect, acc: seq<Expr>, ts: seq<Token>, t: Option<Expr>, rest: seq<Token>)
    requires ParseNot(d, ts + rest) == After(t, rest) && rest != [] && (rest[0] == RP || rest[0] == AndT)
    ensures t.None? ==> AndRest(d, acc, ts + rest) == None
    ensures t.Some? && rest[0] == RP ==> AndRest(d, acc, ts + rest) == Some((JoinAnd(acc + [t.value]), rest))
    ensures t.Some? && rest[0] == AndT ==> AndRest(d, acc, ts + rest) == AndRest(d, acc + [t.value], rest[1..])
  {
  }

  lemma {:induction false} ParseAndClauses(ctx: Ctx, cs: seq<Clause>, acc: seq<Expr>, rest: seq<Token>)
    requires cs != [] && (forall x :: x in cs ==> Callable(ctx.dialect, x)) && WriteClauses(ctx, AndT, cs).Some?
    requires rest != [] && rest[0] == RP
    ensures AndRest(ctx.dialect, acc, WriteClauses(ctx, AndT, cs).value.text + rest)
         == match Actuals(ctx, cs) { case None => None case Some(ts) => Some((JoinAnd(acc + ts), rest)) }
    decreases cs, 0
  {
    var t, text := Actual(ctx, cs[0]), Write(ctx, cs[0]).value.text;
    if |cs| == 1 {
      assert cs == [cs[0]];
      OneActual(ctx, cs[0]);
      ParseClause(ctx, cs[0], rest);
      AndOperand(ctx.dialect, acc, text, t, rest);
    } else {
      var tail := WriteClauses(ctx, AndT, cs[1..]).value.text + rest;
      assert WriteClauses(ctx, AndT, cs).value.text + rest == text + ([AndT] + tail);
      ParseClause(ctx, cs[0], [AndT] + tail);
      AndOperand(ctx.dialect, acc, text, t, [AndT] + tail);
      assert ([AndT] + tail)[1..] == tail;
      if t.Some? {
        ParseAndClauses(ctx, cs[1..], acc + [t.value], rest);
        Regroup(acc, t.value, Actuals(ctx, cs[1..]));
      }
    }
  }

  /** One operand of a chain: the last one ends it, any other is followed by the rest. */
  lemma OrOperand(d: Dialect, acc: seq<Expr>, ts: seq<Token>, t: Option<Expr>, rest: seq<Token>)
    requires ParseNot(d, ts + rest) == After(t, rest) && rest != [] && (rest[0] == RP || rest[0] == OrT)
    ensures t.None? ==> OrRest(d, acc, ts + rest) == None
    ensures t.Some? && rest[0] == RP ==> OrRest(d, acc, ts + rest) == Some((JoinOr(acc + [t.value]), rest))
    ensures t.Some? && rest[0] == OrT ==> OrRest(d, acc, ts + rest) == OrRest(d, acc + [t.value], rest[1..])
  {
    if t.Some? {
      assert ParseAnd(d, ts + rest) == Some((t.value, rest));
    }
  }

  lemma {:induction false} ParseOrClauses(ctx: Ctx, cs: seq<Clause>, acc: seq<Expr>, rest: seq<Token>)
    requires cs != [] && (forall x :: x in cs ==> Callable(ctx.dialect, x)) && WriteClauses(ctx, OrT, cs).Some?
    requires rest != [] && rest[0] == RP
    ensures OrRest(ctx.dialect, acc, WriteClauses(ctx, OrT, cs).value.text + rest)
         == match Actuals(ctx, cs) { case None => None case Some(ts) => Some((JoinOr(acc + ts), rest)) }
    decreases cs, 0
  {
    var t, text := Actual(ctx, cs[0]), Write(ctx, cs[0]).value.text;
    if |cs| == 1 {
      assert cs == [cs[0]];
      OneActual(ctx, cs[0]);
      ParseClause(ctx, cs[0], rest);
      OrOperand(ctx.dialect, acc, text, t, rest);
    } else {
      var tail := WriteClauses(ctx, OrT, cs[1..]).value.text + rest;
      assert WriteClauses(ctx, OrT, cs).value.text + rest == text + ([OrT] + tail);
      ParseClause(ctx, cs[0], [OrT] + tail);
      OrOperand(ctx.dialect, acc, text, t, [OrT] + tail);
      assert ([OrT] + tail)[1..] == tail;
      if t.Some? {
        ParseOrClauses(ctx, cs[1..], acc + [t.value], rest);
        Regroup(acc, t.value, Actuals(ctx, cs[1..]));
      }
    }
  }

  // ----- IN

  lemma {:induction false} ParseRows(ctx: Ctx, rows: seq<seq<Element>>, rest: seq<Token>)
    requires rows != [] && WriteRows(ctx, rows).Some?
    requires forall row :: row in rows ==> |row| == 1 && AllWellCalled(ctx.dialect, row)
    ensures ParseList(ctx.dialect, WriteRows(ctx, rows).value.text + ([RP] + rest)) ==
      Some((TreeFirsts(ctx, rows), rest))
    decreases |rows|
  {
    var row := rows[0];
    assert row in rows && row == [row[0]] && WellCalled(ctx.dialect, row[0]);
    RowsText(ctx, rows, rest);
    if |rows| == 1 {
      ParseRow(ctx, row[0], [RP] + rest);
      LastRow(ctx.dialect, WriteElement(ctx, row[0]).value.text, TreeElement(ctx, row[0]), rest);
      assert TreeFirsts(ctx, rows[1..]) == [] && TreeFirsts(ctx, rows) == [TreeElement(ctx, row[0])];
    } else {
      var tail := WriteRows(ctx, rows[1..]).value.text + ([RP] + rest);
      var all := WriteRows(ctx, rows).value.text + ([RP] + rest);
      assert all == [LP] + WriteElement(ctx, row[0]).value.text + [RP] + ([Comma] + tail);
      ParseRow(ctx, row[0], [Comma] + tail);
      ParseRows(ctx, rows[1..], rest);
      OneMoreRow(ctx.dialect, WriteElement(ctx, row[0]).value.text, TreeElement(ctx, row[0]), tail,
                 TreeFirsts(ctx, rows[1..]), rest);
    }
  }

  lemma LastRow(d: Dialect, w: seq<Token>, t: Expr, rest: seq<Token>)
    requires ParseOr(d, [LP] + w + [RP] + ([RP] + rest)) == Some((t, [RP] + rest))
    ensures ParseList(d, [LP] + w + [RP] + ([RP] + rest)) == Some(([t], rest))
  {
    assert ([RP] + rest)[1..] == rest;
  }

  lemma OneMoreRow(d: Dialect, w: seq<Token>, t: Expr, tail: seq<Token>, ts: seq<Expr>, rest: seq<Token>)
    requires ParseOr(d, [LP] + w + [RP] + ([Comma] + tail)) == Some((t, [Comma] + tail)) &&
      ParseList(d, tail) == Some((ts, rest))
    ensures ParseList(d, [LP] + w + [RP] + ([Comma] + tail)) == Some(([t] + ts, rest))
  {
    assert ([Comma] + tail)[1..] == tail;
  }

  lemma RowsText(ctx: Ctx, rows: seq<seq<Element>>, rest: seq<Token>)
    requires rows != [] && WriteRows(ctx, rows).Some? && |rows[0]| == 1
    ensures WriteElement(ctx, rows[0][0]).Some?
    ensures |rows| > 1 ==> WriteRows(ctx, rows[1..]).Some?
    ensures WriteRows(ctx, rows).value.text + ([RP] + rest)
         == [LP] + WriteElement(ctx, rows[0][0]).value.text + [RP]
          + (if |rows| == 1 then [RP] + rest else [Comma] + (WriteRows(ctx, rows[1..]).value.text + ([RP] + rest)))
  {
    assert rows[0] == [rows[0][0]];
    assert WriteJoined(ctx, rows[0]) == WriteElement(ctx, rows[0][0]);
  }

  lemma ParseRow(ctx: Ctx, e: Element, rest: seq<Token>)
    requires WellCalled(ctx.dialect, e) && WriteElement(ctx, e).Some? && NoJoin(rest)
    ensures ParseOr(ctx.dialect, [LP] + WriteElement(ctx, e).value.text + [RP] + rest) ==
      Some((TreeElement(ctx, e), rest))
  {
    var d, w := ctx.dialect, WriteElement(ctx, e).value.text;
    ParseOrElement(ctx, e, [RP] + rest);
    ParseParens(d, w, Some(TreeElement(ctx, e)), rest);
    assert ParseAnd(d, [LP] + w + [RP] + rest) == Some((TreeElement(ctx, e), rest));
  }

  /** With other than one column on the left nothing closes the parenthesis after the first. */
  lemma ParseRunFails(ctx: Ctx, lefts: seq<Element>, rest: seq<Token>)
    requires AllWellCalled(ctx.dialect, lefts) && WriteRun(ctx, lefts).Some? && |lefts| != 1
    ensures ParseNot(ctx.dialect, [LP] + WriteRun(ctx, lefts).value.text + [RP] + rest) == None
  {
    var d, run := ctx.dialect, WriteRun(ctx, lefts).value.text;
    var all := [LP] + run + [RP] + rest;
    assert all[1..] == run + ([RP] + rest);
    if lefts == [] {
      assert all[1..] == [RP] + rest;
      ParseStop(d, all[1..]);
      assert ParseAnd(d, all[1..]) == None;
      assert ParseOr(d, all[1..]) == None;
    } else {
      var w, next := WriteElement(ctx, lefts[0]).value.text, WriteElement(ctx, lefts[1]).value.text;
      var tail := WriteRun(ctx, lefts[1..]).value.text + ([RP] + rest);
      assert run + ([RP] + rest) == w + tail;
      NoHoles(ctx, lefts[1]);
      assert lefts[1..][0] == lefts[1] && tail[0] == next[0];
      ParseOrElement(ctx, lefts[0], tail);
      assert ParseOr(d, all[1..]) == Some((TreeElement(ctx, lefts[0]), tail));
    }
    assert ParsePrim(d, all) == None;
    FromPrim(d, all, None, []);
  }

  lemma RunOfOne(ctx: Ctx, e: Element)
    requires WriteElement(ctx, e).Some?
    ensures WriteRun(ctx, [e]).Some? && WriteRun(ctx, [e]).value.text == WriteElement(ctx, e).value.text
  {
    assert WriteRun(ctx, [e][1..]) == Some(Plain([]));
  }

  lemma InText(l: seq<Token>, r: seq<Token>, rest: seq<Token>)
    ensures (([LP] + l) + ([RP, InT, LP] + r)) + [RP] + rest == [LP] + l + [RP] + ([InT, LP] + (r + ([RP] + rest)))
  {
  }

  lemma ParseIn(ctx: Ctx, lefts: seq<Element>, rows: seq<seq<Element>>, rest: seq<Token>)
    requires Callable(ctx.dialect, In(lefts, rows)) && Write(ctx, In(lefts, rows)).Some? && Stops(rest)
    ensures ParseNot(ctx.dialect, Write(ctx, In(lefts, rows)).value.text + rest) ==
      After(Actual(ctx, In(lefts, rows)), rest)
  {
    var d := ctx.dialect;
    if rows == [] {
      var all := [FalseT] + rest;
      assert all[1..] == rest;
      FromPrim(d, all, Some(FalseE), rest);
    } else {
      var r := WriteRows(ctx, rows).value.text;
      var after := [InT, LP] + (r + ([RP] + rest));
      InText(WriteRun(ctx, lefts).value.text, r, rest);
      if |lefts| == 1 {
        assert lefts == [lefts[0]];
        RunOfOne(ctx, lefts[0]);
        ParseMembership(ctx, lefts[0], rows, rest);
      } else {
        ParseRunFails(ctx, lefts, after);
      }
    }
  }

  lemma ParseMembership(ctx: Ctx, left: Element, rows: seq<seq<Element>>, rest: seq<Token>)
    requires WellCalled(ctx.dialect, left) && WriteElement(ctx, left).Some?
    requires rows != [] && WriteRows(ctx, rows).Some? && NoOp(rest)
    requires forall row :: row in rows ==> |row| == 1 && AllWellCalled(ctx.dialect, row)
    ensures ParseNot(ctx.dialect, [LP] + WriteElement(ctx, left).value.text + [RP] +
                     ([InT, LP] + (WriteRows(ctx, rows).value.text + ([RP] + rest))))
         == Some((InE(TreeElement(ctx, left), TreeFirsts(ctx, rows)), rest))
  {
    var items := WriteRows(ctx, rows).value.text + ([RP] + rest);
    var after := [InT, LP] + items;
    ParseOrElement(ctx, left, [RP] + after);
    ParseRows(ctx, rows, rest);
    MembershipTail(ctx.dialect, TreeElement(ctx, left), items, TreeFirsts(ctx, rows), rest);
    ParenOperand(ctx.dialect, WriteElement(ctx, left).value.text, TreeElement(ctx, left), after);
  }

  lemma MembershipTail(d: Dialect, t: Expr, items: seq<Token>, es: seq<Expr>, rest: seq<Token>)
    requires ParseList(d, items) == Some((es, rest)) && NoOp(rest)
    ensures ParseLooseTail(d, t, [InT, LP] + items) == Some((InE(t, es), rest))
  {
    assert ([InT, LP] + items)[2..] == items;
  }

  lemma ParenOperand(d: Dialect, l: seq<Token>, t: Expr, after: seq<Token>)
    requires ParseOr(d, l + ([RP] + after)) == Some((t, [RP] + after)) && after != [] && after[0] == InT
    ensures ParseNot(d, [LP] + l + [RP] + after) == ParseLooseTail(d, t, after)
  {
    var all := [LP] + l + [RP] + after;
    assert all[1..] == l + ([RP] + after) && ([RP] + after)[1..] == after;
    assert ParsePrim(d, all) == Some((t, after));
    assert ParseTight(d, all) == Some((t, after));
  }
}
