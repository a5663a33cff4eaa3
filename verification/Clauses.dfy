/** Condition clauses and the elements in them, what they mean, and the visitor that compiles them. */
module Clauses {
  import opened Options
  import opened Sql

  datatype Element =
    | Value(v: Val)
    | Field(path: string)
    | Method(name: string, params: seq<Element>)

  datatype Clause =
    | Compare(op: Op, left: Element, right: Element)
    | Neq(left: Element, right: Element)
    | Not(clause: Clause)
    | And(clauses: seq<Clause>)
    | Or(clauses: seq<Clause>)
    | Truthy(elem: Element)
    | In(lefts: seq<Element>, rows: seq<seq<Element>>)

  /** A driver's dialect, and the columns that field paths resolve to; other paths fail. */
  datatype Ctx = Ctx(dialect: Dialect, columns: map<string, Column>)

  const CONTAINS := "contains"
  const MATCH := "match"

  /** `PrepareMethod`: INSTR(%s, %s) > 0 for both drivers, MATCH(%s) AGAINST(? IN BOOLEAN MODE) for MySQL. */
  function Template(d: Dialect, name: string): Option<seq<Token>> {
    if name == CONTAINS then
      Some([Name("INSTR"), LP, Hole, Comma, Hole, RP, Cmp(Gt), Num(0)])
    else if d.MySQL? && name == MATCH then
      Some([Name("MATCH"), LP, Hole, RP, Name("AGAINST"), LP, Param, InT, Name("BOOLEAN"), Name("MODE"), RP])
    else
      None
  }

  /** Replaces the first hole, or appends when there is none. */
  function Fill(ts: seq<Token>, sub: seq<Token>): seq<Token> {
    if ts == [] then sub
    else if ts[0] == Hole then sub + ts[1..]
    else [ts[0]] + Fill(ts[1..], sub)
  }

  // ----- What the visitor writes. `text` keeps each value at the place of its mark, `values`
  // ----- is in the order of visiting; the real text is `Erase(text)`.

  datatype Written = Written(text: seq<Token>, values: seq<Val>)

  function Both(a: Written, b: Written): Written {
    Written(a.text + b.text, a.values + b.values)
  }

  function Plain(ts: seq<Token>): Written {
    Written(ts, [])
  }

  function WriteElement(ctx: Ctx, e: Element): Option<Written>
    decreases e, 1
  {
    match e
    case Value(v) => Some(Written([Lit(v)], [v]))
    case Field(path) => if path in ctx.columns then Some(Plain([Col(ctx.columns[path])])) else None
    case Method(name, params) =>
      match Template(ctx.dialect, name)
      case Some(template) => WriteFilled(ctx, Plain(template), params)
      case None =>
        match WriteJoined(ctx, params)
        case None => None
        case Some(w) => Some(Both(Both(Plain([Name(name), LP]), w), Plain([RP])))
  }

  function WriteFilled(ctx: Ctx, w: Written, params: seq<Element>): Option<Written>
    decreases params, 0
  {
    if params == [] then Some(w)
    else match WriteElement(ctx, params[0])
      case None => None
      case Some(sub) => WriteFilled(ctx, Written(Fill(w.text, sub.text), w.values + sub.values), params[1..])
  }

  /** Elements separated by commas. */
  function WriteJoined(ctx: Ctx, es: seq<Element>): Option<Written>
    decreases es, 0
  {
    if es == [] then Some(Plain([]))
    else match WriteElement(ctx, es[0])
      case None => None
      case Some(w) =>
        if |es| == 1 then Some(w)
        else match WriteJoined(ctx, es[1..])
          case None => None
          case Some(rest) => Some(Both(Both(w, Plain([Comma])), rest))
  }

  /** Elements with nothing between them, as on the left of IN. */
  function WriteRun(ctx: Ctx, es: seq<Element>): Option<Written>
    decreases es, 0
  {
    if es == [] then Some(Plain([]))
    else match WriteElement(ctx, es[0])
      case None => None
      case Some(w) =>
        match WriteRun(ctx, es[1..])
        case None => None
        case Some(rest) => Some(Both(w, rest))
  }

  function WriteRows(ctx: Ctx, rows: seq<seq<Element>>): Option<Written>
    decreases |rows|
  {
    if rows == [] then Some(Plain([]))
    else match WriteJoined(ctx, rows[0])
      case None => None
      case Some(w) =>
        var row := Both(Both(Plain([LP]), w), Plain([RP]));
        if |rows| == 1 then Some(row)
        else match WriteRows(ctx, rows[1..])
          case None => None
          case Some(rest) => Some(Both(Both(row, Plain([Comma])), rest))
  }

  function WriteCompare(ctx: Ctx, op: Op, left: Element, right: Element): Option<Written> {
    match WriteElement(ctx, left)
    case None => None
    case Some(l) =>
      match WriteElement(ctx, right)
      case None => None
      case Some(r) => Some(Both(Both(l, Plain([Cmp(op)])), r))
  }

  function Negated(w: Written): Written {
    Both(Both(Plain([NotT, LP]), w), Plain([RP]))
  }

  function Write(ctx: Ctx, c: Clause): Option<Written>
    decreases c, 1
  {
    match c
    case Compare(op, l, r) => WriteCompare(ctx, op, l, r)
    case Neq(l, r) =>
      (match WriteCompare(ctx, NullSafeEq, l, r)
       case None => None
       case Some(w) => Some(Negated(w)))
    case Not(x) =>
      (match Write(ctx, x)
       case None => None
       case Some(w) => Some(Negated(w)))
    case And(cs) => WriteNode(ctx, AndT, cs)
    case Or(cs) => WriteNode(ctx, OrT, cs)
    case Truthy(e) => WriteElement(ctx, e)
    case In(lefts, rows) =>
      if rows == [] then Some(Plain([FalseT]))
      else if exists i :: 0 <= i < |rows| && |rows[i]| != |lefts| then None
      else match WriteRun(ctx, lefts)
        case None => None
        case Some(l) =>
          match WriteRows(ctx, rows)
          case None => None
          case Some(r) => Some(Both(Both(Both(Plain([LP]), l), Both(Plain([RP, InT, LP]), r)), Plain([RP])))
  }

  function WriteNode(ctx: Ctx, joiner: Token, cs: seq<Clause>): Option<Written>
    decreases cs, 1
  {
    if cs == [] then Some(Plain([]))
    else match WriteClauses(ctx, joiner, cs)
      case None => None
      case Some(w) => Some(Both(Both(Plain([LP]), w), Plain([RP])))
  }

  function WriteClauses(ctx: Ctx, joiner: Token, cs: seq<Clause>): Option<Written>
    decreases cs, 0
  {
    if cs == [] then Some(Plain([]))
    else match Write(ctx, cs[0])
      case None => None
      case Some(w) =>
        if |cs| == 1 then Some(w)
        else match WriteClauses(ctx, joiner, cs[1..])
          case None => None
          case Some(rest) => Some(Both(Both(w, Plain([joiner])), rest))
  }

  // ----- Which clauses compile

  /** Every field the element reads has a column. */
  predicate HasColumns(ctx: Ctx, e: Element)
    decreases e
  {
    match e
    case Value(_) => true
    case Field(path) => path in ctx.columns
    case Method(_, params) => forall i :: 0 <= i < |params| ==> HasColumns(ctx, params[i])
  }

  predicate AllHaveColumns(ctx: Ctx, es: seq<Element>) {
    forall i :: 0 <= i < |es| ==> HasColumns(ctx, es[i])
  }

  /** Every field has a column, and the rows of an In are as long as its left side. An In without
      rows needs neither. */
  predicate Compilable(ctx: Ctx, c: Clause)
    decreases c
  {
    match c
    case Compare(_, l, r) => HasColumns(ctx, l) && HasColumns(ctx, r)
    case Neq(l, r) => HasColumns(ctx, l) && HasColumns(ctx, r)
    case Not(x) => Compilable(ctx, x)
    case And(cs) => forall i :: 0 <= i < |cs| ==> Compilable(ctx, cs[i])
    case Or(cs) => forall i :: 0 <= i < |cs| ==> Compilable(ctx, cs[i])
    case Truthy(e) => HasColumns(ctx, e)
    case In(lefts, rows) => rows == [] || (AllHaveColumns(ctx, lefts) && AllRowsFit(ctx, |lefts|, rows))
  }

  predicate AllRowsFit(ctx: Ctx, width: nat, rows: seq<seq<Element>>) {
    forall i :: 0 <= i < |rows| ==> |rows[i]| == width && AllHaveColumns(ctx, rows[i])
  }

  lemma {:induction false} ElementCompiles(ctx: Ctx, e: Element)
    ensures WriteElement(ctx, e).Some? <==> HasColumns(ctx, e)
    decreases e, 1
  {
    match e
    case Value(_) =>
    case Field(_) =>
    case Method(name, params) =>
      if Template(ctx.dialect, name).Some? {
        FilledCompiles(ctx, Plain(Template(ctx.dialect, name).value), params);
      } else {
        ElementsCompile(ctx, params);
      }
  }

  lemma {:induction false} FilledCompiles(ctx: Ctx, w: Written, params: seq<Element>)
    ensures WriteFilled(ctx, w, params).Some? <==> AllHaveColumns(ctx, params)
    decreases params, 0
  {
    if params != [] {
      ElementCompiles(ctx, params[0]);
      if WriteElement(ctx, params[0]).Some? {
        var sub := WriteElement(ctx, params[0]).value;
        FilledCompiles(ctx, Written(Fill(w.text, sub.text), w.values + sub.values), params[1..]);
        FirstAndRest(ctx, params);
      }
    }
  }

  lemma FirstAndRest(ctx: Ctx, es: seq<Element>)
    requires es != []
    ensures AllHaveColumns(ctx, es) <==> HasColumns(ctx, es[0]) && AllHaveColumns(ctx, es[1..])
  {
    assert es == [es[0]] + es[1..];
  }

  lemma {:induction false} ElementsCompile(ctx: Ctx, es: seq<Element>)
    ensures WriteJoined(ctx, es).Some? <==> AllHaveColumns(ctx, es)
    ensures WriteRun(ctx, es).Some? <==> AllHaveColumns(ctx, es)
    decreases es, 0
  {
    if es != [] {
      ElementCompiles(ctx, es[0]);
      ElementsCompile(ctx, es[1..]);
      FirstAndRest(ctx, es);
    }
  }

  lemma {:induction false} RowsCompile(ctx: Ctx, width: nat, rows: seq<seq<Element>>)
    requires forall i :: 0 <= i < |rows| ==> |rows[i]| == width
    ensures WriteRows(ctx, rows).Some? <==> AllRowsFit(ctx, width, rows)
  {
    if rows != [] {
      ElementsCompile(ctx, rows[0]);
      RowsCompile(ctx, width, rows[1..]);
      assert rows == [rows[0]] + rows[1..];
    }
  }

  /** A clause compiles if and only if every field has a column and the rows of every In that has
      any fit it. */
  lemma {:induction false} CompilesExactlyWhen(ctx: Ctx, c: Clause)
    ensures Write(ctx, c).Some? <==> Compilable(ctx, c)
    decreases c, 1
  {
    match c
    case Compare(_, l, r) =>
      ElementCompiles(ctx, l);
      ElementCompiles(ctx, r);
    case Neq(l, r) =>
      ElementCompiles(ctx, l);
      ElementCompiles(ctx, r);
    case Not(x) =>
      CompilesExactlyWhen(ctx, x);
    case And(cs) =>
      ClausesCompile(ctx, AndT, cs);
    case Or(cs) =>
      ClausesCompile(ctx, OrT, cs);
    case Truthy(e) =>
      ElementCompiles(ctx, e);
    case In(lefts, rows) =>
      ElementsCompile(ctx, lefts);
      if forall i :: 0 <= i < |rows| ==> |rows[i]| == |lefts| {
        RowsCompile(ctx, |lefts|, rows);
      }
  }

  lemma {:induction false} ClausesCompile(ctx: Ctx, joiner: Token, cs: seq<Clause>)
    ensures WriteClauses(ctx, joiner, cs).Some? <==> forall i :: 0 <= i < |cs| ==> Compilable(ctx, cs[i])
    decreases cs, 0
  {
    if cs != [] {
      CompilesExactlyWhen(ctx, cs[0]);
      ClausesCompile(ctx, joiner, cs[1..]);
      assert cs == [cs[0]] + cs[1..];
    }
  }

  // ----- What clauses mean on a row

  function ElementValue(ctx: Ctx, e: Element, env: Env): Val
    decreases e, 1
  {
    match e
    case Value(v) => v
    case Field(path) => if path in ctx.columns then env.row(ctx.columns[path]) else NULL
    case Method(name, params) =>
      if name == CONTAINS then CmpV(Gt, env.fn("INSTR", ElementValues(ctx, params, env)), N(0))
      else env.fn(name, ElementValues(ctx, params, env))
  }

  function ElementValues(ctx: Ctx, es: seq<Element>, env: Env): seq<Val>
    decreases es, 0
  {
    if es == [] then [] else [ElementValue(ctx, es[0], env)] + ElementValues(ctx, es[1..], env)
  }

  /** The meaning of a clause, in three-valued logic: a conjunction is the conjunction of its
      clauses, `Neq` negates null-safe equality, `In` over one column is membership. */
  function Meaning(ctx: Ctx, c: Clause, env: Env): Val
    decreases c, 1
  {
    match c
    case Compare(op, l, r) => CmpV(op, ElementValue(ctx, l, env), ElementValue(ctx, r, env))
    case Neq(l, r) => Truth(ElementValue(ctx, l, env) != ElementValue(ctx, r, env))
    case Not(x) => NotV(Meaning(ctx, x, env))
    case And(cs) => Conjunction(ctx, cs, env)
    case Or(cs) => Disjunction(ctx, cs, env)
    case Truthy(e) => ElementValue(ctx, e, env)
    case In(lefts, rows) =>
      if rows == [] then N(0)
      else if |lefts| == 1 then InV(ElementValue(ctx, lefts[0], env), Firsts(ctx, rows, env))
      else NULL
  }

  function Conjunction(ctx: Ctx, cs: seq<Clause>, env: Env): Val
    decreases cs, 0
  {
    if |cs| == 0 then N(1)
    else if |cs| == 1 then Meaning(ctx, cs[0], env)
    else AndV(Meaning(ctx, cs[0], env), Conjunction(ctx, cs[1..], env))
  }

  function Disjunction(ctx: Ctx, cs: seq<Clause>, env: Env): Val
    decreases cs, 0
  {
    if |cs| == 0 then N(0)
    else if |cs| == 1 then Meaning(ctx, cs[0], env)
    else OrV(Meaning(ctx, cs[0], env), Disjunction(ctx, cs[1..], env))
  }

  function Firsts(ctx: Ctx, rows: seq<seq<Element>>, env: Env): seq<Val>
    decreases |rows|
  {
    if rows == [] then []
    else [if rows[0] == [] then NULL else ElementValue(ctx, rows[0][0], env)] + Firsts(ctx, rows[1..], env)
  }
}
