/** The fragment of SQL that conditions are compiled to: tokens, expressions, the precedence
    parser of the two supported dialects, and evaluation in three-valued logic. */
module Sql {
  import opened Options

  /** A scalar; truth values are 1, 0 and NULL. */
  datatype Val = NULL | N(n: int)

  datatype Column = Column(tbl: string, name: string)

  /** Plain equality is what joins are written with. */
  datatype Op = NullSafeEq | Eq | Gt | Gte | Lt | Lte

  /** `Lit` is a parameter mark together with the value bound to it; `Param` is a bare mark
      and `Hole` is an unfilled place of a method template. */
  datatype Token =
    | LP | RP | Comma | AndT | OrT | NotT | InT | FalseT | Hole | Param
    | Cmp(op: Op) | Lit(v: Val) | Col(col: Column) | Name(name: string) | Num(n: int)

  datatype Expr =
    | LitE(v: Val) | ColE(col: Column) | NumE(n: int) | FalseE
    | Call(name: string, args: seq<Expr>)
    | CmpE(op: Op, l: Expr, r: Expr)
    | NotE(e: Expr)
    | AndE(es: seq<Expr>)
    | OrE(es: seq<Expr>)
    | InE(e: Expr, items: seq<Expr>)
    | RowE(es: seq<Expr>)

  /** MySQL puts every comparison on one level; in SQLite IS, = and IN bind looser than < <= > >=. */
  datatype Dialect = MySQL | SQLite

  predicate Loose(d: Dialect, op: Op) {
    d.MySQL? || op == NullSafeEq || op == Eq
  }

  // ----- Parameters

  /** The text sent to the database: every bound literal is a bare parameter mark. */
  function Erase(ts: seq<Token>): seq<Token> {
    seq(|ts|, i requires 0 <= i < |ts| => if ts[i].Lit? then Param else ts[i])
  }

  /** The values of the literals, from left to right. */
  function Lits(ts: seq<Token>): seq<Val> {
    if ts == [] then [] else (if ts[0].Lit? then [ts[0].v] else []) + Lits(ts[1..])
  }

  /** The database binds the k-th parameter mark to the k-th value. */
  function Bind(ts: seq<Token>, values: seq<Val>): seq<Token> {
    if ts == [] then []
    else if ts[0] == Param && values != [] then [Lit(values[0])] + Bind(ts[1..], values[1..])
    else [ts[0]] + Bind(ts[1..], values)
  }

  function Marks(ts: seq<Token>): nat {
    if ts == [] then 0 else (if ts[0] == Param then 1 else 0) + Marks(ts[1..])
  }

  // ----- Parsing, loosest operators first

  type Parsed = Option<(Expr, seq<Token>)>

  function JoinOr(es: seq<Expr>): Expr
    requires es != []
  {
    if |es| == 1 then es[0] else OrE(es)
  }

  function JoinAnd(es: seq<Expr>): Expr
    requires es != []
  {
    if |es| == 1 then es[0] else AndE(es)
  }

  function ParseOr(d: Dialect, ts: seq<Token>): (r: Parsed)
    ensures r.Some? ==> |r.value.1| < |ts|
    decreases |ts|, 6
  {
    match ParseAnd(d, ts)
    case None => None
    case Some((e, rest)) => ParseOrTail(d, [e], rest)
  }

  function ParseOrTail(d: Dialect, acc: seq<Expr>, ts: seq<Token>): (r: Parsed)
    requires acc != []
    ensures r.Some? ==> |r.value.1| <= |ts|
    decreases |ts|, 0
  {
    if ts != [] && ts[0] == OrT then
      match ParseAnd(d, ts[1..])
      case None => None
      case Some((e, rest)) => ParseOrTail(d, acc + [e], rest)
    else
      Some((JoinOr(acc), ts))
  }

  function ParseAnd(d: Dialect, ts: seq<Token>): (r: Parsed)
    ensures r.Some? ==> |r.value.1| < |ts|
    decreases |ts|, 5
  {
    match ParseNot(d, ts)
    case None => None
    case Some((e, rest)) => ParseAndTail(d, [e], rest)
  }

  function ParseAndTail(d: Dialect, acc: seq<Expr>, ts: seq<Token>): (r: Parsed)
    requires acc != []
    ensures r.Some? ==> |r.value.1| <= |ts|
    decreases |ts|, 0
  {
    if ts != [] && ts[0] == AndT then
      match ParseNot(d, ts[1..])
      case None => None
      case Some((e, rest)) => ParseAndTail(d, acc + [e], rest)
    else
      Some((JoinAnd(acc), ts))
  }

  function ParseNot(d: Dialect, ts: seq<Token>): (r: Parsed)
    ensures r.Some? ==> |r.value.1| < |ts|
    decreases |ts|, 4
  {
    if ts != [] && ts[0] == NotT then
      match ParseNot(d, ts[1..])
      case None => None
      case Some((e, rest)) => Some((NotE(e), rest))
    else
      ParseLoose(d, ts)
  }

  function ParseLoose(d: Dialect, ts: seq<Token>): (r: Parsed)
    ensures r.Some? ==> |r.value.1| < |ts|
    decreases |ts|, 3
  {
    match ParseTight(d, ts)
    case None => None
    case Some((e, rest)) => ParseLooseTail(d, e, rest)
  }

  /** Left-associative comparisons and IN lists. */
  function ParseLooseTail(d: Dialect, acc: Expr, ts: seq<Token>): (r: Parsed)
    ensures r.Some? ==> |r.value.1| <= |ts|
    decreases |ts|, 0
  {
    if ts != [] && ts[0].Cmp? && Loose(d, ts[0].op) then
      match ParseTight(d, ts[1..])
      case None => None
      case Some((e, rest)) => ParseLooseTail(d, CmpE(ts[0].op, acc, e), rest)
    else if ts != [] && ts[0] == InT then
      if |ts| >= 2 && ts[1] == LP then
        match ParseList(d, ts[2..])
        case None => None
        case Some((items, rest)) => ParseLooseTail(d, InE(acc, items), rest)
      else None
    else
      Some((acc, ts))
  }

  function ParseTight(d: Dialect, ts: seq<Token>): (r: Parsed)
    ensures r.Some? ==> |r.value.1| < |ts|
    decreases |ts|, 2
  {
    match ParsePrim(d, ts)
    case None => None
    case Some((e, rest)) => ParseTightTail(d, e, rest)
  }

  function ParseTightTail(d: Dialect, acc: Expr, ts: seq<Token>): (r: Parsed)
    ensures r.Some? ==> |r.value.1| <= |ts|
    decreases |ts|, 0
  {
    if ts != [] && ts[0].Cmp? && !Loose(d, ts[0].op) then
      match ParsePrim(d, ts[1..])
      case None => None
      case Some((e, rest)) => ParseTightTail(d, CmpE(ts[0].op, acc, e), rest)
    else
      Some((acc, ts))
  }

  function ParsePrim(d: Dialect, ts: seq<Token>): (r: Parsed)
    ensures r.Some? ==> |r.value.1| < |ts|
    decreases |ts|, 1
  {
    if ts == [] then None
    else match ts[0]
      case Lit(v) => Some((LitE(v), ts[1..]))
      case Col(c) => Some((ColE(c), ts[1..]))
      case Num(n) => Some((NumE(n), ts[1..]))
      case FalseT => Some((FalseE, ts[1..]))
      case LP =>
        (match ParseOr(d, ts[1..])
         case None => None
         case Some((e, rest)) => if rest != [] && rest[0] == RP then Some((e, rest[1..])) else None)
      case Name(f) =>
        if |ts| < 2 || ts[1] != LP then None
        else if |ts| >= 3 && ts[2] == RP then Some((Call(f, []), ts[3..]))
        else
          (match ParseList(d, ts[2..])
           case None => None
           case Some((args, rest)) => Some((Call(f, args), rest)))
      case _ => None
  }

  /** Expressions separated by commas, up to and including the closing parenthesis. */
  function ParseList(d: Dialect, ts: seq<Token>): (r: Option<(seq<Expr>, seq<Token>)>)
    ensures r.Some? ==> |r.value.1| < |ts|
    decreases |ts|, 7
  {
    match ParseOr(d, ts)
    case None => None
    case Some((e, rest)) =>
      if rest == [] then None
      else if rest[0] == RP then Some(([e], rest[1..]))
      else if rest[0] == Comma then
        (match ParseList(d, rest[1..])
         case None => None
         case Some((es, after)) => Some(([e] + es, after)))
      else None
  }

  /** A condition parses when one expression takes up all of its tokens. */
  function ParseCondition(d: Dialect, ts: seq<Token>): Option<Expr> {
    match ParseOr(d, ts)
    case Some((e, rest)) => if rest == [] then Some(e) else None
    case None => None
  }

  // ----- Evaluation

  /** A row of column values, and the meaning of the database's functions. */
  datatype Env = Env(row: Column -> Val, fn: (string, seq<Val>) -> Val)

  function Truth(b: bool): Val {
    if b then N(1) else N(0)
  }

  function NotV(a: Val): Val {
    if a == NULL then NULL else Truth(a == N(0))
  }

  function AndV(a: Val, b: Val): Val {
    if a == N(0) || b == N(0) then N(0) else if a == NULL || b == NULL then NULL else N(1)
  }

  function OrV(a: Val, b: Val): Val {
    NotV(AndV(NotV(a), NotV(b)))
  }

  function CmpV(op: Op, a: Val, b: Val): Val {
    if op == NullSafeEq then Truth(a == b)
    else if a == NULL || b == NULL then NULL
    else if op == Eq then Truth(a == b)
    else if op == Gt then Truth(a.n > b.n)
    else if op == Gte then Truth(a.n >= b.n)
    else if op == Lt then Truth(a.n < b.n)
    else Truth(a.n <= b.n)
  }

  /** `x IN (...)` compares with plain equality, so NULL matches nothing and makes a miss unknown. */
  function InV(a: Val, items: seq<Val>): Val {
    if items == [] then N(0)
    else OrV(if a == NULL || items[0] == NULL then NULL else Truth(a == items[0]), InV(a, items[1..]))
  }

  function AllV(vs: seq<Val>): Val {
    if vs == [] then N(1) else AndV(vs[0], AllV(vs[1..]))
  }

  function AnyV(vs: seq<Val>): Val {
    if vs == [] then N(0) else OrV(vs[0], AnyV(vs[1..]))
  }

  function Eval(e: Expr, env: Env): Val {
    match e
    case LitE(v) => v
    case ColE(c) => env.row(c)
    case NumE(n) => N(n)
    case FalseE => N(0)
    case Call(f, args) => env.fn(f, Evals(args, env))
    case CmpE(op, l, r) => CmpV(op, Eval(l, env), Eval(r, env))
    case NotE(x) => NotV(Eval(x, env))
    case AndE(es) => AllV(Evals(es, env))
    case OrE(es) => AnyV(Evals(es, env))
    case InE(x, items) => InV(Eval(x, env), Evals(items, env))
    case RowE(_) => NULL
  }

  function Evals(es: seq<Expr>, env: Env): seq<Val> {
    if es == [] then [] else [Eval(es[0], env)] + Evals(es[1..], env)
  }
}
