/** The whole query: its condition, sorts and joins put together, and which value each of its
    parameters gets. */
module Queries {
  import opened Options
  import opened Sql
  import opened Clauses
  import opened WhereMeaning
  import opened WhereTheorems

  datatype Direction = Asc | Desc | Invalid

  datatype Sort = Sort(elem: Element, direction: Direction)

  /** Sorts are by fields and values; methods are not supported in them. */
  function WriteSort(ctx: Ctx, s: Sort): Option<Written> {
    if s.elem.Method? || s.direction.Invalid? then None
    else match WriteElement(ctx, s.elem)
      case None => None
      case Some(w) => Some(Both(w, Plain([Name(if s.direction.Asc? then "ASC" else "DESC")])))
  }

  function WriteSorts(ctx: Ctx, sorts: seq<Sort>): Option<Written> {
    if sorts == [] then Some(Plain([]))
    else match WriteSort(ctx, sorts[0])
      case None => None
      case Some(w) =>
        if |sorts| == 1 then Some(w)
        else match WriteSorts(ctx, sorts[1..])
          case None => None
          case Some(rest) => Some(Both(Both(w, Plain([Comma])), rest))
  }

  /** The visitor for sort elements, and the one for sorts around it. */
  class ElemVisitor {
    const ctx: Ctx
    var result: seq<Token>
    var values: seq<Val>

    constructor (ctx: Ctx)
      ensures this.ctx == ctx
    {
      this.ctx, result, values := ctx, [], [];
    }

    method Visit(e: Element) returns (ok: bool)
      modifies this
      ensures ok <==> e.Value? || (e.Field? && e.path in ctx.columns)
      ensures ok <==> !e.Method? && WriteElement(ctx, e).Some?
      ensures ok ==> result == Erase(WriteElement(ctx, e).value.text) && values == WriteElement(ctx, e).value.values
    {
      result, values, ok := [], [], true;
      match e {
        case Value(v) => result, values := result + [Param], values + [v];
        case Field(path) =>
          if path in ctx.columns {
            result := result + [Col(ctx.columns[path])];
          } else {
            ok := false;
          }
        case Method(_, _) => ok := false;
      }
    }
  }

  method VisitSort(ctx: Ctx, s: Sort) returns (ok: bool, text: seq<Token>, values: seq<Val>)
    ensures ok <==> (s.elem.Value? || (s.elem.Field? && s.elem.path in ctx.columns)) && s.direction != Invalid
    ensures ok <==> WriteSort(ctx, s).Some?
    ensures ok ==> text == Erase(WriteSort(ctx, s).value.text) && values == WriteSort(ctx, s).value.values
  {
    var visitor := new ElemVisitor(ctx);
    text, values := [], [];
    ok := visitor.Visit(s.elem);
    if ok {
      text, values := visitor.result, visitor.values;
      match s.direction {
        case Asc => text := text + [Name("ASC")];
        case Desc => text := text + [Name("DESC")];
        case Invalid => ok := false;
      }
    }
  }

  /** Sorts compile if and only if each is by a value or by a field that has a column, in a direction. */
  lemma {:induction false} SortsCompileExactlyWhen(ctx: Ctx, sorts: seq<Sort>)
    ensures WriteSorts(ctx, sorts).Some? <==> forall i :: 0 <= i < |sorts| ==>
      (sorts[i].elem.Value? || (sorts[i].elem.Field? && sorts[i].elem.path in ctx.columns)) &&
        sorts[i].direction != Invalid
  {
    if sorts != [] {
      SortsCompileExactlyWhen(ctx, sorts[1..]);
      assert sorts == [sorts[0]] + sorts[1..];
    }
  }

  // ----- The plan

  /** An outer join on pairs of columns, and on a condition if the relation has one. */
  datatype OuterJoin = OuterJoin(table: string, alias: string, on: seq<(Column, Column)>, condition: Option<Written>)

  datatype Plan = Plan(
    columns: seq<Column>, keys: seq<(Column, string)>, table: string, alias: string, innerJoins: seq<OuterJoin>,
    where: Option<Written>, orders: Written, limit: nat, offset: nat, outerAlias: string, outerJoins: seq<OuterJoin>)

  function Columns(columns: seq<Column>): seq<Token> {
    if columns == [] then []
    else [Col(columns[0])] + (if |columns| == 1 then [] else [Comma]) + Columns(columns[1..])
  }

  function Keys(keys: seq<(Column, string)>): seq<Token> {
    if keys == [] then []
    else [Col(keys[0].0), Name("AS"), Name(keys[0].1)] + (if |keys| == 1 then [] else [Comma]) + Keys(keys[1..])
  }

  function Pairs(on: seq<(Column, Column)>): seq<Token> {
    if on == [] then []
    else [Col(on[0].0), Cmp(Eq), Col(on[0].1)] + (if |on| == 1 then [] else [AndT]) + Pairs(on[1..])
  }

  function JoinHead(j: OuterJoin): seq<Token> {
    [Name("LEFT"), Name("OUTER"), Name("JOIN"), Name(j.table), Name("AS"), Name(j.alias), Name("ON"), LP] + Pairs(j.on)
  }

  /** What stands in a join's parentheses. */
  function OnText(j: OuterJoin): seq<Token> {
    Pairs(j.on)
    + if Filters(j.condition) then (if j.on == [] then [] else [AndT]) + j.condition.value.text else []
  }

  /** A condition that compiles to nothing is left out. */
  predicate Filters(condition: Option<Written>) {
    condition.Some? && condition.value.text != []
  }

  function JoinText(j: OuterJoin): seq<Token> {
    if Filters(j.condition) then JoinHead(j) + (if j.on == [] then [] else [AndT]) + j.condition.value.text + [RP]
    else JoinHead(j) + [RP]
  }

  function JoinValues(j: OuterJoin): seq<Val> {
    if Filters(j.condition) then j.condition.value.values else []
  }

  function JoinsText(js: seq<OuterJoin>): seq<Token> {
    if js == [] then [] else JoinText(js[0]) + JoinsText(js[1..])
  }

  function JoinsValues(js: seq<OuterJoin>): seq<Val> {
    if js == [] then [] else JoinValues(js[0]) + JoinsValues(js[1..])
  }

  function WhereText(plan: Plan): seq<Token> {
    if Filters(plan.where) then [Name("WHERE")] + plan.where.value.text else []
  }

  function WhereValues(plan: Plan): seq<Val> {
    if Filters(plan.where) then plan.where.value.values else []
  }

  function OrderText(plan: Plan): seq<Token> {
    if plan.orders.text == [] then [] else [Name("ORDER"), Name("BY")] + plan.orders.text
  }

  function Select(plan: Plan): seq<Token> {
    [Name("SELECT")] + Columns(plan.columns) + [Name("FROM"), LP, Name("SELECT")] + Keys(plan.keys)
    + [Name("FROM"), Name(plan.table), Name("AS"), Name(plan.alias)]
  }

  function Opening(plan: Plan): seq<Token> {
    Select(plan) + JoinsText(plan.innerJoins)
  }

  function Closing(plan: Plan): seq<Token> {
    [Name("LIMIT"), Num(plan.limit), Name("OFFSET"), Num(plan.offset), RP, Name("AS"), Name(plan.outerAlias)]
  }

  /** The text, and the values: those of the condition, then of the sorts, then of the joins. */
  function Query(plan: Plan): Written {
    Written(
      Opening(plan) + WhereText(plan) + OrderText(plan) + Closing(plan) + JoinsText(plan.outerJoins),
      WhereValues(plan) + plan.orders.values + JoinsValues(plan.outerJoins))
  }

  /** Inner joins are on columns alone. */
  predicate InnerAreBare(plan: Plan) {
    forall i :: 0 <= i < |plan.innerJoins| ==> plan.innerJoins[i].condition.None?
  }

  // ----- Which value each parameter gets

  predicate Bare(ts: seq<Token>) {
    forall t :: t in ts ==> t != Param && !t.Lit?
  }

  lemma {:induction false} BareParts(columns: seq<Column>, keys: seq<(Column, string)>, on: seq<(Column, Column)>)
    ensures Bare(Columns(columns)) && Bare(Keys(keys)) && Bare(Pairs(on))
    decreases |columns| + |keys| + |on|
  {
    if columns != [] {
      BareParts(columns[1..], keys, on);
    } else if keys != [] {
      BareParts(columns, keys[1..], on);
    } else if on != [] {
      BareParts(columns, keys, on[1..]);
    }
  }

  lemma {:induction false} BareJoins(js: seq<OuterJoin>)
    requires forall i :: 0 <= i < |js| ==> js[i].condition.None?
    ensures Bare(JoinsText(js))
  {
    if js == [] {
    } else {
      BareHead(js[0]);
      BareJoins(js[1..]);
      BareBoth(JoinText(js[0]), JoinsText(js[1..]));
    }
  }

  /** A text whose marks exceed its values by `n`, and whose values are in order if it is known
      to be `ordered`. */
  predicate Balanced(w: Written, n: nat, ordered: bool) {
    Surplus(w, n) && (ordered ==> InOrder(w))
  }

  lemma BalancedBare(ts: seq<Token>)
    requires Bare(ts)
    ensures Balanced(Plain(ts), 0, true)
  {
    PlainSurplus(ts);
    PlainInOrder(ts);
  }

  lemma BalancedBoth(a: Written, m: nat, p: bool, b: Written, n: nat, q: bool)
    requires Balanced(a, m, p) && Balanced(b, n, q)
    ensures Balanced(Both(a, b), m + n, p && q)
  {
    BothSurplus(a, m, b, n);
    if p && q {
      BothInOrder(a, b);
    }
  }

  /** A condition and the context it is compiled in. */
  datatype Condition = NoCondition | Condition(ctx: Ctx, clause: Clause)

  ghost predicate IsCompiled(w: Option<Written>, c: Condition) {
    w == if c.NoCondition? then None else Write(c.ctx, c.clause)
  }

  /** Uses of MySQL's `match`, whose template has a mark of its own. */
  function MatchesIn(c: Condition): nat {
    if c.NoCondition? then 0 else Matches(c.ctx.dialect, c.clause)
  }

  predicate CallableIn(c: Condition) {
    c.NoCondition? || Callable(c.ctx.dialect, c.clause)
  }

  function AllMatches(cs: seq<Condition>): nat {
    if cs == [] then 0 else MatchesIn(cs[0]) + AllMatches(cs[1..])
  }

  predicate AllCallable(cs: seq<Condition>) {
    forall i :: 0 <= i < |cs| ==> CallableIn(cs[i])
  }

  lemma BalancedCondition(w: Written, c: Condition)
    requires IsCompiled(Some(w), c)
    ensures Balanced(w, MatchesIn(c), CallableIn(c))
    ensures w.text == [] ==> w.values == [] && MatchesIn(c) == 0
  {
    ClauseSurplus(c.ctx, c.clause);
    if CallableIn(c) {
      ClauseInOrder(c.ctx, c.clause);
    }
  }

  lemma BareBoth(a: seq<Token>, b: seq<Token>)
    requires Bare(a) && Bare(b)
    ensures Bare(a + b)
  {
  }

  lemma BareHead(j: OuterJoin)
    ensures Bare(JoinHead(j)) && Bare(JoinHead(j) + [RP])
  {
    BareParts([], [], j.on);
    BareBoth([Name("LEFT"), Name("OUTER"), Name("JOIN"), Name(j.table), Name("AS"), Name(j.alias), Name("ON"), LP],
             Pairs(j.on));
    BareBoth(JoinHead(j), [RP]);
  }

  lemma BalancedBetween(head: seq<Token>, glue: seq<Token>, w: Written, n: nat, ordered: bool)
    requires Bare(head) && Bare(glue) && Balanced(w, n, ordered)
    ensures Balanced(Written(head + glue + w.text + [RP], w.values), n, ordered)
  {
    BareBoth(head, glue);
    BalancedBare(head + glue);
    BalancedBare([RP]);
    BalancedBoth(Plain(head + glue), 0, true, w, n, ordered);
    BalancedBoth(Both(Plain(head + glue), w), n, ordered, Plain([RP]), 0, true);
    NoValues(w.values);
  }

  lemma NoValues(values: seq<Val>)
    ensures ([] + values) + [] == values
  {
  }

  lemma BalancedJoin(j: OuterJoin, c: Condition)
    requires IsCompiled(j.condition, c) && (c.Condition? ==> j.condition.Some?)
    ensures Balanced(Written(JoinText(j), JoinValues(j)), MatchesIn(c), CallableIn(c))
  {
    BareHead(j);
    BalancedBare(JoinHead(j));
    BalancedBare([RP]);
    if j.condition.Some? {
      BalancedCondition(j.condition.value, c);
    }
    if Filters(j.condition) {
      BalancedBetween(JoinHead(j), if j.on == [] then [] else [AndT], j.condition.value, MatchesIn(c), CallableIn(c));
    } else {
      BalancedBoth(Plain(JoinHead(j)), 0, true, Plain([RP]), 0, true);
    }
  }

  lemma {:induction false} BalancedJoins(js: seq<OuterJoin>, cs: seq<Condition>)
    requires |js| == |cs|
    requires forall i :: 0 <= i < |js| ==>
      IsCompiled(js[i].condition, cs[i]) && (cs[i].Condition? ==> js[i].condition.Some?)
    ensures Balanced(Written(JoinsText(js), JoinsValues(js)), AllMatches(cs), AllCallable(cs))
  {
    if js == [] {
      BalancedBare([]);
    } else {
      BalancedJoin(js[0], cs[0]);
      BalancedJoins(js[1..], cs[1..]);
      BalancedBoth(Written(JoinText(js[0]), JoinValues(js[0])), MatchesIn(cs[0]), CallableIn(cs[0]),
        Written(JoinsText(js[1..]), JoinsValues(js[1..])), AllMatches(cs[1..]), AllCallable(cs[1..]));
    }
  }

  lemma BalancedSort(ctx: Ctx, s: Sort)
    requires WriteSort(ctx, s).Some?
    ensures Balanced(WriteSort(ctx, s).value, 0, true)
  {
    var direction := [Name(if s.direction.Asc? then "ASC" else "DESC")];
    ElementInOrder(ctx, s.elem);
    ElementSurplus(ctx, s.elem);
    BalancedBare(direction);
    BalancedBoth(WriteElement(ctx, s.elem).value, 0, true, Plain(direction), 0, true);
  }

  lemma {:induction false} BalancedSorts(ctx: Ctx, sorts: seq<Sort>)
    requires WriteSorts(ctx, sorts).Some?
    ensures Balanced(WriteSorts(ctx, sorts).value, 0, true)
  {
    if sorts == [] {
      BalancedBare([]);
    } else {
      var s := sorts[0];
      BalancedSort(ctx, s);
      if |sorts| > 1 {
        BalancedSorts(ctx, sorts[1..]);
        BalancedBare([Comma]);
        BalancedBoth(WriteSort(ctx, s).value, 0, true, Plain([Comma]), 0, true);
        BalancedBoth(Both(WriteSort(ctx, s).value, Plain([Comma])), 0, true, WriteSorts(ctx, sorts[1..]).value, 0,
                     true);
      }
    }
  }

  lemma BalancedWhere(plan: Plan, c: Condition)
    requires IsCompiled(plan.where, c) && (c.Condition? ==> plan.where.Some?)
    ensures Balanced(Written(WhereText(plan), WhereValues(plan)), MatchesIn(c), CallableIn(c))
  {
    if plan.where.None? {
      BalancedBare([]);
    } else {
      BalancedCondition(plan.where.value, c);
      if plan.where.value.text == [] {
        BalancedBare([]);
      } else {
        BalancedBare([Name("WHERE")]);
        BalancedBoth(Plain([Name("WHERE")]), 0, true, plan.where.value, MatchesIn(c), CallableIn(c));
      }
    }
  }

  lemma BalancedOrder(plan: Plan)
    requires Balanced(plan.orders, 0, true)
    ensures Balanced(Written(OrderText(plan), plan.orders.values), 0, true)
  {
    if plan.orders.text == [] {
      BalancedBare([]);
    } else {
      BalancedBare([Name("ORDER"), Name("BY")]);
      BalancedBoth(Plain([Name("ORDER"), Name("BY")]), 0, true, plan.orders, 0, true);
    }
  }

  lemma BareOpening(plan: Plan)
    requires InnerAreBare(plan)
    ensures Bare(Opening(plan)) && Bare(Closing(plan))
  {
    BareSelect(plan);
    BareJoins(plan.innerJoins);
    BareBoth(Select(plan), JoinsText(plan.innerJoins));
  }

  lemma BareSelect(plan: Plan)
    ensures Bare(Select(plan))
  {
    BareParts(plan.columns, plan.keys, []);
    var columns := [Name("SELECT")] + Columns(plan.columns);
    BareBoth([Name("SELECT")], Columns(plan.columns));
    BareBoth(columns, [Name("FROM"), LP, Name("SELECT")]);
    var keys := columns + [Name("FROM"), LP, Name("SELECT")] + Keys(plan.keys);
    BareBoth(columns + [Name("FROM"), LP, Name("SELECT")], Keys(plan.keys));
    BareBoth(keys, [Name("FROM"), Name(plan.table), Name("AS"), Name(plan.alias)]);
  }

  lemma BalancedQuery(plan: Plan, ctx: Ctx, where: Condition, sorts: seq<Sort>, conditions: seq<Condition>)
    requires InnerAreBare(plan)
    requires IsCompiled(plan.where, where) && (where.Condition? ==> plan.where.Some?)
    requires WriteSorts(ctx, sorts) == Some(plan.orders)
    requires |conditions| == |plan.outerJoins|
    requires forall i :: 0 <= i < |conditions| ==>
      IsCompiled(plan.outerJoins[i].condition, conditions[i]) &&
        (conditions[i].Condition? ==> plan.outerJoins[i].condition.Some?)
    ensures Balanced(Query(plan), MatchesIn(where) + AllMatches(conditions), CallableIn(where) &&
                     AllCallable(conditions))
  {
    BareOpening(plan);
    BalancedBare(Opening(plan));
    BalancedBare(Closing(plan));
    BalancedWhere(plan, where);
    BalancedSorts(ctx, sorts);
    BalancedOrder(plan);
    BalancedJoins(plan.outerJoins, conditions);
    var condition, order := Written(WhereText(plan), WhereValues(plan)), Written(OrderText(plan), plan.orders.values);
    var joins := Written(JoinsText(plan.outerJoins), JoinsValues(plan.outerJoins));
    BalancedParts(Plain(Opening(plan)), condition, MatchesIn(where), CallableIn(where), order, Plain(Closing(plan)),
                  joins,
      AllMatches(conditions), AllCallable(conditions));
    PartsOfQuery(plan);
  }

  lemma BalancedParts(a: Written, b: Written, m: nat, p: bool, c: Written, d: Written, e: Written, n: nat, q: bool)
    requires Balanced(a, 0, true) && Balanced(b, m, p) && Balanced(c, 0, true) && Balanced(d, 0, true) &&
      Balanced(e, n, q)
    ensures Balanced(Both(Both(Both(Both(a, b), c), d), e), m + n, p && q)
  {
    BalancedBoth(a, 0, true, b, m, p);
    BalancedBoth(Both(a, b), m, p, c, 0, true);
    BalancedBoth(Both(Both(a, b), c), m, p, d, 0, true);
    BalancedBoth(Both(Both(Both(a, b), c), d), m, p, e, n, q);
  }

  lemma PartsOfQuery(plan: Plan)
    ensures
      var condition, order := Written(WhereText(plan), WhereValues(plan)), Written(OrderText(plan), plan.orders.values);
      var joins := Written(JoinsText(plan.outerJoins), JoinsValues(plan.outerJoins));
      Query(plan) == Both(Both(Both(Both(Plain(Opening(plan)), condition), order), Plain(Closing(plan))), joins)
  {
    var values := WhereValues(plan) + plan.orders.values;
    assert [] + WhereValues(plan) == WhereValues(plan);
    assert values + [] == values;
  }

  /** The query has as many marks as values exactly when no condition uses `match`; where every
      method has its arguments and none is `match`, the k-th mark of the text gets its own value. */
  lemma QueryParameters(plan: Plan, ctx: Ctx, where: Condition, sorts: seq<Sort>, conditions: seq<Condition>)
    requires InnerAreBare(plan)
    requires IsCompiled(plan.where, where) && (where.Condition? ==> plan.where.Some?)
    requires WriteSorts(ctx, sorts) == Some(plan.orders)
    requires |conditions| == |plan.outerJoins|
    requires forall i :: 0 <= i < |conditions| ==>
      IsCompiled(plan.outerJoins[i].condition, conditions[i]) &&
        (conditions[i].Condition? ==> plan.outerJoins[i].condition.Some?)
    ensures Marks(Erase(Query(plan).text)) == |Query(plan).values| <==>
      MatchesIn(where) == 0 && AllMatches(conditions) == 0
    ensures CallableIn(where) && AllCallable(conditions) ==> Query(plan).values == Lits(Query(plan).text)
  {
    BalancedQuery(plan, ctx, where, sorts, conditions);
  }

  // ----- Which rows the query's condition selects

  /** What the database reads of a query's condition: nothing where it compiles to no text. */
  datatype Reading = Everything | Where(condition: Expr) | Unreadable

  function ReadingOf(ctx: Ctx, w: Written): Reading {
    if !Filters(Some(w)) then Everything
    else match ParseCondition(ctx.dialect, Bind(Erase(w.text), w.values))
      case None => Unreadable
      case Some(e) => Where(e)
  }

  predicate Selects(r: Reading, env: Env) {
    r.Everything? || (r.Where? && Eval(r.condition, env) !in {NULL, N(0)})
  }

  /** Only an empty And or Or compiles to nothing. */
  lemma NothingWritten(ctx: Ctx, c: Clause)
    requires Callable(ctx.dialect, c) && Write(ctx, c).Some?
    ensures Write(ctx, c).value.text == [] <==> c == And([]) || c == Or([])
  {
    match c
    case Compare(op, l, r) =>
    case Neq(l, r) =>
    case Not(x) =>
    case And(cs) =>
    case Or(cs) =>
    case Truthy(e) => NoHoles(ctx, e);
    case In(lefts, rows) =>
  }

  /** The database reads a query's condition as the clause: if and only if the clause is sound, or it
      is an empty And, which stands for TRUE and is left out. */
  lemma QueryExactlyWhen(ctx: Ctx, c: Clause)
    requires Callable(ctx.dialect, c) && Write(ctx, c).Some?
    ensures
      var r := ReadingOf(ctx, Write(ctx, c).value);
      r == Where(Tree(ctx, c)) || (r == Everything && c == And([])) <==> Sound(ctx.dialect, c) || c == And([])
  {
    NothingWritten(ctx, c);
    CompiledExactlyWhen(ctx, c);
  }

  /** Then the query selects exactly the rows on which the clause is true. */
  lemma QuerySelects(ctx: Ctx, c: Clause, env: Env)
    requires Callable(ctx.dialect, c) && Write(ctx, c).Some? && (Sound(ctx.dialect, c) || c == And([]))
    ensures Selects(ReadingOf(ctx, Write(ctx, c).value), env) <==> Meaning(ctx, c, env) !in {NULL, N(0)}
  {
    NothingWritten(ctx, c);
    if c != And([]) {
      CompiledMeaning(ctx, c, env);
    }
  }

  /** An empty Or means FALSE, and the query selects every row. */
  lemma EmptyOr(ctx: Ctx, env: Env)
    ensures Write(ctx, Or([])) == Some(Plain([])) && Meaning(ctx, Or([]), env) == N(0)
    ensures Selects(ReadingOf(ctx, Plain([])), env)
  {
  }

  // ----- What a join's condition reads as

  lemma {:induction false} JoinTextOn(j: OuterJoin)
    ensures JoinText(j) ==
      [Name("LEFT"), Name("OUTER"), Name("JOIN"), Name(j.table), Name("AS"), Name(j.alias), Name("ON")]
      + ([LP] + OnText(j) + [RP])
  {
  }

  function PairExprs(on: seq<(Column, Column)>): seq<Expr> {
    seq(|on|, i requires 0 <= i < |on| => CmpE(Eq, ColE(on[i].0), ColE(on[i].1)))
  }

  lemma ParsePair(d: Dialect, a: Column, b: Column, rest: seq<Token>)
    requires Stops(rest)
    ensures ParseNot(d, [Col(a), Cmp(Eq), Col(b)] + rest) == Some((CmpE(Eq, ColE(a), ColE(b)), rest))
  {
    var ctx := Ctx(d, map["left" := a, "right" := b]);
    var w := WriteCompare(ctx, Eq, Field("left"), Field("right"));
    assert w.value.text == [Col(a), Cmp(Eq), Col(b)];
    ParseCompare(ctx, Eq, Field("left"), Field("right"), rest);
  }

  /** The pairs are the first operands of the join's AND. */
  lemma {:induction false} ParsePairs(d: Dialect, on: seq<(Column, Column)>, acc: seq<Expr>, tail: seq<Token>)
    requires on != [] && tail != [] && (tail[0] == RP || tail[0] == AndT)
    ensures tail[0] == RP ==> AndRest(d, acc, Pairs(on) + tail) == Some((JoinAnd(acc + PairExprs(on)), tail))
    ensures tail[0] == AndT ==> AndRest(d, acc, Pairs(on) + tail) == AndRest(d, acc + PairExprs(on), tail[1..])
  {
    var e := CmpE(Eq, ColE(on[0].0), ColE(on[0].1));
    if |on| == 1 {
      LastPair(on, e, tail);
      ParsePair(d, on[0].0, on[0].1, tail);
      AndOperand(d, acc, [Col(on[0].0), Cmp(Eq), Col(on[0].1)], Some(e), tail);
    } else {
      var more := [AndT] + (Pairs(on[1..]) + tail);
      MorePairs(on, e, tail);
      ParsePair(d, on[0].0, on[0].1, more);
      AndOperand(d, acc, [Col(on[0].0), Cmp(Eq), Col(on[0].1)], Some(e), more);
      ParsePairs(d, on[1..], acc + [e], tail);
      assert (acc + [e]) + PairExprs(on[1..]) == acc + ([e] + PairExprs(on[1..]));
    }
  }

  lemma {:induction false} LastPair(on: seq<(Column, Column)>, e: Expr, tail: seq<Token>)
    requires |on| == 1 && e == CmpE(Eq, ColE(on[0].0), ColE(on[0].1))
    ensures Pairs(on) + tail == [Col(on[0].0), Cmp(Eq), Col(on[0].1)] + tail && PairExprs(on) == [e]
  {
    assert Pairs(on[1..]) == [];
  }

  lemma {:induction false} MorePairs(on: seq<(Column, Column)>, e: Expr, tail: seq<Token>)
    requires |on| > 1 && e == CmpE(Eq, ColE(on[0].0), ColE(on[0].1))
    ensures Pairs(on) + tail == [Col(on[0].0), Cmp(Eq), Col(on[0].1)] + ([AndT] + (Pairs(on[1..]) + tail))
    ensures ([AndT] + (Pairs(on[1..]) + tail))[1..] == Pairs(on[1..]) + tail
    ensures PairExprs(on) == [e] + PairExprs(on[1..])
  {
  }

  /** The pairs, and a further operand if there is one. */
  function OnExpr(on: seq<(Column, Column)>, t: Option<Expr>): Expr
    requires on != []
  {
    if t == None then JoinAnd(PairExprs(on)) else JoinAnd(PairExprs(on) + [t.value])
  }

  lemma {:induction false} ParseOn(j: OuterJoin, ctx: Ctx, c: Clause, rest: seq<Token>)
    requires j.on != [] && Callable(ctx.dialect, c) && j.condition == Write(ctx, c) && Filters(j.condition)
    requires rest != [] && rest[0] == RP
    ensures ParseAnd(ctx.dialect, OnText(j) + rest) ==
      if Actual(ctx, c) == None then None else Some((OnExpr(j.on, Actual(ctx, c)), rest))
  {
    var d, w := ctx.dialect, Write(ctx, c).value.text;
    var tail := [AndT] + (w + rest);
    NoneBefore(d, OnText(j) + rest);
    assert OnText(j) + rest == Pairs(j.on) + tail && tail[1..] == w + rest;
    ParsePairs(d, j.on, [], tail);
    assert [] + PairExprs(j.on) == PairExprs(j.on);
    ParseClause(ctx, c, rest);
    AndOperand(d, PairExprs(j.on), w, Actual(ctx, c), rest);
  }

  lemma {:induction false} ParseBareOn(d: Dialect, j: OuterJoin, rest: seq<Token>)
    requires j.on != [] && !Filters(j.condition) && rest != [] && rest[0] == RP
    ensures ParseAnd(d, OnText(j) + rest) == Some((OnExpr(j.on, None), rest))
  {
    NoneBefore(d, OnText(j) + rest);
    assert OnText(j) + rest == Pairs(j.on) + rest;
    ParsePairs(d, j.on, [], rest);
    assert [] + PairExprs(j.on) == PairExprs(j.on);
  }

  lemma ParseInParens(d: Dialect, text: seq<Token>, e: Option<Expr>)
    requires ParseAnd(d, text + [RP]) == After(e, [RP])
    ensures ParseCondition(d, [LP] + text + [RP]) == e
  {
    OrOfAnd(d, text, e);
    ParseParens(d, text, e, []);
    assert [LP] + text + [RP] + [] == [LP] + text + [RP];
    ParseOrFromNot(d, [LP] + text + [RP], e, []);
  }

  /** What a join's parentheses should read as: equal pairs, and the relation's condition, where an
      empty And adds nothing. */
  function OnTree(j: OuterJoin, ctx: Ctx, c: Clause): Expr
    requires j.on != []
  {
    OnExpr(j.on, if c == And([]) then None else Some(Tree(ctx, c)))
  }

  /** A join's condition reads as it should if and only if the relation's own condition is sound or an
      empty And; an empty Or, which means FALSE, is left out. */
  lemma {:induction false} OnExactlyWhen(j: OuterJoin, ctx: Ctx, c: Clause)
    requires j.on != [] && Callable(ctx.dialect, c) && j.condition == Write(ctx, c) && j.condition.Some?
    ensures ParseCondition(ctx.dialect, [LP] + OnText(j) + [RP]) == Some(OnTree(j, ctx, c)) <==>
      Sound(ctx.dialect, c) || c == And([])
  {
    var d, t := ctx.dialect, Actual(ctx, c);
    NothingWritten(ctx, c);
    ActualTree(ctx, c);
    if Filters(j.condition) {
      ParseOn(j, ctx, c, [RP]);
      ParseInParens(d, OnText(j), if t == None then None else Some(OnExpr(j.on, t)));
      if t.Some? {
        SameLast(PairExprs(j.on), t.value, Tree(ctx, c));
      }
    } else {
      ParseBareOn(d, j, [RP]);
      ParseInParens(d, OnText(j), Some(OnExpr(j.on, None)));
      ShorterPairs(PairExprs(j.on), Tree(ctx, c));
    }
  }

  lemma ShorterPairs(es: seq<Expr>, t: Expr)
    requires es != []
    ensures JoinAnd(es) != JoinAnd(es + [t])
  {
    if |es| > 1 {
      assert |es + [t]| != |es|;
    } else {
      assert AndE(es + [t]).es[0] == es[0];
    }
  }

  lemma OrOfAnd(d: Dialect, text: seq<Token>, e: Option<Expr>)
    requires ParseAnd(d, text + [RP]) == After(e, [RP])
    ensures ParseOr(d, text + ([RP] + [])) == After(e, [RP] + [])
  {
    assert [RP] + [] == [RP];
  }

  lemma SameLast(es: seq<Expr>, a: Expr, b: Expr)
    requires es != []
    ensures JoinAnd(es + [a]) == JoinAnd(es + [b]) <==> a == b
  {
    assert (es + [a])[|es|] == a && (es + [b])[|es|] == b;
  }

  predicate IsTrue(v: Val) {
    v !in {NULL, N(0)}
  }

  /** A joined row is then one whose columns are equal and on which the relation's condition is true. */
  lemma {:induction false} OnSelects(j: OuterJoin, ctx: Ctx, c: Clause, env: Env)
    requires j.on != [] && Callable(ctx.dialect, c) && j.condition == Write(ctx, c) && j.condition.Some?
    requires Sound(ctx.dialect, c) || c == And([])
    ensures
      var read := ParseCondition(ctx.dialect, [LP] + OnText(j) + [RP]);
      && read.Some?
      && (IsTrue(Eval(read.value, env)) <==> PairsEqual(j.on, env) && IsTrue(Meaning(ctx, c, env)))
  {
    OnExactlyWhen(j, ctx, c);
    PairsTrue(j.on, env);
    if c == And([]) {
      JoinTrue(PairExprs(j.on), env);
    } else {
      EvalClause(ctx, c, env);
      AllTrueBoth(PairExprs(j.on), [Tree(ctx, c)], env);
      JoinTrue(PairExprs(j.on) + [Tree(ctx, c)], env);
      AllTrueOne(Tree(ctx, c), env);
    }
  }

  ghost predicate PairsEqual(on: seq<(Column, Column)>, env: Env) {
    forall i :: 0 <= i < |on| ==> env.row(on[i].0) == env.row(on[i].1) != NULL
  }

  ghost predicate AllTrue(es: seq<Expr>, env: Env) {
    forall i :: 0 <= i < |es| ==> IsTrue(Eval(es[i], env))
  }

  lemma {:induction false} PairsTrue(on: seq<(Column, Column)>, env: Env)
    ensures AllTrue(PairExprs(on), env) <==> PairsEqual(on, env)
  {
    forall i | 0 <= i < |on|
      ensures IsTrue(Eval(PairExprs(on)[i], env)) <==> env.row(on[i].0) == env.row(on[i].1) != NULL
    {
    }
  }

  lemma AllTrueBoth(a: seq<Expr>, b: seq<Expr>, env: Env)
    ensures AllTrue(a + b, env) <==> AllTrue(a, env) && AllTrue(b, env)
  {
    assert forall i :: 0 <= i < |b| ==> (a + b)[|a| + i] == b[i];
    assert forall i :: 0 <= i < |a| ==> (a + b)[i] == a[i];
  }

  lemma AllTrueOne(e: Expr, env: Env)
    ensures AllTrue([e], env) <==> IsTrue(Eval(e, env))
  {
    assert [e][0] == e;
  }

  lemma {:induction false} AllOfTrue(es: seq<Expr>, env: Env)
    ensures IsTrue(AllV(Evals(es, env))) <==> AllTrue(es, env)
  {
    if es != [] {
      AllOfTrue(es[1..], env);
      assert Evals(es, env)[1..] == Evals(es[1..], env);
      AllTrueBoth([es[0]], es[1..], env);
      AllTrueOne(es[0], env);
      assert [es[0]] + es[1..] == es;
    }
  }

  lemma JoinTrue(es: seq<Expr>, env: Env)
    requires es != []
    ensures IsTrue(Eval(JoinAnd(es), env)) <==> AllTrue(es, env)
  {
    AllOfTrue(es, env);
    if |es| == 1 {
      assert es == [es[0]];
      AllTrueOne(es[0], env);
    }
  }
}
