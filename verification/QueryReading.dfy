/** What the database reads of a whole query: a reader of its text, and that it finds in it what the
    plan holds. */
module QueryReading {
  import opened Options
  import opened Sql
  import opened Clauses
  import opened WhereMeaning
  import opened WhereTheorems
  import opened Queries

  datatype JoinRead = JoinRead(table: string, alias: string, on: Expr)

  datatype OrderRead = OrderRead(key: Expr, ascending: bool)

  /** SELECT columns FROM (SELECT keys FROM table AS alias inner joins WHERE .. ORDER BY .. LIMIT ..
      OFFSET ..) AS outer alias outer joins. */
  datatype Statement = Statement(
    columns: seq<Column>, keys: seq<(Column, string)>, table: string, alias: string, inner: seq<JoinRead>,
    where: Option<Expr>, orders: seq<OrderRead>, limit: int, offset: int, outerAlias: string, outer: seq<JoinRead>)

  // ----- The reader. Each part gives what it read and the rest of the text.

  datatype Step<T> = Fails | Reads(value: T, rest: seq<Token>)

  predicate Starts(ts: seq<Token>, words: seq<string>) {
    |words| <= |ts| && forall i :: 0 <= i < |words| ==> ts[i] == Name(words[i])
  }

  function ReadColumns(ts: seq<Token>): (r: Step<seq<Column>>)
    ensures r.Reads? ==> |r.rest| < |ts|
  {
    if ts == [] || !ts[0].Col? then Fails
    else if |ts| < 2 || ts[1] != Comma then Reads([ts[0].col], ts[1..])
    else match ReadColumns(ts[2..])
      case Fails => Fails
      case Reads(more, rest) => Reads([ts[0].col] + more, rest)
  }

  function ReadKeys(ts: seq<Token>): (r: Step<seq<(Column, string)>>)
    ensures r.Reads? ==> |r.rest| < |ts|
  {
    if |ts| < 3 || !ts[0].Col? || ts[1] != Name("AS") || !ts[2].Name? then Fails
    else if |ts| < 4 || ts[3] != Comma then Reads([(ts[0].col, ts[2].name)], ts[3..])
    else match ReadKeys(ts[4..])
      case Fails => Fails
      case Reads(more, rest) => Reads([(ts[0].col, ts[2].name)] + more, rest)
  }

  /** A table under an alias. */
  function ReadTable(ts: seq<Token>): (r: Step<(string, string)>)
    ensures r.Reads? ==> |r.rest| < |ts|
  {
    if |ts| >= 3 && ts[0].Name? && ts[1] == Name("AS") && ts[2].Name? then Reads((ts[0].name, ts[2].name), ts[3..])
    else Fails
  }

  function ReadExpr(d: Dialect, ts: seq<Token>): (r: Step<Expr>)
    ensures r.Reads? ==> |r.rest| < |ts|
  {
    match ParseOr(d, ts)
    case None => Fails
    case Some((e, rest)) => Reads(e, rest)
  }

  /** LEFT OUTER JOIN table AS alias ON condition. */
  function ReadJoin(d: Dialect, ts: seq<Token>): (r: Step<JoinRead>)
    ensures r.Reads? ==> |r.rest| < |ts|
  {
    if !Starts(ts, ["LEFT", "OUTER", "JOIN"]) then Fails
    else match ReadTable(ts[3..])
      case Fails => Fails
      case Reads(table, on) =>
        if !Starts(on, ["ON"]) then Fails
        else match ReadExpr(d, on[1..])
          case Fails => Fails
          case Reads(e, rest) => Reads(JoinRead(table.0, table.1, e), rest)
  }

  function ReadJoins(d: Dialect, ts: seq<Token>): (r: Step<seq<JoinRead>>)
    ensures r.Reads? ==> |r.rest| <= |ts|
    decreases |ts|
  {
    if !Starts(ts, ["LEFT"]) then Reads([], ts)
    else match ReadJoin(d, ts)
      case Fails => Fails
      case Reads(j, rest) =>
        match ReadJoins(d, rest)
        case Fails => Fails
        case Reads(more, end) => Reads([j] + more, end)
  }

  function ReadWhere(d: Dialect, ts: seq<Token>): Step<Option<Expr>> {
    if !Starts(ts, ["WHERE"]) then Reads(None, ts)
    else match ReadExpr(d, ts[1..])
      case Fails => Fails
      case Reads(e, rest) => Reads(Some(e), rest)
  }

  function ReadSort(d: Dialect, ts: seq<Token>): (r: Step<OrderRead>)
    ensures r.Reads? ==> |r.rest| < |ts|
  {
    match ReadExpr(d, ts)
    case Fails => Fails
    case Reads(e, rest) =>
      if Starts(rest, ["ASC"]) || Starts(rest, ["DESC"]) then Reads(OrderRead(e, Starts(rest, ["ASC"])), rest[1..])
      else Fails
  }

  function ReadSorts(d: Dialect, ts: seq<Token>): (r: Step<seq<OrderRead>>)
    ensures r.Reads? ==> |r.rest| < |ts|
    decreases |ts|
  {
    match ReadSort(d, ts)
    case Fails => Fails
    case Reads(s, rest) =>
      if rest == [] || rest[0] != Comma then Reads([s], rest)
      else match ReadSorts(d, rest[1..])
        case Fails => Fails
        case Reads(more, end) => Reads([s] + more, end)
  }

  function ReadOrders(d: Dialect, ts: seq<Token>): Step<seq<OrderRead>> {
    if Starts(ts, ["ORDER", "BY"]) then ReadSorts(d, ts[2..]) else Reads([], ts)
  }

  /** LIMIT .. OFFSET ..) AS outer alias. */
  function ReadClosing(ts: seq<Token>): Step<(int, int, string)> {
    if |ts| >= 7 && ts[0] == Name("LIMIT") && ts[1].Num? && ts[2] == Name("OFFSET") && ts[3].Num? && ts[4] == RP &&
      ts[5] == Name("AS") && ts[6].Name? then Reads((ts[1].n, ts[3].n, ts[6].name), ts[7..])
    else Fails
  }

  /** SELECT columns FROM (SELECT keys FROM table AS alias. */
  function ReadSelect(ts: seq<Token>): Step<(seq<Column>, seq<(Column, string)>, (string, string))> {
    if !Starts(ts, ["SELECT"]) then Fails
    else match ReadColumns(ts[1..])
      case Fails => Fails
      case Reads(columns, from) =>
        if |from| < 3 || from[..3] != [Name("FROM"), LP, Name("SELECT")] then Fails
        else match ReadKeys(from[3..])
          case Fails => Fails
          case Reads(keys, inner) =>
            if !Starts(inner, ["FROM"]) then Fails
            else match ReadTable(inner[1..])
              case Fails => Fails
              case Reads(table, rest) => Reads((columns, keys, table), rest)
  }

  /** The inner query's joins, condition and order. */
  function ReadBody(d: Dialect, ts: seq<Token>): Step<(seq<JoinRead>, Option<Expr>, seq<OrderRead>)> {
    match ReadJoins(d, ts)
    case Fails => Fails
    case Reads(inner, b) =>
      match ReadWhere(d, b)
      case Fails => Fails
      case Reads(where, c) =>
        match ReadOrders(d, c)
        case Fails => Fails
        case Reads(orders, rest) => Reads((inner, where, orders), rest)
  }

  /** The end of the inner query, and the outer query's joins, after which there is nothing. */
  function ReadEnd(d: Dialect, ts: seq<Token>): Option<((int, int, string), seq<JoinRead>)> {
    match ReadClosing(ts)
    case Fails => None
    case Reads(closing, f) =>
      match ReadJoins(d, f)
      case Fails => None
      case Reads(outer, rest) => if rest == [] then Some((closing, outer)) else None
  }

  function ReadQuery(d: Dialect, ts: seq<Token>): Option<Statement> {
    match ReadSelect(ts)
    case Fails => None
    case Reads((columns, keys, table), a) =>
      match ReadBody(d, a)
      case Fails => None
      case Reads((inner, where, orders), e) =>
        match ReadEnd(d, e)
        case None => None
        case Some(((limit, offset, outerAlias), outer)) =>
          Some(Statement(columns, keys, table.0, table.1, inner, where, orders, limit, offset, outerAlias, outer))
  }

  // ----- What a plan says

  /** What the database makes of a join: its pairs and, unless it compiles to nothing, its condition. */
  function JoinSays(j: OuterJoin, c: Condition): Option<JoinRead> {
    if j.on == [] then None
    else if c.Condition? && Filters(j.condition) then
      match Actual(c.ctx, c.clause)
      case None => None
      case Some(e) => Some(JoinRead(j.table, j.alias, OnExpr(j.on, Some(e))))
    else Some(JoinRead(j.table, j.alias, OnExpr(j.on, None)))
  }

  function JoinsSay(js: seq<OuterJoin>, cs: seq<Condition>): Option<seq<JoinRead>>
    requires |js| == |cs|
  {
    if js == [] then Some([])
    else match JoinSays(js[0], cs[0])
      case None => None
      case Some(j) =>
        match JoinsSay(js[1..], cs[1..])
        case None => None
        case Some(more) => Some([j] + more)
  }

  function SortSays(ctx: Ctx, s: Sort): OrderRead {
    OrderRead(TreeElement(ctx, s.elem), s.direction == Asc)
  }

  function SortsSay(ctx: Ctx, sorts: seq<Sort>): seq<OrderRead> {
    seq(|sorts|, i requires 0 <= i < |sorts| => SortSays(ctx, sorts[i]))
  }

  /** None where there is no condition; None inside where it cannot be read. */
  function WhereSays(plan: Plan, c: Condition): Option<Option<Expr>> {
    if c.NoCondition? || !Filters(plan.where) then Some(None)
    else if Actual(c.ctx, c.clause) == None then None
    else Some(Actual(c.ctx, c.clause))
  }

  // ----- Reading what was written

  lemma {:induction false} ColumnsRead(columns: seq<Column>, rest: seq<Token>)
    requires columns != [] && rest != [] && rest[0] != Comma
    ensures ReadColumns(Columns(columns) + rest) == Reads(columns, rest)
  {
    var ts := Columns(columns) + rest;
    if |columns| == 1 {
      assert Columns(columns[1..]) == [] && columns == [columns[0]];
      assert ts == [Col(columns[0])] + rest;
    } else {
      MoreColumns(columns, rest);
      ColumnsRead(columns[1..], rest);
      assert columns == [columns[0]] + columns[1..];
    }
  }

  lemma MoreColumns(columns: seq<Column>, rest: seq<Token>)
    requires |columns| > 1
    ensures
      var ts := Columns(columns) + rest;
      |ts| > 2 && ts[0] == Col(columns[0]) && ts[1] == Comma && ts[2..] == Columns(columns[1..]) + rest
  {
    var head := [Col(columns[0])] + [Comma];
    assert Columns(columns) == head + Columns(columns[1..]);
    HeadFirst(head, Columns(columns[1..]), rest);
  }

  lemma HeadFirst(head: seq<Token>, more: seq<Token>, rest: seq<Token>)
    requires more != []
    ensures
      var ts := (head + more) + rest;
      && |ts| > |head| && (forall i :: 0 <= i < |head| ==> ts[i] == head[i]) && ts[|head|..] == more + rest
  {
  }

  lemma MoreKeys(keys: seq<(Column, string)>, rest: seq<Token>)
    requires |keys| > 1
    ensures
      var ts := Keys(keys) + rest;
      && |ts| > 4 && ts[0] == Col(keys[0].0) && ts[1] == Name("AS") && ts[2] == Name(keys[0].1) && ts[3] == Comma
      && ts[4..] == Keys(keys[1..]) + rest
  {
    var key, more := [Col(keys[0].0), Name("AS"), Name(keys[0].1)], Keys(keys[1..]);
    assert Keys(keys) == key + [Comma] + more && more != [];
    HeadFirst(key + [Comma], more, rest);
    assert (key + [Comma])[0] == key[0] && (key + [Comma])[1] == key[1] && (key + [Comma])[2] == key[2];
  }

  lemma LastKey(keys: seq<(Column, string)>, rest: seq<Token>)
    requires |keys| == 1 && rest != []
    ensures
      var ts := Keys(keys) + rest;
      && |ts| > 3 && ts[0] == Col(keys[0].0) && ts[1] == Name("AS") && ts[2] == Name(keys[0].1)
      && ts[3] == rest[0] && ts[3..] == rest
  {
    var key, none := [Col(keys[0].0), Name("AS"), Name(keys[0].1)], Keys(keys[1..]);
    assert none == [] && Keys(keys) == key + [] + none;
    assert Keys(keys) == key;
  }

  lemma OneKey(ts: seq<Token>, key: (Column, string))
    requires |ts| > 3 && ts[0] == Col(key.0) && ts[1] == Name("AS") && ts[2] == Name(key.1)
    ensures ts[3] != Comma ==> ReadKeys(ts) == Reads([key], ts[3..])
    ensures ts[3] == Comma ==>
      ReadKeys(ts) ==
        match ReadKeys(ts[4..]) case Fails => Fails case Reads(more, rest) => Reads([key] + more, rest)
  {
    assert (ts[0].col, ts[2].name) == key;
  }

  lemma {:induction false} KeysRead(keys: seq<(Column, string)>, rest: seq<Token>)
    requires keys != [] && rest != [] && rest[0] != Comma
    ensures ReadKeys(Keys(keys) + rest) == Reads(keys, rest)
  {
    if |keys| == 1 {
      LastKey(keys, rest);
      OneKey(Keys(keys) + rest, keys[0]);
      assert keys == [keys[0]];
    } else {
      MoreKeys(keys, rest);
      OneKey(Keys(keys) + rest, keys[0]);
      KeysRead(keys[1..], rest);
      assert keys == [keys[0]] + keys[1..];
    }
  }

  /** Neither an operator nor a further operand follows. */
  predicate Closes(rest: seq<Token>) {
    NoJoin(rest) && Stops(rest)
  }

  lemma {:induction false} OnRead(d: Dialect, j: OuterJoin, c: Condition, rest: seq<Token>)
    requires j.on != [] && NoJoin(rest) && IsCompiled(j.condition, c)
    requires c.Condition? ==> c.ctx.dialect == d && Callable(d, c.clause) && j.condition.Some?
    ensures ReadExpr(d, ([LP] + OnText(j) + [RP]) + rest) ==
      match JoinSays(j, c) case None => Fails case Some(read) => Reads(read.on, rest)
  {
    var e: Option<Expr> := match JoinSays(j, c) case None => None case Some(read) => Some(read.on);
    var closed := [RP] + rest;
    if c.Condition? && Filters(j.condition) {
      ParseOn(j, c.ctx, c.clause, closed);
    } else {
      ParseBareOn(d, j, closed);
    }
    assert ParseAnd(d, OnText(j) + closed) == After(e, closed);
    assert ParseOr(d, OnText(j) + closed) == After(e, closed);
    ParseParens(d, OnText(j), e, rest);
    ParseOrFromNot(d, [LP] + OnText(j) + [RP], e, rest);
  }

  function JoinStart(j: OuterJoin): seq<Token> {
    [Name("LEFT"), Name("OUTER"), Name("JOIN"), Name(j.table), Name("AS"), Name(j.alias), Name("ON")]
  }

  lemma JoinStartRead(d: Dialect, j: OuterJoin, on: seq<Token>)
    ensures ReadJoin(d, JoinStart(j) + on) ==
      match ReadExpr(d, on) case Fails => Fails case Reads(e, rest) => Reads(JoinRead(j.table, j.alias, e), rest)
  {
    var ts := JoinStart(j) + on;
    assert ts[3..] == [Name(j.table), Name("AS"), Name(j.alias), Name("ON")] + on;
    assert ts[3..][3..] == [Name("ON")] + on && ([Name("ON")] + on)[1..] == on;
  }

  lemma {:induction false} OneJoinRead(d: Dialect, j: OuterJoin, c: Condition, rest: seq<Token>)
    requires NoJoin(rest) && JoinFits(d, j, c)
    ensures ReadJoin(d, JoinText(j) + rest) ==
      match JoinSays(j, c) case None => Fails case Some(read) => Reads(read, rest)
  {
    JoinTextOn(j);
    var on := ([LP] + OnText(j) + [RP]) + rest;
    assert JoinText(j) + rest == JoinStart(j) + on;
    JoinStartRead(d, j, on);
    OnRead(d, j, c, rest);
  }

  /** What follows joins is no join. */
  predicate AfterJoins(rest: seq<Token>) {
    NoJoin(rest) && !Starts(rest, ["LEFT"])
  }

  lemma RestFits(d: Dialect, js: seq<OuterJoin>, cs: seq<Condition>)
    requires |js| == |cs| && js != [] && forall i :: 0 <= i < |js| ==> JoinFits(d, js[i], cs[i])
    ensures JoinFits(d, js[0], cs[0])
    ensures forall i :: 0 <= i < |js[1..]| ==> JoinFits(d, js[1..][i], cs[1..][i])
  {
    assert forall i :: 0 <= i < |js[1..]| ==> js[1..][i] == js[i + 1] && cs[1..][i] == cs[i + 1];
  }

  lemma {:induction false} JoinsRead(d: Dialect, js: seq<OuterJoin>, cs: seq<Condition>, rest: seq<Token>)
    requires |js| == |cs| && AfterJoins(rest) && forall i :: 0 <= i < |js| ==> JoinFits(d, js[i], cs[i])
    ensures ReadJoins(d, JoinsText(js) + rest) ==
      match JoinsSay(js, cs) case None => Fails case Some(all) => Reads(all, rest)
  {
    if js == [] {
      assert JoinsText(js) + rest == rest;
    } else {
      var more := JoinsText(js[1..]) + rest;
      FirstJoin(js, rest);
      MoreCloses(js[1..], rest);
      RestFits(d, js, cs);
      OneJoinRead(d, js[0], cs[0], more);
      JoinsRead(d, js[1..], cs[1..], rest);
    }
  }

  lemma FirstJoin(js: seq<OuterJoin>, rest: seq<Token>)
    requires js != []
    ensures JoinsText(js) + rest == JoinText(js[0]) + (JoinsText(js[1..]) + rest)
    ensures Starts(JoinsText(js) + rest, ["LEFT"])
  {
    ThreeParts(JoinText(js[0]), JoinsText(js[1..]), rest);
    FirstWord(js[0], JoinsText(js[1..]) + rest);
  }

  lemma ThreeParts(a: seq<Token>, b: seq<Token>, c: seq<Token>)
    ensures (a + b) + c == a + (b + c)
  {
  }

  lemma FirstWord(j: OuterJoin, rest: seq<Token>)
    ensures Starts(JoinText(j) + rest, ["LEFT"])
  {
    JoinTextOn(j);
    assert JoinText(j)[0] == Name("LEFT");
  }

  lemma MoreCloses(js: seq<OuterJoin>, rest: seq<Token>)
    requires AfterJoins(rest)
    ensures NoJoin(JoinsText(js) + rest)
  {
    if js == [] {
      assert JoinsText(js) + rest == rest;
    } else {
      var ts := JoinsText(js) + rest;
      JoinTextOn(js[0]);
      assert ts[0] == Name("LEFT") && ts[1] == Name("OUTER");
    }
  }

  ghost predicate JoinFits(d: Dialect, j: OuterJoin, c: Condition) {
    && j.on != [] && IsCompiled(j.condition, c)
    && (c.Condition? ==> c.ctx.dialect == d && Callable(d, c.clause) && j.condition.Some?)
  }

  lemma ClauseRead(d: Dialect, c: Condition, text: seq<Token>, rest: seq<Token>)
    requires c.Condition? && c.ctx.dialect == d && Callable(d, c.clause) && Closes(rest)
    requires Write(c.ctx, c.clause).Some? && text == Write(c.ctx, c.clause).value.text
    ensures ReadExpr(d, text + rest) ==
      match Actual(c.ctx, c.clause) case None => Fails case Some(e) => Reads(e, rest)
  {
    ParseClause(c.ctx, c.clause, rest);
    ParseOrFromNot(d, text, Actual(c.ctx, c.clause), rest);
  }

  lemma WhereRead(d: Dialect, plan: Plan, c: Condition, rest: seq<Token>)
    requires IsCompiled(plan.where, c) && Closes(rest) && !Starts(rest, ["WHERE"])
    requires c.Condition? ==> c.ctx.dialect == d && Callable(d, c.clause) && plan.where.Some?
    ensures ReadWhere(d, WhereText(plan) + rest) ==
      match WhereSays(plan, c) case None => Fails case Some(w) => Reads(w, rest)
  {
    if Filters(plan.where) {
      var w, text := [Name("WHERE")], plan.where.value.text;
      assert (WhereText(plan) + rest)[1..] == text + rest;
      ClauseRead(d, c, text, rest);
    } else {
      assert WhereText(plan) + rest == rest;
    }
  }

  lemma SortRead(d: Dialect, ctx: Ctx, s: Sort, rest: seq<Token>)
    requires ctx.dialect == d && WriteSort(ctx, s).Some? && rest != [] && (rest[0] == Comma || rest[0].Name?)
    ensures ReadSort(d, WriteSort(ctx, s).value.text + rest) == Reads(SortSays(ctx, s), rest)
  {
    var element, word := WriteElement(ctx, s.elem).value.text, Name(if s.direction == Asc then "ASC" else "DESC");
    var end := [word] + rest;
    assert WriteSort(ctx, s).value.text + rest == element + end;
    assert end[1..] == rest;
    ElementRead(d, ctx, s.elem, end);
  }

  lemma ElementRead(d: Dialect, ctx: Ctx, e: Element, end: seq<Token>)
    requires ctx.dialect == d && !e.Method? && WriteElement(ctx, e).Some? && end != [] && end[0].Name?
    ensures ReadExpr(d, WriteElement(ctx, e).value.text + end) == Reads(TreeElement(ctx, e), end)
  {
    var element := WriteElement(ctx, e).value.text;
    assert |element| == 1 && (element + end)[1..] == end;
    FromPrim(d, element + end, Some(TreeElement(ctx, e)), end);
    ParseOrFromNot(d, element, Some(TreeElement(ctx, e)), end);
  }

  lemma {:induction false} SortsRead(d: Dialect, ctx: Ctx, sorts: seq<Sort>, rest: seq<Token>)
    requires ctx.dialect == d && sorts != [] && WriteSorts(ctx, sorts).Some? && rest != [] && rest[0].Name?
    ensures ReadSorts(d, WriteSorts(ctx, sorts).value.text + rest) == Reads(SortsSay(ctx, sorts), rest)
  {
    if |sorts| == 1 {
      SortRead(d, ctx, sorts[0], rest);
      assert SortsSay(ctx, sorts) == [SortSays(ctx, sorts[0])];
    } else {
      var more := WriteSorts(ctx, sorts[1..]).value.text + rest;
      SortsText(ctx, sorts, rest);
      SortRead(d, ctx, sorts[0], [Comma] + more);
      assert ([Comma] + more)[1..] == more;
      SortsRead(d, ctx, sorts[1..], rest);
      assert SortsSay(ctx, sorts) == [SortSays(ctx, sorts[0])] + SortsSay(ctx, sorts[1..]);
    }
  }

  lemma SortsText(ctx: Ctx, sorts: seq<Sort>, rest: seq<Token>)
    requires |sorts| > 1 && WriteSorts(ctx, sorts).Some?
    ensures WriteSorts(ctx, sorts).value.text + rest ==
      WriteSort(ctx, sorts[0]).value.text + ([Comma] + (WriteSorts(ctx, sorts[1..]).value.text + rest))
  {
  }

  lemma OrdersRead(d: Dialect, ctx: Ctx, plan: Plan, sorts: seq<Sort>, rest: seq<Token>)
    requires ctx.dialect == d && WriteSorts(ctx, sorts) == Some(plan.orders)
    requires rest != [] && rest[0] == Name("LIMIT")
    ensures ReadOrders(d, OrderText(plan) + rest) == Reads(SortsSay(ctx, sorts), rest)
  {
    if sorts == [] {
      assert OrderText(plan) + rest == rest && SortsSay(ctx, sorts) == [];
    } else {
      assert plan.orders.text != [];
      var ts := OrderText(plan) + rest;
      assert ts == [Name("ORDER"), Name("BY")] + (plan.orders.text + rest) && ts[2..] == plan.orders.text + rest;
      SortsRead(d, ctx, sorts, rest);
    }
  }

  lemma ClosingRead(plan: Plan, rest: seq<Token>)
    ensures ReadClosing(Closing(plan) + rest) == Reads((plan.limit, plan.offset, plan.outerAlias), rest)
  {
    assert (Closing(plan) + rest)[7..] == rest;
  }

  lemma SelectRead(plan: Plan, rest: seq<Token>)
    requires plan.columns != [] && plan.keys != []
    ensures ReadSelect(Select(plan) + rest) == Reads((plan.columns, plan.keys, (plan.table, plan.alias)), rest)
  {
    var table := [Name(plan.table), Name("AS"), Name(plan.alias)] + rest;
    var inner := [Name("FROM")] + table;
    var from := [Name("FROM"), LP, Name("SELECT")] + (Keys(plan.keys) + inner);
    SelectText(plan, rest, inner, from);
    var ts := [Name("SELECT")] + (Columns(plan.columns) + from);
    assert Select(plan) + rest == ts && Starts(ts, ["SELECT"]) && ts[1..] == Columns(plan.columns) + from;
    ColumnsRead(plan.columns, from);
    assert from[..3] == [Name("FROM"), LP, Name("SELECT")] && from[3..] == Keys(plan.keys) + inner;
    KeysRead(plan.keys, inner);
    FromTable(plan, rest, inner);
  }

  lemma FromTable(plan: Plan, rest: seq<Token>, inner: seq<Token>)
    requires inner == [Name("FROM")] + ([Name(plan.table), Name("AS"), Name(plan.alias)] + rest)
    ensures Starts(inner, ["FROM"]) && ReadTable(inner[1..]) == Reads((plan.table, plan.alias), rest)
  {
    assert inner[1..] == [Name(plan.table), Name("AS"), Name(plan.alias)] + rest && inner[1..][3..] == rest;
  }

  lemma SelectText(plan: Plan, rest: seq<Token>, inner: seq<Token>, from: seq<Token>)
    requires inner == [Name("FROM")] + ([Name(plan.table), Name("AS"), Name(plan.alias)] + rest)
    requires from == [Name("FROM"), LP, Name("SELECT")] + (Keys(plan.keys) + inner)
    ensures Select(plan) + rest == [Name("SELECT")] + (Columns(plan.columns) + from)
  {
    SixParts([Name("SELECT")], Columns(plan.columns), [Name("FROM"), LP, Name("SELECT")], Keys(plan.keys),
             [Name("FROM")] + [Name(plan.table), Name("AS"), Name(plan.alias)], rest);
    assert [Name("FROM")] + [Name(plan.table), Name("AS"), Name(plan.alias)] ==
      [Name("FROM"), Name(plan.table), Name("AS"), Name(plan.alias)];
    assert inner == [Name("FROM")] + [Name(plan.table), Name("AS"), Name(plan.alias)] + rest;
  }

  // ----- The whole query

  function NoConditions(n: nat): seq<Condition> {
    seq(n, _ => NoCondition)
  }

  /** Everything the plan was made from. */
  ghost predicate IsPlanOf(d: Dialect, plan: Plan, ctx: Ctx, where: Condition, sorts: seq<Sort>,
                           conditions: seq<Condition>) {
    && plan.columns != [] && plan.keys != [] && ctx.dialect == d && WriteSorts(ctx, sorts) == Some(plan.orders)
    && (forall i :: 0 <= i < |plan.innerJoins| ==> JoinFits(d, plan.innerJoins[i], NoCondition))
    && IsCompiled(plan.where, where)
    && (where.Condition? ==> where.ctx.dialect == d && Callable(d, where.clause) && plan.where.Some?)
    && |conditions| == |plan.outerJoins|
    && forall i :: 0 <= i < |conditions| ==> JoinFits(d, plan.outerJoins[i], conditions[i])
  }

  function Says(plan: Plan, ctx: Ctx, where: Condition, sorts: seq<Sort>, conditions: seq<Condition>): Option<Statement>
    requires |conditions| == |plan.outerJoins|
  {
    var inner, outer := JoinsSay(plan.innerJoins, NoConditions(|plan.innerJoins|)),
      JoinsSay(plan.outerJoins, conditions);
    var w := WhereSays(plan, where);
    if inner.None? || w.None? || outer.None? then None
    else
      Some(Statement(plan.columns, plan.keys, plan.table, plan.alias, inner.value, w.value, SortsSay(ctx, sorts),
                     plan.limit, plan.offset, plan.outerAlias, outer.value))
  }

  /** The rest of the query from each of its parts on. */
  function FromClosing(plan: Plan): seq<Token> {
    Closing(plan) + (JoinsText(plan.outerJoins) + [])
  }

  function FromOrders(plan: Plan): seq<Token> {
    OrderText(plan) + FromClosing(plan)
  }

  function FromWhere(plan: Plan): seq<Token> {
    WhereText(plan) + FromOrders(plan)
  }

  lemma QueryText(plan: Plan)
    ensures Query(plan).text == Select(plan) + (JoinsText(plan.innerJoins) + FromWhere(plan))
  {
    assert JoinsText(plan.outerJoins) + [] == JoinsText(plan.outerJoins);
    SixParts(Select(plan), JoinsText(plan.innerJoins), WhereText(plan), OrderText(plan), Closing(plan),
             JoinsText(plan.outerJoins));
  }

  lemma SixParts(a: seq<Token>, b: seq<Token>, c: seq<Token>, d: seq<Token>, e: seq<Token>, f: seq<Token>)
    ensures a + b + c + d + e + f == a + (b + (c + (d + (e + f))))
  {
  }

  lemma ClosingFollows(plan: Plan)
    ensures FromClosing(plan)[0] == Name("LIMIT") && Closes(FromClosing(plan))
    ensures !Starts(FromClosing(plan), ["WHERE"]) && AfterJoins(FromClosing(plan))
  {
    assert FromClosing(plan)[0] == Name("LIMIT") && FromClosing(plan)[1] == Num(plan.limit);
  }

  lemma OrdersFollow(plan: Plan)
    ensures Closes(FromOrders(plan)) && !Starts(FromOrders(plan), ["WHERE"]) && AfterJoins(FromOrders(plan))
  {
    ClosingFollows(plan);
    if OrderText(plan) == [] {
      assert FromOrders(plan) == FromClosing(plan);
    } else {
      assert FromOrders(plan)[0] == Name("ORDER") && FromOrders(plan)[1] == Name("BY");
    }
  }

  lemma WhereFollows(plan: Plan)
    ensures AfterJoins(FromWhere(plan))
  {
    OrdersFollow(plan);
    if WhereText(plan) == [] {
      assert FromWhere(plan) == FromOrders(plan);
    } else {
      assert FromWhere(plan)[0] == Name("WHERE");
    }
  }

  lemma {:induction false} BodyRead(d: Dialect, plan: Plan, ctx: Ctx, where: Condition, sorts: seq<Sort>,
                                    conditions: seq<Condition>)
    requires IsPlanOf(d, plan, ctx, where, sorts, conditions)
    ensures
      var inner := JoinsSay(plan.innerJoins, NoConditions(|plan.innerJoins|));
      var body := ReadBody(d, JoinsText(plan.innerJoins) + FromWhere(plan));
      if inner.None? || WhereSays(plan, where).None? then body.Fails?
      else body == Reads((inner.value, WhereSays(plan, where).value, SortsSay(ctx, sorts)), FromClosing(plan))
  {
    WhereFollows(plan);
    OrdersFollow(plan);
    ClosingFollows(plan);
    JoinsRead(d, plan.innerJoins, NoConditions(|plan.innerJoins|), FromWhere(plan));
    WhereRead(d, plan, where, FromOrders(plan));
    OrdersRead(d, ctx, plan, sorts, FromClosing(plan));
  }

  lemma {:induction false} EndRead(d: Dialect, plan: Plan, conditions: seq<Condition>)
    requires |conditions| == |plan.outerJoins|
    requires forall i :: 0 <= i < |conditions| ==> JoinFits(d, plan.outerJoins[i], conditions[i])
    ensures ReadEnd(d, FromClosing(plan)) ==
      match JoinsSay(plan.outerJoins, conditions)
      case None => None
      case Some(outer) => Some(((plan.limit, plan.offset, plan.outerAlias), outer))
  {
    ClosingRead(plan, JoinsText(plan.outerJoins) + []);
    JoinsRead(d, plan.outerJoins, conditions, []);
  }

  lemma {:induction false} TextRead(d: Dialect, plan: Plan, ctx: Ctx, where: Condition, sorts: seq<Sort>,
                                    conditions: seq<Condition>)
    requires IsPlanOf(d, plan, ctx, where, sorts, conditions)
    ensures ReadQuery(d, Query(plan).text) == Says(plan, ctx, where, sorts, conditions)
  {
    QueryText(plan);
    SelectRead(plan, JoinsText(plan.innerJoins) + FromWhere(plan));
    BodyRead(d, plan, ctx, where, sorts, conditions);
    EndRead(d, plan, conditions);
  }

  // ----- The text as it is sent

  lemma JoinUnmarked(d: Dialect, j: OuterJoin, c: Condition)
    requires JoinFits(d, j, c)
    ensures Param !in JoinText(j)
  {
    BareHead(j);
    if Filters(j.condition) {
      NoParams(c.ctx, c.clause);
    }
  }

  lemma {:induction false} JoinsUnmarked(d: Dialect, js: seq<OuterJoin>, cs: seq<Condition>)
    requires |js| == |cs| && forall i :: 0 <= i < |js| ==> JoinFits(d, js[i], cs[i])
    ensures Param !in JoinsText(js)
  {
    if js != [] {
      JoinUnmarked(d, js[0], cs[0]);
      assert forall i :: 0 <= i < |js[1..]| ==> js[1..][i] == js[i + 1] && cs[1..][i] == cs[i + 1];
      JoinsUnmarked(d, js[1..], cs[1..]);
    }
  }

  lemma {:induction false} SortsUnmarked(ctx: Ctx, sorts: seq<Sort>)
    requires WriteSorts(ctx, sorts).Some?
    ensures Param !in WriteSorts(ctx, sorts).value.text
  {
    if |sorts| > 1 {
      SortsUnmarked(ctx, sorts[1..]);
    }
  }

  lemma QueryUnmarked(d: Dialect, plan: Plan, ctx: Ctx, where: Condition, sorts: seq<Sort>, conditions: seq<Condition>)
    requires IsPlanOf(d, plan, ctx, where, sorts, conditions) && InnerAreBare(plan)
    ensures Param !in Query(plan).text
  {
    BareOpening(plan);
    JoinsUnmarked(d, plan.outerJoins, conditions);
    SortsUnmarked(ctx, sorts);
    if Filters(plan.where) {
      NoParams(where.ctx, where.clause);
    }
    var a, b, c, e := Opening(plan), WhereText(plan), OrderText(plan), JoinsText(plan.outerJoins);
    assert Param !in a && Param !in b && Param !in c && Param !in Closing(plan) && Param !in e;
  }

  lemma PlanFits(d: Dialect, plan: Plan, ctx: Ctx, where: Condition, sorts: seq<Sort>, conditions: seq<Condition>)
    requires IsPlanOf(d, plan, ctx, where, sorts, conditions)
    ensures InnerAreBare(plan) && AllCallable(conditions) && AllPaired(plan)
    ensures forall i :: 0 <= i < |conditions| ==>
      IsCompiled(plan.outerJoins[i].condition, conditions[i]) &&
        (conditions[i].Condition? ==> plan.outerJoins[i].condition.Some?)
  {
    assert forall i :: 0 <= i < |plan.innerJoins| ==> JoinFits(d, plan.innerJoins[i], NoCondition);
    assert forall i :: 0 <= i < |conditions| ==> JoinFits(d, plan.outerJoins[i], conditions[i]);
  }

  /** Every join has a pair of columns. */
  predicate AllPaired(plan: Plan) {
    && (forall i :: 0 <= i < |plan.innerJoins| ==> plan.innerJoins[i].on != [])
    && forall i :: 0 <= i < |plan.outerJoins| ==> plan.outerJoins[i].on != []
  }

  lemma QueryBound(d: Dialect, plan: Plan, ctx: Ctx, where: Condition, sorts: seq<Sort>, conditions: seq<Condition>)
    requires IsPlanOf(d, plan, ctx, where, sorts, conditions)
    ensures Bind(Erase(Query(plan).text), Query(plan).values) == Query(plan).text
  {
    PlanFits(d, plan, ctx, where, sorts, conditions);
    QueryParameters(plan, ctx, where, sorts, conditions);
    QueryUnmarked(d, plan, ctx, where, sorts, conditions);
    BindErased(Query(plan).text);
  }

  /** The database, given the text and the values, reads the plan: its columns, keys, tables and joins,
      its condition, sorts, limit and offset, with each condition as the database makes it out. */
  lemma {:induction false} QueryReads(d: Dialect, plan: Plan, ctx: Ctx, where: Condition, sorts: seq<Sort>,
                                      conditions: seq<Condition>)
    requires IsPlanOf(d, plan, ctx, where, sorts, conditions)
    ensures ReadQuery(d, Bind(Erase(Query(plan).text), Query(plan).values)) ==
      Says(plan, ctx, where, sorts, conditions)
  {
    QueryBound(d, plan, ctx, where, sorts, conditions);
    TextRead(d, plan, ctx, where, sorts, conditions);
  }

  // ----- What the plan means

  /** A condition that the database reads as it is meant. */
  predicate SoundIn(c: Condition) {
    c.NoCondition? || Sound(c.ctx.dialect, c.clause) || c.clause == And([])
  }

  /** A condition's own tree; an empty And adds nothing. */
  function TreeOf(c: Condition): Option<Expr> {
    if c.NoCondition? || c.clause == And([]) then None else Some(Tree(c.ctx, c.clause))
  }

  function JoinMeans(j: OuterJoin, c: Condition): JoinRead
    requires j.on != []
  {
    JoinRead(j.table, j.alias, OnExpr(j.on, TreeOf(c)))
  }

  lemma {:induction false} JoinSaysExactlyWhen(d: Dialect, j: OuterJoin, c: Condition)
    requires JoinFits(d, j, c)
    ensures JoinSays(j, c) == Some(JoinMeans(j, c)) <==> SoundIn(c)
  {
    if c.Condition? {
      NothingWritten(c.ctx, c.clause);
      ActualTree(c.ctx, c.clause);
      ShorterPairs(PairExprs(j.on), Tree(c.ctx, c.clause));
      if Actual(c.ctx, c.clause).Some? {
        SameLast(PairExprs(j.on), Actual(c.ctx, c.clause).value, Tree(c.ctx, c.clause));
      }
    }
  }

  function JoinsMean(js: seq<OuterJoin>, cs: seq<Condition>): seq<JoinRead>
    requires |js| == |cs| && forall i :: 0 <= i < |js| ==> js[i].on != []
  {
    seq(|js|, i requires 0 <= i < |js| => JoinMeans(js[i], cs[i]))
  }

  lemma {:induction false} JoinsSayExactlyWhen(d: Dialect, js: seq<OuterJoin>, cs: seq<Condition>)
    requires |js| == |cs| && forall i :: 0 <= i < |js| ==> JoinFits(d, js[i], cs[i])
    ensures (forall i :: 0 <= i < |js| ==> js[i].on != []) &&
      (JoinsSay(js, cs) == Some(JoinsMean(js, cs)) <==> forall i :: 0 <= i < |cs| ==> SoundIn(cs[i]))
  {
    assert forall i :: 0 <= i < |js| ==> JoinFits(d, js[i], cs[i]) && js[i].on != [];
    if js == [] {
      assert JoinsMean(js, cs) == [];
    } else {
      RestFits(d, js, cs);
      JoinSaysExactlyWhen(d, js[0], cs[0]);
      JoinsSayExactlyWhen(d, js[1..], cs[1..]);
      FirstMeans(js, cs);
      OneMore(js, cs, JoinMeans(js[0], cs[0]), JoinsMean(js[1..], cs[1..]));
      assert cs == [cs[0]] + cs[1..];
    }
  }

  lemma FirstMeans(js: seq<OuterJoin>, cs: seq<Condition>)
    requires |js| == |cs| && js != [] && forall i :: 0 <= i < |js| ==> js[i].on != []
    ensures forall i :: 0 <= i < |js[1..]| ==> js[1..][i].on != []
    ensures JoinsMean(js, cs) == [JoinMeans(js[0], cs[0])] + JoinsMean(js[1..], cs[1..])
  {
    assert forall i :: 0 <= i < |js[1..]| ==> js[1..][i] == js[i + 1] && cs[1..][i] == cs[i + 1];
  }

  lemma OneMore(js: seq<OuterJoin>, cs: seq<Condition>, first: JoinRead, rest: seq<JoinRead>)
    requires |js| == |cs| && js != []
    ensures JoinsSay(js, cs) == Some([first] + rest) <==>
      JoinSays(js[0], cs[0]) == Some(first) && JoinsSay(js[1..], cs[1..]) == Some(rest)
  {
    var all := JoinsSay(js, cs);
    if all.Some? {
      var more := JoinsSay(js[1..], cs[1..]).value;
      assert all.value[0] == JoinSays(js[0], cs[0]).value && all.value[1..] == more;
      assert ([first] + rest)[0] == first && ([first] + rest)[1..] == rest;
    }
  }

  lemma {:induction false} WhereSaysExactlyWhen(plan: Plan, c: Condition)
    requires IsCompiled(plan.where, c) && (c.Condition? ==> Callable(c.ctx.dialect, c.clause) && plan.where.Some?)
    ensures WhereSays(plan, c) == Some(TreeOf(c)) <==> SoundIn(c)
  {
    if c.Condition? {
      NothingWritten(c.ctx, c.clause);
      ActualTree(c.ctx, c.clause);
    }
  }

  /** Sorts by a column or a value, each with its direction. */
  function SortMeans(ctx: Ctx, s: Sort): OrderRead {
    OrderRead(match s.elem { case Value(v) => LitE(v) case Field(path) =>
      if path in ctx.columns then ColE(ctx.columns[path]) else LitE(NULL) case Method(_, _) => LitE(NULL) },
      s.direction == Asc)
  }

  function SortsMeant(ctx: Ctx, sorts: seq<Sort>): seq<OrderRead> {
    seq(|sorts|, i requires 0 <= i < |sorts| => SortMeans(ctx, sorts[i]))
  }

  /** The statement that the plan stands for. */
  function Meant(plan: Plan, ctx: Ctx, where: Condition, sorts: seq<Sort>, conditions: seq<Condition>): Statement
    requires |conditions| == |plan.outerJoins| && AllPaired(plan)
  {
    Statement(plan.columns, plan.keys, plan.table, plan.alias,
              JoinsMean(plan.innerJoins, NoConditions(|plan.innerJoins|)), TreeOf(where), SortsMeant(ctx, sorts),
              plan.limit, plan.offset, plan.outerAlias, JoinsMean(plan.outerJoins, conditions))
  }

  /** The query reads as it is meant if and only if every condition in it is sound or an empty And. */
  lemma {:induction false} ReadsExactlyWhen(d: Dialect, plan: Plan, ctx: Ctx, where: Condition, sorts: seq<Sort>,
                                            conditions: seq<Condition>)
    requires IsPlanOf(d, plan, ctx, where, sorts, conditions)
    ensures AllPaired(plan)
    ensures
      ReadQuery(d, Bind(Erase(Query(plan).text), Query(plan).values)) ==
        Some(Meant(plan, ctx, where, sorts, conditions)) <==>
      SoundIn(where) && forall i :: 0 <= i < |conditions| ==> SoundIn(conditions[i])
  {
    PlanFits(d, plan, ctx, where, sorts, conditions);
    QueryReads(d, plan, ctx, where, sorts, conditions);
    InnerSays(d, plan, ctx, where, sorts, conditions);
    JoinsSayExactlyWhen(d, plan.outerJoins, conditions);
    WhereSaysExactlyWhen(plan, where);
    PartsAgree(plan, ctx, where, sorts, conditions);
  }

  lemma {:induction false} InnerSays(d: Dialect, plan: Plan, ctx: Ctx, where: Condition, sorts: seq<Sort>,
                                     conditions: seq<Condition>)
    requires IsPlanOf(d, plan, ctx, where, sorts, conditions)
    ensures AllPaired(plan)
    ensures JoinsSay(plan.innerJoins, NoConditions(|plan.innerJoins|)) ==
      Some(JoinsMean(plan.innerJoins, NoConditions(|plan.innerJoins|)))
  {
    PlanFits(d, plan, ctx, where, sorts, conditions);
    JoinsSayExactlyWhen(d, plan.innerJoins, NoConditions(|plan.innerJoins|));
  }

  lemma {:induction false} PartsAgree(plan: Plan, ctx: Ctx, where: Condition, sorts: seq<Sort>,
                                      conditions: seq<Condition>)
    requires |conditions| == |plan.outerJoins| && AllPaired(plan) && WriteSorts(ctx, sorts).Some?
    ensures Says(plan, ctx, where, sorts, conditions) == Some(Meant(plan, ctx, where, sorts, conditions)) <==>
      && JoinsSay(plan.innerJoins, NoConditions(|plan.innerJoins|)) ==
           Some(JoinsMean(plan.innerJoins, NoConditions(|plan.innerJoins|)))
      && WhereSays(plan, where) == Some(TreeOf(where))
      && JoinsSay(plan.outerJoins, conditions) == Some(JoinsMean(plan.outerJoins, conditions))
  {
    SortsMean(ctx, sorts);
  }

  lemma {:induction false} SortsMean(ctx: Ctx, sorts: seq<Sort>)
    requires WriteSorts(ctx, sorts).Some?
    ensures SortsSay(ctx, sorts) == SortsMeant(ctx, sorts)
  {
    if sorts != [] {
      assert SortSays(ctx, sorts[0]) == SortMeans(ctx, sorts[0]);
      if |sorts| > 1 {
        SortsMean(ctx, sorts[1..]);
        assert forall i :: 0 < i < |sorts| ==> sorts[i] == sorts[1..][i - 1];
        assert forall i :: 0 < i < |sorts| ==> SortsSay(ctx, sorts)[i] == SortsSay(ctx, sorts[1..])[i - 1];
      }
    }
  }
}
