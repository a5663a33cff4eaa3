/** The query for models by key: its compiled condition selects the rows of the keys, if the key has
    one column; over any other number of columns the database cannot read it. */
module Finding {
  import opened Options
  import opened Sql
  import opened Clauses
  import opened WhereMeaning
  import opened WhereTheorems
  import L = Lookups

  /** The columns of a key's fields. */
  function KeyCtx(d: Dialect, fields: seq<string>): Ctx {
    Ctx(d, map f | f in fields :: Column("target", f))
  }

  function Literals(key: seq<int>): seq<Element> {
    seq(|key|, i requires 0 <= i < |key| => Value(N(key[i])))
  }

  /** The fields are one of the keys. */
  function KeyClause(fields: seq<string>, keys: seq<seq<int>>): Clause {
    In(seq(|fields|, i requires 0 <= i < |fields| => Field(fields[i])),
       seq(|keys|, i requires 0 <= i < |keys| => Literals(keys[i])))
  }

  /** A row as a condition sees it: zero is NULL. */
  function RowEnv(row: L.Row): Env {
    Env((c: Column) => if c.tbl == "target" && L.Field(row, c.name) != 0 then N(L.Field(row, c.name)) else NULL,
        (name: string, args: seq<Val>) => NULL)
  }

  /** What the database reads of the text sent to it; none where it cannot be compiled or read. */
  function Condition(ctx: Ctx, c: Clause): Option<Expr> {
    match Write(ctx, c)
    case None => None
    case Some(w) => ParseCondition(ctx.dialect, Bind(Erase(w.text), w.values))
  }

  /** The rows on which a condition is true. */
  function Selected(t: L.Table, condition: Expr): set<int> {
    set id | id in t && Eval(condition, RowEnv(t[id])) !in {NULL, N(0)}
  }

  lemma {:induction false} LiteralsWritten(ctx: Ctx, key: seq<int>)
    ensures WriteJoined(ctx, Literals(key)).Some? && AllWellCalled(ctx.dialect, Literals(key))
  {
    if key != [] {
      assert Literals(key)[1..] == Literals(key[1..]);
      LiteralsWritten(ctx, key[1..]);
    }
  }

  lemma {:induction false} RowsWritten(ctx: Ctx, rows: seq<seq<Element>>, keys: seq<seq<int>>)
    requires |rows| == |keys| && forall i :: 0 <= i < |rows| ==> rows[i] == Literals(keys[i])
    ensures WriteRows(ctx, rows).Some?
  {
    if rows != [] {
      LiteralsWritten(ctx, keys[0]);
      RowsWritten(ctx, rows[1..], keys[1..]);
    }
  }

  lemma {:induction false} FieldsWritten(ctx: Ctx, es: seq<Element>)
    requires forall e :: e in es ==> e.Field? && e.path in ctx.columns
    ensures WriteRun(ctx, es).Some? && AllWellCalled(ctx.dialect, es)
  {
    if es != [] {
      FieldsWritten(ctx, es[1..]);
    }
  }

  lemma KeyClauseWritten(d: Dialect, fields: seq<string>, keys: seq<seq<int>>)
    requires forall key :: key in keys ==> |key| == |fields|
    ensures Write(KeyCtx(d, fields), KeyClause(fields, keys)).Some? && Callable(d, KeyClause(fields, keys))
  {
    var ctx, c := KeyCtx(d, fields), KeyClause(fields, keys);
    FieldsWritten(ctx, c.lefts);
    RowsWritten(ctx, c.rows, keys);
    forall row | row in c.rows
      ensures AllWellCalled(d, row)
    {
      var i :| 0 <= i < |keys| && row == Literals(keys[i]);
      LiteralsWritten(ctx, keys[i]);
    }
  }

  /** The database can read the query exactly if the key has one column. */
  lemma ReadExactlyWhen(d: Dialect, fields: seq<string>, keys: seq<seq<int>>)
    requires keys != [] && forall key :: key in keys ==> |key| == |fields|
    ensures Condition(KeyCtx(d, fields), KeyClause(fields, keys)).Some? <==> |fields| == 1
  {
    var ctx, c := KeyCtx(d, fields), KeyClause(fields, keys);
    KeyClauseWritten(d, fields, keys);
    CompiledExactlyWhen(ctx, c);
    ParsedTree(ctx, c);
  }

  lemma {:induction false} InFirsts(ctx: Ctx, rows: seq<seq<Element>>, keys: seq<seq<int>>, v: Val, env: Env)
    requires |rows| == |keys| && forall i :: 0 <= i < |rows| ==> |keys[i]| == 1 && rows[i] == Literals(keys[i])
    ensures InV(v, Firsts(ctx, rows, env)) !in {NULL, N(0)} <==> v.N? && [v.n] in keys
  {
    if rows != [] {
      InFirsts(ctx, rows[1..], keys[1..], v, env);
      assert Firsts(ctx, rows, env)[0] == N(keys[0][0]) && Firsts(ctx, rows, env)[1..] == Firsts(ctx, rows[1..], env);
      assert v.N? ==> ([v.n] in keys <==> keys[0][0] == v.n || [v.n] in keys[1..]) by {
        assert keys[0] == [keys[0][0]] && keys == [keys[0]] + keys[1..];
      }
    }
  }

  /** For a key of one column the condition is true on exactly the rows with one of the keys. */
  lemma SelectedByKey(d: Dialect, fields: seq<string>, keys: seq<seq<int>>, t: L.Table)
    requires keys != [] && |fields| == 1 && forall key :: key in keys ==> |key| == 1 && L.Populated(key)
    ensures
      var condition := Condition(KeyCtx(d, fields), KeyClause(fields, keys));
      condition.Some? && Selected(t, condition.value) == set id | id in t && L.Values(t[id], fields) in keys
  {
    var ctx, c := KeyCtx(d, fields), KeyClause(fields, keys);
    KeyClauseWritten(d, fields, keys);
    CompiledMeaning(ctx, c, RowEnv(map[]));
    forall id | id in t
      ensures Eval(Condition(ctx, c).value, RowEnv(t[id])) !in {NULL, N(0)} <==> L.Values(t[id], fields) in keys
    {
      OnRow(d, fields, keys, t[id]);
    }
  }

  lemma OnRow(d: Dialect, fields: seq<string>, keys: seq<seq<int>>, row: L.Row)
    requires keys != [] && |fields| == 1 && forall key :: key in keys ==> |key| == 1 && L.Populated(key)
    ensures
      var condition := Condition(KeyCtx(d, fields), KeyClause(fields, keys));
      condition.Some? && (Eval(condition.value, RowEnv(row)) !in {NULL, N(0)} <==> L.Values(row, fields) in keys)
  {
    var ctx, c := KeyCtx(d, fields), KeyClause(fields, keys);
    KeyClauseWritten(d, fields, keys);
    CompiledMeaning(ctx, c, RowEnv(row));
    MeaningOnRow(d, fields, keys, row);
  }

  lemma MeaningOnRow(d: Dialect, fields: seq<string>, keys: seq<seq<int>>, row: L.Row)
    requires keys != [] && |fields| == 1 && forall key :: key in keys ==> |key| == 1 && L.Populated(key)
    ensures
      Meaning(KeyCtx(d, fields), KeyClause(fields, keys), RowEnv(row)) !in {NULL, N(0)} <==>
        L.Values(row, fields) in keys
  {
    var ctx, c := KeyCtx(d, fields), KeyClause(fields, keys);
    InFirsts(ctx, c.rows, keys, ElementValue(ctx, c.lefts[0], RowEnv(row)), RowEnv(row));
    assert L.Values(row, fields) == [L.Field(row, fields[0])];
    forall key | key in keys
      ensures key != [0]
    {
      assert key[0] != 0;
    }
  }
}
