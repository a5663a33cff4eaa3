/** The visitor that compiles a clause by appending to its text and its values. */
module WhereVisitors {
  import opened Options
  import opened Sql
  import opened Clauses

  lemma EraseConcat(a: seq<Token>, b: seq<Token>)
    ensures Erase(a + b) == Erase(a) + Erase(b)
  {
  }

  lemma {:induction false} EraseFill(ts: seq<Token>, sub: seq<Token>)
    ensures Fill(Erase(ts), Erase(sub)) == Erase(Fill(ts, sub))
  {
    if ts != [] {
      assert Erase(ts)[1..] == Erase(ts[1..]) && (Erase(ts)[0] == Hole <==> ts[0] == Hole);
      if ts[0] == Hole {
        EraseConcat(sub, ts[1..]);
      } else {
        EraseFill(ts[1..], sub);
        EraseConcat([ts[0]], Fill(ts[1..], sub));
      }
    }
  }

  /** `r` and `v` are what a visitor holds after writing `w` onto `r0` and `v0`. */
  ghost predicate Wrote(r0: seq<Token>, v0: seq<Val>, w: Written, r: seq<Token>, v: seq<Val>) {
    r == r0 + Erase(w.text) && v == v0 + w.values
  }

  lemma WroteNothing(r: seq<Token>, v: seq<Val>)
    ensures Wrote(r, v, Plain([]), r, v)
  {
  }

  lemma WroteBoth(r0: seq<Token>, v0: seq<Val>, a: Written, r1: seq<Token>, v1: seq<Val>, b: Written, r2: seq<Token>,
                  v2: seq<Val>)
    requires Wrote(r0, v0, a, r1, v1) && Wrote(r1, v1, b, r2, v2)
    ensures Wrote(r0, v0, Both(a, b), r2, v2)
  {
    EraseConcat(a.text, b.text);
  }

  lemma WroteTokens(r0: seq<Token>, v0: seq<Val>, w: Written, r: seq<Token>, v: seq<Val>, ts: seq<Token>)
    requires Wrote(r0, v0, w, r, v) && forall t :: t in ts ==> !t.Lit?
    ensures Wrote(r0, v0, Both(w, Plain(ts)), r + ts, v)
  {
    assert Erase(ts) == ts && v + [] == v;
    WroteBoth(r0, v0, w, r, v, Plain(ts), r + ts, v);
  }

  lemma BothAssoc(a: Written, b: Written, c: Written)
    ensures Both(Both(a, b), c) == Both(a, Both(b, c)) && Both(a, Plain([])) == a && Both(Plain([]), a) == a
  {
  }

  // ----- What a loop over a list has still to write, after `w`

  ghost predicate JoinedFrom(ctx: Ctx, es: seq<Element>, i: nat, w: Written)
    requires i <= |es|
  {
    WriteJoined(ctx, es) == match WriteJoined(ctx, es[i..]) { case None => None case Some(r) => Some(Both(w, r)) }
  }

  lemma JoinedStep(ctx: Ctx, es: seq<Element>, i: nat, w: Written)
    requires i < |es| && JoinedFrom(ctx, es, i, w)
    ensures WriteElement(ctx, es[i]).None? ==> WriteJoined(ctx, es).None?
    ensures WriteElement(ctx, es[i]).Some? ==>
      var next := Both(w, WriteElement(ctx, es[i]).value);
      JoinedFrom(ctx, es, i + 1, if i < |es| - 1 then Both(next, Plain([Comma])) else next)
  {
    assert es[i..][0] == es[i] && es[i..][1..] == es[i + 1..];
    if WriteElement(ctx, es[i]).Some? {
      var one := WriteElement(ctx, es[i]).value;
      if i < |es| - 1 {
        var rest := WriteJoined(ctx, es[i + 1..]);
        if rest.Some? {
          BothAssoc(w, Both(one, Plain([Comma])), rest.value);
          BothAssoc(w, one, Plain([Comma]));
        }
      } else {
        assert es[i + 1..] == [];
        BothAssoc(Both(w, one), w, w);
      }
    }
  }

  ghost predicate RunFrom(ctx: Ctx, es: seq<Element>, i: nat, w: Written)
    requires i <= |es|
  {
    WriteRun(ctx, es) == match WriteRun(ctx, es[i..]) { case None => None case Some(r) => Some(Both(w, r)) }
  }

  lemma RunStep(ctx: Ctx, es: seq<Element>, i: nat, w: Written)
    requires i < |es| && RunFrom(ctx, es, i, w)
    ensures WriteElement(ctx, es[i]).None? ==> WriteRun(ctx, es).None?
    ensures WriteElement(ctx, es[i]).Some? ==> RunFrom(ctx, es, i + 1, Both(w, WriteElement(ctx, es[i]).value))
  {
    assert es[i..][0] == es[i] && es[i..][1..] == es[i + 1..];
    if WriteElement(ctx, es[i]).Some? && WriteRun(ctx, es[i + 1..]).Some? {
      BothAssoc(w, WriteElement(ctx, es[i]).value, WriteRun(ctx, es[i + 1..]).value);
    }
  }

  ghost predicate RowsFrom(ctx: Ctx, rows: seq<seq<Element>>, i: nat, w: Written)
    requires i <= |rows|
  {
    WriteRows(ctx, rows) == match WriteRows(ctx, rows[i..]) { case None => None case Some(r) => Some(Both(w, r)) }
  }

  lemma RowsStep(ctx: Ctx, rows: seq<seq<Element>>, i: nat, w: Written)
    requires i < |rows| && RowsFrom(ctx, rows, i, w)
    ensures WriteJoined(ctx, rows[i]).None? ==> WriteRows(ctx, rows).None?
    ensures WriteJoined(ctx, rows[i]).Some? ==>
      var next := Both(Both(Both(w, Plain([LP])), WriteJoined(ctx, rows[i]).value), Plain([RP]));
      RowsFrom(ctx, rows, i + 1, if i < |rows| - 1 then Both(next, Plain([Comma])) else next)
  {
    assert rows[i..][0] == rows[i] && rows[i..][1..] == rows[i + 1..];
    if WriteJoined(ctx, rows[i]).Some? {
      var one := WriteJoined(ctx, rows[i]).value;
      var row := Both(Both(Plain([LP]), one), Plain([RP]));
      BothAssoc(w, Plain([LP]), one);
      BothAssoc(w, Both(Plain([LP]), one), Plain([RP]));
      if i < |rows| - 1 {
        var rest := WriteRows(ctx, rows[i + 1..]);
        if rest.Some? {
          BothAssoc(w, Both(row, Plain([Comma])), rest.value);
          BothAssoc(w, row, Plain([Comma]));
        }
      } else {
        assert rows[i + 1..] == [];
        BothAssoc(Both(w, row), w, w);
      }
    }
  }

  ghost predicate ClausesFrom(ctx: Ctx, joiner: Token, cs: seq<Clause>, i: nat, w: Written)
    requires i <= |cs|
  {
    WriteClauses(ctx, joiner, cs) ==
      match WriteClauses(ctx, joiner, cs[i..]) { case None => None case Some(r) => Some(Both(w, r)) }
  }

  lemma ClausesStep(ctx: Ctx, joiner: Token, cs: seq<Clause>, i: nat, w: Written)
    requires i < |cs| && ClausesFrom(ctx, joiner, cs, i, w)
    ensures Write(ctx, cs[i]).None? ==> WriteClauses(ctx, joiner, cs).None?
    ensures Write(ctx, cs[i]).Some? ==>
      var next := Both(w, Write(ctx, cs[i]).value);
      ClausesFrom(ctx, joiner, cs, i + 1, if i < |cs| - 1 then Both(next, Plain([joiner])) else next)
  {
    assert cs[i..][0] == cs[i] && cs[i..][1..] == cs[i + 1..];
    if Write(ctx, cs[i]).Some? {
      var one := Write(ctx, cs[i]).value;
      if i < |cs| - 1 {
        var rest := WriteClauses(ctx, joiner, cs[i + 1..]);
        if rest.Some? {
          BothAssoc(w, Both(one, Plain([joiner])), rest.value);
          BothAssoc(w, one, Plain([joiner]));
        }
      } else {
        assert cs[i + 1..] == [];
        BothAssoc(Both(w, one), w, w);
      }
    }
  }

  class WhereVisitor {
    const ctx: Ctx
    var result: seq<Token>
    var values: seq<Val>

    constructor (ctx: Ctx)
      ensures this.ctx == ctx && result == [] && values == []
    {
      this.ctx, result, values := ctx, [], [];
    }

    /** Compiles a whole clause, if its fields have columns and its lists fit; the visitor is left
        empty again. */
    method Visit(c: Clause) returns (ok: bool, text: seq<Token>, params: seq<Val>)
      modifies this
      ensures ok <==> Compilable(ctx, c)
      ensures ok <==> Write(ctx, c).Some?
      ensures ok ==> text == Erase(Write(ctx, c).value.text) && params == Write(ctx, c).value.values
      ensures ok ==> result == [] && values == []
    {
      result, values := [], [];
      text, params := [], [];
      CompilesExactlyWhen(ctx, c);
      ok := VisitClause(c);
      if ok {
        text, params := result, values;
        result, values := [], [];
      }
    }

    method VisitElement(e: Element) returns (ok: bool)
      modifies this
      ensures ok <==> HasColumns(ctx, e)
      ensures ok <==> WriteElement(ctx, e).Some?
      ensures ok ==> Wrote(old(result), old(values), WriteElement(ctx, e).value, result, values)
      decreases e, 1
    {
      ElementCompiles(ctx, e);
      match e
      case Value(v) =>
        VisitValue(v);
        ok := true;
      case Field(path) =>
        ok := VisitField(path);
      case Method(name, params) =>
        ok := VisitMethod(name, params);
    }

    method VisitValue(v: Val)
      modifies this
      ensures Wrote(old(result), old(values), Written([Lit(v)], [v]), result, values)
    {
      result := result + [Param];
      values := values + [v];
      assert Erase([Lit(v)]) == [Param];
    }

    method VisitField(path: string) returns (ok: bool)
      modifies this
      ensures ok <==> path in ctx.columns
      ensures ok ==> Wrote(old(result), old(values), Plain([Col(ctx.columns[path])]), result, values)
    {
      ok := path in ctx.columns;
      if ok {
        WroteNothing(result, values);
        WroteTokens(result, values, Plain([]), result, values, [Col(ctx.columns[path])]);
        BothAssoc(Plain([Col(ctx.columns[path])]), Plain([]), Plain([]));
        result := result + [Col(ctx.columns[path])];
      }
    }

    method VisitMethod(name: string, params: seq<Element>) returns (ok: bool)
      modifies this
      ensures ok <==> WriteElement(ctx, Method(name, params)).Some?
      ensures ok ==> Wrote(old(result), old(values), WriteElement(ctx, Method(name, params)).value, result, values)
      decreases params, 2
    {
      if Template(ctx.dialect, name).Some? {
        ok := VisitTemplate(Template(ctx.dialect, name).value, params);
      } else {
        ok := VisitCall(name, params);
      }
    }

    /** Fills the driver's template with the parameters, each visited by a visitor of its own. */
    method VisitTemplate(template: seq<Token>, params: seq<Element>) returns (ok: bool)
      requires forall t :: t in template ==> !t.Lit?
      modifies this
      ensures ok <==> WriteFilled(ctx, Plain(template), params).Some?
      ensures ok ==> Wrote(old(result), old(values), WriteFilled(ctx, Plain(template), params).value, result, values)
      decreases params, 0
    {
      var clause := template;
      ghost var w := Plain(template);
      assert Erase(template) == template && params[0..] == params;
      for i := 0 to |params|
        invariant WriteFilled(ctx, Plain(template), params) == WriteFilled(ctx, w, params[i..])
        invariant clause == Erase(w.text) && values == old(values) + w.values && result == old(result)
      {
        assert params[i..][0] == params[i] && params[i..][1..] == params[i + 1..];
        ok, clause, w := FillNext(clause, w, params[i]);
        if !ok {
          return;
        }
      }
      assert params[|params|..] == [];
      result := result + clause;
      ok := true;
    }

    /** Fills one hole with what a visitor of its own writes for the element. */
    method FillNext(clause: seq<Token>, ghost w: Written, e: Element)
      returns (ok: bool, clause': seq<Token>, ghost w': Written)
      requires clause == Erase(w.text)
      modifies this`values
      ensures ok <==> WriteElement(ctx, e).Some?
      ensures ok ==>
        var written := WriteElement(ctx, e).value;
        && w' == Written(Fill(w.text, written.text), w.values + written.values)
        && clause' == Erase(w'.text) && values == old(values) + written.values
      decreases e, 3
    {
      clause', w' := clause, w;
      var sub := new WhereVisitor(ctx);
      ok := sub.VisitElement(e);
      if ok {
        ghost var written := WriteElement(ctx, e).value;
        assert sub.result == Erase(written.text) && sub.values == written.values;
        EraseFill(w.text, written.text);
        clause', values := Fill(clause, sub.result), values + sub.values;
        w' := Written(Fill(w.text, written.text), w.values + written.values);
      }
    }

    method VisitCall(name: string, params: seq<Element>) returns (ok: bool)
      requires Template(ctx.dialect, name).None?
      modifies this
      ensures ok <==> WriteElement(ctx, Method(name, params)).Some?
      ensures ok ==> Wrote(old(result), old(values), WriteElement(ctx, Method(name, params)).value, result, values)
      decreases params, 1
    {
      ghost var r0, v0, w := result, values, Plain([Name(name), LP]);
      WroteNothing(r0, v0);
      WroteTokens(r0, v0, Plain([]), r0, v0, [Name(name), LP]);
      BothAssoc(w, w, w);
      result := result + [Name(name), LP];
      ghost var r1 := result;
      ok := VisitJoined(params);
      if ok {
        WroteBoth(r0, v0, w, r1, v0, WriteJoined(ctx, params).value, result, values);
        WroteTokens(r0, v0, Both(w, WriteJoined(ctx, params).value), result, values, [RP]);
        result := result + [RP];
      }
    }

    /** The elements with a comma after each but the last. */
    method VisitJoined(es: seq<Element>) returns (ok: bool)
      modifies this
      ensures ok <==> WriteJoined(ctx, es).Some?
      ensures ok ==> Wrote(old(result), old(values), WriteJoined(ctx, es).value, result, values)
      decreases es, 0
    {
      ghost var r0, v0, w := result, values, Plain([]);
      WroteNothing(r0, v0);
      assert es[0..] == es;
      if WriteJoined(ctx, es).Some? {
        BothAssoc(WriteJoined(ctx, es).value, w, w);
      }
      for i := 0 to |es|
        invariant Wrote(r0, v0, w, result, values) && JoinedFrom(ctx, es, i, w)
      {
        JoinedStep(ctx, es, i, w);
        ghost var r1, v1 := result, values;
        ok := VisitElement(es[i]);
        if !ok {
          return;
        }
        WroteBoth(r0, v0, w, r1, v1, WriteElement(ctx, es[i]).value, result, values);
        w := Both(w, WriteElement(ctx, es[i]).value);
        if i < |es| - 1 {
          WroteTokens(r0, v0, w, result, values, [Comma]);
          result := result + [Comma];
          w := Both(w, Plain([Comma]));
        }
      }
      assert es[|es|..] == [];
      BothAssoc(w, w, w);
      ok := true;
    }

    method VisitRun(es: seq<Element>) returns (ok: bool)
      modifies this
      ensures ok <==> WriteRun(ctx, es).Some?
      ensures ok ==> Wrote(old(result), old(values), WriteRun(ctx, es).value, result, values)
    {
      ghost var r0, v0, w := result, values, Plain([]);
      WroteNothing(r0, v0);
      assert es[0..] == es;
      if WriteRun(ctx, es).Some? {
        BothAssoc(WriteRun(ctx, es).value, w, w);
      }
      for i := 0 to |es|
        invariant Wrote(r0, v0, w, result, values) && RunFrom(ctx, es, i, w)
      {
        RunStep(ctx, es, i, w);
        ghost var r1, v1 := result, values;
        ok := VisitElement(es[i]);
        if !ok {
          return;
        }
        WroteBoth(r0, v0, w, r1, v1, WriteElement(ctx, es[i]).value, result, values);
        w := Both(w, WriteElement(ctx, es[i]).value);
      }
      assert es[|es|..] == [];
      BothAssoc(w, w, w);
      ok := true;
    }

    method VisitRows(rows: seq<seq<Element>>) returns (ok: bool)
      modifies this
      ensures ok <==> WriteRows(ctx, rows).Some?
      ensures ok ==> Wrote(old(result), old(values), WriteRows(ctx, rows).value, result, values)
    {
      ghost var r0, v0, w := result, values, Plain([]);
      WroteNothing(r0, v0);
      assert rows[0..] == rows;
      if WriteRows(ctx, rows).Some? {
        BothAssoc(WriteRows(ctx, rows).value, w, w);
      }
      for i := 0 to |rows|
        invariant Wrote(r0, v0, w, result, values) && RowsFrom(ctx, rows, i, w)
      {
        RowsStep(ctx, rows, i, w);
        WroteTokens(r0, v0, w, result, values, [LP]);
        result := result + [LP];
        w := Both(w, Plain([LP]));
        ghost var r1, v1 := result, values;
        ok := VisitJoined(rows[i]);
        if !ok {
          return;
        }
        WroteBoth(r0, v0, w, r1, v1, WriteJoined(ctx, rows[i]).value, result, values);
        w := Both(w, WriteJoined(ctx, rows[i]).value);
        WroteTokens(r0, v0, w, result, values, [RP]);
        result := result + [RP];
        w := Both(w, Plain([RP]));
        if i < |rows| - 1 {
          WroteTokens(r0, v0, w, result, values, [Comma]);
          result := result + [Comma];
          w := Both(w, Plain([Comma]));
        }
      }
      assert rows[|rows|..] == [];
      BothAssoc(w, w, w);
      ok := true;
    }

    method VisitCompare(op: Op, left: Element, right: Element) returns (ok: bool)
      modifies this
      ensures ok <==> HasColumns(ctx, left) && HasColumns(ctx, right)
      ensures ok <==> WriteCompare(ctx, op, left, right).Some?
      ensures ok ==> Wrote(old(result), old(values), WriteCompare(ctx, op, left, right).value, result, values)
    {
      ghost var r0, v0 := result, values;
      ok := VisitElement(left);
      if ok {
        ghost var w := WriteElement(ctx, left).value;
        WroteTokens(r0, v0, w, result, values, [Cmp(op)]);
        result := result + [Cmp(op)];
        ghost var r1, v1 := result, values;
        ok := VisitElement(right);
        if ok {
          WroteBoth(r0, v0, Both(w, Plain([Cmp(op)])), r1, v1, WriteElement(ctx, right).value, result, values);
        }
      }
    }

    method VisitClause(c: Clause) returns (ok: bool)
      modifies this
      ensures ok <==> Write(ctx, c).Some?
      ensures ok ==> Wrote(old(result), old(values), Write(ctx, c).value, result, values)
      decreases c, 1
    {
      match c
      case Compare(op, left, right) =>
        ok := VisitCompare(op, left, right);
      case Neq(left, right) =>
        ok := VisitNot(Compare(NullSafeEq, left, right), c);
      case Not(x) =>
        ok := VisitNot(x, c);
      case And(cs) =>
        ok := VisitNode(AndT, cs);
      case Or(cs) =>
        ok := VisitNode(OrT, cs);
      case Truthy(e) =>
        ok := VisitElement(e);
      case In(lefts, rows) =>
        ok := VisitIn(lefts, rows);
    }

    /** Writes the negation of `x`; `c` is the clause that asked for it, either Not or Neq. */
    method VisitNot(x: Clause, ghost c: Clause) returns (ok: bool)
      requires c == Not(x) || (x.Compare? && x.op == NullSafeEq && c == Neq(x.left, x.right))
      modifies this
      ensures ok <==> Write(ctx, c).Some?
      ensures ok ==> Wrote(old(result), old(values), Write(ctx, c).value, result, values)
      decreases c, 0
    {
      ghost var r0, v0, w := result, values, Plain([NotT, LP]);
      WroteNothing(r0, v0);
      WroteTokens(r0, v0, Plain([]), r0, v0, [NotT, LP]);
      BothAssoc(w, w, w);
      result := result + [NotT, LP];
      ghost var r1 := result;
      if x.Compare? {
        ok := VisitCompare(x.op, x.left, x.right);
      } else {
        ok := VisitClause(x);
      }
      if ok {
        ghost var inner := Write(ctx, x).value;
        WroteBoth(r0, v0, w, r1, v0, inner, result, values);
        WroteTokens(r0, v0, Both(w, inner), result, values, [RP]);
        result := result + [RP];
      }
    }

    method VisitNode(joiner: Token, cs: seq<Clause>) returns (ok: bool)
      requires joiner == AndT || joiner == OrT
      modifies this
      ensures ok <==> forall i :: 0 <= i < |cs| ==> Compilable(ctx, cs[i])
      ensures ok <==> WriteNode(ctx, joiner, cs).Some?
      ensures ok ==> Wrote(old(result), old(values), WriteNode(ctx, joiner, cs).value, result, values)
      decreases cs, 1
    {
      ClausesCompile(ctx, joiner, cs);
      ghost var r0, v0, w := result, values, Plain([LP]);
      WroteNothing(r0, v0);
      if |cs| == 0 {
        return true;
      }
      WroteTokens(r0, v0, Plain([]), r0, v0, [LP]);
      BothAssoc(w, w, w);
      result := result + [LP];
      ghost var r1 := result;
      ok := VisitClauses(joiner, cs);
      if ok {
        ghost var inner := WriteClauses(ctx, joiner, cs).value;
        WroteBoth(r0, v0, w, r1, v0, inner, result, values);
        WroteTokens(r0, v0, Both(w, inner), result, values, [RP]);
        result := result + [RP];
      }
    }

    method VisitClauses(joiner: Token, cs: seq<Clause>) returns (ok: bool)
      requires joiner == AndT || joiner == OrT
      modifies this
      ensures ok <==> WriteClauses(ctx, joiner, cs).Some?
      ensures ok ==> Wrote(old(result), old(values), WriteClauses(ctx, joiner, cs).value, result, values)
      decreases cs, 0
    {
      ghost var r0, v0, w := result, values, Plain([]);
      WroteNothing(r0, v0);
      assert cs[0..] == cs;
      if WriteClauses(ctx, joiner, cs).Some? {
        BothAssoc(WriteClauses(ctx, joiner, cs).value, w, w);
      }
      for i := 0 to |cs|
        invariant Wrote(r0, v0, w, result, values) && ClausesFrom(ctx, joiner, cs, i, w)
      {
        ClausesStep(ctx, joiner, cs, i, w);
        ghost var r1, v1 := result, values;
        ok := VisitClause(cs[i]);
        if !ok {
          return;
        }
        WroteBoth(r0, v0, w, r1, v1, Write(ctx, cs[i]).value, result, values);
        w := Both(w, Write(ctx, cs[i]).value);
        if i < |cs| - 1 {
          WroteTokens(r0, v0, w, result, values, [joiner]);
          result := result + [joiner];
          w := Both(w, Plain([joiner]));
        }
      }
      assert cs[|cs|..] == [];
      BothAssoc(w, w, w);
      ok := true;
    }

    method VisitIn(lefts: seq<Element>, rows: seq<seq<Element>>) returns (ok: bool)
      modifies this
      ensures ok <==> rows == [] || (AllHaveColumns(ctx, lefts) && AllRowsFit(ctx, |lefts|, rows))
      ensures ok <==> Write(ctx, In(lefts, rows)).Some?
      ensures ok ==> Wrote(old(result), old(values), Write(ctx, In(lefts, rows)).value, result, values)
    {
      ghost var r0, v0 := result, values;
      CompilesExactlyWhen(ctx, In(lefts, rows));
      WroteNothing(r0, v0);
      if |rows| == 0 {
        WroteTokens(r0, v0, Plain([]), r0, v0, [FalseT]);
        BothAssoc(Plain([FalseT]), Plain([]), Plain([]));
        result := result + [FalseT];
        return true;
      }
      for i := 0 to |rows|
        invariant forall j :: 0 <= j < i ==> |rows[j]| == |lefts|
      {
        if |rows[i]| != |lefts| {
          return false;
        }
      }
      WroteTokens(r0, v0, Plain([]), r0, v0, [LP]);
      BothAssoc(Plain([LP]), Plain([]), Plain([]));
      result := result + [LP];
      ghost var r1 := result;
      ok := VisitRun(lefts);
      if !ok {
        return;
      }
      ghost var l := Both(Plain([LP]), WriteRun(ctx, lefts).value);
      WroteBoth(r0, v0, Plain([LP]), r1, v0, WriteRun(ctx, lefts).value, result, values);
      WroteTokens(r0, v0, l, result, values, [RP, InT, LP]);
      result := result + [RP, InT, LP];
      ghost var r2, v2 := result, values;
      ok := VisitRows(rows);
      if !ok {
        return;
      }
      ghost var r := WriteRows(ctx, rows).value;
      WroteBoth(r0, v0, Both(l, Plain([RP, InT, LP])), r2, v2, r, result, values);
      BothAssoc(l, Plain([RP, InT, LP]), r);
      WroteTokens(r0, v0, Both(l, Both(Plain([RP, InT, LP]), r)), result, values, [RP]);
      result := result + [RP];
    }
  }
}
