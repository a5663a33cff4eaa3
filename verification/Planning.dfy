/** Dotted field paths: the relations they go through, the tables those are joined under, and the
    joins a query needs for its conditions and sorts. */
module Planning {
  import opened Options
  import opened Paths
  import Sql

  /** A relation to another mapping, joined on pairs of columns. */
  datatype RelationMapping = RelationMapping(target: string, columns: map<string, string>)

  datatype Mapping = Mapping(table: string, relations: map<string, RelationMapping>, columns: map<string, string>)

  type Schema = map<string, Mapping>

  datatype Table = Table(name: string, alias: string)

  datatype TableJoin = TableJoin(left: Table, right: Table, on: map<string, string>)

  function Parts(path: string): (parts: seq<string>)
    ensures parts != []
  {
    Split('.', path)
  }

  predicate IsSimpleField(path: string) {
    '.' !in path
  }

  /** The relations a path goes through: all its parts but the last. */
  function RelationsOf(path: string): seq<string> {
    Parts(path)[..|Parts(path)| - 1]
  }

  function Init(p: seq<string>): seq<string>
    requires p != []
  {
    p[..|p| - 1]
  }

  function Last(p: seq<string>): string
    requires p != []
  {
    p[|p| - 1]
  }

  /** The mapping that a list of relations leads to. */
  function MappingAt(schema: Schema, mapping: string, rels: seq<string>): (r: Option<string>)
    ensures r.Some? ==> r.value in schema
  {
    if rels == [] then if mapping in schema then Some(mapping) else None
    else match MappingAt(schema, mapping, Init(rels))
      case None => None
      case Some(m) =>
        if Last(rels) in schema[m].relations && schema[m].relations[Last(rels)].target in schema
        then Some(schema[m].relations[Last(rels)].target)
        else None
  }

  /** A way through the mappings, each leading to the next by a relation of the list. */
  predicate IsWay(schema: Schema, way: seq<string>, rels: seq<string>) {
    && |way| == |rels| + 1 && (forall i :: 0 <= i < |way| ==> way[i] in schema)
    && forall i :: 0 <= i < |rels| ==> IsStepOf(schema, way[i], rels[i], way[i + 1])
  }

  predicate IsStepOf(schema: Schema, from: string, relation: string, to: string) {
    from in schema && relation in schema[from].relations && schema[from].relations[relation].target == to
  }

  /** Relations lead to a mapping exactly if there is a way to it. */
  lemma {:induction false} LeadsExactlyWhen(schema: Schema, mapping: string, rels: seq<string>, to: string)
    ensures MappingAt(schema, mapping, rels) == Some(to) <==>
      exists way :: IsWay(schema, way, rels) && way[0] == mapping && way[|rels|] == to
    decreases |rels|
  {
    if rels == [] {
      if mapping in schema {
        assert IsWay(schema, [mapping], rels);
      }
    } else {
      if MappingAt(schema, mapping, rels) == Some(to) {
        var m := MappingAt(schema, mapping, Init(rels)).value;
        LeadsExactlyWhen(schema, mapping, Init(rels), m);
        var way :| IsWay(schema, way, Init(rels)) && way[0] == mapping && way[|rels| - 1] == m;
        WayFurther(schema, way, rels, to);
      }
      if way :| IsWay(schema, way, rels) && way[0] == mapping && way[|rels|] == to {
        assert IsStepOf(schema, way[|rels| - 1], rels[|rels| - 1], way[|rels|]);
        assert IsWay(schema, way[..|rels|], Init(rels)) by {
          assert forall i :: 0 <= i < |rels| - 1 ==> IsStepOf(schema, way[i], rels[i], way[i + 1]);
        }
        LeadsExactlyWhen(schema, mapping, Init(rels), way[|rels| - 1]);
      }
    }
  }

  lemma WayFurther(schema: Schema, way: seq<string>, rels: seq<string>, to: string)
    requires rels != [] && IsWay(schema, way, Init(rels)) && to in schema
    requires IsStepOf(schema, way[|rels| - 1], Last(rels), to)
    ensures IsWay(schema, way + [to], rels) && (way + [to])[0] == way[0] && (way + [to])[|rels|] == to
  {
    var longer := way + [to];
    forall i | 0 <= i < |rels|
      ensures IsStepOf(schema, longer[i], rels[i], longer[i + 1])
    {
      if i < |rels| - 1 {
        assert IsStepOf(schema, way[i], Init(rels)[i], way[i + 1]);
      }
    }
  }

  function Alias(start: Table, rels: seq<string>): string {
    if rels == [] then start.alias else Join('_', rels)
  }

  function TableAt(schema: Schema, mapping: string, start: Table, rels: seq<string>): Table
    requires MappingAt(schema, mapping, rels).Some?
  {
    if rels == [] then start else Table(schema[MappingAt(schema, mapping, rels).value].table, Alias(start, rels))
  }

  /** The join that reaches the end of a list of relations from the relation before. */
  function JoinAt(schema: Schema, mapping: string, start: Table, rels: seq<string>): TableJoin
    requires rels != [] && MappingAt(schema, mapping, rels).Some?
  {
    var m := MappingAt(schema, mapping, Init(rels)).value;
    TableJoin(TableAt(schema, mapping, start, Init(rels)), TableAt(schema, mapping, start, rels),
              schema[m].relations[Last(rels)].columns)
  }

  /** The column a path names, if it names one. */
  function Resolve(schema: Schema, mapping: string, start: Table, path: string): Option<Sql.Column> {
    match MappingAt(schema, mapping, RelationsOf(path))
    case None => None
    case Some(m) =>
      var field := Last(Parts(path));
      if field in schema[m].columns then Some(Sql.Column(Alias(start, RelationsOf(path)), schema[m].columns[field]))
        else None
  }

  // ----- Joins

  function KeyOf(j: TableJoin): (string, string) {
    (j.left.alias, j.right.alias)
  }

  /** Every join's left table is the start or the right table of an earlier one. */
  ghost predicate Scoped(start: Table, joins: seq<TableJoin>) {
    forall j :: 0 <= j < |joins| ==> IsScoped(start, joins[..j], joins[j].left.alias)
  }

  ghost predicate IsScoped(start: Table, earlier: seq<TableJoin>, alias: string) {
    alias == start.alias || exists k :: 0 <= k < |earlier| && earlier[k].right.alias == alias
  }

  predicate Has(joins: seq<TableJoin>, key: (string, string)) {
    exists k :: 0 <= k < |joins| && KeyOf(joins[k]) == key
  }

  ghost predicate Distinct(joins: seq<TableJoin>) {
    forall j, k :: 0 <= j < k < |joins| ==> KeyOf(joins[j]) != KeyOf(joins[k])
  }

  /** The joins are those of some relation lists, one for each pair of aliases. */
  ghost predicate Joining(schema: Schema, mapping: string, start: Table, lists: set<seq<string>>,
                          joins: seq<TableJoin>) {
    && Scoped(start, joins) && Distinct(joins)
    && (forall rels :: rels in lists ==> IsJoined(schema, mapping, start, rels, joins))
    && (forall j :: 0 <= j < |joins| ==> IsStep(schema, mapping, start, lists, joins[j]))
  }

  ghost predicate IsJoined(schema: Schema, mapping: string, start: Table, rels: seq<string>, joins: seq<TableJoin>) {
    && rels != [] && MappingAt(schema, mapping, rels).Some?
    && Has(joins, KeyOf(JoinAt(schema, mapping, start, rels)))
  }

  ghost predicate IsStep(schema: Schema, mapping: string, start: Table, lists: set<seq<string>>, join: TableJoin) {
    exists rels ::
      rels in lists && rels != [] && MappingAt(schema, mapping, rels).Some? &&
      join == JoinAt(schema, mapping, start, rels)
  }

  /** The beginnings of a relation list. */
  function Prefixes(rels: seq<string>): set<seq<string>> {
    set i | 1 <= i <= |rels| :: rels[..i]
  }

  lemma PrefixesNext(rels: seq<string>, i: nat)
    requires i < |rels|
    ensures Prefixes(rels[..i + 1]) == Prefixes(rels[..i]) + {rels[..i + 1]}
    ensures i > 0 ==> rels[..i] in Prefixes(rels[..i])
  {
    var next := rels[..i + 1];
    assert next[..i + 1] == next;
    forall p | p in Prefixes(rels[..i]) + {next}
      ensures p in Prefixes(next)
    {
      if p != next {
        var k :| 1 <= k <= i && p == rels[..i][..k];
        assert p == next[..k];
      } else {
        assert p == next[..i + 1];
      }
    }
    forall p | p in Prefixes(next)
      ensures p in Prefixes(rels[..i]) + {next}
    {
      var k :| 1 <= k <= i + 1 && p == next[..k];
      if k <= i {
        assert p == rels[..i][..k];
      }
    }
    if i > 0 {
      assert rels[..i] == rels[..i][..i];
    }
  }

  function WithJoin(joins: seq<TableJoin>, join: TableJoin): seq<TableJoin> {
    if Has(joins, KeyOf(join)) then joins else joins + [join]
  }

  lemma JoiningNext(schema: Schema, mapping: string, start: Table, lists: set<seq<string>>, joins: seq<TableJoin>,
                    rels: seq<string>)
    requires Joining(schema, mapping, start, lists, joins)
    requires rels != [] && MappingAt(schema, mapping, rels).Some? && (Init(rels) == [] || Init(rels) in lists)
    ensures Joining(schema, mapping, start, lists + {rels}, WithJoin(joins, JoinAt(schema, mapping, start, rels)))
  {
    var join := JoinAt(schema, mapping, start, rels);
    var joins' := WithJoin(joins, join);
    forall r | r in lists
      ensures IsJoined(schema, mapping, start, r, joins')
    {
      assert IsJoined(schema, mapping, start, r, joins);
      StillHas(joins, join, KeyOf(JoinAt(schema, mapping, start, r)));
    }
    StillHas(joins, join, KeyOf(join));
    forall j | 0 <= j < |joins'|
      ensures IsStep(schema, mapping, start, lists + {rels}, joins'[j])
    {
      if j < |joins| {
        assert IsStep(schema, mapping, start, lists, joins[j]);
      }
    }
    assert IsScoped(start, joins, join.left.alias) by {
      if Init(rels) != [] {
        assert IsJoined(schema, mapping, start, Init(rels), joins);
      }
    }
    ScopedNext(start, joins, join);
  }

  lemma StillHas(joins: seq<TableJoin>, join: TableJoin, key: (string, string))
    ensures Has(WithJoin(joins, join), key) <==> Has(joins, key) || key == KeyOf(join)
  {
    var joins' := WithJoin(joins, join);
    if k :| 0 <= k < |joins| && KeyOf(joins[k]) == key {
      assert joins'[k] == joins[k];
    } else if key == KeyOf(join) {
      assert KeyOf(joins'[|joins|]) == key;
    }
  }

  lemma ScopedNext(start: Table, joins: seq<TableJoin>, join: TableJoin)
    requires Scoped(start, joins) && IsScoped(start, joins, join.left.alias)
    ensures Scoped(start, WithJoin(joins, join))
  {
    var joins' := WithJoin(joins, join);
    forall j | 0 <= j < |joins'|
      ensures IsScoped(start, joins'[..j], joins'[j].left.alias)
    {
      if j < |joins| {
        assert IsScoped(start, joins[..j], joins[j].left.alias) && joins'[..j] == joins[..j];
      } else {
        assert joins'[..j] == joins;
      }
    }
  }

  ghost predicate Seen(seen: set<(string, string)>, joins: seq<TableJoin>) {
    forall key :: key in seen <==> Has(joins, key)
  }

  /** Adds a join unless its pair of aliases was seen. */
  method AddJoin(joins: seq<TableJoin>, seen: set<(string, string)>, join: TableJoin)
    returns (joins': seq<TableJoin>, seen': set<(string, string)>)
    requires Seen(seen, joins)
    ensures joins' == WithJoin(joins, join) && Seen(seen', joins')
  {
    joins', seen' := joins, seen;
    if KeyOf(join) !in seen {
      seen', joins' := seen + {KeyOf(join)}, joins + [join];
    }
    forall key
      ensures key in seen' <==> Has(joins', key)
    {
      StillHas(joins, join, key);
    }
  }

  /** The next relation of a list, from the mapping and the table reached so far. */
  lemma StepNext(schema: Schema, mapping: string, start: Table, rels: seq<string>, i: nat)
    requires i < |rels| && MappingAt(schema, mapping, rels[..i]).Some?
    ensures Init(rels[..i + 1]) == rels[..i] && Last(rels[..i + 1]) == rels[i]
    ensures
      var relations := schema[MappingAt(schema, mapping, rels[..i]).value].relations;
      if rels[i] in relations && relations[rels[i]].target in schema then
        var right := Table(schema[relations[rels[i]].target].table, Join('_', rels[..i + 1]));
        && MappingAt(schema, mapping, rels[..i + 1]) == Some(relations[rels[i]].target)
        && TableAt(schema, mapping, start, rels[..i + 1]) == right
        && JoinAt(schema, mapping, start, rels[..i + 1]) ==
             TableJoin(TableAt(schema, mapping, start, rels[..i]), right, relations[rels[i]].columns)
      else MappingAt(schema, mapping, rels[..i + 1]).None?
  {
    assert Init(rels[..i + 1]) == rels[..i];
  }

  lemma MappingNext(schema: Schema, mapping: string, rels: seq<string>, i: nat)
    requires i < |rels| && MappingAt(schema, mapping, rels[..i]).Some?
    ensures
      var relations := schema[MappingAt(schema, mapping, rels[..i]).value].relations;
      MappingAt(schema, mapping, rels[..i + 1]) ==
        if rels[i] in relations && relations[rels[i]].target in schema then Some(relations[rels[i]].target) else None
  {
    StepNext(schema, mapping, Table("", ""), rels, i);
  }

  /** Where a walk along relations stands: the mapping and the table it reached. */
  ghost predicate Reached(schema: Schema, mapping: string, start: Table, rels: seq<string>, current: string,
                          table: Table) {
    MappingAt(schema, mapping, rels) == Some(current) && TableAt(schema, mapping, start, rels) == table
  }

  /** One step of the walk, with its join. */
  method JoinStep(schema: Schema, mapping: string, start: Table, ghost rels: seq<string>, ghost i: nat,
                  pathParts: seq<string>, current: string, table: Table, joins: seq<TableJoin>,
                  seen: set<(string, string)>, ghost lists: set<seq<string>>)
    returns (ok: bool, current': string, table': Table, joins': seq<TableJoin>, seen': set<(string, string)>)
    requires i < |rels| && pathParts == rels[..i + 1] && Reached(schema, mapping, start, rels[..i], current, table)
    requires Joining(schema, mapping, start, lists + Prefixes(rels[..i]), joins) && Seen(seen, joins)
    ensures ok <==> MappingAt(schema, mapping, rels[..i + 1]).Some?
    ensures ok ==> Reached(schema, mapping, start, rels[..i + 1], current', table')
    ensures ok ==> Joining(schema, mapping, start, lists + Prefixes(rels[..i + 1]), joins') && Seen(seen', joins')
  {
    ok, current', table', joins', seen' := false, current, table, joins, seen;
    StepNext(schema, mapping, start, rels, i);
    var relationName := pathParts[|pathParts| - 1];
    if relationName in schema[current].relations && schema[current].relations[relationName].target in schema {
      ok := true;
      var relation := schema[current].relations[relationName];
      current', table' := relation.target, Table(schema[relation.target].table, Join('_', pathParts));
      PrefixesNext(rels, i);
      JoiningNext(schema, mapping, start, lists + Prefixes(rels[..i]), joins, rels[..i + 1]);
      assert lists + Prefixes(rels[..i]) + {rels[..i + 1]} == lists + Prefixes(rels[..i + 1]);
      joins', seen' := AddJoin(joins, seen, TableJoin(table, table', relation.columns));
    }
  }

  method JoinPath(schema: Schema, mapping: string, start: Table, path: string, joins: seq<TableJoin>,
                  seen: set<(string, string)>, ghost lists: set<seq<string>>)
    returns (ok: bool, joins': seq<TableJoin>, seen': set<(string, string)>)
    requires mapping in schema && Joining(schema, mapping, start, lists, joins) && Seen(seen, joins)
    ensures ok <==> MappingAt(schema, mapping, RelationsOf(path)).Some?
    ensures ok ==> Joining(schema, mapping, start, lists + Prefixes(RelationsOf(path)), joins') && Seen(seen', joins')
  {
    var parts := Parts(path);
    ghost var rels := RelationsOf(path);
    var current, table := mapping, start;
    ok, joins', seen' := true, joins, seen;
    assert lists + Prefixes(rels[..0]) == lists;
    var i := 0;
    while i < |parts| - 1
      invariant 0 <= i <= |rels| && ok
      invariant Reached(schema, mapping, start, rels[..i], current, table)
      invariant Joining(schema, mapping, start, lists + Prefixes(rels[..i]), joins') && Seen(seen', joins')
    {
      assert parts[..i + 1] == rels[..i + 1];
      ok, current, table, joins', seen' :=
        JoinStep(schema, mapping, start, rels, i, parts[..i + 1], current, table, joins', seen', lists);
      if !ok {
        NoWayOn(schema, mapping, rels, i + 1);
        return;
      }
      i := i + 1;
    }
    assert rels[..i] == rels;
  }

  /** When the beginning of a relation list leads nowhere, so does the list. */
  lemma {:induction false} NoWayOn(schema: Schema, mapping: string, rels: seq<string>, n: nat)
    requires n <= |rels| && MappingAt(schema, mapping, rels[..n]).None?
    ensures MappingAt(schema, mapping, rels).None?
    decreases |rels| - n
  {
    if n == |rels| {
      assert rels[..n] == rels;
    } else {
      assert Init(rels[..n + 1]) == rels[..n];
      NoWayOn(schema, mapping, rels, n + 1);
    }
  }

  /** The relation lists the paths use: every beginning of a path's relations. */
  function InUse(paths: seq<string>): set<seq<string>> {
    if paths == [] then {} else InUse(paths[..|paths| - 1]) + Prefixes(RelationsOf(paths[|paths| - 1]))
  }

  lemma {:induction false} UsedBy(paths: seq<string>, path: string, rels: seq<string>)
    requires path in paths && rels in Prefixes(RelationsOf(path))
    ensures rels in InUse(paths)
  {
    var n := |paths| - 1;
    if path != paths[n] {
      assert path in paths[..n];
      UsedBy(paths[..n], path, rels);
    }
  }

  lemma {:induction false} UsedClosed(paths: seq<string>, rels: seq<string>)
    requires rels in InUse(paths)
    ensures rels != [] && (|rels| > 1 ==> Init(rels) in InUse(paths))
  {
    var n := |paths| - 1;
    if rels in InUse(paths[..n]) {
      UsedClosed(paths[..n], rels);
    } else {
      var all := RelationsOf(paths[n]);
      var i :| 1 <= i <= |all| && rels == all[..i];
      if i > 1 {
        assert Init(rels) == all[..i - 1];
        assert Init(rels) in Prefixes(all);
      }
    }
  }

  /** The lists in use are the non-empty beginnings of the paths' relations, and no others. */
  lemma {:induction false} UsedExactlyWhen(paths: seq<string>, rels: seq<string>)
    ensures rels in InUse(paths) <==> rels != [] && exists i :: 0 <= i < |paths| && rels <= RelationsOf(paths[i])
  {
    if rels in InUse(paths) {
      var i := UserOf(paths, rels);
    } else if i :| 0 <= i < |paths| && rels != [] && rels <= RelationsOf(paths[i]) {
      assert rels == RelationsOf(paths[i])[..|rels|];
      UsedBy(paths, paths[i], rels);
    }
  }

  lemma {:induction false} UserOf(paths: seq<string>, rels: seq<string>) returns (i: nat)
    requires rels in InUse(paths)
    ensures i < |paths| && rels != [] && rels <= RelationsOf(paths[i])
  {
    var n := |paths| - 1;
    if rels in InUse(paths[..n]) {
      i := UserOf(paths[..n], rels);
    } else {
      i := n;
    }
  }

  /** A path is its relations and its field, with dots between them. */
  lemma PathParts(path: string)
    ensures Join('.', RelationsOf(path) + [Last(Parts(path))]) == path
    ensures forall p :: p in RelationsOf(path) + [Last(Parts(path))] ==> '.' !in p
  {
    assert RelationsOf(path) + [Last(Parts(path))] == Parts(path);
    JoinSplit('.', "", path);
  }

  lemma SimpleIsNoRelation(path: string)
    requires IsSimpleField(path)
    ensures RelationsOf(path) == []
  {
    assert "" + path == path && path + "" == path;
    SplitPiece('.', "", path, "");
  }

  /** Every path that leads somewhere. */
  predicate AllLead(schema: Schema, mapping: string, paths: seq<string>) {
    forall i :: 0 <= i < |paths| ==> MappingAt(schema, mapping, RelationsOf(paths[i])).Some?
  }

  lemma LeadsNext(schema: Schema, mapping: string, paths: seq<string>, i: nat)
    requires i < |paths| && AllLead(schema, mapping, paths[..i])
    ensures AllLead(schema, mapping, paths[..i + 1]) <==> MappingAt(schema, mapping, RelationsOf(paths[i])).Some?
    ensures AllLead(schema, mapping, paths) ==> AllLead(schema, mapping, paths[..i + 1])
    ensures InUse(paths[..i + 1]) == InUse(paths[..i]) + Prefixes(RelationsOf(paths[i]))
  {
    var next := paths[..i + 1];
    assert next[..i] == paths[..i] && next[i] == paths[i];
    assert forall j :: 0 <= j < i ==> paths[..i][j] == next[j];
  }

  /** The joins the paths need; fails when a relation on the way is missing. */
  method BuildInnerJoins(schema: Schema, mapping: string, start: Table, paths: seq<string>)
    returns (ok: bool, joins: seq<TableJoin>)
    requires mapping in schema
    ensures ok <==> AllLead(schema, mapping, paths)
    ensures ok ==> Joining(schema, mapping, start, InUse(paths), joins)
  {
    joins := [];
    var seen := {};
    for i := 0 to |paths|
      invariant AllLead(schema, mapping, paths[..i])
      invariant Joining(schema, mapping, start, InUse(paths[..i]), joins) && Seen(seen, joins)
    {
      LeadsNext(schema, mapping, paths, i);
      if IsSimpleField(paths[i]) {
        SimpleIsNoRelation(paths[i]);
        assert InUse(paths[..i + 1]) == InUse(paths[..i]);
      } else {
        ok, joins, seen := JoinPath(schema, mapping, start, paths[i], joins, seen, InUse(paths[..i]));
        if !ok {
          return;
        }
      }
    }
    assert paths[..|paths|] == paths;
    ok := true;
  }

  // ----- Aliases

  /** No two relation lists in use are joined under the same alias. */
  ghost predicate NoClash(lists: set<seq<string>>) {
    forall p, q :: p in lists && q in lists && p != [] && q != [] && Join('_', p) == Join('_', q) ==> p == q
  }

  lemma {:induction false} JoinSnoc(sep: char, parts: seq<string>)
    requires |parts| > 1
    ensures Join(sep, parts) == Join(sep, parts[..|parts| - 1]) + [sep] + parts[|parts| - 1]
  {
    if |parts| == 2 {
      assert Join(sep, parts[1..]) == parts[1];
    } else {
      JoinSnoc(sep, parts[1..]);
      assert parts[1..][..|parts| - 2] == parts[..|parts| - 1][1..];
    }
  }

  /** Lists with the same alias and the same alias before the end are the same, or differ before
      the end. */
  lemma SameAliases(p: seq<string>, q: seq<string>)
    requires |p| > 1 && |q| > 1 && Join('_', p) == Join('_', q) && Init(p) == Init(q)
    ensures p == q
  {
    JoinSnoc('_', p);
    JoinSnoc('_', q);
    var front := Join('_', Init(p)) + "_";
    assert Last(p) == Join('_', p)[|front|..] && Last(q) == Join('_', q)[|front|..];
    assert p == Init(p) + [Last(p)] && q == Init(q) + [Last(q)];
  }

  lemma OneName(p: seq<string>, q: seq<string>)
    requires |p| == 1 && |q| == 1 && Join('_', p) == Join('_', q)
    ensures p == q
  {
    assert p == [p[0]] && q == [q[0]];
  }

  /** Where no two lists share an alias, each list in use has its join, from the table of the list
      before it to that of the mapping it leads to, on the columns of its last relation. */
  lemma JoinOfUsed(schema: Schema, mapping: string, start: Table, paths: seq<string>, joins: seq<TableJoin>,
                   rels: seq<string>)
    requires Joining(schema, mapping, start, InUse(paths), joins) && NoClash(InUse(paths)) && rels in InUse(paths)
    ensures exists j :: 0 <= j < |joins| && IsJoinOf(schema, mapping, start, rels, joins[j])
  {
    assert IsJoined(schema, mapping, start, rels, joins);
    var j :| 0 <= j < |joins| && KeyOf(joins[j]) == KeyOf(JoinAt(schema, mapping, start, rels));
    var step := StepOf(schema, mapping, start, InUse(paths), joins[j]);
    assert step == rels;
  }

  /** There are no other joins. */
  lemma StepOf(schema: Schema, mapping: string, start: Table, lists: set<seq<string>>, join: TableJoin)
    returns (rels: seq<string>)
    requires IsStep(schema, mapping, start, lists, join)
    ensures rels in lists && IsJoinOf(schema, mapping, start, rels, join)
    ensures MappingAt(schema, mapping, rels).Some? && join == JoinAt(schema, mapping, start, rels)
  {
    rels :| rels in lists && rels != [] && MappingAt(schema, mapping, rels).Some? &&
      join == JoinAt(schema, mapping, start, rels);
  }

  /** The last relation of the list leads from the mapping before it to this one's table, under the
      names of the relations up to each, and on its own columns. */
  predicate IsJoinOf(schema: Schema, mapping: string, start: Table, rels: seq<string>, join: TableJoin) {
    rels != [] &&
    match MappingAt(schema, mapping, Init(rels))
    case None => false
    case Some(m) =>
      && Last(rels) in schema[m].relations
      && var relation := schema[m].relations[Last(rels)];
         && relation.target in schema && MappingAt(schema, mapping, rels) == Some(relation.target)
         && join.on == relation.columns
         && join.right == Table(schema[relation.target].table, Join('_', rels))
         && join.left == if |rels| == 1 then start else Table(schema[m].table, Join('_', Init(rels)))
  }

  /** Every alias is introduced once: by one join, or as the query's own. */
  ghost predicate Unambiguous(start: Table, joins: seq<TableJoin>) {
    && (forall j, k :: 0 <= j < k < |joins| ==> joins[j].right.alias != joins[k].right.alias)
    && forall j :: 0 <= j < |joins| ==> joins[j].right.alias != start.alias
  }

  lemma UsedIsJoined(schema: Schema, mapping: string, start: Table, paths: seq<string>, joins: seq<TableJoin>,
                     rels: seq<string>)
    requires Joining(schema, mapping, start, InUse(paths), joins) && rels in InUse(paths)
    ensures rels != [] && exists j :: 0 <= j < |joins| && joins[j].right.alias == Join('_', rels)
  {
    UsedClosed(paths, rels);
    assert IsJoined(schema, mapping, start, rels, joins);
    var j :| 0 <= j < |joins| && KeyOf(joins[j]) == KeyOf(JoinAt(schema, mapping, start, rels));
    assert joins[j].right.alias == Join('_', rels);
  }

  /** Two lists in use that share an alias: somewhere an alias is introduced twice. */
  lemma {:induction false} ClashJoins(schema: Schema, mapping: string, start: Table, paths: seq<string>,
                                      joins: seq<TableJoin>, p: seq<string>, q: seq<string>)
    requires Joining(schema, mapping, start, InUse(paths), joins)
    requires p in InUse(paths) && q in InUse(paths) && p != q && p != [] && q != [] && Join('_', p) == Join('_', q)
    ensures !Unambiguous(start, joins)
    decreases |p|
  {
    UsedClosed(paths, p);
    UsedClosed(paths, q);
    assert IsJoined(schema, mapping, start, p, joins) && IsJoined(schema, mapping, start, q, joins);
    if Alias(start, Init(p)) != Alias(start, Init(q)) {
      var j :| 0 <= j < |joins| && KeyOf(joins[j]) == KeyOf(JoinAt(schema, mapping, start, p));
      var k :| 0 <= k < |joins| && KeyOf(joins[k]) == KeyOf(JoinAt(schema, mapping, start, q));
      assert j != k && joins[j].right.alias == joins[k].right.alias;
    } else if |p| > 1 && |q| > 1 {
      if Init(p) == Init(q) {
        SameAliases(p, q);
      } else {
        ClashJoins(schema, mapping, start, paths, joins, Init(p), Init(q));
      }
    } else if |p| == 1 && |q| == 1 {
      OneName(p, q);
    } else {
      UsedIsJoined(schema, mapping, start, paths, joins, Init(if |p| > 1 then p else q));
    }
  }

  /** Each alias is introduced once exactly when no two relation lists in use share an alias and none
      has the query's own. */
  lemma AliasesUniqueExactlyWhen(schema: Schema, mapping: string, start: Table, paths: seq<string>,
                                 joins: seq<TableJoin>)
    requires Joining(schema, mapping, start, InUse(paths), joins)
    ensures Unambiguous(start, joins) <==>
      NoClash(InUse(paths)) && forall r :: r in InUse(paths) ==> Join('_', r) != start.alias
  {
    if r :| r in InUse(paths) && Join('_', r) == start.alias {
      UsedIsJoined(schema, mapping, start, paths, joins, r);
    } else if !NoClash(InUse(paths)) {
      var p, q :| p in InUse(paths) && q in InUse(paths) && p != [] && q != [] && Join('_', p) == Join('_', q) &&
        p != q;
      ClashJoins(schema, mapping, start, paths, joins, p, q);
    } else {
      forall j, k | 0 <= j < k < |joins|
        ensures joins[j].right.alias != joins[k].right.alias
      {
        assert IsStep(schema, mapping, start, InUse(paths), joins[j]) &&
          IsStep(schema, mapping, start, InUse(paths), joins[k]);
      }
      forall j | 0 <= j < |joins|
        ensures joins[j].right.alias != start.alias
      {
        assert IsStep(schema, mapping, start, InUse(paths), joins[j]);
      }
    }
  }

  /** Relation names without underscores never share an alias. */
  lemma UnderscoreFree(lists: set<seq<string>>)
    requires forall p, i :: p in lists && 0 <= i < |p| ==> '_' !in p[i]
    ensures NoClash(lists)
  {
    forall p, q | p in lists && q in lists && p != [] && q != [] && Join('_', p) == Join('_', q)
      ensures p == q
    {
      assert forall x :: x in p ==> Free('_', x);
      assert forall x :: x in q ==> Free('_', x);
      SplitJoin('_', p);
      SplitJoin('_', q);
    }
  }

  /** A relation named with an underscore and a path of two relations can share one. */
  lemma UnderscoresClash()
    ensures !NoClash(InUse(["A_B.F", "A.B.F"]))
  {
    var paths := ["A_B.F", "A.B.F"];
    var p, q := ["A_B"], ["A", "B"];
    assert "A_B.F" == Join('.', ["A_B", "F"]) by {
      assert Join('.', ["A_B", "F"]) == "A_B" + ['.'] + Join('.', ["F"]);
    }
    assert "A.B.F" == Join('.', ["A", "B", "F"]) by {
      assert Join('.', ["B", "F"]) == "B" + ['.'] + Join('.', ["F"]);
      assert Join('.', ["A", "B", "F"]) == "A" + ['.'] + Join('.', ["B", "F"]);
    }
    SplitJoin('.', ["A_B", "F"]);
    SplitJoin('.', ["A", "B", "F"]);
    assert RelationsOf(paths[0]) == p && RelationsOf(paths[1]) == q;
    assert p == p[..1] && q == q[..2];
    assert p in Prefixes(p) && q in Prefixes(q);
    UsedBy(paths, paths[0], p);
    UsedBy(paths, paths[1], q);
    assert Join('_', q) == "A" + ['_'] + Join('_', ["B"]) == "A_B";
  }

  /** Where no alias is shared, the alias a path's column is read from is introduced by one join,
      which is the path's own. */
  lemma ColumnIsJoined(schema: Schema, mapping: string, start: Table, paths: seq<string>, joins: seq<TableJoin>,
                       path: string)
    requires Joining(schema, mapping, start, InUse(paths), joins) && NoClash(InUse(paths))
    requires path in paths && RelationsOf(path) != [] && Resolve(schema, mapping, start, path).Some?
    ensures
      var alias := Resolve(schema, mapping, start, path).value.tbl;
      var join := JoinAt(schema, mapping, start, RelationsOf(path));
      && join.right.alias == alias && join in joins
      && (forall m :: MappingAt(schema, mapping, RelationsOf(path)) == Some(m) && Last(Parts(path)) in schema[m].columns
            ==> Resolve(schema, mapping, start, path).value.name == schema[m].columns[Last(Parts(path))])
      && forall j :: 0 <= j < |joins| && joins[j].right.alias == alias ==> joins[j] == join
  {
    var rels := RelationsOf(path);
    assert rels == rels[..|rels|];
    assert rels in Prefixes(rels);
    UsedBy(paths, path, rels);
    assert IsJoined(schema, mapping, start, rels, joins);
    forall j | 0 <= j < |joins| && joins[j].right.alias == Join('_', rels)
      ensures joins[j] == JoinAt(schema, mapping, start, rels)
    {
      assert IsStep(schema, mapping, start, InUse(paths), joins[j]);
    }
  }
}
