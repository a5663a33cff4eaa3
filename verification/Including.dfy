/** The include tree of a query: nested maps of relations, extended in place by the relations that
    its field paths go through. */
module Including {
  import opened Options
  import opened Planning
  import Clauses

  /** What an entry asks for besides its own relations. */
  datatype Settings = Settings(fields: set<string>, filter: Option<Clauses.Clause>, sorts: seq<Clauses.Element>)

  const NO_SETTINGS := Settings({}, None, [])

  datatype Entry = Entry(settings: Settings, relations: Relations?)

  class Relations {
    var entries: map<string, Entry>

    constructor ()
      ensures entries == map[]
    {
      entries := map[];
    }
  }

  // ----- The tree as a value

  /** The settings at each list of relations that is included. */
  type Included = map<seq<string>, Settings>

  predicate IsTree(t: Included) {
    forall p :: p in t ==> p != [] && (|p| > 1 ==> Init(p) in t)
  }

  /** The tree with more lists, those that are new without settings. */
  function Extended(t: Included, lists: set<seq<string>>): Included {
    map p | p in t.Keys + lists :: if p in t then t[p] else NO_SETTINGS
  }

  /** It is the least tree that has the old entries as they were and the relations of every path. */
  lemma LeastTree(t: Included, paths: seq<string>, u: Included)
    requires IsTree(t)
    ensures IsTree(Extended(t, InUse(paths)))
    ensures forall p :: p in t ==> p in Extended(t, InUse(paths)) && Extended(t, InUse(paths))[p] == t[p]
    ensures forall p :: p in Extended(t, InUse(paths)) && p !in t ==>
      Extended(t, InUse(paths))[p] == Settings({}, None, [])
    ensures forall i :: 0 <= i < |paths| && RelationsOf(paths[i]) != [] ==>
      RelationsOf(paths[i]) in Extended(t, InUse(paths))
    ensures IsTree(u) && t.Keys <= u.Keys &&
      (forall i :: 0 <= i < |paths| && RelationsOf(paths[i]) != [] ==> RelationsOf(paths[i]) in u)
      ==> Extended(t, InUse(paths)).Keys <= u.Keys
  {
    forall p | p in InUse(paths)
      ensures p != [] && (|p| > 1 ==> Init(p) in InUse(paths))
    {
      UsedClosed(paths, p);
    }
    forall i | 0 <= i < |paths| && RelationsOf(paths[i]) != []
      ensures RelationsOf(paths[i]) in InUse(paths)
    {
      var rels := RelationsOf(paths[i]);
      assert rels == rels[..|rels|];
      UsedBy(paths, paths[i], rels);
    }
    if IsTree(u) && t.Keys <= u.Keys && forall i :: 0 <= i < |paths| && RelationsOf(paths[i]) != [] ==>
      RelationsOf(paths[i]) in u {
      UsedWithin(paths, u);
    }
  }

  lemma {:induction false} UsedWithin(paths: seq<string>, u: Included)
    requires IsTree(u) && forall i :: 0 <= i < |paths| && RelationsOf(paths[i]) != [] ==> RelationsOf(paths[i]) in u
    ensures InUse(paths) <= u.Keys
  {
    if paths == [] {
    } else {
      var n := |paths| - 1;
      UsedWithin(paths[..n], u);
      forall p | p in Prefixes(RelationsOf(paths[n]))
        ensures p in u
      {
        PrefixWithin(RelationsOf(paths[n]), |p|, u);
        assert p == RelationsOf(paths[n])[..|p|];
      }
    }
  }

  lemma {:induction false} PrefixWithin(rels: seq<string>, n: nat, u: Included)
    requires IsTree(u) && rels in u && 1 <= n <= |rels|
    ensures rels[..n] in u
    decreases |rels| - n
  {
    if n == |rels| {
      assert rels[..n] == rels;
    } else {
      PrefixWithin(rels, n + 1, u);
      assert Init(rels[..n + 1]) == rels[..n];
    }
  }

  /** The same paths in any order, any number of times, include the same. */
  lemma SamePathsSameTree(t: Included, paths: seq<string>, others: seq<string>)
    requires forall p :: p in paths <==> p in others
    ensures Extended(t, InUse(paths)) == Extended(t, InUse(others))
    ensures Extended(Extended(t, InUse(paths)), InUse(others)) == Extended(t, InUse(paths))
  {
    UsedAlso(paths, others);
    UsedAlso(others, paths);
  }

  lemma {:induction false} UsedAlso(paths: seq<string>, others: seq<string>)
    requires forall p :: p in paths ==> p in others
    ensures InUse(paths) <= InUse(others)
  {
    if paths == [] {
    } else {
      var n := |paths| - 1;
      UsedAlso(paths[..n], others);
      forall rels | rels in Prefixes(RelationsOf(paths[n]))
        ensures rels in InUse(others)
      {
        UsedBy(others, paths[n], rels);
      }
    }
  }

  // ----- The maps

  /** The map at each list of relations that has one. */
  type Maps = map<seq<string>, Relations>

  type Contents = map<seq<string>, map<string, Entry>>

  /** Nested maps form a tree: a relation's map is the one its entry holds, every map but the root
      is below another, and no map is in two places. */
  ghost predicate Shaped(root: Relations, maps: Maps, contents: Contents) {
    && contents.Keys == maps.Keys
    && [] in maps && maps[[]] == root
    && (forall p {:trigger IsBelow(maps, p)} :: p in maps ==> IsBelow(maps, p))
    && (forall p, name {:trigger Linked(maps, contents, p, name)} :: p in maps ==> Linked(maps, contents, p, name))
    && (forall p, q :: p in maps && q in maps && maps[p] == maps[q] ==> p == q)
  }

  ghost predicate IsBelow(maps: Maps, p: seq<string>) {
    p != [] ==> Init(p) in maps
  }

  ghost predicate Linked(maps: Maps, contents: Contents, p: seq<string>, name: string)
    requires p in contents
  {
    if name in contents[p] && contents[p][name].relations != null
    then p + [name] in maps && maps[p + [name]] == contents[p][name].relations
    else p + [name] !in maps
  }

  ghost function ContentsOf(maps: Maps): Contents
    reads maps.Values
  {
    map p | p in maps :: maps[p].entries
  }

  ghost predicate Tree(root: Relations, maps: Maps)
    reads maps.Values
  {
    Shaped(root, maps, ContentsOf(maps))
  }

  ghost predicate HasEntry(contents: Contents, p: seq<string>) {
    p != [] && Init(p) in contents && Last(p) in contents[Init(p)]
  }

  /** The tree's value: the settings of its entries. */
  ghost predicate Represents(contents: Contents, t: Included) {
    forall p {:trigger Entered(contents, t, p)} :: Entered(contents, t, p)
  }

  ghost predicate Entered(contents: Contents, t: Included, p: seq<string>) {
    if HasEntry(contents, p) then p in t && t[p] == contents[Init(p)][Last(p)].settings else p !in t
  }

  lemma Snoc(p: seq<string>, name: string, q: seq<string>)
    ensures Init(p + [name]) == p && Last(p + [name]) == name
    ensures q != [] ==> (p + [name] == q <==> p == Init(q) && name == Last(q))
  {
    if q != [] {
      assert q == Init(q) + [Last(q)];
    }
  }

  /** Entering a relation gives it an entry and a map where it has none. */
  lemma ShapedEntered(root: Relations, maps: Maps, contents: Contents, p: seq<string>, name: string, next: Relations)
    requires Shaped(root, maps, contents) && p in maps
    requires p + [name] in maps ==> maps[p + [name]] == next
    requires p + [name] !in maps ==> forall q :: q in maps ==> maps[q] != next
    ensures
      var path := p + [name];
      var settings := if name in contents[p] then contents[p][name].settings else NO_SETTINGS;
      var below := if path in maps then contents[path] else map[];
      var contents' := contents[p := contents[p][name := Entry(settings, next)]][path := below];
      Shaped(root, maps[path := next], contents')
  {
    var path := p + [name];
    var settings := if name in contents[p] then contents[p][name].settings else NO_SETTINGS;
    var below := if path in maps then contents[path] else map[];
    var maps' := maps[path := next];
    var contents': Contents := contents[p := contents[p][name := Entry(settings, next)]][path := below];
    Snoc(p, name, path);
    forall q: seq<string>, other: string | q in maps'
      ensures Linked(maps', contents', q, other)
    {
      LinkedEntered(root, maps, contents, p, name, next, contents', q, other);
    }
    PlacesEntered(root, maps, contents, p, name, next);
  }

  lemma PlacesEntered(root: Relations, maps: Maps, contents: Contents, p: seq<string>, name: string, next: Relations)
    requires Shaped(root, maps, contents) && p in maps
    requires p + [name] in maps ==> maps[p + [name]] == next
    requires p + [name] !in maps ==> forall q :: q in maps ==> maps[q] != next
    ensures
      var maps' := maps[p + [name] := next];
      && maps'[[]] == root
      && (forall q {:trigger IsBelow(maps', q)} :: q in maps' ==> IsBelow(maps', q))
      && forall q, r :: q in maps' && r in maps' && maps'[q] == maps'[r] ==> q == r
  {
    var maps' := maps[p + [name] := next];
    Snoc(p, name, p + [name]);
    forall q | q in maps'
      ensures IsBelow(maps', q)
    {
      if q in maps {
        assert IsBelow(maps, q);
      }
    }
  }

  lemma LinkedEntered(root: Relations, maps: Maps, contents: Contents, p: seq<string>, name: string, next: Relations,
                      contents': Contents, q: seq<string>, other: string)
    requires Shaped(root, maps, contents) && p in maps
    requires p + [name] in maps ==> maps[p + [name]] == next
    requires contents'.Keys == maps.Keys + {p + [name]} && p != p + [name] && q in contents'
    requires forall r :: r in contents && r != p && r != p + [name] ==> contents'[r] == contents[r]
    requires contents'[p + [name]] == if p + [name] in maps then contents[p + [name]] else map[]
    requires name in contents'[p] && contents'[p][name].relations == next &&
      contents'[p] - {name} == contents[p] - {name}
    ensures Linked(maps[p + [name] := next], contents', q, other)
  {
    var path := p + [name];
    Snoc(q, other, path);
    Snoc(p, name, path);
    if q in maps {
      assert Linked(maps, contents, q, other);
      assert q == p && other != name ==>
        (other in contents'[p] <==> other in contents'[p] - {name}) &&
          (other in contents[p] <==> other in contents[p] - {name});
    } else {
      Snoc(q, other, q + [other]);
      assert q + [other] in maps ==> IsBelow(maps, q + [other]);
    }
  }

  lemma EntriesAfter(contents: Contents, t: Included, p: seq<string>, name: string, settings: Settings, next: Relations,
                     below: map<string, Entry>)
    requires p in contents && Represents(contents, t)
    requires settings == if name in contents[p] then contents[p][name].settings else NO_SETTINGS
    requires below == if p + [name] in contents then contents[p + [name]] else map[]
    ensures Represents(contents[p := contents[p][name := Entry(settings, next)]][p + [name] := below],
                       Extended(t, {p + [name]}))
  {
    var path := p + [name];
    var contents' := contents[p := contents[p][name := Entry(settings, next)]][path := below];
    Snoc(p, name, path);
    assert p != path;
    forall q
      ensures Entered(contents', Extended(t, {path}), q)
    {
      assert Entered(contents, t, q);
      Snoc(p, name, q);
      if q != [] && Init(q) == path {
        assert contents'[path] == below;
      }
    }
  }

  /** Goes on to the map of a relation, adding its entry and its map where they are missing. */
  method Descend(current: Relations, name: string) returns (next: Relations)
    modifies current
    ensures
      var entries := old(current.entries);
      var settings := if name in entries then entries[name].settings else NO_SETTINGS;
      && current.entries == entries[name := Entry(settings, next)]
      && if name in entries && entries[name].relations != null then next == entries[name].relations
         else fresh(next) && next.entries == map[]
  {
    if name !in current.entries {
      current.entries := current.entries[name := Entry(NO_SETTINGS, null)];
    }
    var rel := current.entries[name];
    if rel.relations == null {
      next := new Relations();
      rel := rel.(relations := next);
    } else {
      next := rel.relations;
    }
    current.entries := current.entries[name := rel];
  }

  method Enter(root: Relations, ghost maps: Maps, ghost t: Included, ghost p: seq<string>, current: Relations,
               name: string)
    returns (next: Relations, ghost maps': Maps)
    requires Tree(root, maps) && Represents(ContentsOf(maps), t) && p in maps && maps[p] == current
    modifies current
    ensures maps' == maps[p + [name] := next]
    ensures if p + [name] in maps then next == maps[p + [name]] else fresh(next)
    ensures fresh(maps'.Values - maps.Values)
    ensures Tree(root, maps') && Represents(ContentsOf(maps'), Extended(t, {p + [name]}))
  {
    ghost var contents, path := ContentsOf(maps), p + [name];
    assert Linked(maps, contents, p, name);
    Snoc(p, name, path);
    Apart(root, maps, contents, p);
    next := Descend(current, name);
    maps' := maps[path := next];
    ghost var settings := if name in contents[p] then contents[p][name].settings else NO_SETTINGS;
    ghost var below := if path in maps then contents[path] else map[];
    ghost var expected: Contents := contents[p := contents[p][name := Entry(settings, next)]][path := below];
    assert ContentsOf(maps') == expected by {
      OnlyChanged(maps, maps', contents, p, path, expected);
    }
    ShapedEntered(root, maps, contents, p, name, next);
    EntriesAfter(contents, t, p, name, settings, next, below);
  }

  lemma Apart(root: Relations, maps: Maps, contents: Contents, p: seq<string>)
    requires Shaped(root, maps, contents) && p in maps
    ensures forall q :: q in maps && q != p ==> maps[q] != maps[p]
  {
  }

  lemma OnlyChanged(maps: Maps, maps': Maps, contents: Contents, p: seq<string>, path: seq<string>, expected: Contents)
    requires maps'.Keys == maps.Keys + {path} && p in maps && p != path && contents.Keys == maps.Keys
    requires expected.Keys == maps'.Keys
    requires forall q :: q in maps && q != path ==> maps'[q] == maps[q]
    requires forall q :: q in maps && q != p && q != path ==> maps[q].entries == contents[q] == expected[q]
    requires maps'[p].entries == expected[p] && maps'[path].entries == expected[path]
    ensures ContentsOf(maps') == expected
  {
  }

  lemma ExtendedFurther(t: Included, lists: set<seq<string>>, more: set<seq<string>>)
    ensures Extended(Extended(t, lists), more) == Extended(t, lists + more)
  {
  }

  /** Nothing was added but some of the lists; the entries that were there are kept. */
  ghost predicate ExtendedWithin(t: Included, t': Included, lists: set<seq<string>>) {
    exists more: set<seq<string>> :: more <= lists && t' == Extended(t, more)
  }

  lemma PrefixesOfPrefix(rels: seq<string>, n: nat)
    requires n <= |rels|
    ensures Prefixes(rels[..n]) <= Prefixes(rels)
  {
    forall p | p in Prefixes(rels[..n])
      ensures p in Prefixes(rels)
    {
      var i :| 1 <= i <= n && p == rels[..n][..i];
      assert p == rels[..i];
    }
  }

  /** Of the paths so far everything was added, and of the next one some. */
  lemma WithinFurther(t: Included, done: set<seq<string>>, t': Included, next: set<seq<string>>, all: set<seq<string>>)
    requires ExtendedWithin(Extended(t, done), t', next) && done + next <= all
    ensures ExtendedWithin(t, t', all)
  {
    var more: set<seq<string>> :| more <= next && t' == Extended(Extended(t, done), more);
    ExtendedFurther(t, done, more);
    assert done + more <= all;
  }

  lemma {:induction false} InUseOfPrefix(paths: seq<string>, i: nat)
    requires i < |paths|
    ensures InUse(paths[..i]) + Prefixes(RelationsOf(paths[i])) <= InUse(paths)
    decreases |paths|
  {
    var n := |paths| - 1;
    if i < n {
      InUseOfPrefix(paths[..n], i);
      assert paths[..n][..i] == paths[..i];
    }
  }

  /** Enters the next relation of a list. */
  method EnterNext(root: Relations, ghost maps: Maps, ghost t: Included, ghost now: Included, ghost rels: seq<string>,
                   ghost i: nat, current: Relations, name: string)
    returns (next: Relations, ghost maps': Maps, ghost now': Included)
    requires i < |rels| && rels[i] == name && now == Extended(t, Prefixes(rels[..i]))
    requires Tree(root, maps) && Represents(ContentsOf(maps), now) && rels[..i] in maps && maps[rels[..i]] == current
    modifies current
    ensures rels[..i + 1] in maps' && maps'[rels[..i + 1]] == next
    ensures fresh(maps'.Values - maps.Values)
    ensures Tree(root, maps') && Represents(ContentsOf(maps'), now') && now' == Extended(t, Prefixes(rels[..i + 1]))
  {
    PrefixesNext(rels, i);
    assert rels[..i] + [name] == rels[..i + 1];
    ExtendedFurther(t, Prefixes(rels[..i]), {rels[..i + 1]});
    next, maps' := Enter(root, maps, now, rels[..i], current, name);
    now' := Extended(now, {rels[..i + 1]});
  }

  /** Follows the next relation of a list, if there is one of that name. */
  method Follow(root: Relations, ghost maps: Maps, ghost t: Included, ghost now: Included, schema: Schema,
                ghost mapping: string, ghost rels: seq<string>, ghost i: nat, current: string, relations: Relations,
                name: string)
    returns (ok: bool, current': string, next: Relations, ghost maps': Maps, ghost now': Included)
    requires i < |rels| && rels[i] == name && now == Extended(t, Prefixes(rels[..i]))
    requires MappingAt(schema, mapping, rels[..i]) == Some(current)
    requires Tree(root, maps) && Represents(ContentsOf(maps), now) && rels[..i] in maps && maps[rels[..i]] == relations
    modifies relations
    ensures Tree(root, maps') && Represents(ContentsOf(maps'), now') && fresh(maps'.Values - maps.Values)
    ensures !ok ==> MappingAt(schema, mapping, rels).None? && now' == now
    ensures ok ==>
      && MappingAt(schema, mapping, rels[..i + 1]) == Some(current')
      && rels[..i + 1] in maps' && maps'[rels[..i + 1]] == next && now' == Extended(t, Prefixes(rels[..i + 1]))
  {
    ok, current', next, maps', now' := false, current, relations, maps, now;
    MappingNext(schema, mapping, rels, i);
    if name !in schema[current].relations || schema[current].relations[name].target !in schema {
      NoWayOn(schema, mapping, rels, i + 1);
      return;
    }
    ok := true;
    next, maps', now' := EnterNext(root, maps, t, now, rels, i, relations, name);
    current' := schema[current].relations[name].target;
  }

  /** Follows one path, as far as its relations lead. */
  method EnsurePath(root: Relations, ghost maps: Maps, ghost t: Included, schema: Schema, mapping: string, path: string)
    returns (ok: bool, ghost maps': Maps, ghost t': Included)
    requires Tree(root, maps) && Represents(ContentsOf(maps), t) && mapping in schema
    modifies maps.Values
    ensures fresh(maps'.Values - maps.Values)
    ensures Tree(root, maps') && Represents(ContentsOf(maps'), t')
    ensures ok <==> MappingAt(schema, mapping, RelationsOf(path)).Some?
    ensures ok ==> t' == Extended(t, Prefixes(RelationsOf(path)))
    ensures ExtendedWithin(t, t', Prefixes(RelationsOf(path)))
  {
    var parts := Parts(path);
    ghost var rels := RelationsOf(path);
    var currentMapping, currentRelations := mapping, root;
    maps', t' := maps, t;
    assert Extended(t, Prefixes(rels[..0])) == t;
    var i := 0;
    while i < |parts| - 1
      invariant 0 <= i <= |rels|
      invariant MappingAt(schema, mapping, rels[..i]) == Some(currentMapping)
      invariant fresh(maps'.Values - maps.Values)
      invariant Tree(root, maps') && Represents(ContentsOf(maps'), t')
      invariant rels[..i] in maps' && maps'[rels[..i]] == currentRelations
      invariant t' == Extended(t, Prefixes(rels[..i]))
    {
      ok, currentMapping, currentRelations, maps', t' :=
        Follow(root, maps', t, t', schema, mapping, rels, i, currentMapping, currentRelations, parts[i]);
      if !ok {
        PrefixesOfPrefix(rels, i);
        return;
      }
      i := i + 1;
    }
    assert rels[..i] == rels;
    ok := true;
  }

  /** Follows a path unless it is a simple field. */
  method EnsureField(root: Relations, ghost maps: Maps, ghost t: Included, schema: Schema, mapping: string,
                     path: string)
    returns (ok: bool, ghost maps': Maps, ghost t': Included)
    requires Tree(root, maps) && Represents(ContentsOf(maps), t) && mapping in schema
    modifies maps.Values
    ensures fresh(maps'.Values - maps.Values)
    ensures Tree(root, maps') && Represents(ContentsOf(maps'), t')
    ensures ok <==> MappingAt(schema, mapping, RelationsOf(path)).Some?
    ensures ok ==> t' == Extended(t, Prefixes(RelationsOf(path)))
    ensures ExtendedWithin(t, t', Prefixes(RelationsOf(path)))
  {
    if IsSimpleField(path) {
      SimpleIsNoRelation(path);
      ok, maps', t' := true, maps, t;
      assert Prefixes([]) == {} && Extended(t, {}) == t;
    } else {
      ok, maps', t' := EnsurePath(root, maps, t, schema, mapping, path);
    }
  }

  /** The tree to extend: the one given, or an empty one. */
  method Start(relations: Relations?, ghost maps: Maps, ghost t: Included) returns (root: Relations, ghost maps': Maps)
    requires if relations == null then t == map[] else Tree(relations, maps) && Represents(ContentsOf(maps), t)
    ensures if relations == null then fresh(maps'.Values) else root == relations && maps' == maps
    ensures Tree(root, maps') && Represents(ContentsOf(maps'), t)
  {
    if relations == null {
      root := new Relations();
      maps' := map[[] := root];
    } else {
      root, maps' := relations, maps;
    }
  }

  /** Extends the tree by the relations of every path; nothing else of it changes. */
  method EnsureRelations(relations: Relations?, ghost maps: Maps, ghost t: Included, schema: Schema, mapping: string,
                         paths: seq<string>)
    returns (ok: bool, root: Relations, ghost maps': Maps, ghost t': Included)
    requires mapping in schema
    requires if relations == null then t == map[] else Tree(relations, maps) && Represents(ContentsOf(maps), t)
    modifies maps.Values
    ensures relations != null ==> root == relations
    ensures Tree(root, maps') && Represents(ContentsOf(maps'), t')
    ensures ok <==> AllLead(schema, mapping, paths)
    ensures ok ==> t' == Extended(t, InUse(paths))
    ensures ExtendedWithin(t, t', InUse(paths))
  {
    root, maps' := Start(relations, maps, t);
    t' := t;
    assert Extended(t, InUse(paths[..0])) == t;
    for i := 0 to |paths|
      invariant AllLead(schema, mapping, paths[..i])
      invariant fresh(maps'.Values - maps.Values) && (relations == null ==> fresh(maps'.Values))
      invariant Tree(root, maps') && Represents(ContentsOf(maps'), t')
      invariant t' == Extended(t, InUse(paths[..i]))
    {
      LeadsNext(schema, mapping, paths, i);
      ExtendedFurther(t, InUse(paths[..i]), Prefixes(RelationsOf(paths[i])));
      InUseOfPrefix(paths, i);
      ok, maps', t' := EnsureField(root, maps', t', schema, mapping, paths[i]);
      WithinFurther(t, InUse(paths[..i]), t', Prefixes(RelationsOf(paths[i])), InUse(paths));
      if !ok {
        return;
      }
    }
    assert paths[..|paths|] == paths;
    ok := true;
  }
}
