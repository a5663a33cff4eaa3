/** The tree of mounted routes, and the walk that finds the route for a request. */
module Routes {
  import opened Options
  import opened Paths

  /** What is mounted under a key: the route, and the parameter name of its last part. */
  datatype Mounted<R> = Mounted(route: R, param: Option<string>)

  type Mounts<R> = map<seq<string>, Mounted<R>>

  datatype Outcome<R> = Failed | NotFound | Found(route: R, parents: seq<R>, params: map<string, seq<string>>)

  // ----- The walk, on what is mounted

  /** The child a part leads to: the static one if there is one, else the dynamic one. */
  function Child<R>(mounts: Mounts<R>, key: seq<string>, part: string): Option<seq<string>> {
    if key + [part] in mounts then Some(key + [part])
    else if key + [""] in mounts then Some(key + [""])
    else None
  }

  function Collect(params: map<string, seq<string>>, param: Option<string>, part: string): map<string, seq<string>> {
    match param
    case None => params
    case Some(name) => params[name := (if name in params then params[name] else []) + [part]]
  }

  function Walk<R>(mounts: Mounts<R>, key: seq<string>, parts: seq<string>, parents: seq<R>,
                   params: map<string, seq<string>>): Outcome<R>
    requires key in mounts
    decreases |parts|
  {
    if parts == [] then Found(mounts[key].route, parents, params)
    else match Child(mounts, key, parts[0])
      case None => NotFound
      case Some(next) =>
        Walk(mounts, next, parts[1..], parents + [mounts[next].route], Collect(params, mounts[next].param, parts[0]))
  }

  function Serve<R>(mounts: Mounts<R>, path: string): Outcome<R> {
    if [] !in mounts then Failed
    else
      var parts := Split('/', Trim(path));
      if parts == [""] then Found(mounts[[]].route, [], map[])
      else Walk(mounts, [], parts, [mounts[[]].route], map[])
  }

  /** Mounting a route at a path; None when it is refused. */
  function Mount<R>(mounts: Mounts<R>, path: string, route: R): Option<Mounts<R>> {
    var trimmed := Trim(path);
    if trimmed == "" then Some(map[[] := Mounted(route, None)])
    else
      var parts := Split('/', trimmed);
      var key, last := Key(parts), parts[|parts| - 1];
      if [] in mounts && key[..|key| - 1] in mounts &&
        key !in mounts then Some(mounts[key := Mounted(route, IsParam(last))])
      else None
  }

  // ----- The tree

  class Handler<R> {
    const param: Option<string>
    const route: R
    var children: map<string, Handler<R>>

    constructor (param: Option<string>, route: R)
      ensures this.param == param && this.route == route && children == map[]
    {
      this.param, this.route, children := param, route, map[];
    }
  }

  lemma KeysDiffer(k: seq<string>, p: string, key: seq<string>, part: string)
    ensures k + [p] == key + [part] <==> k == key && p == part
  {
    if k + [p] == key + [part] {
      assert (k + [p])[..|k|] == k && (k + [p])[|k|] == p;
      assert (key + [part])[..|key|] == key && (key + [part])[|key|] == part;
    }
  }

  type Nodes<R> = map<seq<string>, Handler<R>>

  /** The children of each handler, by its key. */
  type Kids<R> = map<seq<string>, map<string, Handler<R>>>

  /** Each handler's children are the handlers one part further on, and every handler but the
      root hangs under another. No handler hangs in two places. */
  ghost predicate Shaped<R>(root: Handler?<R>, nodes: Nodes<R>, kids: Kids<R>) {
    && kids.Keys == nodes.Keys
    && (if root == null then nodes == map[] else [] in nodes && nodes[[]] == root)
    && (forall key {:trigger IsBelow(nodes, key)} :: key in nodes ==> IsBelow(nodes, key))
    && (forall key, part {:trigger Linked(nodes, kids, key, part)} :: key in nodes ==> Linked(nodes, kids, key, part))
    && (forall j, k :: j in nodes && k in nodes && nodes[j] == nodes[k] ==> j == k)
  }

  ghost predicate IsBelow<R>(nodes: Nodes<R>, key: seq<string>) {
    key != [] ==> key[..|key| - 1] in nodes
  }

  ghost predicate Linked<R>(nodes: Nodes<R>, kids: Kids<R>, key: seq<string>, part: string)
    requires key in kids
  {
    if part in kids[key] then key + [part] in nodes &&
      kids[key][part] == nodes[key + [part]] else key + [part] !in nodes
  }

  lemma ShapedAfter<R>(root: Handler<R>, nodes: Nodes<R>, kids: Kids<R>, key: seq<string>, part: string, h: Handler<R>)
    requires Shaped(root, nodes, kids) && key in nodes && part !in kids[key] &&
      (forall k :: k in nodes ==> nodes[k] != h)
    ensures Shaped(root, nodes[key + [part] := h], kids[key := kids[key][part := h]][key + [part] := map[]])
  {
    var full := key + [part];
    var nodes', kids' := nodes[full := h], kids[key := kids[key][part := h]][full := map[]];
    KeysDiffer(key, part, key, part);
    assert Linked(nodes, kids, key, part) && full[..|full| - 1] == key;
    forall k, p | k in nodes'
      ensures Linked(nodes', kids', k, p)
    {
      KeysDiffer(k, p, key, part);
      if k in nodes {
        assert Linked(nodes, kids, k, p);
      } else {
        assert (k + [p])[..|k + [p]| - 1] == k;
        assert k + [p] in nodes ==> IsBelow(nodes, k + [p]);
      }
    }
    forall k | k in nodes'
      ensures IsBelow(nodes', k)
    {
      if k in nodes {
        assert IsBelow(nodes, k);
      }
    }
  }

  class HandlerTree<R> {
    var root: Handler?<R>
    /** The handler at each key, the key being the parts on the way from the root. */
    ghost var nodes: Nodes<R>

    ghost function Children(): Kids<R>
      reads this, nodes.Values
    {
      map key | key in nodes :: nodes[key].children
    }

    ghost predicate Valid()
      reads this, nodes.Values
    {
      Shaped(root, nodes, Children())
    }

    ghost function Mounts(): (mounts: Mounts<R>)
      reads this
      ensures mounts.Keys == nodes.Keys
    {
      map key | key in nodes :: Mounted(nodes[key].route, nodes[key].param)
    }

    constructor ()
      ensures Valid() && Mounts() == map[]
    {
      root, nodes := null, map[];
    }

    method Add(path: string, route: R) returns (ok: bool)
      requires Valid()
      modifies this, nodes.Values
      ensures Valid()
      ensures ok <==> Mount(old(Mounts()), path, route).Some?
      ensures Mounts() == if ok then Mount(old(Mounts()), path, route).value else old(Mounts())
    {
      var trimmed := Trim(path);
      if trimmed == "" {
        MountRoot(route);
        ok := true;
      } else if root != null {
        ok := MountParts(Split('/', trimmed), route);
      } else {
        ok := false;
      }
    }

    /** Mounting the root drops whatever was mounted before. */
    method MountRoot(route: R)
      modifies this
      ensures Valid() && Mounts() == map[[] := Mounted(route, None)]
    {
      root := new Handler(None, route);
      nodes := map[[] := root];
    }

    method MountParts(parts: seq<string>, route: R) returns (ok: bool)
      requires Valid() && root != null && parts != []
      modifies this, nodes.Values
      ensures Valid()
      ensures ok <==> Key(parts)[..|parts| - 1] in old(nodes) && Key(parts) !in old(nodes)
      ensures !ok ==> Mounts() == old(Mounts())
      ensures ok ==> Mounts() == old(Mounts())[Key(parts) := Mounted(route, IsParam(parts[|parts| - 1]))]
    {
      var last := |parts| - 1;
      ghost var full := Key(parts);
      var current := Descend(parts);
      if current == null {
        return false;
      }
      assert full[..last] in nodes;
      var pname := IsParam(parts[last]);
      var lastPart := if pname.Some? then "" else parts[last];
      assert full == full[..last] + [lastPart];
      assert Linked(nodes, Children(), full[..last], lastPart);
      if lastPart in current.children {
        return false;
      }
      Attach(current, full[..last], lastPart, pname, route);
      ok := true;
    }

    /** The handler the parts but the last lead to; null when one on the way is missing. */
    method Descend(parts: seq<string>) returns (current: Handler?<R>)
      requires Valid() && root != null && parts != []
      ensures current == null <==> Key(parts)[..|parts| - 1] !in nodes
      ensures current != null ==> nodes[Key(parts)[..|parts| - 1]] == current
    {
      ghost var full := Key(parts);
      ghost var key: seq<string> := [];
      current := root;
      for i := 0 to |parts| - 1
        invariant key == full[..i] && key in nodes && nodes[key] == current
      {
        var part := if IsParam(parts[i]).Some? then "" else parts[i];
        assert full[..i + 1] == key + [part];
        assert Linked(nodes, Children(), key, part);
        if part !in current.children {
          ParentMissing(full, i + 1);
          return null;
        }
        current := current.children[part];
        key := key + [part];
      }
    }

    /** Hangs a new handler under the one at `key`. */
    method Attach(current: Handler<R>, ghost key: seq<string>, part: string, param: Option<string>, route: R)
      requires Valid() && root != null && key in nodes && nodes[key] == current && part !in current.children
      modifies this, nodes.Values
      ensures Valid() && Mounts() == old(Mounts())[key + [part] := Mounted(route, param)]
    {
      ghost var before, kids := nodes, Children();
      assert Linked(nodes, kids, key, part);
      var routeHandler := Hang(current, key, part, param, route);
      ShapedAfter(root, before, kids, key, part, routeHandler);
      assert Mounts() == old(Mounts())[key + [part] := Mounted(route, param)];
    }

    method Hang(current: Handler<R>, ghost key: seq<string>, part: string, param: Option<string>, route: R)
      returns (h: Handler<R>)
      requires key in nodes && nodes[key] == current && key + [part] !in nodes
      requires forall k :: k in nodes && nodes[k] == current ==> k == key
      modifies this`nodes, current
      ensures forall k :: k in old(nodes) ==> old(nodes)[k] != h
      ensures h.route == route && h.param == param
      ensures nodes == old(nodes)[key + [part] := h]
      ensures Children() == old(Children())[key := old(Children())[key][part := h]][key + [part] := map[]]
    {
      h := new Handler(param, route);
      current.children := current.children[part := h];
      ghost var before := nodes;
      nodes := nodes[key + [part] := h];
      ghost var kids: map<seq<string>, map<string, Handler<R>>> := old(Children());
      ghost var longer: map<string, Handler<R>> := kids[key][part := h];
      forall k | k in nodes
        ensures nodes[k].children == kids[key := longer][key + [part] := map[]][k]
      {
        if k == key + [part] {
        } else if k == key {
          assert nodes[k] == current && current != h;
        } else {
          assert nodes[k] == before[k] && before[k] != current && before[k] != h;
        }
      }
    }

    /** When a prefix of a key is not mounted, neither is the key's parent. */
    lemma ParentMissing(key: seq<string>, n: nat)
      requires Valid() && 0 < n < |key| && key[..n] !in nodes
      ensures key[..|key| - 1] !in nodes
      decreases |key| - n
    {
      if n < |key| - 1 {
        assert key[..n + 1][..n] == key[..n];
        assert key[..n + 1] in nodes ==> IsBelow(nodes, key[..n + 1]);
        ParentMissing(key, n + 1);
      }
    }

    method ServeHTTP(path: string) returns (outcome: Outcome<R>)
      requires Valid()
      ensures outcome == Serve(Mounts(), path)
    {
      if root == null {
        return Failed;
      }
      var parts := Split('/', Trim(path));
      if |parts| == 1 && parts[0] == "" {
        return Found(root.route, [], map[]);
      }
      var parents := [root.route];
      var params := map[];
      var current: Handler<R> := root;
      ghost var key: seq<string> := [];
      assert parts[0..] == parts;
      for i := 0 to |parts|
        invariant key in nodes && nodes[key] == current
        invariant Serve(Mounts(), path) == Walk(Mounts(), key, parts[i..], parents, params)
      {
        var part := parts[i];
        assert parts[i..][0] == part && parts[i..][1..] == parts[i + 1..];
        assert Linked(nodes, Children(), key, part) && Linked(nodes, Children(), key, "");
        var step := part;
        if part !in current.children {
          if "" !in current.children {
            return NotFound;
          }
          step := "";
        }
        var child := current.children[step];
        if child.param.Some? {
          var name := child.param.value;
          params := params[name := (if name in params then params[name] else []) + [part]];
        }
        parents := parents + [child.route];
        current := child;
        key := key + [step];
      }
      assert parts[|parts|..] == [];
      outcome := Found(current.route, parents, params);
    }
  }
}
