/** Which route a request reaches, stated without the walk. */
module Routing {
  import opened Options
  import opened Paths
  import opened Routes

  /** What successive mounts build: a root, and a parent for every other key. */
  predicate Grown<R>(mounts: Mounts<R>) {
    [] in mounts && forall key :: key in mounts && key != [] ==> key[..|key| - 1] in mounts
  }

  lemma MountGrows<R>(mounts: Mounts<R>, path: string, route: R)
    requires Mount(mounts, path, route).Some? && (mounts == map[] || Grown(mounts))
    ensures Grown(Mount(mounts, path, route).value)
  {
  }

  lemma {:induction false} PrefixMounted<R>(mounts: Mounts<R>, key: seq<string>, n: nat)
    requires Grown(mounts) && key in mounts && n <= |key|
    ensures key[..n] in mounts
    decreases |key| - n
  {
    if n == |key| {
      assert key[..n] == key;
    } else {
      PrefixMounted(mounts, key, n + 1);
      assert key[..n + 1][..n] == key[..n];
    }
  }

  /** Each part of the request is the key's own, or the key is dynamic there and nothing
      static is mounted for that part. */
  predicate Reaches<R>(mounts: Mounts<R>, key: seq<string>, parts: seq<string>) {
    && key in mounts && |key| == |parts|
    && forall i :: 0 <= i < |parts| ==> key[i] == parts[i] || (key[i] == "" && key[..i] + [parts[i]] !in mounts)
  }

  /** The routes on the way to the first `n` parts of a key, the root's first. */
  function Parents<R>(mounts: Mounts<R>, key: seq<string>, n: nat): (routes: seq<R>)
    requires n <= |key| && Grown(mounts) && key in mounts
  {
    PrefixMounted(mounts, key, n);
    if n == 0 then [mounts[[]].route]
    else Parents(mounts, key, n - 1) + [mounts[key[..n]].route]
  }

  /** The first `n` values for the dynamic nodes called `name`, in path order. */
  function Values<R>(mounts: Mounts<R>, key: seq<string>, parts: seq<string>, name: string, n: nat): seq<string>
    requires n <= |key| == |parts| && Grown(mounts) && key in mounts
  {
    if n == 0 then []
    else
      PrefixMounted(mounts, key, n);
      Values(mounts, key, parts, name, n - 1) + if mounts[key[..n]].param == Some(name) then [parts[n - 1]] else []
  }

  ghost predicate Collected<R>(mounts: Mounts<R>, key: seq<string>, parts: seq<string>,
                               params: map<string, seq<string>>, n: nat)
    requires n <= |key| == |parts| && Grown(mounts) && key in mounts
  {
    forall name :: (if name in params then params[name] else []) == Values(mounts, key, parts, name, n)
  }

  /** From the n-th part on, the walk towards a key it reaches ends there. */
  lemma {:induction false} WalkReaches<R>(mounts: Mounts<R>, key: seq<string>, parts: seq<string>, n: nat,
                                          params: map<string, seq<string>>)
    returns (found: map<string, seq<string>>)
    requires Grown(mounts) && Reaches(mounts, key, parts) && n <= |parts|
    requires Collected(mounts, key, parts, params, n)
    ensures key[..n] in mounts
    ensures Walk(mounts, key[..n], parts[n..], Parents(mounts, key, n), params) ==
      Found(mounts[key].route, Parents(mounts, key, |key|), found)
    ensures Collected(mounts, key, parts, found, |key|)
    decreases |parts| - n
  {
    PrefixMounted(mounts, key, n);
    if n == |parts| {
      assert key[..n] == key && parts[n..] == [];
      found := params;
    } else {
      PrefixMounted(mounts, key, n + 1);
      var next := Collect(params, mounts[key[..n + 1]].param, parts[n]);
      CollectOne(mounts, key, parts, params, n);
      found := WalkReaches(mounts, key, parts, n + 1, next);
      WalkStep(mounts, key, parts, n, params);
    }
  }

  lemma WalkStep<R>(mounts: Mounts<R>, key: seq<string>, parts: seq<string>, n: nat, params: map<string, seq<string>>)
    requires Grown(mounts) && Reaches(mounts, key, parts) && n < |parts| && key[..n] in mounts && key[..n + 1] in mounts
    ensures Walk(mounts, key[..n], parts[n..], Parents(mounts, key, n), params)
         == Walk(mounts, key[..n + 1], parts[n + 1..], Parents(mounts, key, n + 1),
                 Collect(params, mounts[key[..n + 1]].param, parts[n]))
  {
    assert key[..n + 1] == key[..n] + [key[n]];
    assert parts[n..][0] == parts[n] && parts[n..][1..] == parts[n + 1..];
    assert Child(mounts, key[..n], parts[n]) == Some(key[..n + 1]);
  }

  lemma CollectOne<R>(mounts: Mounts<R>, key: seq<string>, parts: seq<string>, params: map<string, seq<string>>, n: nat)
    requires n < |key| == |parts| && Grown(mounts) && key in mounts && key[..n + 1] in mounts
    requires Collected(mounts, key, parts, params, n)
    ensures Collected(mounts, key, parts, Collect(params, mounts[key[..n + 1]].param, parts[n]), n + 1)
  {
  }

  /** The key the walk ends at, if it finds one. */
  function WalkKey<R>(mounts: Mounts<R>, key: seq<string>, parts: seq<string>): Option<seq<string>>
    decreases |parts|
  {
    if parts == [] then Some(key)
    else match Child(mounts, key, parts[0])
      case None => None
      case Some(next) => WalkKey(mounts, next, parts[1..])
  }

  lemma {:induction false} WalkFound<R>(mounts: Mounts<R>, key: seq<string>, parts: seq<string>, parents: seq<R>,
                                        params: map<string, seq<string>>)
    requires key in mounts
    ensures Walk(mounts, key, parts, parents, params).Found? <==> WalkKey(mounts, key, parts).Some?
    ensures Walk(mounts, key, parts, parents, params).Found? || Walk(mounts, key, parts, parents, params).NotFound?
    ensures WalkKey(mounts, key, parts).Some? ==> WalkKey(mounts, key, parts).value in mounts
    decreases |parts|
  {
    if parts != [] {
      var c := Child(mounts, key, parts[0]);
      if c.Some? {
        WalkFound(mounts, c.value, parts[1..], parents + [mounts[c.value].route],
                  Collect(params, mounts[c.value].param, parts[0]));
      }
    }
  }

  /** Where the walk ends, it reaches. */
  lemma {:induction false} WalkKeyReaches<R>(mounts: Mounts<R>, parts: seq<string>, n: nat, key: seq<string>)
    requires n == |key| <= |parts| && key in mounts
    requires forall i :: 0 <= i < n ==> key[i] == parts[i] || (key[i] == "" && key[..i] + [parts[i]] !in mounts)
    ensures var end := WalkKey(mounts, key, parts[n..]); end.Some? ==> Reaches(mounts, end.value, parts)
    decreases |parts| - n
  {
    if n < |parts| {
      assert parts[n..][0] == parts[n] && parts[n..][1..] == parts[n + 1..];
      var c := Child(mounts, key, parts[n]);
      if c.Some? {
        var next := c.value;
        assert forall i :: 0 <= i <= n ==> next[..i] == key[..i];
        assert key[..n] == key;
        WalkKeyReaches(mounts, parts, n + 1, next);
      }
    }
  }

  /** A request is answered by a route exactly when some mounted key reaches it; it is then
      that key's route, with the routes on its way as parents and, for each parameter name,
      the values in path order. No key reaching it means not found. */
  lemma ServedExactlyWhen<R>(mounts: Mounts<R>, path: string, parts: seq<string>)
    requires Grown(mounts) && parts == Split('/', Trim(path)) && parts != [""]
    ensures Serve(mounts, path).Found? <==> exists key :: Reaches(mounts, key, parts)
    ensures Serve(mounts, path).NotFound? <==> !exists key :: Reaches(mounts, key, parts)
    ensures forall key :: Reaches(mounts, key, parts) ==>
      Serve(mounts, path).Found?
      && Serve(mounts, path).route == mounts[key].route
      && Serve(mounts, path).parents == Parents(mounts, key, |key|)
      && Collected(mounts, key, parts, Serve(mounts, path).params, |key|)
  {
    assert parts[0..] == parts;
    WalkFound(mounts, [], parts, [mounts[[]].route], map[]);
    WalkKeyReaches(mounts, parts, 0, []);
    forall key | Reaches(mounts, key, parts)
      ensures Serve(mounts, path).Found? && Serve(mounts, path).route == mounts[key].route
      ensures Serve(mounts, path).parents == Parents(mounts, key, |key|)
      ensures Collected(mounts, key, parts, Serve(mounts, path).params, |key|)
    {
      assert key[..0] == [];
      var found := WalkReaches(mounts, key, parts, 0, map[]);
    }
  }

  /** A request for the root reaches the root's route, without parents or parameters; without a root
      every request fails. */
  lemma RootServed<R>(mounts: Mounts<R>, n: nat)
    ensures Serve(mounts, Slashes(n)) ==
      if [] in mounts then Found(mounts[[]].route, [], map[]) else Failed
    ensures [] !in mounts ==> forall path :: Serve(mounts, path) == Failed
  {
    OnlySlashes(n);
  }

  /** A template's parts with a value in place of each parameter. */
  function Filled(template: seq<string>, values: seq<string>): (parts: seq<string>)
    requires |values| == |template|
    ensures |parts| == |template|
    ensures forall i :: 0 <= i < |parts| ==> parts[i] == if IsParam(template[i]).Some? then values[i] else template[i]
  {
    seq(|template|, i requires 0 <= i < |template| => if IsParam(template[i]).Some? then values[i] else template[i])
  }

  /** The parts of a path, without slashes and neither first nor last empty. */
  predicate IsPath(parts: seq<string>) {
    parts != [] && parts[0] != "" && parts[|parts| - 1] != "" && forall p :: p in parts ==> SlashFree(p)
  }

  /** No value names a static route next to its parameter. */
  predicate NoSibling<R>(mounts: Mounts<R>, template: seq<string>, values: seq<string>)
    requires |values| == |template|
  {
    forall i :: 0 <= i < |values| && IsParam(template[i]).Some? ==> Key(template)[..i] + [values[i]] !in mounts
  }

  /** Every mounted template is reached by its path filled with non-empty, slash-free values
      that name no static sibling. */
  lemma TemplateReached<R>(mounts: Mounts<R>, template: seq<string>, values: seq<string>)
    requires Grown(mounts) && IsPath(template) && Key(template) in mounts && |values| == |template|
    requires NoSibling(mounts, template, values)
    requires forall i :: 0 <= i < |values| ==> values[i] != "" && SlashFree(values[i])
    ensures var served := Serve(mounts, "/" + Join('/', Filled(template, values)));
      && served.Found? && served.route == mounts[Key(template)].route
      && served.parents == Parents(mounts, Key(template), |template|)
      && Collected(mounts, Key(template), Filled(template, values), served.params, |template|)
  {
    var parts := Filled(template, values);
    FilledIsPath(template, values);
    PathIsParts(parts);
    assert Reaches(mounts, Key(template), parts);
    ServedExactlyWhen(mounts, "/" + Join('/', parts), parts);
  }

  lemma FilledIsPath(template: seq<string>, values: seq<string>)
    requires IsPath(template) && |values| == |template|
    requires forall i :: 0 <= i < |values| ==> values[i] != "" && SlashFree(values[i])
    ensures IsPath(Filled(template, values)) && Filled(template, values) != [""]
  {
    var parts := Filled(template, values);
    forall p | p in parts
      ensures SlashFree(p)
    {
      var i :| 0 <= i < |parts| && parts[i] == p;
      assert template[i] in template;
    }
  }

  lemma PathIsParts(parts: seq<string>)
    requires IsPath(parts)
    ensures Split('/', Trim("/" + Join('/', parts))) == parts
  {
    PartsOfPath(1, parts, 0);
    assert Slashes(1) + Join('/', parts) + Slashes(0) == "/" + Join('/', parts);
  }

  /** Below the root, a template mounts exactly where its parent is mounted and it is not yet; then
      its key has the route, with the name in braces at its end, and every other key is as it was. */
  lemma MountExactlyWhen<R>(mounts: Mounts<R>, template: seq<string>, route: R)
    requires Grown(mounts) && IsPath(template)
    ensures
      var mount, key := Mount(mounts, "/" + Join('/', template), route), Key(template);
      && (mount.Some? <==> key[..|key| - 1] in mounts && key !in mounts)
      && (mount.Some? ==>
            && Grown(mount.value) && mount.value.Keys == mounts.Keys + {key} && mount.value[key].route == route
            && (forall k :: k in mounts ==> mount.value[k] == mounts[k]))
    ensures
      var mount, last := Mount(mounts, "/" + Join('/', template), route), template[|template| - 1];
      mount.Some? ==> forall name ::
        mount.value[Key(template)].param == Some(name) <==>
          last == "{" + name + "}" && name != "" && '{' !in name && '}' !in name
  {
    var path := "/" + Join('/', template);
    PathIsParts(template);
    assert Split('/', "") == [""];
    forall name
      ensures
        var last := template[|template| - 1];
        IsParam(last) == Some(name) <==> last == "{" + name + "}" && name != "" && '{' !in name && '}' !in name
    {
      ParamExactlyWhen(template[|template| - 1], name);
    }
  }

  /** What was mounted last answers its path, with any non-empty, slash-free values that name no static
      sibling; the parameter at its end, if there is one, has the last value last. */
  lemma MountedServes<R>(mounts: Mounts<R>, template: seq<string>, route: R, values: seq<string>, after: Mounts<R>)
    requires Grown(mounts) && IsPath(template) && |values| == |template|
    requires Mount(mounts, "/" + Join('/', template), route) == Some(after) && NoSibling(after, template, values)
    requires forall i :: 0 <= i < |values| ==> values[i] != "" && SlashFree(values[i])
    ensures Key(template) in after
    ensures
      var served := Serve(after, "/" + Join('/', Filled(template, values)));
      && served.Found? && served.route == route
      && forall name :: after[Key(template)].param == Some(name) ==>
           EndsWith(served.params, name, values[|values| - 1])
  {
    MountExactlyWhen(mounts, template, route);
    TemplateReached(after, template, values);
    var parts := Filled(template, values);
    var served := Serve(after, "/" + Join('/', parts));
    forall name | after[Key(template)].param == Some(name)
      ensures EndsWith(served.params, name, values[|values| - 1])
    {
      LastValue(after, Key(template), parts, served.params, name);
      ParamExactlyWhen(template[|template| - 1], name);
    }
  }

  predicate EndsWith(params: map<string, seq<string>>, name: string, value: string) {
    name in params && params[name] != [] && params[name][|params[name]| - 1] == value
  }

  lemma LastValue<R>(mounts: Mounts<R>, key: seq<string>, parts: seq<string>, params: map<string, seq<string>>,
                     name: string)
    requires Grown(mounts) && key in mounts && |key| == |parts| > 0 && Collected(mounts, key, parts, params, |key|)
    requires mounts[key].param == Some(name)
    ensures EndsWith(params, name, parts[|parts| - 1])
  {
    var n := |key|;
    assert key[..n] == key;
    assert Values(mounts, key, parts, name, n) == Values(mounts, key, parts, name, n - 1) + [parts[n - 1]];
  }

  lemma ReachesOnce<R>(mounts: Mounts<R>, j: seq<string>, k: seq<string>, parts: seq<string>, n: nat)
    requires Grown(mounts) && Reaches(mounts, j, parts) && Reaches(mounts, k, parts) && n <= |parts|
    ensures j[..n] == k[..n]
  {
    if n > 0 {
      ReachesOnce(mounts, j, k, parts, n - 1);
      PrefixMounted(mounts, j, n);
      PrefixMounted(mounts, k, n);
      assert j[..n] == j[..n - 1] + [j[n - 1]] && k[..n] == k[..n - 1] + [k[n - 1]];
    }
  }

  /** At most one key reaches a request. */
  lemma ReachedByOne<R>(mounts: Mounts<R>, j: seq<string>, k: seq<string>, parts: seq<string>)
    requires Grown(mounts) && Reaches(mounts, j, parts) && Reaches(mounts, k, parts)
    ensures j == k
  {
    ReachesOnce(mounts, j, k, parts, |parts|);
    assert j[..|parts|] == j && k[..|parts|] == k;
  }

  /** Mounting a route below the root changes the answer only to requests whose walk now
      passes through it: any other request reaches the same key as before. */
  lemma MountKeepsOthers<R>(mounts: Mounts<R>, path: string, route: R, key: seq<string>, parts: seq<string>)
    requires Grown(mounts) && Mount(mounts, path, route).Some? && Trim(path) != ""
    requires Reaches(mounts, key, parts)
    ensures var added := Key(Split('/', Trim(path)));
      Reaches(Mount(mounts, path, route).value, key, parts)
      || (|added| <= |parts| && key[..|added| - 1] == added[..|added| - 1] && key[|added| - 1] == "" &&
          added[|added| - 1] == parts[|added| - 1])
  {
    var added := Key(Split('/', Trim(path)));
    var after := Mount(mounts, path, route).value;
    if !Reaches(after, key, parts) {
      var i :| 0 <= i < |parts| && key[i] != parts[i] && key[..i] + [parts[i]] in after;
      assert key[..i] + [parts[i]] == added;
      assert added[..i] == key[..i] && added[i] == parts[i];
    }
  }
}
