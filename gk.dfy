/**
 * The engine and its router groups of gk/gk.go: groups with a path prefix and
 * their middlewares, route registration, and the selection of middlewares for
 * a request in ServeHTTP.
 *
 * Middlewares are handlers in the sense of the Dispatch module. The router
 * that gk.go hands routes and contexts to is not part of this model: route
 * registration is kept as a log of what the engine was asked to register.
 */
module Gk {
  import opened Dispatch

  // ---------------------------------------------------------------------------
  // Selecting the middlewares of a request (gk.go lines 41-46)

  /** strings.HasPrefix: s starts with prefix. */
  predicate HasPrefix(s: string, prefix: string) {
    |prefix| <= |s| && s[..|prefix|] == prefix
  }

  /** What ServeHTTP reads of a group: its prefix and its middlewares. */
  datatype GroupInfo = GroupInfo(prefix: string, middlewares: seq<Handler>)

  /** The middlewares a group adds for a request path: all of them when its prefix is a prefix of the path. */
  function Contribution(g: GroupInfo, path: string): (r: seq<Handler>)
    ensures r == [] || r == g.middlewares
    ensures r != [] ==> HasPrefix(path, g.prefix)
  {
    if HasPrefix(path, g.prefix) then g.middlewares else []
  }

  /** The list ServeHTTP builds from the groups gs, one group after the other. */
  function Selected(gs: seq<GroupInfo>, path: string): (r: seq<Handler>)
    ensures r != [] ==> exists i :: 0 <= i < |gs| && HasPrefix(path, gs[i].prefix)
    decreases |gs|
  {
    if gs == [] then [] else Selected(gs[..|gs| - 1], path) + Contribution(gs[|gs| - 1], path)
  }

  /** A reference reading of the same list: keep the groups whose prefix matches, then join their middlewares. */
  function Matching(gs: seq<GroupInfo>, path: string): (ms: seq<GroupInfo>)
    ensures forall g :: g in ms <==> g in gs && HasPrefix(path, g.prefix)
  {
    if gs == [] then []
    else (if HasPrefix(path, gs[0].prefix) then [gs[0]] else []) + Matching(gs[1..], path)
  }

  function Flatten(gs: seq<GroupInfo>): seq<Handler> {
    if gs == [] then [] else gs[0].middlewares + Flatten(gs[1..])
  }

  lemma {:induction false} SelectedAppend(a: seq<GroupInfo>, b: seq<GroupInfo>, path: string)
    ensures Selected(a + b, path) == Selected(a, path) + Selected(b, path)
    decreases |b|
  {
    if b == [] {
      assert a + b == a;
    } else {
      var b' := b[..|b| - 1];
      assert (a + b)[..|a + b| - 1] == a + b';
      assert (a + b)[|a + b| - 1] == b[|b| - 1];
      SelectedAppend(a, b', path);
    }
  }

  /** Selected read from the front: the first group's contribution, then the rest. */
  lemma SelectedCons(g: GroupInfo, gs: seq<GroupInfo>, path: string)
    ensures Selected([g] + gs, path) == Contribution(g, path) + Selected(gs, path)
  {
    SelectedAppend([g], gs, path);
    assert [g][..0] == [];
  }

  /**
   * The list ServeHTTP builds is the concatenation, in the order of the groups,
   * of the middlewares of exactly the groups whose prefix is a string prefix of
   * the request path (gk.go lines 41-46).
   */
  lemma {:induction false} SelectedIsMatchingJoined(gs: seq<GroupInfo>, path: string)
    ensures Selected(gs, path) == Flatten(Matching(gs, path))
    decreases |gs|
  {
    if gs != [] {
      var g := gs[0];
      var rest := Matching(gs[1..], path);
      SelectedIsMatchingJoined(gs[1..], path);
      assert [g] + gs[1..] == gs;
      SelectedCons(g, gs[1..], path);
      if HasPrefix(path, g.prefix) {
        assert Matching(gs, path) == [g] + rest;
        assert ([g] + rest)[1..] == rest;
        assert Flatten([g] + rest) == g.middlewares + Flatten(rest);
      } else {
        assert Matching(gs, path) == [] + rest;
        assert [] + rest == rest;
      }
    }
  }

  /** A middleware is selected if and only if some group whose prefix matches the path has it. */
  lemma {:induction false} SelectedMembers(gs: seq<GroupInfo>, path: string, h: Handler)
    ensures h in Selected(gs, path) <==>
            exists i :: 0 <= i < |gs| && HasPrefix(path, gs[i].prefix) && h in gs[i].middlewares
    decreases |gs|
  {
    if gs != [] {
      var init := gs[..|gs| - 1];
      var last := gs[|gs| - 1];
      SelectedMembers(init, path, h);
      if h in Selected(gs, path) {
        if h !in Selected(init, path) {
          assert HasPrefix(path, gs[|gs| - 1].prefix) && h in gs[|gs| - 1].middlewares;
        } else {
          var i :| 0 <= i < |init| && HasPrefix(path, init[i].prefix) && h in init[i].middlewares;
          assert gs[i] == init[i];
        }
      } else {
        forall i | 0 <= i < |gs| && HasPrefix(path, gs[i].prefix)
          ensures h !in gs[i].middlewares
        {
          if i < |init| {
            assert init[i] == gs[i];
          }
        }
      }
    }
  }

  /** A group with the empty prefix, first in the list, contributes its middlewares first for every path (gk.go lines 43 and 122-123). */
  lemma RootFirst(gs: seq<GroupInfo>, path: string)
    requires |gs| > 0 && gs[0].prefix == ""
    ensures gs[0].middlewares <= Selected(gs, path)
  {
    SelectedIsMatchingJoined(gs, path);
    assert HasPrefix(path, gs[0].prefix);
  }

  /**
   * The test is on raw strings, not on path segments: a group "/api" contributes
   * for "/api/users" and also for "/apix", but not for "/other" (gk.go line 43).
   */
  lemma RawPrefixMatch()
    ensures var root := GroupInfo("", [[Mark(1)]]);
            var api := GroupInfo("/api", [[Mark(2)]]);
            Selected([root, api], "/api/users") == [[Mark(1)], [Mark(2)]] &&
            Selected([root, api], "/apix") == [[Mark(1)], [Mark(2)]] &&
            Selected([root, api], "/other") == [[Mark(1)]]
  {
    var root := GroupInfo("", [[Mark(1)]]);
    var api := GroupInfo("/api", [[Mark(2)]]);
    assert HasPrefix("/api/users", "/api");
    assert HasPrefix("/apix", "/api");
    assert "/other"[..4][1] != "/api"[1];
    SelectedPair(root, api, "/api/users");
    SelectedPair(root, api, "/apix");
    SelectedPair(root, api, "/other");
  }

  lemma SelectedPair(a: GroupInfo, b: GroupInfo, path: string)
    ensures Selected([a, b], path) == Contribution(a, path) + Contribution(b, path)
  {
    SelectedCons(a, [b], path);
    SelectedCons(b, [], path);
    assert [a] + [b] == [a, b];
    assert [b] + [] == [b];
  }

  // ---------------------------------------------------------------------------
  // Engine and groups

  /** One call of router.addRoute, as the engine made it (gk.go line 92). */
  datatype Route = Route(verb: string, pattern: string, handler: Handler)

  /** The prefixes and middlewares of the groups, in order, as ServeHTTP reads them. */
  function Infos(gs: seq<RouterGroup>): (r: seq<GroupInfo>)
    reads gs
    ensures |r| == |gs|
    ensures forall i :: 0 <= i < |gs| ==> r[i] == GroupInfo(gs[i].prefix, gs[i].middlewares)
    decreases |gs|
  {
    if gs == [] then [] else Infos(gs[..|gs| - 1]) + [GroupInfo(gs[|gs| - 1].prefix, gs[|gs| - 1].middlewares)]
  }

  /** One more group read: its prefix and middlewares come after those of the groups before it. */
  lemma InfosStep(gs: seq<RouterGroup>, i: int, path: string)
    requires 0 <= i < |gs|
    ensures var g := GroupInfo(gs[i].prefix, gs[i].middlewares);
            Selected(Infos(gs[..i + 1]), path) == Selected(Infos(gs[..i]), path) + Contribution(g, path)
  {
    assert gs[..i + 1][..i] == gs[..i];
  }

  /** The engine (gk.go lines 16-22); templates are left out and the router is a log of registrations. */
  class Engine {
    var root: RouterGroup?
    var groups: seq<RouterGroup>
    var routes: seq<Route>

    /** The wiring New sets up and Group keeps: the root group first, with the empty prefix, and every group on this engine. */
    predicate Valid()
      reads this
    {
      root != null && |groups| > 0 && groups[0] == root && root.prefix == "" &&
      forall i :: 0 <= i < |groups| ==> groups[i].engine == this
    }

    /** New (gk.go lines 120-125): an engine whose only group is its root group, which points back to it. */
    constructor New()
      ensures Valid() && fresh(root) && groups == [root] && routes == []
      ensures root.prefix == "" && root.middlewares == [] && root.parent == null
    {
      groups := [];
      routes := [];
      root := null;
      new;
      var g := new RouterGroup.Make("", null, this);
      root := g;
      groups := [g];
    }

    /**
     * ServeHTTP (gk.go lines 40-51): select the middlewares of the groups whose
     * prefix matches the path and hand them to a new context with the cursor
     * before the first one. Routing the context is left out.
     */
    method ServeHTTP(req: Request) returns (c: Context)
      ensures fresh(c) && c.handlers == old(Selected(Infos(groups), req.path))
      ensures c.index == -1 && c.Path == req.path && c.Method == req.verb && c.StatusCode == 0
      ensures c.Params == map[] && c.trace == []
    {
      var middlewares := CollectMiddlewares(req.path);
      c := new Context(req);
      c.handlers := middlewares;
    }

    /** On an engine wired as New leaves it, every request's list starts with the root group's middlewares (gk.go lines 43 and 122-123). */
    lemma RootAlwaysSelected(path: string)
      requires Valid()
      ensures root.middlewares <= Selected(Infos(groups), path)
    {
      RootFirst(Infos(groups), path);
    }

    /** The loop of ServeHTTP (gk.go lines 41-46). */
    method CollectMiddlewares(path: string) returns (middlewares: seq<Handler>)
      ensures middlewares == Selected(Infos(groups), path)
    {
      middlewares := [];
      for i := 0 to |groups|
        invariant middlewares == Selected(Infos(groups[..i]), path)
      {
        var g := groups[i];
        if HasPrefix(path, g.prefix) {
          middlewares := middlewares + g.middlewares;
        }
        InfosStep(groups, i, path);
      }
      assert groups[..|groups|] == groups;
    }
  }

  /** A router group (gk.go lines 53-58). */
  class RouterGroup {
    const prefix: string
    var middlewares: seq<Handler>
    const parent: RouterGroup?
    const engine: Engine

    constructor Make(prefix: string, parent: RouterGroup?, engine: Engine)
      ensures this.prefix == prefix && this.parent == parent && this.engine == engine && middlewares == []
    {
      this.prefix := prefix;
      this.parent := parent;
      this.engine := engine;
      middlewares := [];
    }

    /**
     * Group (gk.go lines 62-72): a new group below this one, its prefix this
     * prefix followed by p, appended to the engine's groups.
     */
    method Group(p: string) returns (g: RouterGroup)
      modifies engine
      ensures fresh(g) && g.prefix == prefix + p && g.parent == this && g.engine == engine && g.middlewares == []
      ensures engine.groups == old(engine.groups) + [g]
      ensures engine.root == old(engine.root) && engine.routes == old(engine.routes)
      ensures old(engine.Valid()) ==> engine.Valid()
    {
      g := new RouterGroup.Make(prefix + p, this, engine);
      engine.groups := engine.groups + [g];
    }

    /** Use (gk.go lines 74-76): the middlewares go after those already there. */
    method Use(ms: seq<Handler>)
      modifies this
      ensures middlewares == old(middlewares) + ms
    {
      middlewares := middlewares + ms;
    }

    /** addRoute (gk.go lines 89-93): the route is registered under this group's prefix followed by comp. */
    method AddRoute(verb: string, comp: string, handler: Handler)
      modifies engine
      ensures engine.routes == old(engine.routes) + [Route(verb, prefix + comp, handler)]
      ensures engine.groups == old(engine.groups) && engine.root == old(engine.root)
    {
      var pattern := prefix + comp;
      engine.routes := engine.routes + [Route(verb, pattern, handler)];
    }

    /** GET (gk.go lines 79-81). */
    method GET(pattern: string, handler: Handler)
      modifies engine
      ensures engine.routes == old(engine.routes) + [Route("GET", prefix + pattern, handler)]
      ensures engine.groups == old(engine.groups) && engine.root == old(engine.root)
    {
      AddRoute("GET", pattern, handler);
    }

    /** POST (gk.go lines 84-86). */
    method POST(pattern: string, handler: Handler)
      modifies engine
      ensures engine.routes == old(engine.routes) + [Route("POST", prefix + pattern, handler)]
      ensures engine.groups == old(engine.groups) && engine.root == old(engine.root)
    {
      AddRoute("POST", pattern, handler);
    }
  }
}
