/**
  gee's `Engine` and `RouterGroup`: groups with a path prefix and their own
  middlewares, route registration through a group, and `ServeHTTP`, which
  collects the middlewares of every group whose prefix the request path starts
  with, appends the route's handler and runs the chain.
 */
module Gee {
  import opened Options
  import opened Strings
  import opened Contexts
  import opened Chain
  import opened Trie
  import opened Routing

  class RouterGroup {
    const prefix: string
    var middlewares: seq<Handler>
    const parent: RouterGroup?

    constructor (prefix: string, parent: RouterGroup?)
      ensures this.prefix == prefix && this.parent == parent && middlewares == []
    {
      this.prefix := prefix;
      this.parent := parent;
      middlewares := [];
    }

    /** `group.Use(...)`: append middlewares, which run in registration order. */
    method Use(ms: seq<Handler>)
      modifies this
      ensures middlewares == old(middlewares) + ms
    {
      middlewares := middlewares + ms;
    }
  }

  /** What `ServeHTTP` reads of a group. */
  datatype GroupView = GroupView(prefix: string, middlewares: seq<Handler>)

  function Views(gs: seq<RouterGroup>): seq<GroupView>
    reads gs
  {
    if gs == [] then []
    else
      var g := gs[|gs| - 1];
      Views(gs[..|gs| - 1]) + [GroupView(g.prefix, g.middlewares)]
  }

  /** The views are the groups' prefixes and middlewares, position by position. */
  lemma {:induction false} ViewsAt(gs: seq<RouterGroup>)
    decreases |gs|
    ensures |Views(gs)| == |gs|
    ensures forall i :: 0 <= i < |gs| ==> Views(gs)[i] == GroupView(gs[i].prefix, gs[i].middlewares)
  {
    if gs != [] {
      var init := gs[..|gs| - 1];
      ViewsAt(init);
      assert forall i :: 0 <= i < |init| ==> init[i] == gs[i];
    }
  }

  /** The middlewares `ServeHTTP` collects for `path`: those of every group whose prefix the
      raw path starts with, in the order the groups were created. */
  function Collected(views: seq<GroupView>, path: string): seq<Handler>
  {
    if views == [] then []
    else
      var v := views[|views| - 1];
      Collected(views[..|views| - 1], path) + (if HasPrefix(path, v.prefix) then v.middlewares else [])
  }

  /** Collection distributes over the list of groups ... */
  lemma {:induction false} CollectedAppend(a: seq<GroupView>, b: seq<GroupView>, path: string)
    decreases |b|
    ensures Collected(a + b, path) == Collected(a, path) + Collected(b, path)
  {
    if b == [] {
      assert a + b == a;
    } else {
      var b' := b[..|b| - 1];
      assert (a + b)[..|a + b| - 1] == a + b';
      CollectedAppend(a, b', path);
    }
  }

  /** ... and one group contributes its middlewares exactly when the path starts with
      its prefix. */
  lemma CollectedOne(v: GroupView, path: string)
    ensures Collected([v], path) == if HasPrefix(path, v.prefix) then v.middlewares else []
  {
    assert [v][..0] == [];
  }

  /** A group's middlewares come before those of every later group that also applies. */
  lemma CollectedOrder(views: seq<GroupView>, path: string, i: nat, j: nat)
    requires i < j < |views|
    requires HasPrefix(path, views[i].prefix) && HasPrefix(path, views[j].prefix)
    ensures exists pre, mid, post ::
              Collected(views, path) == pre + views[i].middlewares + mid + views[j].middlewares + post
  {
    var a, b, c, d, e := views[..i], [views[i]], views[i + 1..j], [views[j]], views[j + 1..];
    assert views == a + b + c + d + e;
    CollectedAppend(a + b + c + d, e, path);
    CollectedAppend(a + b + c, d, path);
    CollectedAppend(a + b, c, path);
    CollectedAppend(a, b, path);
    CollectedOne(views[i], path);
    CollectedOne(views[j], path);
    var pre, mid, post := Collected(a, path), Collected(c, path), Collected(e, path);
    assert Collected(views, path) == pre + views[i].middlewares + mid + views[j].middlewares + post;
  }

  /** The root group has the empty prefix, so its middlewares run first for every path. */
  lemma RootRunsFirst(views: seq<GroupView>, path: string)
    requires views != [] && views[0].prefix == ""
    ensures views[0].middlewares <= Collected(views, path)
  {
    assert views == [views[0]] + views[1..];
    CollectedAppend([views[0]], views[1..], path);
    CollectedOne(views[0], path);
  }

  /** The prefix test is on the raw path, not on segments: a "/v2" group also applies to
      "/v2x/hello". */
  lemma RawPrefixMatch(ms: seq<Handler>)
    ensures Collected([GroupView("/v2", ms)], "/v2x/hello") == ms
  {
    CollectedOne(GroupView("/v2", ms), "/v2x/hello");
    assert "/v2x/hello"[..3] == "/v2";
  }

  lemma HasPrefixTrans(s: string, a: string, b: string)
    requires HasPrefix(s, a) && HasPrefix(a, b)
    ensures HasPrefix(s, b)
  {
    assert s[..|b|] == s[..|a|][..|b|];
  }

  class Engine {
    const router: Router
    const root: RouterGroup
    var groups: seq<RouterGroup>

    /** The root group is first and has no prefix; every other group has a registered
        parent whose prefix its own extends. */
    ghost predicate Valid()
      reads this, router
    {
      router.Valid() &&
      |groups| >= 1 && groups[0] == root && root.prefix == "" && root.parent == null &&
      forall g :: g in groups && g.parent != null ==> g.parent in groups && HasPrefix(g.prefix, g.parent.prefix)
    }

    /** `New()`: an empty router and the root group as the only group. */
    constructor ()
      ensures Valid() && fresh(router) && fresh(root)
      ensures router.roots == map[] && router.handlers == map[]
      ensures groups == [root] && root.middlewares == []
    {
      router := new Router();
      root := new RouterGroup("", null);
      new;
      groups := [root];
    }

    /** `group.Group(prefix)`: a new group under `parent`, its prefix the parent's plus
        `prefix`, appended to the engine's list. */
    method Group(parent: RouterGroup, prefix: string) returns (g: RouterGroup)
      requires Valid() && parent in groups
      modifies this
      ensures Valid() && fresh(g)
      ensures g.prefix == parent.prefix + prefix && g.parent == parent && g.middlewares == []
      ensures groups == old(groups) + [g]
    {
      g := new RouterGroup(parent.prefix + prefix, parent);
      HasPrefixOfExtension(g.prefix, parent.prefix, prefix);
      groups := groups + [g];
    }

    /** `group.addRoute(method, comp, handler)`: register under the group's prefix + `comp`. */
    method AddRoute(group: RouterGroup, httpMethod: string, comp: string, handler: Handler)
      requires Valid()
      modifies router
      ensures Valid()
      ensures var pattern := group.prefix + comp;
              router.roots == old(router.roots)[httpMethod := Insert(Base(old(router.roots), httpMethod), pattern, Parse(pattern), 0)] &&
              router.handlers == old(router.handlers)[Key(httpMethod, pattern) := handler]
    {
      var pattern := group.prefix + comp;
      router.AddRoute(httpMethod, pattern, handler);
    }

    /** `group.GET(pattern, handler)`. */
    method Get(group: RouterGroup, comp: string, handler: Handler)
      requires Valid()
      modifies router
      ensures Valid()
      ensures var pattern := group.prefix + comp;
              router.roots == old(router.roots)["GET" := Insert(Base(old(router.roots), "GET"), pattern, Parse(pattern), 0)] &&
              router.handlers == old(router.handlers)[Key("GET", pattern) := handler]
    {
      AddRoute(group, "GET", comp, handler);
    }

    /** `group.POST(pattern, handler)`. */
    method Post(group: RouterGroup, comp: string, handler: Handler)
      requires Valid()
      modifies router
      ensures Valid()
      ensures var pattern := group.prefix + comp;
              router.roots == old(router.roots)["POST" := Insert(Base(old(router.roots), "POST"), pattern, Parse(pattern), 0)] &&
              router.handlers == old(router.handlers)[Key("POST", pattern) := handler]
    {
      AddRoute(group, "POST", comp, handler);
    }

    /** The middleware loop of `ServeHTTP`. */
    method CollectMiddlewares(path: string) returns (ms: seq<Handler>)
      ensures ms == Collected(Views(groups), path)
    {
      ms := [];
      for i := 0 to |groups|
        invariant ms == Collected(Views(groups[..i]), path)
      {
        var g := groups[i];
        assert groups[..i + 1][..i] == groups[..i];
        if HasPrefix(path, g.prefix) {
          ms := ms + g.middlewares;
        }
      }
      assert groups[..|groups|] == groups;
    }

    /** `ServeHTTP`: a fresh context whose chain is the collected middlewares followed by
        the route's handler (or the 404 handler), run from the start. */
    method ServeHTTP(httpMethod: string, path: string) returns (c: Context)
      requires Valid()
      ensures fresh(c) && c.Method == httpMethod && c.Path == path
      ensures c.handlers == Collected(Views(groups), path) + [router.Resolve(httpMethod, path)]
      ensures c.Params == match Route(router.roots, httpMethod, path)
                          case Some(m) => m.params
                          case None => map[]
      ensures c.State() == NextState(c.handlers, Fresh())
    {
      var middlewares := CollectMiddlewares(path);
      c := new Context(httpMethod, path);
      c.handlers := middlewares;
      router.Handle(c);
      assert c.handlers == middlewares + [router.Resolve(httpMethod, path)];
    }
  }

  /** A path under a nested group is under every ancestor, so the ancestors'
      middlewares apply too. */
  lemma ParentSelected(e: Engine, g: RouterGroup, path: string)
    requires e.Valid() && g in e.groups && g.parent != null && HasPrefix(path, g.prefix)
    ensures g.parent in e.groups && HasPrefix(path, g.parent.prefix)
  {
    HasPrefixTrans(path, g.prefix, g.parent.prefix);
  }
}
