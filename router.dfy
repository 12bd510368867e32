/**
  gee's `router`: pattern parsing, the handler table keyed by "METHOD-pattern",
  one trie root per method, route lookup with parameter extraction, and dispatch.
 */
module Routing {
  import opened Options
  import opened Strings
  import opened Trie
  import opened Contexts

  // ---------------------------------------------------------------------------
  // parsePattern

  /** The shape of every `parsePattern` result: non-empty, '/'-free segments,
      of which only the last may start with '*'. */
  predicate PatternShape(parts: seq<string>)
  {
    PartsOK(parts) &&
    (forall i :: 0 <= i < |parts| ==> '/' !in parts[i]) &&
    (forall i :: 0 <= i < |parts| - 1 ==> parts[i][0] != '*')
  }

  /** The loop of `parsePattern` over the pieces: drop empty pieces, stop after the first
      piece that starts with '*'. */
  function Keep(items: seq<string>): (r: seq<string>)
    ensures PartsOK(r)
    ensures forall i :: 0 <= i < |r| - 1 ==> r[i][0] != '*'
    ensures forall x :: x in r ==> x in items
  {
    if items == [] then []
    else if items[0] == "" then Keep(items[1..])
    else if items[0][0] == '*' then [items[0]]
    else [items[0]] + Keep(items[1..])
  }

  /** `parsePattern(pattern)`. */
  function Parse(pattern: string): (parts: seq<string>)
    ensures PatternShape(parts)
  {
    var vs := Split(pattern, '/');
    var parts := Keep(vs);
    assert forall i :: 0 <= i < |parts| ==> '/' !in parts[i] by {
      forall i | 0 <= i < |parts| ensures '/' !in parts[i] {
        assert parts[i] in vs;
      }
    }
    parts
  }

  /** `parsePattern` as the Go code does it: a loop with an early `break`. */
  method ParsePattern(pattern: string) returns (parts: seq<string>)
    ensures parts == Parse(pattern)
  {
    var vs := Split(pattern, '/');
    parts := [];
    for i := 0 to |vs|
      invariant parts + Keep(vs[i..]) == Keep(vs)
    {
      var item := vs[i];
      assert vs[i..][1..] == vs[i + 1..];
      if item != "" {
        parts := parts + [item];
        if item[0] == '*' {
          return;
        }
      }
    }
    assert vs[|vs|..] == [];
  }

  /** The pieces of `items` that are not empty, in order. */
  function NonEmpty(items: seq<string>): seq<string>
  {
    if items == [] then []
    else (if items[0] == "" then [] else [items[0]]) + NonEmpty(items[1..])
  }

  /** The parsed segments are the non-empty pieces between '/' in input order, cut right
      after the first one that starts with '*'. */
  lemma {:induction false} KeepIsCutFilter(items: seq<string>)
    ensures Keep(items) <= NonEmpty(items)
    ensures |Keep(items)| < |NonEmpty(items)| ==>
              Keep(items) != [] && Keep(items)[|Keep(items)| - 1][0] == '*'
  {
    if items != [] {
      var k, ne := Keep(items[1..]), NonEmpty(items[1..]);
      KeepIsCutFilter(items[1..]);
      if items[0] == "" {
        assert Keep(items) == k && NonEmpty(items) == ne;
      } else if items[0][0] == '*' {
        assert Keep(items) == [items[0]] && NonEmpty(items) == [items[0]] + ne;
      } else {
        assert Keep(items) == [items[0]] + k && NonEmpty(items) == [items[0]] + ne;
      }
    }
  }

  lemma {:induction false} KeepShaped(xs: seq<string>)
    requires PatternShape(xs)
    ensures Keep(xs) == xs
  {
    if xs != [] {
      if xs[0][0] != '*' {
        assert PatternShape(xs[1..]) by {
          assert forall i :: 0 <= i < |xs[1..]| ==> xs[1..][i] == xs[i + 1];
        }
        KeepShaped(xs[1..]);
        assert [xs[0]] + xs[1..] == xs;
      }
    }
  }

  /** Parsing is stable under re-joining: "/" + the segments joined by '/' parses back
      to the same segments. */
  lemma ParseRejoin(pattern: string)
    ensures Parse("/" + Join(Parse(pattern), '/')) == Parse(pattern)
  {
    var xs := Parse(pattern);
    var s := "/" + Join(xs, '/');
    assert s == [] + ['/'] + Join(xs, '/');
    SplitConcat([], Join(xs, '/'), '/');
    if xs == [] {
      assert Split("", '/') == [""];
      assert Split(s, '/') == ["", ""];
      assert Keep(["", ""]) == Keep([""]) == Keep([]);
    } else {
      SplitJoin(xs, '/');
      assert Split(s, '/') == [""] + xs;
      assert ([""] + xs)[1..] == xs;
      KeepShaped(xs);
    }
  }

  /** Parsing a path written as '/'-separated segments. */
  lemma ParseOfSegments(xs: seq<string>)
    requires |xs| >= 1 && PatternShape(xs)
    ensures Parse("/" + Join(xs, '/')) == xs
  {
    var s := "/" + Join(xs, '/');
    assert s == [] + ['/'] + Join(xs, '/');
    SplitConcat([], Join(xs, '/'), '/');
    SplitJoin(xs, '/');
    assert ([""] + xs)[1..] == xs;
    KeepShaped(xs);
  }

  /** The example from the source's documentation of `parsePattern`. */
  lemma ParseDocExample()
    ensures Parse("/user/:name/*") == ["user", ":name", "*"]
  {
    var xs := ["user", ":name", "*"];
    assert Join(xs, '/') == "user/:name/*" by {
      assert Join(xs[1..], '/') == ":name/*" by {
        assert xs[1..][1..] == ["*"];
      }
    }
    ParseOfSegments(xs);
  }

  /** Segments after the first '*' segment are dropped. */
  lemma ParseDropsAfterCatchAll()
    ensures Parse("/static/*filepath/extra") == ["static", "*filepath"]
  {
    var xs := ["static", "*filepath", "extra"];
    assert Join(xs, '/') == "static/*filepath/extra" by {
      assert Join(xs[1..], '/') == "*filepath/extra" by {
        assert xs[1..][1..] == ["extra"];
      }
    }
    CutAtCatchAll(xs);
  }

  lemma CutAtCatchAll(xs: seq<string>)
    requires xs == ["static", "*filepath", "extra"]
    ensures Parse("/" + Join(xs, '/')) == ["static", "*filepath"]
  {
    var s := "/" + Join(xs, '/');
    assert s == [] + ['/'] + Join(xs, '/');
    SplitConcat([], Join(xs, '/'), '/');
    SplitJoin(xs, '/');
    assert Split(s, '/') == [""] + xs;
    assert ([""] + xs)[1..] == xs;
    assert Keep(xs[1..]) == ["*filepath"] by {
      assert xs[1..][0] == "*filepath";
    }
    assert Keep(xs) == ["static"] + Keep(xs[1..]);
  }

  // ---------------------------------------------------------------------------
  // Parameter extraction (the loop of `getRoute`)

  /** A segment that captures a parameter: `:name`, or `*name` with a non-empty name. */
  predicate Binds(part: string)
    requires part != ""
  {
    part[0] == ':' || (part[0] == '*' && |part| > 1)
  }

  /** The loop over the matched pattern's segments, from segment i, with `acc` filled so far. */
  function Bind(parts: seq<string>, sp: seq<string>, i: nat, acc: map<string, string>): map<string, string>
    requires i <= |parts| <= |sp| && PartsOK(parts)
    decreases |parts| - i
  {
    if i == |parts| then acc
    else
      var part := parts[i];
      if part[0] == ':' then Bind(parts, sp, i + 1, acc[part[1..] := sp[i]])
      else if part[0] == '*' && |part| > 1 then acc[part[1..] := Join(sp[i..], '/')]
      else Bind(parts, sp, i + 1, acc)
  }

  /** The names the segments from i on capture. */
  function BoundNames(parts: seq<string>, i: nat): set<string>
    requires i <= |parts| && PartsOK(parts)
    decreases |parts| - i
  {
    if i == |parts| then {}
    else (if Binds(parts[i]) then {parts[i][1..]} else {}) + BoundNames(parts, i + 1)
  }

  /** What segment i captures: the request segment at i for `:name`, the rest of the
      request joined by '/' for `*name`. */
  function ValueAt(parts: seq<string>, sp: seq<string>, i: nat): string
    requires i < |parts| <= |sp| && PartsOK(parts)
  {
    if parts[i][0] == ':' then sp[i] else Join(sp[i..], '/')
  }

  /** Exactly the `:name` and `*name` segments bind, a bare `*` binds nothing. */
  lemma {:induction false} BindKeys(parts: seq<string>, sp: seq<string>, i: nat, acc: map<string, string>)
    requires i <= |parts| <= |sp| && PatternShape(parts)
    decreases |parts| - i
    ensures Bind(parts, sp, i, acc).Keys == acc.Keys + BoundNames(parts, i)
  {
    if i < |parts| {
      var part := parts[i];
      if part[0] == ':' {
        BindKeys(parts, sp, i + 1, acc[part[1..] := sp[i]]);
      } else if part[0] == '*' && |part| > 1 {
        assert i == |parts| - 1;
        assert BoundNames(parts, i + 1) == {};
      } else {
        BindKeys(parts, sp, i + 1, acc);
      }
    }
  }

  /** A binding segment with no later segment of the same name determines that
      parameter's value (a later segment with the same name overwrites it). */
  lemma {:induction false} BindValue(parts: seq<string>, sp: seq<string>, s: nat, acc: map<string, string>, i: nat)
    requires s <= i < |parts| <= |sp| && PatternShape(parts) && Binds(parts[i])
    requires forall j :: i < j < |parts| && Binds(parts[j]) ==> parts[j][1..] != parts[i][1..]
    decreases |parts| - s
    ensures parts[i][1..] in Bind(parts, sp, s, acc)
    ensures Bind(parts, sp, s, acc)[parts[i][1..]] == ValueAt(parts, sp, i)
  {
    var part := parts[s];
    if s == i {
      if part[0] == ':' {
        BindKeeps(parts, sp, s + 1, acc[part[1..] := sp[s]], part[1..], sp[s]);
      }
    } else if part[0] == ':' {
      BindValue(parts, sp, s + 1, acc[part[1..] := sp[s]], i);
    } else {
      BindValue(parts, sp, s + 1, acc, i);
    }
  }

  /** A value in `acc` survives unless a later segment binds the same name. */
  lemma {:induction false} BindKeeps(parts: seq<string>, sp: seq<string>, s: nat, acc: map<string, string>, name: string, v: string)
    requires s <= |parts| <= |sp| && PatternShape(parts)
    requires name in acc && acc[name] == v
    requires forall j :: s <= j < |parts| && Binds(parts[j]) ==> parts[j][1..] != name
    decreases |parts| - s
    ensures name in Bind(parts, sp, s, acc) && Bind(parts, sp, s, acc)[name] == v
  {
    if s < |parts| {
      var part := parts[s];
      if part[0] == ':' {
        BindKeeps(parts, sp, s + 1, acc[part[1..] := sp[s]], name, v);
      } else if !(part[0] == '*' && |part| > 1) {
        BindKeeps(parts, sp, s + 1, acc, name, v);
      }
    }
  }

  // ---------------------------------------------------------------------------
  // The depth invariant and route lookup

  /** Every node with a pattern sits at the depth of that pattern's segment count. */
  ghost predicate DepthOK(n: Node, d: nat)
    decreases n
  {
    (n.pattern != "" ==> |Parse(n.pattern)| == d) &&
    forall i :: 0 <= i < |n.children| ==> DepthOK(n.children[i], d + 1)
  }

  lemma {:induction false} InsertKeepsDepth(n: Node, pattern: string, parts: seq<string>, height: nat)
    requires height <= |parts| && PartsOK(parts) && |Parse(pattern)| == |parts|
    requires DepthOK(n, height)
    decreases |parts| - height
    ensures DepthOK(Insert(n, pattern, parts, height), height)
  {
    if |parts| > height {
      var part := parts[height];
      var r := Insert(n, pattern, parts, height);
      match FirstMatch(n.children, part)
      case Some(i) =>
        InsertKeepsDepth(n.children[i], pattern, parts, height + 1);
        assert forall j :: 0 <= j < |r.children| ==> DepthOK(r.children[j], height + 1) by {
          forall j | 0 <= j < |r.children| ensures DepthOK(r.children[j], height + 1) {
            if j != i { assert r.children[j] == n.children[j]; }
          }
        }
      case None =>
        InsertKeepsDepth(NewChild(part), pattern, parts, height + 1);
        assert forall j :: 0 <= j < |r.children| ==> DepthOK(r.children[j], height + 1) by {
          forall j | 0 <= j < |r.children| ensures DepthOK(r.children[j], height + 1) {
            if j < |n.children| { assert r.children[j] == n.children[j]; }
          }
        }
    }
  }

  /** On a hit, the matched pattern has no more segments than the request, so every
      `searchParts[index]` in the parameter loop is in bounds. */
  lemma {:induction false} SearchDepth(n: Node, parts: seq<string>, height: nat)
    requires height <= |parts| && DepthOK(n, height)
    requires SearchNode(n, parts, height).Some?
    decreases n, 1, 0
    ensures |Parse(SearchNode(n, parts, height).value.pattern)| <= |parts|
  {
    if !(|parts| == height || IsCatchAll(n.part)) {
      SearchListDepth(n, MatchingChildren(n.children, parts[height]), parts, height + 1);
    }
  }

  lemma {:induction false} SearchListDepth(parent: Node, cs: seq<Node>, parts: seq<string>, height: nat)
    requires height <= |parts|
    requires forall c :: c in cs ==> c in parent.children && DepthOK(c, height)
    requires SearchList(parent, cs, parts, height).Some?
    decreases parent, 0, |cs|
    ensures |Parse(SearchList(parent, cs, parts, height).value.pattern)| <= |parts|
  {
    assert cs[0] in parent.children;
    if SearchNode(cs[0], parts, height).Some? {
      SearchDepth(cs[0], parts, height);
    } else {
      SearchListDepth(parent, cs[1..], parts, height);
    }
  }

  /** The invariant every root of the router keeps. */
  ghost predicate RootsOK(roots: map<string, Node>)
  {
    forall m :: m in roots ==> DepthOK(roots[m], 0) && WildOK(roots[m])
  }

  /** The handler-table key `method + "-" + pattern`. */
  function Key(httpMethod: string, pattern: string): string
  {
    httpMethod + "-" + pattern
  }

  /** Every registered node's pattern has an entry in the handler table. */
  ghost predicate Keyed(roots: map<string, Node>, handlers: map<string, Handler>)
  {
    forall m, x :: m in roots && InTree(x, roots[m]) && x.pattern != "" ==> Key(m, x.pattern) in handlers
  }

  /** A hit: the matched node and the captured parameters. */
  datatype Match = Match(node: Node, params: map<string, string>)

  /** `getRoute(method, path)`: nothing for an unknown method or a failed search, otherwise
      the node found and the parameters read off its own pattern. */
  function Route(roots: map<string, Node>, httpMethod: string, path: string): Option<Match>
    requires RootsOK(roots)
  {
    if httpMethod !in roots then None
    else
      var sp := Parse(path);
      match SearchNode(roots[httpMethod], sp, 0)
      case None => None
      case Some(n) =>
        SearchDepth(roots[httpMethod], sp, 0);
        Some(Match(n, Bind(Parse(n.pattern), sp, 0, map[])))
  }

  /** `getRoute` misses exactly when the method has no routes or no matching walk
      through its trie ends at a registered node. */
  lemma RouteMisses(roots: map<string, Node>, httpMethod: string, path: string)
    requires RootsOK(roots)
    ensures Route(roots, httpMethod, path).None? <==>
              httpMethod !in roots ||
              forall r :: Reaches(roots[httpMethod], Parse(path), 0, r) ==> r.pattern == ""
  {
    if httpMethod in roots {
      var root, sp := roots[httpMethod], Parse(path);
      if SearchNode(root, sp, 0).Some? {
        SearchSound(root, sp, 0);
      } else {
        forall r | Reaches(root, sp, 0, r) ensures r.pattern == "" {
          if r.pattern != "" {
            SearchComplete(root, sp, 0, r);
          }
        }
      }
    }
  }

  /** On a hit: the node carries a pattern, is reached by a matching walk, sits no deeper
      than the request, and the captured names are exactly its binding segments. */
  lemma RouteHit(roots: map<string, Node>, httpMethod: string, path: string)
    requires RootsOK(roots)
    requires Route(roots, httpMethod, path).Some?
    ensures var m := Route(roots, httpMethod, path).value;
            httpMethod in roots && m.node.pattern != "" &&
            Reaches(roots[httpMethod], Parse(path), 0, m.node) &&
            |Parse(m.node.pattern)| <= |Parse(path)| &&
            m.params.Keys == BoundNames(Parse(m.node.pattern), 0)
  {
    var root, sp := roots[httpMethod], Parse(path);
    SearchSound(root, sp, 0);
    SearchDepth(root, sp, 0);
    var n := SearchNode(root, sp, 0).value;
    BindKeys(Parse(n.pattern), sp, 0, map[]);
  }

  /** On a hit, a `:name` segment captures the request segment at its position and a
      `*name` segment the rest of the request joined by '/' (unless a later segment
      reuses the name). */
  lemma RouteParam(roots: map<string, Node>, httpMethod: string, path: string, i: nat)
    requires RootsOK(roots)
    requires Route(roots, httpMethod, path).Some?
    requires var parts := Parse(Route(roots, httpMethod, path).value.node.pattern);
             i < |parts| && Binds(parts[i]) &&
             forall j :: i < j < |parts| && Binds(parts[j]) ==> parts[j][1..] != parts[i][1..]
    ensures var m := Route(roots, httpMethod, path).value;
            var parts := Parse(m.node.pattern);
            |parts| <= |Parse(path)| &&
            parts[i][1..] in m.params && m.params[parts[i][1..]] == ValueAt(parts, Parse(path), i)
  {
    var root, sp := roots[httpMethod], Parse(path);
    SearchDepth(root, sp, 0);
    var n := SearchNode(root, sp, 0).value;
    BindValue(Parse(n.pattern), sp, 0, map[], i);
  }

  /** The root for a method, or the fresh `&node{}` the first registration creates. */
  function Base(roots: map<string, Node>, httpMethod: string): Node
  {
    if httpMethod in roots then roots[httpMethod] else Root()
  }

  lemma AddRouteKeepsInvariants(roots: map<string, Node>, handlers: map<string, Handler>,
                                httpMethod: string, pattern: string, h: Handler)
    requires RootsOK(roots) && Keyed(roots, handlers)
    ensures var roots' := roots[httpMethod := Insert(Base(roots, httpMethod), pattern, Parse(pattern), 0)];
            RootsOK(roots') && Keyed(roots', handlers[Key(httpMethod, pattern) := h])
  {
    var parts := Parse(pattern);
    var base := Base(roots, httpMethod);
    var root' := Insert(base, pattern, parts, 0);
    var roots' := roots[httpMethod := root'];
    var handlers' := handlers[Key(httpMethod, pattern) := h];
    InsertKeepsDepth(base, pattern, parts, 0);
    InsertKeepsWild(base, pattern, parts, 0);
    forall m, x | m in roots' && InTree(x, roots'[m]) && x.pattern != ""
      ensures Key(m, x.pattern) in handlers'
    {
      if m == httpMethod {
        InsertKeepsPatterns(base, pattern, parts, 0, x);
        if x.pattern != pattern {
          var y :| InTree(y, base) && y.pattern == x.pattern;
          if httpMethod !in roots {
            assert Root() == NewChild("");
            InTreeOfLeaf(y, "");
          }
        }
      }
    }
  }

  lemma RouteHitKeyed(roots: map<string, Node>, handlers: map<string, Handler>, httpMethod: string, path: string)
    requires RootsOK(roots) && Keyed(roots, handlers)
    requires Route(roots, httpMethod, path).Some?
    ensures Key(httpMethod, Route(roots, httpMethod, path).value.node.pattern) in handlers
  {
    var root, sp := roots[httpMethod], Parse(path);
    SearchSound(root, sp, 0);
    var n := SearchNode(root, sp, 0).value;
    ReachesInTree(root, sp, 0, n);
  }

  /** What the day-3 `handle` does with a request: call the route's handler with the
      captured parameters, or answer 404. */
  datatype Dispatch = Invoke(handler: Handler, params: map<string, string>) | NotFound(body: string)

  class Router {
    var roots: map<string, Node>
    var handlers: map<string, Handler>

    ghost predicate Valid()
      reads this
    {
      RootsOK(roots) && Keyed(roots, handlers)
    }

    /** `newRouter`. */
    constructor ()
      ensures Valid() && roots == map[] && handlers == map[]
    {
      roots := map[];
      handlers := map[];
    }

    /** `addRoute`: insert into the method's trie (creating its root only if missing)
        and store the handler under "METHOD-pattern"; other keys are untouched. */
    method AddRoute(httpMethod: string, pattern: string, handler: Handler)
      requires Valid()
      modifies this
      ensures Valid()
      ensures roots == old(roots)[httpMethod := Insert(Base(old(roots), httpMethod), pattern, Parse(pattern), 0)]
      ensures handlers == old(handlers)[Key(httpMethod, pattern) := handler]
    {
      var parts := ParsePattern(pattern);
      var key := httpMethod + "-" + pattern;
      AddRouteKeepsInvariants(roots, handlers, httpMethod, pattern, handler);
      var root := Root();
      if httpMethod in roots {
        root := roots[httpMethod];
      }
      assert root == Base(roots, httpMethod);
      assert key == Key(httpMethod, pattern);
      roots := roots[httpMethod := Insert(root, pattern, parts, 0)];
      handlers := handlers[key := handler];
    }

    /** `getRoute`, with the parameter loop of the source. */
    method GetRoute(httpMethod: string, path: string) returns (r: Option<Match>)
      requires Valid()
      ensures r == Route(roots, httpMethod, path)
    {
      var searchParts := ParsePattern(path);
      var params: map<string, string> := map[];
      if httpMethod !in roots {
        return None;
      }
      var root := roots[httpMethod];
      var n := Search(root, searchParts, 0);
      if n.Some? {
        SearchDepth(root, searchParts, 0);
        var parts := ParsePattern(n.value.pattern);
        params := BindParams(parts, searchParts);
        return Some(Match(n.value, params));
      }
      return None;
    }

    /** The parameter loop of `getRoute`: `:name` captures its segment, `*name` the
        rest of the request joined by '/' and ends the loop. */
    static method BindParams(parts: seq<string>, searchParts: seq<string>) returns (params: map<string, string>)
      requires |parts| <= |searchParts| && PartsOK(parts)
      ensures params == Bind(parts, searchParts, 0, map[])
    {
      params := map[];
      var index := 0;
      while index < |parts|
        invariant 0 <= index <= |parts|
        invariant Bind(parts, searchParts, index, params) == Bind(parts, searchParts, 0, map[])
      {
        var part := parts[index];
        if part[0] == ':' {
          params := params[part[1..] := searchParts[index]];
        }
        if part[0] == '*' && |part| > 1 {
          params := params[part[1..] := Join(searchParts[index..], '/')];
          break;
        }
        index := index + 1;
      }
    }

    /** `getRoutes`: nil for an unknown method, otherwise the `travel` of its trie. */
    method GetRoutes(httpMethod: string) returns (r: Option<seq<Node>>)
      ensures httpMethod !in roots ==> r == None
      ensures httpMethod in roots ==> r == Some(Routes(roots[httpMethod]))
    {
      if httpMethod !in roots {
        return None;
      }
      var nodes := Travel(roots[httpMethod], []);
      assert nodes == Routes(roots[httpMethod]);
      return Some(nodes);
    }

    /** The handler a request ends up with: the registered one on a hit, 404 otherwise. */
    function Resolve(httpMethod: string, path: string): Handler
      reads this
      requires Valid()
    {
      match Route(roots, httpMethod, path)
      case None => NotFoundHandler(path)
      case Some(m) =>
        RouteHitKeyed(roots, handlers, httpMethod, path);
        handlers[Key(httpMethod, m.node.pattern)]
    }

    /** Day-5 `handle`: append the route's handler (or the 404 handler) to the chain,
        set the parameters on a hit, and start the chain with `Next`. */
    method Handle(c: Context)
      requires Valid() && c.index >= -1
      modifies c
      ensures c.handlers == old(c.handlers) + [Resolve(c.Method, c.Path)]
      ensures c.Params == match Route(roots, c.Method, c.Path)
                          case Some(m) => m.params
                          case None => old(c.Params)
      ensures c.State() == NextState(c.handlers, old(c.State()))
    {
      var n := GetRoute(c.Method, c.Path);
      if n.Some? {
        RouteHitKeyed(roots, handlers, c.Method, c.Path);
        var key := c.Method + "-" + n.value.node.pattern;
        c.Params := n.value.params;
        c.handlers := c.handlers + [handlers[key]];
      } else {
        c.handlers := c.handlers + [NotFoundHandler(c.Path)];
      }
      c.Next();
    }

    /** Day-3 `handle`: no chain; the route's handler is called directly. */
    method HandleDirect(httpMethod: string, path: string) returns (d: Dispatch)
      requires Valid()
      ensures Route(roots, httpMethod, path).None? ==> d == NotFound("404 NOT FOUND: " + path + "\n")
      ensures Route(roots, httpMethod, path).Some? ==>
                Key(httpMethod, Route(roots, httpMethod, path).value.node.pattern) in handlers &&
                d == Invoke(handlers[Key(httpMethod, Route(roots, httpMethod, path).value.node.pattern)],
                            Route(roots, httpMethod, path).value.params)
    {
      var n := GetRoute(httpMethod, path);
      if n.Some? {
        RouteHitKeyed(roots, handlers, httpMethod, path);
        var key := httpMethod + "-" + n.value.node.pattern;
        return Invoke(handlers[key], n.value.params);
      }
      return NotFound("404 NOT FOUND: " + path + "\n");
    }
  }
}
