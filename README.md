# gee router and middleware chain in Dafny

This project models the core of gee, the small Go web framework from
7days-golang. The model covers three parts:

- **Route trie** (`trie.dfy`, module `Trie`). A `node` has a `pattern`, a `part`,
  `children` and `isWild`. The model covers `insert`, `search`, `travel`,
  `matchChild` and `matchChildren`. The day-3 and day-5 versions of `trie.go`
  are the same code, so both are modelled by one module.
- **Router** (`router.dfy`, module `Routing`). The router holds one trie root per
  HTTP method and a handler table keyed by `"METHOD-pattern"`. The model covers
  `parsePattern`, `addRoute`, `getRoute` with its parameter extraction, and
  `getRoutes`. Two versions of `handle` are modelled:
  - day 5: appends the route's handler (or a 404 handler) to the context's chain, then calls `Next`;
  - day 3: calls the handler directly.
- **Context and engine**.
  - `context.dfy` (module `Contexts`) models the per-request `Context`: `newContext`, `Next`, `Fail`, `Status` and `Param`.
  - `chain.dfy` (module `Chain`) holds what is proved about running the middleware chain.
  - `gee.dfy` (module `Gee`) models `New`, `Group`, `Use`, `RouterGroup.addRoute`, `GET`/`POST` and `ServeHTTP`.

Supporting modules:

- `strings.dfy` models Go's `strings.Split`, `strings.Join` and `strings.HasPrefix` on one separator character.
- `options.dfy` holds the `Option` type.
- `scenarios.dfy` proves what the model computes on concrete inputs.

Modelling choices:

- **Trie nodes are values.** Go mutates nodes in place through pointers. Every
  node belongs to exactly one parent, and none is shared. So `insert` is the
  function `Insert`, which returns the updated subtree.
- **`search` and the loops are methods.** `search`, `travel`, `matchChild`,
  `matchChildren`, `parsePattern`, the parameter loop of `getRoute` and the
  middleware loop of `ServeHTTP` are methods with loops. Each is proved equal
  to a specification function, and the properties are proved as lemmas about
  those functions.
- **`Router`, `Context`, `Engine` and `RouterGroup` are classes**, with the
  fields their Go methods update.
- **Handlers are scripts.** A handler is a sequence of steps:
  - `Emit(tag)`: the handler's own visible work;
  - `CallNext`: `c.Next()`;
  - `Fail(code, msg)`: `c.Fail`;
  - `Reply(code, body)`: a response writer.

  Running the chain appends events to a trace. `NextState`, `LoopState` and
  `ScriptState` give the meaning of `Next`, of its `for` loop and of one
  handler's body. `Context.Next` and `Context.Run` are proved to compute them.

**The cursor can go down.** `Fail` sets `index` to `len(handlers)`. After a
nested `Next` has drained the chain, the cursor can already be one past that.
An enclosing `Next` loop increments it on its way out. So a later `Fail` in an
outer handler moves the cursor back: lemma `Scenarios.FailMovesCursorBack`
shows it going from 4 to 3 on a three-handler chain. This is harmless. The
cursor stays at or past `len(handlers)`, so no handler runs again.

## Model

| member | source | states |
|---|---|---|
| Trie.NewChild | gee-web/day5-middleware/gee/trie.go:37-43 | A new child has the given part, no pattern and no children. It is wild exactly when its part starts with ':' or '*'. |
| Trie.FirstMatch | gee-web/day5-middleware/gee/trie.go:89-96 | The index of the first child, in slice order, whose part equals the segment or which is wild. It is none exactly when no child matches. |
| Trie.MatchChild | gee-web/day5-middleware/gee/trie.go:89-96 | `matchChild` returns the child at `FirstMatch`, and nothing exactly when no child matches. |
| Trie.MatchingChildren | gee-web/day5-middleware/gee/trie.go:99-107 | The filter keeps exactly the matching children: every result matches and comes from the children, and every matching child is kept. It is never longer than the children. |
| Trie.MatchChildren | gee-web/day3-router/gee/trie.go:140-148 | The `matchChildren` loop computes `MatchingChildren`, the order-preserving filter. |
| Trie.FirstMatchIsHead | gee-web/day5-middleware/gee/trie.go:89-107 | `matchChild` returns nothing exactly when `matchChildren` is empty. Otherwise it returns the head of `matchChildren`. |
| Trie.FirstMatchCongruent | gee-web/day5-middleware/gee/trie.go:89-96 | The first match depends only on which children match. |
| Trie.Insert | gee-web/day5-middleware/gee/trie.go:25-47 | At `height == len(parts)`, only this node's pattern changes. Above that level the node keeps its pattern, part and wildness. No child is removed, and existing children keep their part and wildness. Every child other than the first matching one is unchanged. At most one child is added, at the end, and only when no child matched. That child has the segment as its part and is wild exactly when the segment starts with ':' or '*'. |
| Trie.InsertThenFind | gee-web/day3-router/gee/trie.go:83-96 | Last insert wins. After an insert, the node reached by following the first matching child level by level carries the new pattern. This holds even when the path goes through a wild child that an earlier pattern created. |
| Trie.InsertPathInTree | gee-web/day3-router/gee/trie.go:89-95 | The node an insert ends at lies in the tree. |
| Trie.InsertKeepsOldPatterns | gee-web/day5-middleware/gee/trie.go:25-47 | Insertion loses no registered pattern except the one it overwrites at the end of its own path. Every other node with a pattern still has its pattern somewhere in the new tree. |
| Trie.InsertKeepsPatterns | gee-web/day5-middleware/gee/trie.go:25-47 | After an insert, every node carries no pattern, the inserted pattern, or a pattern that was already in the tree. |
| Trie.InsertKeepsWild | gee-web/day5-middleware/gee/trie.go:37-43 | Insertion preserves the invariant that every node is wild exactly when its part starts with ':' or '*'. |
| Trie.InTreeOfLeaf | gee-web/day5-middleware/gee/trie.go:38-41 | A freshly created node has nothing below it. |
| Trie.SearchNode | gee-web/day5-middleware/gee/trie.go:52-74 | `search` returns nothing or a node with a non-empty pattern. |
| Trie.SearchList | gee-web/day5-middleware/gee/trie.go:66-73 | The loop over the matching children returns nothing or a node with a non-empty pattern. |
| Trie.Search | gee-web/day3-router/gee/trie.go:99-118 | The recursive `search` with its loop over `matchChildren` computes `SearchNode`. |
| Trie.SearchSound | gee-web/day5-middleware/gee/trie.go:52-74 | A hit is reached from the start node by a walk. Each step of the walk goes to a child that matches the next request segment literally or by being wild. The walk ends when the segments run out or at a node whose part starts with '*'. |
| Trie.SearchListSound | gee-web/day5-middleware/gee/trie.go:66-71 | A hit found by the loop is reached through one of the matching children. |
| Trie.SearchComplete | gee-web/day5-middleware/gee/trie.go:52-74 | If any such walk ends at a node with a pattern, `search` hits. |
| Trie.SearchListFindsAny | gee-web/day5-middleware/gee/trie.go:66-71 | If any child in the list leads to a hit, the loop hits. |
| Trie.SearchFirstWins | gee-web/day5-middleware/gee/trie.go:66-71 | Children are tried in slice order with backtracking. The result is the first child's hit, and every earlier child failed. |
| Trie.ReachesInTree | gee-web/day5-middleware/gee/trie.go:52-74 | Every node a walk reaches lies in the tree. |
| Trie.Routes | gee-web/day5-middleware/gee/trie.go:77-86 | Every node `travel` collects has a pattern. |
| Trie.RoutesFrom | gee-web/day5-middleware/gee/trie.go:83-85 | Every node collected from the children loop has a pattern. |
| Trie.Travel | gee-web/day3-router/gee/trie.go:120-127 | `travel` appends `Routes(n)` after what the list already held. `Routes(n)` is the pre-order, child-order listing. |
| Trie.RoutesExact | gee-web/day5-middleware/gee/trie.go:77-86 | A node is collected exactly when it lies in the tree and has a non-empty pattern. |
| Trie.RoutesFromExact | gee-web/day5-middleware/gee/trie.go:83-85 | The children loop collects exactly the nodes with a pattern below the remaining children. |
| Strings.Split | gee-web/day5-middleware/gee/router.go:35 | `strings.Split` on '/' returns at least one piece, and no piece contains '/'. |
| Strings.SplitConcat | gee-web/day5-middleware/gee/router.go:35 | Splitting `a + "/" + b`, where `a` has no '/', gives `a` followed by the pieces of `b`. |
| Strings.SplitJoin | gee-web/day5-middleware/gee/router.go:35 | Splitting the '/'-join of non-empty, '/'-free segments returns those segments. |
| Strings.HasPrefixOfExtension | gee-web/day5-middleware/gee/gee.go:43 | A string that starts with `a + b` starts with `a`. |
| Routing.Keep | gee-web/day5-middleware/gee/router.go:37-46 | The kept segments are non-empty and come from the pieces. Only the last one may start with '*'. |
| Routing.Parse | gee-web/day5-middleware/gee/router.go:34-47 | `parsePattern` returns non-empty, '/'-free segments. At most the last one starts with '*'. |
| Routing.ParsePattern | gee-web/day3-router/gee/router.go:21-34 | The loop with its early `break` computes `Parse`. |
| Routing.KeepIsCutFilter | gee-web/day5-middleware/gee/router.go:37-46 | The result is a prefix of the non-empty pieces in input order. It stops short of them only right after a segment that starts with '*'. |
| Routing.KeepShaped | gee-web/day5-middleware/gee/router.go:37-46 | The loop leaves already-parsed segments unchanged. |
| Routing.ParseRejoin | gee-web/day5-middleware/gee/router.go:34-47 | Parsing `"/" + join(parsePattern(p), "/")` gives back `parsePattern(p)`. |
| Routing.ParseOfSegments | gee-web/day5-middleware/gee/router.go:34-47 | A path written as `"/"` followed by well-formed segments joined with '/' parses to those segments. |
| Routing.ParseDocExample | gee-web/day5-middleware/gee/router.go:34-47 | `/user/:name/*` parses to `["user", ":name", "*"]`. |
| Routing.ParseDropsAfterCatchAll | gee-web/day3-router/gee/router.go:20-33 | `/static/*filepath/extra` parses to `["static", "*filepath"]`, because segments after the first '*' segment are dropped. |
| Routing.CutAtCatchAll | gee-web/day3-router/gee/router.go:25-31 | Parsing `"/"` followed by "static/*filepath/extra" cuts right after "*filepath". |
| Routing.BindKeys | gee-web/day5-middleware/gee/router.go:93-101 | The parameter loop binds exactly the names of the `:name` segments and the `*name` segments with a non-empty name. A bare `*` binds nothing. |
| Routing.BindValue | gee-web/day5-middleware/gee/router.go:93-101 | A binding segment that no later segment overrides determines its parameter. `:name` at index i gives `searchParts[i]`. `*name` gives `join(searchParts[i:], "/")`. |
| Routing.BindKeeps | gee-web/day3-router/gee/router.go:70-81 | A value already bound survives unless a later segment binds the same name. |
| Routing.InsertKeepsDepth | gee-web/day5-middleware/gee/router.go:56-64 | Registration preserves the depth invariant: every node with a pattern sits at depth `len(parsePattern(pattern))`. |
| Routing.SearchDepth | gee-web/day5-middleware/gee/router.go:88-95 | Under the depth invariant, a hit's pattern has no more segments than the request. So `searchParts[index]` is always in bounds. |
| Routing.SearchListDepth | gee-web/day5-middleware/gee/trie.go:66-71 | The same bound holds for a hit found by the children loop. |
| Routing.RouteMisses | gee-web/day5-middleware/gee/router.go:79-106 | `getRoute` returns nothing exactly in two cases: no root exists for the method, or no matching walk reaches a node with a pattern. |
| Routing.RouteHit | gee-web/day5-middleware/gee/router.go:88-102 | On a hit: the node has a pattern and is reached by a matching walk; its pattern has no more segments than the request; and the parameter names are exactly its binding segments. |
| Routing.RouteParam | gee-web/day5-middleware/gee/router.go:93-101 | On a hit, `params[name]` for a segment `:name` at index i is `searchParts[i]`. For `*name` it is the rest of the request joined by '/'. |
| Routing.AddRouteKeepsInvariants | gee-web/day5-middleware/gee/router.go:55-67 | Registration preserves the depth and wildness invariants. Every pattern in a trie keeps a handler entry. |
| Routing.RouteHitKeyed | gee-web/day5-middleware/gee/router.go:136-138 | On a hit, `handlers[method + "-" + n.pattern]` exists. |
| Routing.Router.constructor | gee-web/day5-middleware/gee/router.go:15-20 | `newRouter` starts with no roots and no handlers. |
| Routing.Router.AddRoute | gee-web/day3-router/gee/router.go:37-47 | The method's root is created only if missing, otherwise kept. The pattern is inserted into it. `handlers[method + "-" + pattern]` is the handler, and every other key is unchanged. |
| Routing.Router.GetRoute | gee-web/day5-middleware/gee/router.go:79-106 | `getRoute`, including its parameter loop, computes `Route`. |
| Routing.Router.BindParams | gee-web/day5-middleware/gee/router.go:92-101 | The parameter loop computes `Bind`. A `:name` segment captures its request segment. A `*name` segment captures the rest of the request joined by '/', and ends the loop. |
| Routing.Router.GetRoutes | gee-web/day3-router/gee/router.go:88-96 | The result is nil for an unknown method, otherwise the `travel` of its root. |
| Routing.Router.Handle | gee-web/day5-middleware/gee/router.go:130-147 | Exactly one handler is appended to the existing chain: the registered one on a hit, otherwise the 404 handler. `Params` is set on a hit. The chain is then run by one `Next`. |
| Routing.Router.HandleDirect | gee-web/day3-router/gee/router.go:98-107 | On a hit, `handlers[method + "-" + pattern]` is invoked with the captured parameters. Otherwise the reply is "404 NOT FOUND: " + path. |
| Contexts.NextState | gee-web/day5-middleware/gee/context.go:51-57 | After `Next`, the cursor has moved forward and is at least `len(handlers)`. |
| Contexts.LoopState | gee-web/day5-middleware/gee/context.go:54-56 | After the loop, the cursor is at least `len(handlers)`. |
| Contexts.ScriptState | gee-web/day5-middleware/gee/context.go:55 | While handler k runs, the cursor never drops below k. |
| Contexts.FailState | gee-web/day5-middleware/gee/context.go:64-67 | `Fail` puts the cursor at `len(handlers)`, sets the status to the code and records the failure. |
| Contexts.Context.constructor | gee-web/day5-middleware/gee/context.go:40-48 | A fresh context has index -1, no handlers, no parameters and nothing run. |
| Contexts.Context.Next | gee-web/day5-middleware/gee/context.go:51-57 | The method computes `NextState` and keeps the handler list and the parameters. |
| Contexts.Context.Run | gee-web/day5-middleware/gee/context.go:55 | Invoking handler k computes `ScriptState`. |
| Contexts.Context.Fail | gee-web/day5-middleware/gee/context.go:64-67 | Afterwards `index == len(handlers)` and `StatusCode == code`. |
| Contexts.Context.Status | gee-web/day5-middleware/gee/context.go:110-113 | `StatusCode == code`, and nothing else changes. |
| Contexts.Context.Reply | gee-web/day5-middleware/gee/context.go:130-134 | A response writer sets the status and writes the body. |
| Contexts.Context.Param | gee-web/day5-middleware/gee/context.go:77-80 | Returns the stored value for a captured key, otherwise "". |
| Chain.NextStarts | gee-web/day5-middleware/gee/context.go:51-57 | A `Next` entering at position i starts handlers i+1, i+2, … in order. It stops after the first handler whose first control step is `Fail`, or at the end. |
| Chain.LoopStarts | gee-web/day5-middleware/gee/context.go:54-56 | The loop starts handlers from the cursor on, with the same stopping rule. |
| Chain.ScriptStarts | gee-web/day5-middleware/gee/context.go:55 | A handler whose first control step is `Fail` starts nothing more. One whose first control step is `Next` starts the rest of the chain. One with neither leaves the cursor where it was. |
| Chain.RunsEveryHandlerOnce | gee-web/day5-middleware/gee/context.go:51-57 | Without `Fail`, the top-level `Next` starts every handler exactly once, in index order. This holds whether or not the handlers call `Next`. |
| Chain.FailStopsLaterHandlers | gee-web/day5-middleware/gee/context.go:64-66 | If handler f fails before calling `Next`, no handler after f ever starts, even from outer loops. |
| Chain.AfterTheChain | gee-web/day5-middleware/gee/context.go:54 | Code after `Fail`, or after a `Next` that drained the chain, still runs. Its own effects are recorded, and a further `Next` does nothing. |
| Chain.EndWithoutFail | gee-web/day5-middleware/gee/context.go:54 | Without `Fail`, the chain runs to the end. |
| Chain.EndBeforeFail | gee-web/day5-middleware/gee/context.go:64-66 | The chain stops at or before the first failing handler. |
| Chain.NestedNext | gee-web/day5-middleware/gee/context.go:51-57 | "pre; Next(); post" wrappers unwind last in, first out. The emitted tags are every pre in order, then the final handler, then every post in reverse. |
| Chain.TwoWrappersNest | gee-web/day5-middleware/main.go:12-19 | Wrappers A and B around H emit A-pre, B-pre, H, B-post, A-post. |
| Chain.AroundScript | gee-web/day5-middleware/gee/context.go:51-57 | A wrapper's body is its pre part, then the nested `Next`, then its post part. |
| Chain.NextRunsOne | gee-web/day5-middleware/gee/context.go:54-56 | If the first handler leaves the cursor at the end, a `Next` runs just that handler. |
| Chain.Wrapped | gee-web/day5-middleware/main.go:12-19 | The example chain consists of the wrappers followed by the final handler. |
| Gee.RouterGroup.Use | gee-web/day5-middleware/gee/gee.go:53-55 | The group's middlewares become the old list followed by the new ones, in order. |
| Gee.RouterGroup.constructor | gee-web/day5-middleware/gee/gee.go:42-46 | A new group has the given prefix and parent, and no middlewares. |
| Gee.ViewsAt | gee-web/day5-middleware/gee/gee.go:86-89 | What the middleware loop reads of each group, position by position. |
| Gee.CollectedAppend | gee-web/day5-middleware/gee/gee.go:84-90 | Collection over two lists of groups is the concatenation of the two collections. Order follows group creation. |
| Gee.CollectedOne | gee-web/day5-middleware/gee/gee.go:87-88 | One group contributes its middlewares exactly when the path starts with its prefix. |
| Gee.CollectedOrder | gee-web/day5-middleware/gee/gee.go:84-90 | When two groups both apply, the earlier group's middlewares come before the later one's. |
| Gee.RootRunsFirst | gee-web/day5-middleware/gee/gee.go:34 | The root group's middlewares are always collected, and they come first. |
| Gee.RawPrefixMatch | gee-web/day5-middleware/gee/gee.go:87 | The prefix test is on the raw string, so a "/v2" group also applies to "/v2x/hello". |
| Gee.HasPrefixTrans | gee-web/day5-middleware/gee/gee.go:43 | The prefix relation is transitive. |
| Gee.ParentSelected | gee-web/day5-middleware/gee/gee.go:40-49 | A path under a nested group is also under that group's parent, so the parent's middlewares apply too. |
| Gee.Engine.constructor | gee-web/day5-middleware/gee/gee.go:31-36 | `New()`: the router is empty and `groups == [root]`. The root has prefix "" and no middlewares. |
| Gee.Engine.Group | gee-web/day5-middleware/gee/gee.go:40-49 | The new group's prefix is the parent's prefix followed by `prefix`, and its parent is recorded. It is appended at the end, and earlier groups are unchanged. |
| Gee.Engine.AddRoute | gee-web/day5-middleware/gee/gee.go:58-62 | The route is registered under the pattern `group.prefix + comp`. |
| Gee.Engine.Get | gee-web/day5-middleware/gee/gee.go:65-67 | `GET` inserts prefix + pattern into the "GET" trie, creating that root only if it is missing. It stores the handler under "GET-" + prefix + pattern. |
| Gee.Engine.Post | gee-web/day5-middleware/gee/gee.go:70-72 | `POST` inserts prefix + pattern into the "POST" trie, creating that root only if it is missing. It stores the handler under "POST-" + prefix + pattern. |
| Gee.Engine.CollectMiddlewares | gee-web/day5-middleware/gee/gee.go:84-90 | The loop computes `Collected`: the middlewares of exactly the groups whose prefix the path starts with, in group order. |
| Gee.Engine.ServeHTTP | gee-web/day5-middleware/gee/gee.go:83-97 | The chain is the collected middlewares followed by one last handler: the route's handler, or the 404 handler. It is run from a fresh context. |
| Scenarios.WildChildReused | gee-web/day3-router/gee/trie.go:84-95 | Registering `/user/:id` after `/user/:name` reuses the `:name` node and overwrites its pattern, so no `:id` node is created. |
| Scenarios.LastRegistrationBinds | gee-web/day3-router/gee/router.go:49-82 | In the resulting trie, `/user/bob` binds `id` to "bob". |
| Scenarios.FailInMiddle | gee-web/day5-middleware/main.go:30-38 | When B fails between wrapper A and H: H never starts, A's code after `Next` still runs, and the status is 500. |
| Scenarios.FailMovesCursorBack | gee-web/day5-middleware/gee/context.go:64-65 | A `Fail` after a drained nested `Next` moves the cursor from 4 back to 3. No handler runs again. |

## Left out

- In-place update of trie nodes through pointers is modelled as the value-returning `Trie.Insert`. Nodes are never shared, so no aliasing is lost.
- `node.String` and the `log.Printf` in `RouterGroup.addRoute` are left out. They only format and log.
- Response writing is reduced to events in the trace, a `Responded(code, body)` or `Failed(code, message)`. This covers `String`, `JSON`, `HTML`, `Data` and `SetHeader`, the `WriteHeader` call in `Status`, the JSON encoding in `Fail`, and `http.Error`. Headers and body encoding are not modelled.
- `PostForm` and `Query` are left out. They are thin wrappers over `net/http` request parsing.
- `Engine.Run` is left out, and so are the `http.ResponseWriter` and `*http.Request` plumbing of `ServeHTTP` and `newContext`. The request is modelled as a method and a path.
- Handlers are scripts of steps, not arbitrary Go closures. The 404 handler is a single `Reply(404, …)`. `fmt.Sprintf` formatting of the message is written out as concatenation.
- `RouterGroup.engine` is left out. The engine is passed explicitly, so `Engine.Group`, `Engine.AddRoute`, `Engine.Get` and `Engine.Post` take the group as a parameter.
- Concurrency is left out. The code has none, and it assumes registration ends before serving starts.
- A monotone cursor is not stated, because it does not hold. `Fail` can lower `index`, as `Scenarios.FailMovesCursorBack` shows. What the model proves instead: `Next` ends past every handler, while handler k runs the cursor stays at or above k (`Contexts.ScriptState`), and started positions are increasing (`Chain.NextStarts`).
- Contexts.Context.Status: it does not model the `WriteHeader` call on the response writer. Only `StatusCode` is recorded.
