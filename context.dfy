/**
  The per-request `Context` and its middleware chain.

  A handler is a script of steps standing for the code of a Go closure: `Emit`
  for the handler's own observable work (a log line, say), `CallNext` for
  `c.Next()`, `Fail` for `c.Fail(code, msg)` and `Reply` for one of the
  response writers (`String`, `JSON`, `HTML`, `Data`), which all set the status
  through `c.Status(code)` and write a body.

  The chain's meaning is given by three functions over a `ChainState` (the
  cursor, the status and the trace of events): `NextState` is `Next`,
  `LoopState` its `for` loop and `ScriptState` the body of one handler. The
  class `Context` runs the chain with methods whose contracts equal them.
 */
module Contexts {

  datatype Step =
    | Emit(tag: string)
    | CallNext
    | Fail(code: int, message: string)
    | Reply(code: int, body: string)

  type Handler = seq<Step>

  /** What a request leaves behind. `Started(k)` records that handler k was invoked. */
  datatype Event =
    | Started(position: nat)
    | Emitted(tag: string)
    | Responded(code: int, body: string)
    | Failed(code: int, message: string)

  datatype ChainState = ChainState(index: int, status: int, trace: seq<Event>)

  /** How far the cursor is from the end of the chain (0 once past it). */
  function Dist(hs: seq<Handler>, i: int): nat
  {
    if i < |hs| then |hs| - i else 0
  }

  /** `c.Next()`: advance the cursor, then run the loop if a handler is left. */
  function NextState(hs: seq<Handler>, st: ChainState): (r: ChainState)
    requires st.index >= -1
    decreases Dist(hs, st.index), 0, 0
    ensures r.index > st.index && r.index >= |hs|
  {
    var st1 := st.(index := st.index + 1);
    if st1.index < |hs| then LoopState(hs, st1) else st1
  }

  /** `for ; c.index < s; c.index++ { c.handlers[c.index](c) }`, entered with a handler left. */
  function LoopState(hs: seq<Handler>, st: ChainState): (r: ChainState)
    requires 0 <= st.index < |hs|
    decreases Dist(hs, st.index), 2, 0
    ensures r.index > st.index && r.index >= |hs|
  {
    var k := st.index;
    var st1 := ScriptState(hs, k, hs[k], st.(trace := st.trace + [Started(k)]));
    var st2 := st1.(index := st1.index + 1);
    if st2.index < |hs| then LoopState(hs, st2) else st2
  }

  /** The remaining `steps` of handler `k`, run from `st`. */
  function ScriptState(hs: seq<Handler>, k: nat, steps: seq<Step>, st: ChainState): (r: ChainState)
    requires k < |hs| && st.index >= k
    decreases Dist(hs, k), 1, |steps|
    ensures r.index >= k
  {
    if steps == [] then st
    else
      var st1 :=
        match steps[0]
        case Emit(tag) => st.(trace := st.trace + [Emitted(tag)])
        case CallNext => NextState(hs, st)
        case Fail(code, message) => FailState(hs, st, code, message)
        case Reply(code, body) => st.(status := code, trace := st.trace + [Responded(code, body)]);
      ScriptState(hs, k, steps[1..], st1)
  }

  /** `c.Fail(code, msg)`: jump the cursor to the end and answer with the code. */
  function FailState(hs: seq<Handler>, st: ChainState, code: int, message: string): (r: ChainState)
    ensures r.index == |hs| && r.status == code
    ensures r.trace == st.trace + [Failed(code, message)]
  {
    ChainState(|hs|, code, st.trace + [Failed(code, message)])
  }

  /** The handler `router.handle` appends when no route matches (a 404 reply). */
  function NotFoundHandler(path: string): Handler
  {
    [Reply(404, "404 NOT FOUND: " + path + "\n")]
  }

  class Context {
    const Method: string
    const Path: string
    var Params: map<string, string>
    var StatusCode: int
    var handlers: seq<Handler>
    var index: int
    var trace: seq<Event>

    /** The part of the context the chain changes. */
    function State(): ChainState
      reads this
    {
      ChainState(index, StatusCode, trace)
    }

    /** `newContext`: nothing has run yet and the cursor sits before the first handler. */
    constructor (httpMethod: string, path: string)
      ensures Method == httpMethod && Path == path
      ensures Params == map[] && StatusCode == 0 && handlers == []
      ensures index == -1 && trace == []
    {
      Method := httpMethod;
      Path := path;
      Params := map[];
      StatusCode := 0;
      handlers := [];
      index := -1;
      trace := [];
    }

    /** `c.Next()`. Handlers may call it again; each such call runs the rest of the chain. */
    method Next()
      requires index >= -1
      modifies this
      decreases Dist(handlers, index), 0
      ensures handlers == old(handlers) && Params == old(Params)
      ensures State() == NextState(handlers, old(State()))
    {
      index := index + 1;
      while index < |handlers|
        invariant handlers == old(handlers) && Params == old(Params)
        invariant index > old(index)
        invariant NextState(handlers, old(State())) ==
                    if index < |handlers| then LoopState(handlers, State()) else State()
        decreases |handlers| - index
      {
        trace := trace + [Started(index)];
        Run(index);
        index := index + 1;
      }
    }

    /** Invoke handler `k`: run its steps against this context. */
    method Run(k: nat)
      requires k < |handlers| && index >= k
      modifies this
      decreases Dist(handlers, k), 1
      ensures handlers == old(handlers) && Params == old(Params)
      ensures State() == ScriptState(handlers, k, handlers[k], old(State()))
    {
      var script := handlers[k];
      var p := 0;
      while p < |script|
        invariant handlers == old(handlers) && Params == old(Params)
        invariant 0 <= p <= |script| && index >= k
        decreases |script| - p
        invariant ScriptState(handlers, k, script, old(State())) == ScriptState(handlers, k, script[p..], State())
      {
        assert script[p..][1..] == script[p + 1..];
        match script[p] {
          case Emit(tag) => trace := trace + [Emitted(tag)];
          case CallNext => Next();
          case Fail(code, message) => Fail(code, message);
          case Reply(code, body) => Reply(code, body);
        }
        p := p + 1;
      }
    }

    /** `c.Fail(code, err)`: the cursor goes to `len(handlers)` and the status to `code`. */
    method Fail(code: int, message: string)
      modifies this
      ensures handlers == old(handlers) && Params == old(Params)
      ensures State() == FailState(handlers, old(State()), code, message)
      ensures index == |handlers| && StatusCode == code
    {
      index := |handlers|;
      Status(code);
      trace := trace + [Failed(code, message)];
    }

    /** `c.Status(code)`: records the status code (the header write is left out). */
    method Status(code: int)
      modifies this
      ensures StatusCode == code
      ensures handlers == old(handlers) && Params == old(Params)
      ensures index == old(index) && trace == old(trace)
    {
      StatusCode := code;
    }

    /** `String`, `JSON`, `HTML` and `Data`: set the status, then write a body. */
    method Reply(code: int, body: string)
      modifies this
      ensures StatusCode == code && trace == old(trace) + [Responded(code, body)]
      ensures handlers == old(handlers) && Params == old(Params) && index == old(index)
    {
      Status(code);
      trace := trace + [Responded(code, body)];
    }

    /** `c.Param(key)`: the captured value, or the empty string when nothing was captured. */
    function Param(key: string): (value: string)
      reads this
      ensures key in Params ==> value == Params[key]
      ensures key !in Params ==> value == ""
    {
      if key in Params then Params[key] else ""
    }
  }
}
