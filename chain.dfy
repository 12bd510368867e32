/**
  What a run of the middleware chain does, stated over the functions that give
  `Context.Next` its meaning: which handlers start and in what order, what
  `Fail` cuts off, and the nesting of code around `c.Next()`.
 */
module Chain {
  import opened Contexts

  /** The positions of the handlers a trace shows starting, in order. */
  function Starts(t: seq<Event>): seq<int>
  {
    if t == [] then []
    else Starts(t[..|t| - 1]) + (if t[|t| - 1].Started? then [t[|t| - 1].position] else [])
  }

  /** The tags the handlers emitted, in order. */
  function Emits(t: seq<Event>): seq<string>
  {
    if t == [] then []
    else Emits(t[..|t| - 1]) + (if t[|t| - 1].Emitted? then [t[|t| - 1].tag] else [])
  }

  /** The integers a, a+1, ..., b-1. */
  function Range(a: int, b: int): seq<int>
    decreases b - a
  {
    if a >= b then [] else [a] + Range(a + 1, b)
  }

  /** The handler's first `c.Next()` or `c.Fail(...)` is a `Fail`. */
  predicate FailsFirst(steps: seq<Step>)
  {
    steps != [] && (steps[0].Fail? || (!steps[0].CallNext? && FailsFirst(steps[1..])))
  }

  /** The handler's first `c.Next()` or `c.Fail(...)` is a `Next`. */
  predicate CallsNextFirst(steps: seq<Step>)
  {
    steps != [] && (steps[0].CallNext? || (!steps[0].Fail? && CallsNextFirst(steps[1..])))
  }

  /** One past the last handler a `Next` entering at position j reaches: the chain goes on
      until the end or until a handler whose first control step is `Fail`. */
  function End(hs: seq<Handler>, j: int): (e: int)
    requires j >= 0
    decreases |hs| - j
    ensures j <= e && (j <= |hs| ==> e <= |hs|)
  {
    if j >= |hs| then j
    else if FailsFirst(hs[j]) then j + 1
    else End(hs, j + 1)
  }

  /** The state of a fresh context, as `newContext` leaves it. */
  function Fresh(): ChainState
  {
    ChainState(-1, 0, [])
  }

  lemma StartsSnoc(t: seq<Event>, e: Event)
    ensures Starts(t + [e]) == Starts(t) + (if e.Started? then [e.position] else [])
  {
    assert (t + [e])[..|t|] == t;
  }

  lemma EmitsSnoc(t: seq<Event>, e: Event)
    ensures Emits(t + [e]) == Emits(t) + (if e.Emitted? then [e.tag] else [])
  {
    assert (t + [e])[..|t|] == t;
  }

  /** A nested `Next` entering at position i starts exactly the handlers i+1 .. End-1,
      each once, in index order. */
  lemma {:induction false} NextStarts(hs: seq<Handler>, st: ChainState)
    requires st.index >= -1
    decreases Dist(hs, st.index), 0, 0, 0
    ensures Starts(NextState(hs, st).trace) == Starts(st.trace) + Range(st.index + 1, End(hs, st.index + 1))
  {
    if st.index + 1 < |hs| {
      LoopStarts(hs, st.(index := st.index + 1));
    }
  }

  lemma {:induction false} LoopStarts(hs: seq<Handler>, st: ChainState)
    requires 0 <= st.index < |hs|
    decreases Dist(hs, st.index), 2, 0, 0
    ensures Starts(LoopState(hs, st).trace) == Starts(st.trace) + Range(st.index, End(hs, st.index))
  {
    var k := st.index;
    var st0 := st.(trace := st.trace + [Started(k)]);
    StartsSnoc(st.trace, Started(k));
    ScriptStarts(hs, k, hs[k], st0);
    var st1 := ScriptState(hs, k, hs[k], st0);
    var st2 := st1.(index := st1.index + 1);
    if !FailsFirst(hs[k]) && !CallsNextFirst(hs[k]) && st2.index < |hs| {
      LoopStarts(hs, st2);
    }
  }

  lemma {:induction false} ScriptStarts(hs: seq<Handler>, k: nat, steps: seq<Step>, st: ChainState)
    requires k < |hs| && (st.index == k || st.index >= |hs|)
    decreases Dist(hs, k), 1, |steps|, 1
    ensures var r := ScriptState(hs, k, steps, st);
      if st.index >= |hs| || FailsFirst(steps) then
        r.index >= |hs| && Starts(r.trace) == Starts(st.trace)
      else if CallsNextFirst(steps) then
        r.index >= |hs| && Starts(r.trace) == Starts(st.trace) + Range(k + 1, End(hs, k + 1))
      else
        r.index == k && Starts(r.trace) == Starts(st.trace)
  {
    if steps != [] {
      match steps[0]
      case Emit(tag) =>
        var st1 := st.(trace := st.trace + [Emitted(tag)]);
        assert ScriptState(hs, k, steps, st) == ScriptState(hs, k, steps[1..], st1);
        assert FailsFirst(steps) == FailsFirst(steps[1..]) && CallsNextFirst(steps) == CallsNextFirst(steps[1..]);
        StartsSnoc(st.trace, Emitted(tag));
        ScriptStarts(hs, k, steps[1..], st1);
      case Reply(code, body) =>
        var st1 := st.(status := code, trace := st.trace + [Responded(code, body)]);
        assert ScriptState(hs, k, steps, st) == ScriptState(hs, k, steps[1..], st1);
        assert FailsFirst(steps) == FailsFirst(steps[1..]) && CallsNextFirst(steps) == CallsNextFirst(steps[1..]);
        StartsSnoc(st.trace, Responded(code, body));
        ScriptStarts(hs, k, steps[1..], st1);
      case Fail(code, message) =>
        var st1 := FailState(hs, st, code, message);
        assert ScriptState(hs, k, steps, st) == ScriptState(hs, k, steps[1..], st1);
        assert FailsFirst(steps);
        StartsSnoc(st.trace, Failed(code, message));
        ScriptStarts(hs, k, steps[1..], st1);
      case CallNext =>
        ScriptStartsNext(hs, k, steps, st);
    }
  }

  /** The `CallNext` case of `ScriptStarts`. */
  lemma {:induction false} ScriptStartsNext(hs: seq<Handler>, k: nat, steps: seq<Step>, st: ChainState)
    requires k < |hs| && (st.index == k || st.index >= |hs|)
    requires steps != [] && steps[0] == CallNext
    decreases Dist(hs, k), 1, |steps|, 0
    ensures var r := ScriptState(hs, k, steps, st);
      r.index >= |hs| &&
      Starts(r.trace) == Starts(st.trace) + (if st.index < |hs| then Range(k + 1, End(hs, k + 1)) else [])
  {
    var st1 := NextState(hs, st);
    assert ScriptState(hs, k, steps, st) == ScriptState(hs, k, steps[1..], st1);
    if st.index < |hs| {
      NextStarts(hs, st);
    }
    ScriptStarts(hs, k, steps[1..], st1);
  }

  /** Without `Fail`, the top-level `Next` runs every handler exactly once, in index order,
      whether or not the handlers call `Next` themselves. */
  lemma RunsEveryHandlerOnce(hs: seq<Handler>)
    requires forall k, i :: 0 <= k < |hs| && 0 <= i < |hs[k]| ==> !hs[k][i].Fail?
    ensures Starts(NextState(hs, Fresh()).trace) == Range(0, |hs|)
  {
    NextStarts(hs, Fresh());
    EndWithoutFail(hs, 0);
  }

  lemma {:induction false} EndWithoutFail(hs: seq<Handler>, j: nat)
    requires j <= |hs|
    requires forall k, i :: 0 <= k < |hs| && 0 <= i < |hs[k]| ==> !hs[k][i].Fail?
    decreases |hs| - j
    ensures End(hs, j) == |hs|
  {
    if j < |hs| {
      NoFailStep(hs[j]);
      EndWithoutFail(hs, j + 1);
    }
  }

  lemma {:induction false} NoFailStep(steps: seq<Step>)
    requires forall i :: 0 <= i < |steps| ==> !steps[i].Fail?
    ensures !FailsFirst(steps)
  {
    if steps != [] {
      NoFailStep(steps[1..]);
    }
  }

  /** `Fail` short-circuits: when handler f fails before calling `Next`, no handler after f
      ever starts, not even from the loops of outer `Next` calls still on the stack. */
  lemma FailStopsLaterHandlers(hs: seq<Handler>, f: nat)
    requires f < |hs| && FailsFirst(hs[f])
    ensures forall p :: p in Starts(NextState(hs, Fresh()).trace) ==> 0 <= p <= f
  {
    NextStarts(hs, Fresh());
    EndBeforeFail(hs, 0, f);
    RangeBounds(0, End(hs, 0));
  }

  lemma {:induction false} EndBeforeFail(hs: seq<Handler>, j: nat, f: nat)
    requires j <= f < |hs| && FailsFirst(hs[f])
    decreases f - j
    ensures End(hs, j) <= f + 1
  {
    if j < f && !FailsFirst(hs[j]) {
      EndBeforeFail(hs, j + 1, f);
    }
  }

  lemma {:induction false} RangeBounds(a: int, b: int)
    decreases b - a
    ensures forall p :: p in Range(a, b) ==> a <= p < b
  {
    if a < b {
      RangeBounds(a + 1, b);
    }
  }

  /** What the steps of a handler leave in the trace once the chain is exhausted. */
  function Effects(steps: seq<Step>): seq<Event>
  {
    if steps == [] then []
    else
      (match steps[0]
       case Emit(tag) => [Emitted(tag)]
       case CallNext => []
       case Fail(code, message) => [Failed(code, message)]
       case Reply(code, body) => [Responded(code, body)]) + Effects(steps[1..])
  }

  /** Code after `Fail` (or after a `Next` that exhausted the chain) still runs: its own
      effects land in the trace, while a further `c.Next()` does nothing. */
  lemma {:induction false} AfterTheChain(hs: seq<Handler>, k: nat, steps: seq<Step>, st: ChainState)
    requires k < |hs| && st.index >= |hs|
    decreases |steps|
    ensures ScriptState(hs, k, steps, st).trace == st.trace + Effects(steps)
    ensures ScriptState(hs, k, steps, st).index >= |hs|
  {
    if steps != [] {
      var st1 :=
        match steps[0]
        case Emit(tag) => st.(trace := st.trace + [Emitted(tag)])
        case CallNext => NextState(hs, st)
        case Fail(code, message) => FailState(hs, st, code, message)
        case Reply(code, body) => st.(status := code, trace := st.trace + [Responded(code, body)]);
      assert st1.trace == st.trace + Effects(steps[..1]);
      AfterTheChain(hs, k, steps[1..], st1);
    }
  }

  // ---------------------------------------------------------------------------
  // Nesting around `c.Next()`

  /** A middleware whose body is "pre; c.Next(); post". */
  function Around(pre: string, post: string): Handler
  {
    [Emit(pre), CallNext, Emit(post)]
  }

  /** The chain of wrappers `ws` followed by a final handler that emits `h`. */
  function Wrapped(ws: seq<(string, string)>, h: string): (hs: seq<Handler>)
    ensures |hs| == |ws| + 1 && hs[|ws|] == [Emit(h)]
    ensures forall i :: 0 <= i < |ws| ==> hs[i] == Around(ws[i].0, ws[i].1)
  {
    if ws == [] then [[Emit(h)]] else [Around(ws[0].0, ws[0].1)] + Wrapped(ws[1..], h)
  }

  /** The order the emitted tags should come in: every pre, the final handler,
      then every post in reverse (last in, first out). */
  function Onion(ws: seq<(string, string)>, h: string): seq<string>
  {
    if ws == [] then [h] else [ws[0].0] + Onion(ws[1..], h) + [ws[0].1]
  }

  lemma {:induction false} EmitsConcat(t: seq<Event>, u: seq<Event>)
    decreases |u|
    ensures Emits(t + u) == Emits(t) + Emits(u)
  {
    if u != [] {
      var v := u[..|u| - 1];
      assert t + u == (t + v) + [u[|u| - 1]];
      EmitsSnoc(t + v, u[|u| - 1]);
      EmitsSnoc(v, u[|u| - 1]);
      EmitsConcat(t, v);
    } else {
      assert t + u == t;
    }
  }

  /** Running "pre; c.Next(); post" from a live cursor. */
  lemma AroundScript(hs: seq<Handler>, j: nat, pre: string, post: string, st: ChainState)
    requires j < |hs| && st.index == j
    ensures var mid := NextState(hs, st.(trace := st.trace + [Emitted(pre)]));
            ScriptState(hs, j, Around(pre, post), st) == mid.(trace := mid.trace + [Emitted(post)])
  {
    var steps := Around(pre, post);
    var s3 := st.(trace := st.trace + [Emitted(pre)]);
    var s4 := NextState(hs, s3);
    var s5 := s4.(trace := s4.trace + [Emitted(post)]);
    assert steps[1..][1..][1..] == [];
    assert ScriptState(hs, j, steps[1..][1..], s4) == s5;
    assert ScriptState(hs, j, steps[1..], s3) == s5;
  }

  /** A `Next` whose first handler leaves the cursor at the end runs just that handler. */
  lemma NextRunsOne(hs: seq<Handler>, st: ChainState)
    requires -1 <= st.index && st.index + 1 < |hs|
    requires var j := st.index + 1;
             ScriptState(hs, j, hs[j], st.(index := j, trace := st.trace + [Started(j)])).index + 1 >= |hs|
    ensures var j := st.index + 1;
            var r := ScriptState(hs, j, hs[j], st.(index := j, trace := st.trace + [Started(j)]));
            NextState(hs, st) == r.(index := r.index + 1)
  {
  }

  /** LIFO unwinding: the `Next` that enters wrapper j runs the pre parts of j, j+1, ...,
      the final handler, and then the post parts in reverse order. */
  lemma {:induction false} NestedNext(ws: seq<(string, string)>, h: string, st: ChainState)
    requires -1 <= st.index < |ws|
    decreases |ws| - st.index
    ensures Emits(NextState(Wrapped(ws, h), st).trace) == Emits(st.trace) + Onion(ws[st.index + 1..], h)
  {
    var j := st.index + 1;
    if j == |ws| {
      NestedLast(ws, h, st);
    } else {
      var s3 := st.(index := j, trace := st.trace + [Started(j), Emitted(ws[j].0)]);
      NestedNext(ws, h, s3);
      NestedStep(ws, h, st);
    }
  }

  /** The innermost step: entering the final handler emits its tag. */
  lemma NestedLast(ws: seq<(string, string)>, h: string, st: ChainState)
    requires st.index == |ws| - 1 && |ws| >= 0 && st.index >= -1
    ensures Emits(NextState(Wrapped(ws, h), st).trace) == Emits(st.trace) + Onion(ws[st.index + 1..], h)
  {
    var hs := Wrapped(ws, h);
    var j := st.index + 1;
    var s2 := st.(index := j, trace := st.trace + [Started(j)]);
    var s3 := s2.(trace := s2.trace + [Emitted(h)]);
    assert ScriptState(hs, j, [Emit(h)], s2) == s3 by {
      assert [Emit(h)][1..] == [];
    }
    NextRunsOne(hs, st);
    EmitsSnoc(st.trace, Started(j));
    EmitsSnoc(s2.trace, Emitted(h));
    assert ws[j..] == [];
  }

  /** One wrapper's step, given what the nested `Next` emits. */
  lemma NestedStep(ws: seq<(string, string)>, h: string, st: ChainState)
    requires -1 <= st.index && st.index + 1 < |ws|
    requires var j := st.index + 1;
             var s3 := st.(index := j, trace := st.trace + [Started(j), Emitted(ws[j].0)]);
             Emits(NextState(Wrapped(ws, h), s3).trace) == Emits(s3.trace) + Onion(ws[j + 1..], h)
    ensures Emits(NextState(Wrapped(ws, h), st).trace) == Emits(st.trace) + Onion(ws[st.index + 1..], h)
  {
    var hs := Wrapped(ws, h);
    var j := st.index + 1;
    var pre, post := ws[j].0, ws[j].1;
    var s3 := st.(index := j, trace := st.trace + [Started(j), Emitted(pre)]);
    var t4 := NextState(hs, s3).trace;
    WrapperNext(ws, h, st);
    assert NextState(hs, st).trace == t4 + [Emitted(post)];
    EmitsSnoc(t4, Emitted(post));
    EmitsStartPre(st.trace, j, pre);
    OnionUnfold(ws, j, h);
  }

  lemma EmitsStartPre(t: seq<Event>, j: nat, pre: string)
    ensures Emits(t + [Started(j), Emitted(pre)]) == Emits(t) + [pre]
  {
    assert t + [Started(j), Emitted(pre)] == (t + [Started(j)]) + [Emitted(pre)];
    EmitsSnoc(t, Started(j));
    EmitsSnoc(t + [Started(j)], Emitted(pre));
  }

  lemma OnionUnfold(ws: seq<(string, string)>, j: nat, h: string)
    requires j < |ws|
    ensures Onion(ws[j..], h) == [ws[j].0] + Onion(ws[j + 1..], h) + [ws[j].1]
  {
    assert ws[j..][1..] == ws[j + 1..];
  }

  /** The `Next` entering wrapper j: its pre part, the nested `Next`, its post part. */
  lemma WrapperNext(ws: seq<(string, string)>, h: string, st: ChainState)
    requires -1 <= st.index && st.index + 1 < |ws|
    ensures var j := st.index + 1;
            var s4 := NextState(Wrapped(ws, h), st.(index := j, trace := st.trace + [Started(j), Emitted(ws[j].0)]));
            NextState(Wrapped(ws, h), st) == s4.(index := s4.index + 1, trace := s4.trace + [Emitted(ws[j].1)])
  {
    var hs := Wrapped(ws, h);
    var j := st.index + 1;
    var pre, post := ws[j].0, ws[j].1;
    var s2 := st.(index := j, trace := st.trace + [Started(j)]);
    assert s2.(trace := s2.trace + [Emitted(pre)]) == st.(index := j, trace := st.trace + [Started(j), Emitted(pre)]);
    AroundScript(hs, j, pre, post, s2);
    assert hs[j] == Around(pre, post);
    NextRunsOne(hs, st);
  }

  /** Two wrappers A and B around a final handler H give A-pre, B-pre, H, B-post, A-post. */
  lemma TwoWrappersNest()
    ensures Emits(NextState(Wrapped([("A-pre", "A-post"), ("B-pre", "B-post")], "H"), Fresh()).trace) ==
            ["A-pre", "B-pre", "H", "B-post", "A-post"]
  {
    var ws := [("A-pre", "A-post"), ("B-pre", "B-post")];
    NestedNext(ws, "H", Fresh());
    assert ws[0..] == ws;
    assert ws[1..][1..] == [];
  }
}
