/** The BufEnter gate (`src/util/events.ts`): the explorer's own buffer and
    window switches must not re-enter its BufEnter handling. A module-global
    flag drops every event while an `avoidOnBufEnter` block runs, and a queue
    of buffer numbers drops one event per queued number; what gets through is
    forwarded to the throttled handler. */
module BufEnterEvents {
  import opened Common

  /** The gate's state: the `stopBufEnter` flag and the `skipBufnrQueue`. */
  datatype Gate = Gate(stopped: bool, queue: seq<int>)

  /** What a block run under `avoidOnBufEnter` may do to the gate: let the
      editor fire BufEnter, queue buffer numbers to skip, run a nested
      `avoidOnBufEnter` block (its body and the value it returns), or throw. */
  datatype Step =
    | BufEnter(bufnr: int)
    | SkipBufEnter(bufnrs: seq<int>)
    | Nested(body: seq<Step>, value: int)
    | Throw(error: string)

  /** How a block ends: with its result, or with the error it threw. */
  datatype Outcome = Returned(value: int) | Threw(error: string)

  /** The gate after running some steps, the buffer numbers forwarded to the
      throttle meanwhile, and the error that ended the run, if any. */
  datatype Run = Run(gate: Gate, forwarded: seq<int>, error: Option<string>)

  /** A run preceded by the forwarding of `fw`. */
  function Then(fw: seq<int>, r: Run): Run
  {
    r.(forwarded := fw + r.forwarded)
  }

  /** The numbers an event forwards: none, or its own. */
  function Forwarded(f: Option<int>): seq<int>
  {
    if f.Some? then [f.value] else []
  }

  // ---------------------------------------------------------------------------
  // The gate as functions of its state

  /** One BufEnter event: dropped while stopped; dropped, consuming the first
      queued occurrence, when the buffer number is queued; otherwise forwarded. */
  function Enter(g: Gate, bufnr: int): (r: (Gate, Option<int>))
    ensures g.stopped ==> r == (g, None)
    ensures !g.stopped && bufnr !in g.queue ==> r == (g, Some(bufnr))
    ensures !g.stopped && bufnr in g.queue ==>
              && r.1 == None && !r.0.stopped
              && exists i :: 0 <= i < |g.queue| && g.queue[i] == bufnr && bufnr !in g.queue[..i]
                             && r.0.queue == g.queue[..i] + g.queue[i + 1..]
  {
    if g.stopped then (g, None)
    else
      var idx := IndexOf(g.queue, bufnr);
      if idx != -1 then
        assert 0 <= idx < |g.queue| && g.queue[idx] == bufnr && bufnr !in g.queue[..idx];
        (g.(queue := g.queue[..idx] + g.queue[idx + 1..]), None)
      else (g, Some(bufnr))
  }

  /** `skipOnBufEnter(bufnrs)`. */
  function Skip(g: Gate, bufnrs: seq<int>): Gate
  {
    g.(queue := g.queue + bufnrs)
  }

  /** Runs `steps` in order, stopping at the first error. */
  function Exec(g: Gate, steps: seq<Step>): Run
    decreases steps, 0
  {
    if steps == [] then Run(g, [], None)
    else match steps[0]
      case BufEnter(b) =>
        var (g1, f) := Enter(g, b);
        Then(Forwarded(f), Exec(g1, steps[1..]))
      case SkipBufEnter(bs) =>
        Exec(Skip(g, bs), steps[1..])
      case Nested(body, v) =>
        var (g1, fw, out) := Avoid(g, body, v);
        if out.Threw? then Run(g1, fw, Some(out.error))
        else Then(fw, Exec(g1, steps[1..]))
      case Throw(e) => Run(g, [], Some(e))
  }

  /** `avoidOnBufEnter(block)`: sets the flag, runs the block, clears the flag
      in `finally`, and returns the block's value or rethrows its error. */
  function Avoid(g: Gate, body: seq<Step>, value: int): (Gate, seq<int>, Outcome)
    decreases body, 1
  {
    var r := Exec(g.(stopped := true), body);
    (r.gate.(stopped := false), r.forwarded, if r.error.Some? then Threw(r.error.value) else Returned(value))
  }

  lemma ThenThen(a: seq<int>, b: seq<int>, r: Run)
    ensures Then(a, Then(b, r)) == Then(a + b, r)
  {
    assert a + (b + r.forwarded) == a + b + r.forwarded;
  }

  // ---------------------------------------------------------------------------
  // Properties

  /** The error a block throws, found without running the gate: the first
      `throw`, at top level or inside a nested block. */
  function ErrorOf(steps: seq<Step>): Option<string>
  {
    if steps == [] then None
    else match steps[0]
      case Throw(e) => Some(e)
      case Nested(body, _) => if ErrorOf(body).Some? then ErrorOf(body) else ErrorOf(steps[1..])
      case _ => ErrorOf(steps[1..])
  }

  lemma {:induction false} ExecError(g: Gate, steps: seq<Step>)
    ensures Exec(g, steps).error == ErrorOf(steps)
    decreases steps
  {
    if steps != [] {
      match steps[0]
      case BufEnter(b) => ExecError(Enter(g, b).0, steps[1..]);
      case SkipBufEnter(bs) => ExecError(Skip(g, bs), steps[1..]);
      case Nested(body, v) =>
        ExecError(g.(stopped := true), body);
        ExecError(Avoid(g, body, v).0, steps[1..]);
      case Throw(e) =>
    }
  }

  /** `avoidOnBufEnter` leaves the flag cleared on both exits, and returns the
      block's value when it completes or the very error it threw. */
  lemma AvoidResult(g: Gate, body: seq<Step>, value: int)
    ensures !Avoid(g, body, value).0.stopped
    ensures Avoid(g, body, value).2 == if ErrorOf(body).Some? then Threw(ErrorOf(body).value) else Returned(value)
  {
    ExecError(g.(stopped := true), body);
  }

  /** The numbers a block without nested blocks queues, in order, up to its
      first throw. */
  function SkippedToThrow(steps: seq<Step>): seq<int>
  {
    if steps == [] || steps[0].Throw? then []
    else (if steps[0].SkipBufEnter? then steps[0].bufnrs else []) + SkippedToThrow(steps[1..])
  }

  /** A block that runs no nested `avoidOnBufEnter`; it may throw. */
  predicate NoNested(steps: seq<Step>)
  {
    forall k :: 0 <= k < |steps| ==> !steps[k].Nested?
  }

  lemma {:induction false} StoppedExec(g: Gate, steps: seq<Step>)
    requires g.stopped && NoNested(steps)
    ensures Exec(g, steps) == Run(Gate(true, g.queue + SkippedToThrow(steps)), [], ErrorOf(steps))
    decreases steps
  {
    if steps == [] {
      assert g.queue + [] == g.queue;
    } else {
      assert NoNested(steps[1..]);
      match steps[0]
      case BufEnter(b) =>
        StoppedExec(g, steps[1..]);
        var r := Exec(g, steps[1..]);
        assert Enter(g, b) == (g, None);
        assert Exec(g, steps) == Then([], r);
        assert Then([], r) == r;
        assert SkippedToThrow(steps) == SkippedToThrow(steps[1..]);
        assert ErrorOf(steps) == ErrorOf(steps[1..]);
      case SkipBufEnter(bs) =>
        StoppedExec(Skip(g, bs), steps[1..]);
        assert Exec(g, steps) == Exec(Skip(g, bs), steps[1..]);
        assert SkippedToThrow(steps) == bs + SkippedToThrow(steps[1..]);
        assert ErrorOf(steps) == ErrorOf(steps[1..]);
        assert g.queue + bs + SkippedToThrow(steps[1..]) == g.queue + (bs + SkippedToThrow(steps[1..]));
      case Throw(e) =>
        assert g.queue + [] == g.queue;
    }
  }

  /** While a block runs under `avoidOnBufEnter` every BufEnter it triggers is
      dropped, and the skip queue grows only by what it queues before it
      throws, if it does; on either exit the flag is cleared again. */
  lemma AvoidDropsEvents(g: Gate, body: seq<Step>, value: int)
    requires NoNested(body)
    ensures Avoid(g, body, value) ==
            (Gate(false, g.queue + SkippedToThrow(body)), [],
             if ErrorOf(body).Some? then Threw(ErrorOf(body).value) else Returned(value))
  {
    StoppedExec(g.(stopped := true), body);
  }

  /** The flag is a boolean, not a counter: once a nested block exits, an
      event fired later in the enclosing block is forwarded although the
      enclosing block is still running. */
  lemma NestedExitReopensGate(g: Gate, inner: seq<Step>, v: int, w: int, b: int)
    requires NoNested(inner) && ErrorOf(inner).None?
    requires b !in g.queue + SkippedToThrow(inner)
    ensures Avoid(g, [Nested(inner, v), BufEnter(b)], w).1 == [b]
  {
    var s := g.(stopped := true);
    AvoidDropsEvents(s, inner, v);
    var g1 := Gate(false, g.queue + SkippedToThrow(inner));
    assert [Nested(inner, v), BufEnter(b)][1..] == [BufEnter(b)];
    assert [BufEnter(b)][1..] == [];
    assert Enter(g1, b) == (g1, Some(b));
    assert Exec(g1, [BufEnter(b)]).forwarded == [b];
    assert Exec(s, [Nested(inner, v), BufEnter(b)]).forwarded == [] + [b];
  }

  /** `n` BufEnter events for the same buffer. */
  function Events(bufnr: int, n: nat): (r: seq<Step>)
    ensures |r| == n && forall k :: 0 <= k < n ==> r[k] == BufEnter(bufnr)
  {
    if n == 0 then [] else [BufEnter(bufnr)] + Events(bufnr, n - 1)
  }

  /** Each queued occurrence of a buffer number swallows one event for it;
      with `k` occurrences queued, `k` events are dropped and the next one is
      forwarded. */
  lemma {:induction false} QueuedOccurrencesSwallowEvents(g: Gate, bufnr: int, k: nat)
    requires !g.stopped && multiset(g.queue)[bufnr] == k
    ensures Exec(g, Events(bufnr, k + 1)).forwarded == [bufnr]
    ensures multiset(Exec(g, Events(bufnr, k + 1)).gate.queue)[bufnr] == 0
    decreases k
  {
    var g1 := Enter(g, bufnr).0;
    EventsStep(g, bufnr, k);
    if k == 0 {
      assert bufnr !in g.queue;
      assert Events(bufnr, 0) == [];
      assert Enter(g, bufnr) == (g, Some(bufnr));
      assert Exec(g, []) == Run(g, [], None);
      assert Exec(g, Events(bufnr, 1)) == Then([bufnr], Run(g, [], None));
    } else {
      ConsumeOne(g, bufnr, k);
      var r := Exec(g1, Events(bufnr, k));
      QueuedOccurrencesSwallowEvents(g1, bufnr, k - 1);
      assert Exec(g, Events(bufnr, k + 1)) == Then([], r);
      assert Then([], r) == r;
    }
  }

  /** The first of `n + 1` events goes through `Enter`, the rest run after it. */
  lemma EventsStep(g: Gate, bufnr: int, n: nat)
    ensures var (g1, f) := Enter(g, bufnr);
            Exec(g, Events(bufnr, n + 1)) == Then(Forwarded(f), Exec(g1, Events(bufnr, n)))
  {
    assert Events(bufnr, n + 1)[1..] == Events(bufnr, n);
  }

  /** An event for a queued buffer consumes one of its occurrences. */
  lemma ConsumeOne(g: Gate, bufnr: int, k: nat)
    requires !g.stopped && multiset(g.queue)[bufnr] == k && k > 0
    ensures Enter(g, bufnr).1 == None && !Enter(g, bufnr).0.stopped
    ensures multiset(Enter(g, bufnr).0.queue)[bufnr] == k - 1
  {
    var q := g.queue;
    assert bufnr in multiset(q);
    var idx := IndexOf(q, bufnr);
    assert Enter(g, bufnr).0.queue == q[..idx] + q[idx + 1..];
    assert q == q[..idx] + [bufnr] + q[idx + 1..];
  }

  /** Skipping a buffer once drops the next BufEnter for it and lets the
      following one through. */
  lemma SkipOnceThenForward(g: Gate, bufnr: int)
    requires !g.stopped && bufnr !in g.queue
    ensures Exec(g, [SkipBufEnter([bufnr])] + Events(bufnr, 2)).forwarded == [bufnr]
  {
    var g1 := Skip(g, [bufnr]);
    assert multiset(g1.queue)[bufnr] == multiset(g.queue)[bufnr] + multiset([bufnr])[bufnr];
    QueuedOccurrencesSwallowEvents(g1, bufnr, 1);
    assert ([SkipBufEnter([bufnr])] + Events(bufnr, 2))[1..] == Events(bufnr, 2);
  }

  // ---------------------------------------------------------------------------
  // The module-global state

  class BufEnterGate {
    var stopBufEnter: bool
    var skipBufnrQueue: seq<int>

    function State(): Gate
      reads this
    {
      Gate(stopBufEnter, skipBufnrQueue)
    }

    constructor ()
      ensures State() == Gate(false, [])
    {
      stopBufEnter := false;
      skipBufnrQueue := [];
    }

    /** The BufEnter listener installed by `onBufEnter`; `forward` is the
        buffer number handed to the throttled callback, if any. */
    method OnBufEnter(bufnr: int) returns (forward: Option<int>)
      modifies this
      ensures (State(), forward) == Enter(old(State()), bufnr)
    {
      if stopBufEnter {
        return None;
      }
      var skipIndex := IndexOf(skipBufnrQueue, bufnr);
      if skipIndex != -1 {
        skipBufnrQueue := skipBufnrQueue[..skipIndex] + skipBufnrQueue[skipIndex + 1..];
        return None;
      }
      forward := Some(bufnr);
    }

    /** `skipOnBufEnter(bufnrs)`: appends the numbers to the queue in order. */
    method SkipOnBufEnter(bufnrs: seq<int>)
      modifies this
      ensures stopBufEnter == old(stopBufEnter)
      ensures skipBufnrQueue == old(skipBufnrQueue) + bufnrs
    {
      skipBufnrQueue := skipBufnrQueue + bufnrs;
    }

    /** `avoidOnBufEnter(block)`. */
    method AvoidOnBufEnter(body: seq<Step>, value: int) returns (outcome: Outcome, forwarded: seq<int>)
      modifies this
      ensures (State(), forwarded, outcome) == Avoid(old(State()), body, value)
      decreases body, 1
    {
      stopBufEnter := true;
      var error;
      forwarded, error := RunBlock(body);
      stopBufEnter := false;
      outcome := if error.Some? then Threw(error.value) else Returned(value);
    }

    /** Runs a block's steps against the gate until one throws. */
    method RunBlock(steps: seq<Step>) returns (forwarded: seq<int>, error: Option<string>)
      modifies this
      ensures Run(State(), forwarded, error) == Exec(old(State()), steps)
      decreases steps, 0
    {
      forwarded := [];
      var i := 0;
      while i < |steps|
        invariant 0 <= i <= |steps|
        invariant Exec(old(State()), steps) == Then(forwarded, Exec(State(), steps[i..]))
        decreases |steps| - i
      {
        ghost var before := forwarded;
        assert steps[i..][1..] == steps[i + 1..];
        match steps[i] {
        case BufEnter(b) =>
          var f := OnBufEnter(b);
          forwarded := forwarded + Forwarded(f);
          ThenThen(before, Forwarded(f), Exec(State(), steps[i + 1..]));
        case SkipBufEnter(bs) =>
          SkipOnBufEnter(bs);
        case Nested(body, v) =>
          var out, fw := AvoidOnBufEnter(body, v);
          forwarded := forwarded + fw;
          if out.Threw? {
            return forwarded, Some(out.error);
          }
          ThenThen(before, fw, Exec(State(), steps[i + 1..]));
        case Throw(e) =>
          return forwarded, Some(e);
        }
        i := i + 1;
      }
      assert steps[i..] == [];
      error := None;
    }
  }
}
