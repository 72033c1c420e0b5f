/**
 * Delivering one event to a listener vector, with cooperative cancellation.
 *
 * The engine walks the vector front to back. Before each listener it reads
 * the call's cancellation flag and invokes the listener only while the flag
 * is clear; a listener may set the flag, which silences every listener after
 * it. The vector is walked to its end either way.
 */
module FanOut {
  import opened Events
  import opened Cancellation

  /** A registered callback, reduced to whether it cancels the event when invoked. */
  datatype Listener = Listener(id: nat, cancels: bool)

  /** One invocation: the listener's position and the listener, the event it received and the flag it saw. */
  datatype Invocation = Invocation(index: nat, listener: Listener, event: Event, sawCancelled: bool)

  /** What one dispatch call leaves behind: the invocations in order and the final flag. */
  datatype Outcome = Outcome(trace: seq<Invocation>, cancelled: bool)

  /**
   * The effect of the engine on the first |ls| listeners: the vector without
   * its last listener is processed first, then the last one is invoked if
   * and only if the flag is still clear.
   */
  function Run(ls: seq<Listener>, e: Event, start: bool): (o: Outcome)
    decreases |ls|
  {
    if ls == [] then Outcome([], start)
    else
      var before := Run(ls[..|ls| - 1], e, start);
      var last := ls[|ls| - 1];
      if before.cancelled then before
      else Outcome(before.trace + [Invocation(|ls| - 1, last, e, false)], last.cancels)
  }

  /** Position of the first listener that cancels, or |ls| when none does. */
  function FirstCanceller(ls: seq<Listener>): (k: nat)
    ensures k <= |ls|
    ensures forall i :: 0 <= i < k ==> !ls[i].cancels
    ensures k < |ls| ==> ls[k].cancels
  {
    if ls == [] then 0
    else if ls[0].cancels then 0
    else 1 + FirstCanceller(ls[1..])
  }

  /** Listeners 0 .. n-1 invoked once each, in vector order, each with the event and a clear flag. */
  function Calls(ls: seq<Listener>, e: Event, n: nat): (calls: seq<Invocation>)
    requires n <= |ls|
  {
    seq(n, i requires 0 <= i < n => Invocation(i, ls[i], e, false))
  }

  /**
   * FirstCanceller is the only position with its defining properties; a
   * corollary of FirstCanceller's own contract.
   */
  lemma FirstCancellerIsUnique(ls: seq<Listener>, m: nat)
    requires m <= |ls|
    requires forall i :: 0 <= i < m ==> !ls[i].cancels
    requires m < |ls| ==> ls[m].cancels
    ensures FirstCanceller(ls) == m
  {
  }

  /** The first canceller of a prefix is the first canceller of the vector, if the prefix contains it. */
  lemma FirstCancellerOfPrefix(ls: seq<Listener>, n: nat)
    requires n <= |ls|
    ensures FirstCanceller(ls[..n]) == if FirstCanceller(ls) < n then FirstCanceller(ls) else n
  {
    var k := FirstCanceller(ls);
    FirstCancellerIsUnique(ls[..n], if k < n then k else n);
  }

  /**
   * The whole behaviour of the engine: nothing is invoked when the flag is
   * already set; otherwise every listener up to and including the first
   * canceller is invoked once, in order, and no listener after it.
   */
  lemma {:induction false} RunStopsAfterFirstCanceller(ls: seq<Listener>, e: Event, start: bool)
    ensures Run(ls, e, start) ==
      if start then Outcome([], true)
      else if FirstCanceller(ls) < |ls| then Outcome(Calls(ls, e, FirstCanceller(ls) + 1), true)
      else Outcome(Calls(ls, e, |ls|), false)
    decreases |ls|
  {
    if ls != [] {
      var n := |ls| - 1;
      var p := ls[..n];
      RunStopsAfterFirstCanceller(p, e, start);
      FirstCancellerOfPrefix(ls, n);
      if !start && FirstCanceller(p) == |p| {
        assert Calls(ls, e, |ls|) == Calls(p, e, n) + [Invocation(n, ls[n], e, false)];
      } else if !start {
        assert Calls(ls, e, FirstCanceller(ls) + 1) == Calls(p, e, FirstCanceller(p) + 1);
      }
    }
  }

  /** If no listener cancels and the flag starts clear, every listener is invoked exactly once, in order. */
  lemma NoCancellerInvokesAll(ls: seq<Listener>, e: Event)
    requires forall i :: 0 <= i < |ls| ==> !ls[i].cancels
    ensures |Run(ls, e, false).trace| == |ls|
    ensures forall i :: 0 <= i < |ls| ==> Run(ls, e, false).trace[i] == Invocation(i, ls[i], e, false)
    ensures !Run(ls, e, false).cancelled
  {
    RunStopsAfterFirstCanceller(ls, e, false);
  }

  /**
   * If listener k is the first to cancel, listeners 0 .. k are each invoked
   * once, in order, and none after k is.
   */
  lemma CancelSilencesLaterListeners(ls: seq<Listener>, e: Event, k: nat)
    requires k < |ls| && ls[k].cancels
    requires forall i :: 0 <= i < k ==> !ls[i].cancels
    ensures |Run(ls, e, false).trace| == k + 1
    ensures forall i :: 0 <= i <= k ==> Run(ls, e, false).trace[i] == Invocation(i, ls[i], e, false)
    ensures forall inv :: inv in Run(ls, e, false).trace ==> inv.index <= k
    ensures Run(ls, e, false).cancelled
  {
    RunStopsAfterFirstCanceller(ls, e, false);
  }

  /** An event that is already cancelled when the call starts reaches no listener, and stays cancelled. */
  lemma {:induction false} AlreadyCancelledInvokesNothing(ls: seq<Listener>, e: Event)
    ensures Run(ls, e, true) == Outcome([], true)
    decreases |ls|
  {
    if ls != [] {
      AlreadyCancelledInvokesNothing(ls[..|ls| - 1], e);
    }
  }

  /** An empty vector invokes nothing and leaves the flag as it found it (the base case of Run's definition). */
  lemma EmptyVectorInvokesNothing(e: Event, start: bool)
    ensures Run([], e, start) == Outcome([], start)
  {
  }

  /** The call ends cancelled exactly when it started cancelled or some listener in the vector cancels. */
  lemma CancelledIffSomeListenerCancels(ls: seq<Listener>, e: Event, start: bool)
    ensures Run(ls, e, start).cancelled <==> start || exists i :: 0 <= i < |ls| && ls[i].cancels
  {
    RunStopsAfterFirstCanceller(ls, e, start);
    if !start && FirstCanceller(ls) < |ls| {
      assert ls[FirstCanceller(ls)].cancels;
    }
  }

  /**
   * Every listener that is invoked is invoked with the very event the call
   * was given, while the flag is clear, and in vector order.
   */
  lemma InvocationsSeeTheEventUncancelled(ls: seq<Listener>, e: Event, start: bool)
    ensures forall j :: 0 <= j < |Run(ls, e, start).trace| ==>
      var inv := Run(ls, e, start).trace[j];
      inv.index == j && j < |ls| && inv.listener == ls[j] && inv.event == e && !inv.sawCancelled
  {
    RunStopsAfterFirstCanceller(ls, e, start);
  }

  /**
   * Listeners registered later never change what the earlier ones receive:
   * the invocations over `ls` are a prefix of those over `ls + more`, and a
   * call that is cancelled within `ls` is not affected by `more` at all.
   */
  lemma {:induction false} LaterListenersLeaveEarlierUnchanged(ls: seq<Listener>, more: seq<Listener>, e: Event, start: bool)
    ensures |Run(ls, e, start).trace| <= |Run(ls + more, e, start).trace|
    ensures Run(ls + more, e, start).trace[..|Run(ls, e, start).trace|] == Run(ls, e, start).trace
    ensures Run(ls, e, start).cancelled ==> Run(ls + more, e, start) == Run(ls, e, start)
    decreases |more|
  {
    if more == [] {
      assert ls + more == ls;
    } else {
      var fewer := more[..|more| - 1];
      LaterListenersLeaveEarlierUnchanged(ls, fewer, e, start);
      assert (ls + more)[..|ls + more| - 1] == ls + fewer;
    }
  }

  /**
   * A listener appended to a vector runs after every earlier invocation, and
   * only if no earlier listener cancelled; it receives the event and a clear flag.
   */
  lemma AppendedListenerRunsLast(ls: seq<Listener>, l: Listener, e: Event, start: bool)
    ensures Run(ls, e, start).cancelled ==> Run(ls + [l], e, start) == Run(ls, e, start)
    ensures !Run(ls, e, start).cancelled ==>
      |Run(ls + [l], e, start).trace| == |Run(ls, e, start).trace| + 1 &&
      Run(ls + [l], e, start).trace[|Run(ls, e, start).trace|] == Invocation(|ls|, l, e, false) &&
      Run(ls + [l], e, start).cancelled == l.cancels
  {
    LaterListenersLeaveEarlierUnchanged(ls, [l], e, start);
    assert (ls + [l])[..|ls|] == ls;
  }

  /**
   * The engine: walks the whole vector, invoking each listener only while the
   * scope's flag is clear. A listener that cancels sets the flag through the
   * event's cancellation call. Only the flag may change; the vector and the
   * event are values.
   */
  method CallEvent(listeners: seq<Listener>, e: Event, scope: CancellationScope) returns (trace: seq<Invocation>)
    modifies scope
    ensures Outcome(trace, scope.cancelled) == Run(listeners, e, old(scope.cancelled))
  {
    trace := [];
    var i := 0;
    while i < |listeners|
      invariant 0 <= i <= |listeners|
      invariant Outcome(trace, scope.cancelled) == Run(listeners[..i], e, old(scope.cancelled))
    {
      if !scope.IsCancelled() {
        trace := trace + [Invocation(i, listeners[i], e, scope.IsCancelled())];
        if listeners[i].cancels {
          var _ := scope.CancelEvent(e);
        }
      }
      assert listeners[..i + 1][..i] == listeners[..i];
      i := i + 1;
    }
    assert listeners[..i] == listeners;
  }
}
