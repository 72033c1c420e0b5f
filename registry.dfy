/**
 * The dispatcher: one ordered listener vector per event kind.
 *
 * Registration appends to the vector of one kind; there is no removal.
 * Delivering an event runs the engine over the vector of the event's kind.
 */
module Registry {
  import opened Events
  import opened Cancellation
  import opened FanOut

  class Dispatcher {
    /** The vectors that have been touched; a kind not in the map has an empty vector. */
    var handlers: map<Kind, seq<Listener>>

    /** Every vector starts empty. */
    constructor ()
      ensures forall k :: Listeners(k) == []
    {
      handlers := map[];
    }

    /** The vector of kind `k`, in invocation order. */
    function Listeners(k: Kind): (ls: seq<Listener>)
      reads this
    {
      if k in handlers then handlers[k] else []
    }

    /** Registers `l` after every listener already attached to kind `k`; other kinds are unaffected. */
    method Attach(k: Kind, l: Listener)
      modifies this
      ensures Listeners(k) == old(Listeners(k)) + [l]
      ensures forall k' :: k' != k ==> Listeners(k') == old(Listeners(k'))
    {
      handlers := handlers[k := Listeners(k) + [l]];
    }

    /** Delivers `e` to the vector of its kind; the vectors themselves do not change. */
    method Dispatch(e: Event, scope: CancellationScope) returns (trace: seq<Invocation>)
      modifies scope
      ensures handlers == old(handlers)
      ensures Outcome(trace, scope.cancelled) == Run(Listeners(KindOf(e)), e, old(scope.cancelled))
    {
      trace := CallEvent(Listeners(KindOf(e)), e, scope);
    }
  }

  /** Three listeners on message creation, the second of which cancels: the third never runs. */
  method MessageCreateScenario(e: Event)
    requires KindOf(e) == MessageCreate
  {
    var d := new Dispatcher();
    var first, second, third := Listener(1, false), Listener(2, true), Listener(3, false);
    d.Attach(MessageCreate, first);
    d.Attach(MessageCreate, second);
    d.Attach(MessageCreate, third);
    assert d.Listeners(MessageCreate) == [first, second, third];
    var scope := new CancellationScope(false);
    var trace := d.Dispatch(e, scope);
    CancelSilencesLaterListeners([first, second, third], e, 1);
    assert trace == [Invocation(0, first, e, false), Invocation(1, second, e, false)];
    assert scope.IsCancelled();
  }

  /** A kind nobody listens to: the dispatch invokes nothing and leaves the flag clear. */
  method UnheardKindScenario(e: Event)
  {
    var d := new Dispatcher();
    var scope := new CancellationScope(false);
    var trace := d.Dispatch(e, scope);
    assert trace == [] && !scope.IsCancelled();
  }

  /**
   * Two dispatch calls with scopes of their own: the cancellation in one call
   * leaves the other call's flag and listeners untouched.
   */
  method IndependentScopesScenario(e1: Event, e2: Event)
    requires KindOf(e1) != KindOf(e2)
  {
    var k1, k2 := KindOf(e1), KindOf(e2);
    var d := new Dispatcher();
    d.Attach(k1, Listener(1, true));
    d.Attach(k1, Listener(2, false));
    assert d.Listeners(k1) == [Listener(1, true), Listener(2, false)];
    assert d.Listeners(k2) == [];
    d.Attach(k2, Listener(3, false));
    assert d.Listeners(k1) == [Listener(1, true), Listener(2, false)];
    assert d.Listeners(k2) == [Listener(3, false)];
    var scope1 := new CancellationScope(false);
    var scope2 := new CancellationScope(false);
    var trace1 := d.Dispatch(e1, scope1);
    CancelSilencesLaterListeners(d.Listeners(k1), e1, 0);
    assert scope1.IsCancelled() && |trace1| == 1;
    var trace2 := d.Dispatch(e2, scope2);
    NoCancellerInvokesAll(d.Listeners(k2), e2);
    assert scope1.IsCancelled();
    assert !scope2.IsCancelled() && trace2 == [Invocation(0, Listener(3, false), e2, false)];
  }
}
