/**
 * The cancellation flag of one dispatch call.
 *
 * The event record is read-only while it is being dispatched, so the flag is
 * not part of it: it belongs to the dispatch call, and every listener invoked
 * by that call reads and sets the same flag.
 */
module Cancellation {
  import opened Events

  class CancellationScope {
    var cancelled: bool

    /** A scope whose flag starts at `initial`; which value a fresh call starts with is the caller's business. */
    constructor (initial: bool)
      ensures cancelled == initial
    {
      cancelled := initial;
    }

    /** Whether a listener of the current call has cancelled the event. */
    predicate IsCancelled()
      reads this
    {
      cancelled
    }

    /**
     * Cancels the event in progress, so that no later listener of this call
     * is invoked; answers the event itself, for chaining.
     */
    method CancelEvent(e: Event) returns (self: Event)
      modifies this
      ensures IsCancelled()
      ensures self == e
    {
      cancelled := true;
      self := e;
    }
  }
}
