# Event dispatch core of the D++ Discord library, modelled in Dafny

This project models the event-dispatch core of the D++ client library
(`include/dpp/dispatcher.h`):

- **The event envelope** (`event_dispatch_t`). It holds the raw gateway payload (JSON text or ETF
  bytes) and the originating shard, which may be absent. The payload is either a plain notification
  kind or one of the four interaction records. Envelopes are Dafny values, so nothing
  a listener does can change one (`events.dfy`).
- **The cancellation protocol** (`cancel_event` / `is_cancelled`). The header keeps the
  flag outside the event, in per-thread state, because the event is `const` while it is
  dispatched. Here the flag is an explicit object: `CancellationScope`, one per dispatch
  call (`cancellation.dfy`).
- **The fan-out engine** (`call_event`). It walks a listener vector front to back. Before
  each listener it re-reads the flag and invokes the listener only while the flag is
  clear. A listener is reduced to whether it calls `cancel_event()`. `Run` is the
  reference definition: it processes a prefix of the vector and then the next listener.
  The lemmas derive from it everything the engine promises. `CallEvent` is the loop,
  proved equal to `Run` (`fanout.dfy`).
- **The listener registry** (`dispatcher`). It has one ordered vector per event kind; the
  kind tag names all 70 vectors. Registration appends, vector order is invocation order,
  and nothing is removed (`registry.dfy`).
- **`get_parameter`** on the interaction records. The generic interaction looks the name
  up among the filled-in command options. The button, autocomplete and select records
  always answer with the empty value. The inheritance with virtual overrides becomes one
  closed variant and one function that matches on it (`interactions.dfy`).

Two points where the model follows the header closely:

- The header does not show where (or whether) the flag is reset, so `CancellationScope`
  takes the initial flag as a constructor argument. `RunStopsAfterFirstCanceller`,
  `CancelledIffSomeListenerCancels`, `InvocationsSeeTheEventUncancelled` and
  `LaterListenersLeaveEarlierUnchanged` are stated for both initial values.
  `NoCancellerInvokesAll` and `CancelSilencesLaterListeners` assume the flag is clear at
  entry, which the header does not guarantee; `AlreadyCancelledInvokesNothing` covers a
  set flag.
- `call_event` does not leave the loop at a set flag: `std::for_each` visits every
  listener and skips each one while the flag is set (`include/dpp/dispatcher.h:95-99`).
  `CallEvent` does the same.

## Model

| member | source | states |
|---|---|---|
| Events.KindOf | include/dpp/dispatcher.h:1521-1533 | an event goes to one of the four interaction vectors exactly when its payload is an interaction record; the generic record goes to `interaction_create`, a button click to `button_click`, an autocomplete request to `autocomplete`, a select click to `select_click`; a notification goes to the vector of its own kind |
| Interactions.FirstNamed | include/dpp/dispatcher.h:339-346 | the answer is absent exactly when no option carries the name; otherwise it is the position of the first option that does |
| Interactions.GetParameter | include/dpp/dispatcher.h:339-435 | button, autocomplete and select records always give the empty value; a name that is not among the options gives the empty value; on the generic record the value of the first option with that name is returned |
| Interactions.AbsentParameterIsEmpty | include/dpp/dispatcher.h:339-346 | a name that is not among the command's parameters yields the empty value, on every variant |
| Interactions.PresentParameterIsFirstMatch | include/dpp/dispatcher.h:339-346 | on the generic record, a name present at position i yields the value of its first occurrence, at or before i |
| Interactions.AutocompleteIgnoresItsOptions | include/dpp/dispatcher.h:393-414 | an autocomplete record gives the empty value even for the name of an option it lists |
| Interactions.OnlyGenericFindsParameters | include/dpp/dispatcher.h:357-435 | for one command with a uniquely named, non-empty parameter, the generic record returns its value while the button, autocomplete and select records return empty |
| Cancellation.CancellationScope.constructor | include/dpp/dispatcher.h:69-83 | a scope starts with the flag value the caller chooses |
| Cancellation.CancellationScope.CancelEvent | include/dpp/dispatcher.h:69-75 | afterwards `IsCancelled()` holds, and the event returned is the event it was called on; only the flag changes |
| FanOut.FirstCanceller | include/dpp/dispatcher.h:94-100 | the position of the first listener that cancels, or the vector length when none does |
| FanOut.FirstCancellerIsUnique | include/dpp/dispatcher.h:94-100 | a position before which no listener cancels and at which (unless it is the end) a listener cancels is the first canceller |
| FanOut.RunStopsAfterFirstCanceller | include/dpp/dispatcher.h:94-100 | the whole engine: with the flag already set nothing is invoked; otherwise listeners 0 up to and including the first canceller are invoked once each, in order, with the event and a clear flag, and the flag ends set exactly when a canceller exists |
| FanOut.NoCancellerInvokesAll | include/dpp/dispatcher.h:94-100 | if no listener cancels and the flag starts clear, every listener is invoked exactly once, in vector order, and the flag stays clear |
| FanOut.CancelSilencesLaterListeners | include/dpp/dispatcher.h:69-100 | if listener k is the first to cancel, listeners 0..k are each invoked once, in order, no listener after k is invoked, and the flag ends set |
| FanOut.AlreadyCancelledInvokesNothing | include/dpp/dispatcher.h:96 | an event that is cancelled when the call starts reaches no listener and stays cancelled |
| FanOut.EmptyVectorInvokesNothing | include/dpp/dispatcher.h:94-100 | an empty vector invokes nothing and leaves the flag unchanged |
| FanOut.CancelledIffSomeListenerCancels | include/dpp/dispatcher.h:94-100 | the call ends cancelled exactly when it started cancelled or some listener in the vector cancels |
| FanOut.InvocationsSeeTheEventUncancelled | include/dpp/dispatcher.h:94-100 | the j-th invocation is of listener j, receives the very event the call was given, and sees a clear flag |
| FanOut.LaterListenersLeaveEarlierUnchanged | include/dpp/dispatcher.h:1500-1505 | for any listeners appended later, the invocations of the earlier listeners are a prefix of the new invocations, and a call cancelled among the earlier listeners is entirely unaffected |
| FanOut.AppendedListenerRunsLast | include/dpp/dispatcher.h:1500-1505 | an appended listener is invoked after all earlier invocations, with the event and a clear flag, only if no earlier listener cancelled, and the final flag is then its own decision |
| FanOut.CallEvent | include/dpp/dispatcher.h:94-100 | the loop's invocations and final flag are those of `Run` on the vector and the initial flag; only the scope's flag is modified |
| Registry.Dispatcher.constructor | include/dpp/dispatcher.h:1500-1505 | every kind's listener vector starts empty |
| Registry.Dispatcher.Attach | include/dpp/dispatcher.h:1500-1505 | the listener is appended after those already attached to its kind; every other kind's vector is unchanged |
| Registry.Dispatcher.Dispatch | include/dpp/dispatcher.h:94-100 | delivers the event to the vector of its kind with the engine's behaviour; the registry is unchanged |

`Registry.MessageCreateScenario`, `Registry.UnheardKindScenario` and
`Registry.IndependentScopesScenario` are clients of the contracts above. The first has
three message-creation listeners, where the second cancels and the third never runs. The
second dispatches a kind nobody listens to. The third runs two dispatch calls with their
own scopes, and one call's cancellation does not reach the other.

## Left out

- The roughly ninety payload records (`include/dpp/dispatcher.h:104-1494`) declare fields
  only (snowflakes, copied aggregates, cache pointers). A notification is represented by
  its kind tag alone.
- The interaction reply operations `reply`, `edit_response`, `delete_original_response`,
  `thinking` and `get_original_response`, and `message_create_t::send`/`reply`, are left
  out. They submit REST requests and complete through callbacks. Their implementations are
  not part of this model, and the header enforces no local response state, so no state
  machine is modelled.
- The per-thread storage of the cancellation flag and concurrent dispatch calls are left
  out. The flag is an explicit scope object per call instead.
- The content and decoding of `raw_event` (JSON or ETF) are left out: the raw payload is an
  opaque string.
- Voice payloads with raw audio buffers and voice-client pointers are left out: they are
  I/O and foreign pointers.
- The `on_eventname` registration entry points of the cluster class are not part of this
  model. Registration is modelled only as the append to a kind's vector (`Attach`).
- Listener side effects other than cancellation are left out, and so are exceptions a
  listener throws, which the engine does not catch. A listener is reduced to whether it
  cancels.
- Interactions.GetParameter: the header declares `get_parameter` but does not define it.
  The generic lookup is modelled as "the first option with that name, else the empty value", and
  it looks only at top-level options.
- `command_value` is modelled without its floating-point alternative. Its integer
  alternative is unbounded rather than 64-bit.
