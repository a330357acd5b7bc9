# Shared-state store, modelled in Dafny

This project models the shared-state store of `react-compo-contrib`, which lives in
`src/sharedState.ts`. `createSharedState(initial)` creates a store. The store holds one
mutable value and an event registry. It hands back two closures.

- **update** resolves its argument. The argument is either a literal value or a
  transformer `prev => next`, which is applied once to the current value. When the
  resolved value differs from the current one (`!==`), update stores it and emits one
  `UPDATE` event. Otherwise it does nothing.
- **subscribe(selector = identity)** is the other closure. For each consumer it seeds the
  consumer's state cell with `selector(val)`. It registers a handler on mount and removes
  that handler on unmount. On every `UPDATE` the handler sets the cell to `selector(val)`.
  It also hands back a getter that computes `selector(val)` each time it is read.

The Dafny files:

- `shared_state.dfy`, module `SharedState`, holds the store itself.
  - `Store` is a class. Its fields are the value `val`, the handler registry `handlers`
    (in registration order) and a ghost count of the broadcasts emitted. Its methods are `Update`,
    `Broadcast`, `Attach` and `Detach`. `Attach` and `Detach` are the setup and teardown
    of the subscribe effect.
  - `Subscription` is a class for one consumer. It holds its store, its selector and the
    consumer's state cell, plus a ghost count of how often its handler has run. It has the
    handler `Notify` and the getter `Get`.
  - Pure step functions say what one update does. `Resolve` and `Emits` give the store's
    side. `Deliver` gives what one subscription's cell receives. `Push` is the consumer
    cell's deduplicating setter.
- `shared_state_traces.dfy`, module `SharedStateTraces`, follows the store across a
  sequence of update calls. It folds the same step functions and proves the
  protocol's guarantees by induction.
- `shared_state_scenarios.dfy`, module `SharedStateScenarios`, holds clients of the classes.
  They replay the repository's usage examples and state what the consumers observe.
  `ApplyUpdates` calls `Update` once per argument and proves that the store ends exactly
  where the trace model of `shared_state_traces.dfy` says.

The consumer's cell comes from the host `state` primitive, whose code is not part of this
model. The model assumes that its setter signals the consumer only when the new value
differs from the one it holds. The repository's usage examples rely on exactly that
(`src/sharedState.test.tsx:86-89`, `src/sharedState.test.tsx:175-178`). JavaScript's `!==`
is modelled by Dafny value equality.

Two behaviours of the code a reader may not expect:

- The getter recomputes `selector(val)` on every read (`src/sharedState.ts:39`). It does
  not return a cached projection. So after a consumer detaches, its cell and signal count
  stay frozen, but its getter still follows the store (`DetachStopsDelivery`).
- A subscription's cell is seeded when the consumer subscribes, and its handler is
  registered later, when the effect runs. An update in between is missed by the cell
  until the next broadcast. `CellTracksGetter` therefore requires that the cell was in
  sync at the start or that a broadcast has happened since.

`Identity`, `Resolve`, `Emits` and `Subscription.Get` are definitions. They carry no
contract of their own. The contracts below state what they mean.

## Model

| member | source | states |
|---|---|---|
| `SharedState.Push` | src/sharedState.ts:30-31 | after setting, the consumer's cell holds the new value; the consumer is signalled once exactly when that value differs from what the cell held, and never more than once |
| `SharedState.Deliver` | src/sharedState.ts:43-51 | one update signals a registered subscription exactly when it broadcasts and the selected new value differs from the cell; after a broadcast the cell holds the selected new value; without a broadcast the cell is untouched |
| `SharedState.Without` | src/sharedState.ts:36 | unregistering removes exactly that handler and keeps every other one; unregistering an absent handler changes nothing; a registry without duplicates stays without duplicates and shrinks by one |
| `SharedState.Store.constructor` | src/sharedState.ts:21-25 | a new store holds the initial value, has no registered handlers and has emitted no broadcast |
| `SharedState.Store.Attach` | src/sharedState.ts:34-35 | mounting registers the subscription's handler exactly once, last in order, and changes neither the value nor any consumer |
| `SharedState.Store.Detach` | src/sharedState.ts:36 | unmounting removes the handler, so later broadcasts cannot reach it; repeating it is a no-op; the value is unchanged |
| `SharedState.Store.Update` | src/sharedState.ts:43-51 | the stored value becomes the resolved argument, with a transformer applied once to the old value; one broadcast is emitted exactly when that value differs, none otherwise; each registered handler runs exactly once when it differs and not at all otherwise; each registered subscription's cell changes as `Deliver` says and no other consumer's does; after a broadcast every registered cell equals its getter |
| `SharedState.Store.Broadcast` | src/sharedState.ts:49 | one broadcast is counted; each handler registered when it starts runs exactly once, so each of those cells is set to its selection of the current value; the value and the registry are unchanged |
| `SharedState.Subscription.constructor` | src/sharedState.ts:29-30 | subscribing seeds the consumer's cell with the selection of the current value, without signalling the consumer |
| `SharedState.Subscription.Notify` | src/sharedState.ts:31 | the handler sets the consumer's cell to its selection of the store's current value, and counts one run |
| `SharedStateTraces.BroadcastsCountValueChanges` | src/sharedState.ts:47-50 | over any sequence of updates, the broadcasts emitted are exactly the changes of the stored value |
| `SharedStateTraces.CellTracksGetter` | src/sharedState.ts:29-39 | over any sequence of updates, a registered consumer's cell equals what its getter returns, provided it was in sync at the start or some broadcast has happened since |
| `SharedStateTraces.SignalsAtMostBroadcasts` | src/sharedState.ts:43-51 | over any sequence of updates, a registered consumer is signalled at most once per broadcast and never without one |
| `SharedStateTraces.SignalsCountSelectedChanges` | src/sharedState.ts:31 | over any sequence of updates, an in-sync consumer is signalled exactly as often as its selected value changes, counted independently over the stored values |
| `SharedStateTraces.IdentitySignalledOncePerBroadcast` | src/sharedState.ts:47-49 | a consumer without a selector whose cell is in sync is signalled exactly once per value-changing update, never zero and never twice |
| `SharedStateTraces.SameSelectionSameObservation` | src/sharedState.ts:29-31 | two selectors that agree on every value give a consumer the same cell and signal count over any sequence of updates |
| `SharedStateTraces.DefaultSelectorIsIdentity` | src/sharedState.ts:19 | subscribing without a selector behaves exactly as subscribing with `x => x` |
| `SharedStateTraces.ExtendTrace` | src/sharedState.ts:43-51 | one more update call resolves the value once more and adds a broadcast exactly when that call emits |
| `SharedStateTraces.ExtendObservation` | src/sharedState.ts:31 | one more update call changes a registered subscription's cell by exactly what that call delivers |
| `SharedStateScenarios.ApplyUpdates` | src/sharedState.ts:43-51 | calling update for each argument in turn leaves the value, the broadcast count, every registered cell and every handler's run count exactly as the trace model predicts, so each handler runs once per broadcast |
| `SharedStateScenarios.TwoDefaultSubscribers` | src/sharedState.test.tsx:125-154 | two subscribers on 42 read 42 and are not signalled before any update; `update(43)` signals each once and both read 43 |
| `SharedStateScenarios.ParitySelector` | src/sharedState.test.tsx:156-179 | a parity selector on 42 reads 0; `update(43)` signals it and it reads 1; `update(45)` does not signal it and it still reads 1 |
| `SharedStateScenarios.FourNestedSubscribers` | src/sharedState.test.tsx:92-122 | one `update(n => n + 1)` runs each of four subscribers' handlers exactly once and signals each exactly once |
| `SharedStateScenarios.FieldSelector` | src/sharedState.test.tsx:34-90 | subscribers selecting field `a` are signalled and read 2 when `a` is incremented, and are not signalled when only `b` is incremented |
| `SharedStateScenarios.DetachStopsDelivery` | src/sharedState.ts:34-39 | after a double detach, `update(100)` neither signals the consumer nor writes its cell, while its getter reads 100 |
| `SharedStateScenarios.EqualUpdateIsSilent` | src/sharedState.ts:47-50 | updating with the stored value, literally or through a transformer, emits no broadcast, signals nobody and keeps the value |

## Left out

- React rendering, mounting and the consumer component tree are not modelled. Only the observable getter values and signal counts are kept. A consumer's "refresh" is the signal count of its cell.
- The host primitives `use`, `state`, `effector` and `useWith` are not modelled. `state` is modelled as the `Cell` with the deduplicating `Push`. `effector([])` is modelled as explicit `Attach` and `Detach` calls. `use` is not modelled at all.
- The event registry `SimpleEvents` is modelled as an ordered sequence of subscriptions with one event kind. `Attach` requires that the subscription is not already registered. The effect with an empty dependency list runs its setup once per mount, so the host always meets this.
- A handler never calls back into the store in this model, because a consumer's refresh happens outside the store. So the model does not cover a detach that happens during a broadcast. It does keep the broadcast's snapshot of the registry.
- A transformer or selector that throws is not modelled. Dafny functions are total.
- JavaScript decides literal versus transformer with `typeof v === 'function'`. The model uses the tagged union `UpdateArg` instead, so a state whose values are themselves functions is not treated ambiguously.
- `!==` on objects compares references. The model compares values, so two structurally equal but distinct objects count as equal here.
- `!==` on the number `NaN` is true, since `NaN !== NaN`. So in JavaScript, `update(NaN)` on a store holding `NaN` emits a broadcast on every call, and a consumer cell holding `NaN` may be signalled again, depending on how the host setter compares values. Dafny value equality has no such value, so the model's no-op dedup (`Emits`, `Push`) also holds for an input on which the code broadcasts.
- All subscriptions of one store project into one selected type `O`, because Dafny has no heterogeneous handler registry without traits. A subscription without a selector is available when `O` is the state type.
- The TypeScript overloads of the subscriber type at `src/sharedState.ts:13-16` are type-level only and are not modelled.
- `src/asyncRunner.ts` (`asyncRunner`, `asyncRunner2`) is not part of this model. It wraps a host state cell around an awaited promise.
