# PicoEvent in Dafny

PicoEvent is a small in-process event bus. `publish(msg, targets = [])` wraps a
payload into a message. The message carries the payload's constructor as its
channel, the payload itself, and a list of target strings. The bus pushes that
message through one subject. `listen(type, cb)` and `listen({type, targets}, cb)`
subscribe a callback behind a filter. The filter passes a message when the
channel is the listened type and the message's targets are valid for the
listener's own target list. The target rule (`validTarget`) is asymmetric:
- a message with no targets reaches every listener on its channel;
- a targeted message reaches only listeners whose targets share an entry with
  the message's targets;
- so a listener with an empty filter misses every targeted message.

The model is one module, `LibService` in `pico_event.dfy`:

- **The target rule.** `IndexOf`, `SomeListed` and `ValidTarget` model the
  pure predicate exactly as written: `indexOf(v) >= 0`, then `some`, then the
  early `length === 0` test. They are proved equal to a reference definition,
  `Intersect`, which says two lists share an element. `Matches` is the
  subscription's filter.
- **Delivery.** `Deliveries(subs, msg)` is what one publish hands out. It has
  one `Delivery(subscription, value)` per matching live subscription, in
  registration order, and each one carries the published payload. It stands
  for the `filter` and then the `map(message => message.payload)` chain.
  Lemmas then prove four things about it:
  - it is sound (only matching subscriptions, and only the payload);
  - it counts correctly (each matching live subscription is served once);
  - it keeps order (it distributes over concatenation);
  - it interacts correctly with cancellation.
- **The bus.** `PicoEvent<P>` is a class. Its `subs` field is the subject's
  list of live observers, and `nextId` is the next cancellation handle. The
  constant `channelOf` maps a payload to its constructor's identity.
  - `Publish` loops over a snapshot of `subs` and returns the delivery list.
    It has no `modifies` clause, so a publish changes neither the
    subscriptions nor anything else.
  - `ChannelImpl` appends one record. `Listen` decides between the two
    argument shapes and calls `ChannelImpl`.
  - `Cancel` removes the record that holds a handle.
  - `Valid()` keeps handles increasing along the list, which makes every
    handle unique.

Channels are natural-number tags standing for constructor identity (`===` on
constructor functions). `ListenParams.type` defaults to `null`, so its channel
is `Option<Channel>`. Payloads are taken to be class instances, as the
`Message` interface documents (lib.service.ts:15), so a payload's constructor
is a function and never `null`. Under that assumption a subscription with a
`None` channel is never served.

## Model

| member | source | states |
|---|---|---|
| LibService.IndexOf | src/lib/src/service/lib.service.ts:67 | the result is -1 exactly when the target is absent; otherwise it is a position holding the target with no earlier occurrence |
| LibService.SomeListed | src/lib/src/service/lib.service.ts:67 | `some` over the subscribed targets is true exactly when some subscribed target occurs in the message targets |
| LibService.ValidTarget | src/lib/src/service/lib.service.ts:65-68 | true exactly when the message has no targets or the two target lists intersect |
| LibService.Matches | src/lib/src/service/lib.service.ts:61 | the subscription's filter: it passes only messages of the listened channel, passes every untargeted one of that channel, and fails every targeted one when the filter is empty (fully pinned down by `MatchesExactly`) |
| LibService.MatchesExactly | src/lib/src/service/lib.service.ts:61 | a subscription's filter passes a message iff the channels are equal and (the message is untargeted or the target lists intersect) |
| LibService.UntargetedMatchesAnyFilter | src/lib/src/service/lib.service.ts:66 | an untargeted message passes every same-channel filter, whatever its targets |
| LibService.EmptyFilterMissesTargeted | src/lib/src/service/lib.service.ts:67 | a subscription with an empty target filter never passes a targeted message |
| LibService.OtherChannelNeverMatches | src/lib/src/service/lib.service.ts:61 | a subscription never passes a message of a different channel; a subscription whose type is null is one such |
| LibService.TargetedRuleSymmetric | src/lib/src/service/lib.service.ts:67 | once both lists are non-empty, swapping message and subscribed targets does not change the verdict |
| LibService.DefaultParamsNeverMatch | src/lib/src/service/lib.service.ts:26-29 | a subscription made from a default `ListenParams` (null type, no targets) passes no message whose payload is a class instance |
| LibService.Filter | src/lib/src/service/lib.service.ts:50-55 | the `typeof params === 'object'` dispatch: a bare type becomes that type with an empty target list, and a params object is handed on as it is (the equivalence of the two shapes is `BareIsEmptyParams`) |
| LibService.BareIsEmptyParams | src/lib/src/service/lib.service.ts:49-56 | `listen(T)` hands `channelImpl` the same type and the same empty target list as `listen({type: T, targets: []})` |
| LibService.Deliveries | src/lib/src/service/lib.service.ts:60-62 | a publish makes at most one delivery per live subscription |
| LibService.DeliveriesAppend | src/lib/src/service/lib.service.ts:60-62 | the deliveries for two consecutive runs of subscriptions are those of the first run followed by those of the second |
| LibService.DeliveriesSound | src/lib/src/service/lib.service.ts:46-62 | every delivery goes to a live subscription whose filter passes, and its value is the published payload itself |
| LibService.DeliveriesCount | src/lib/src/service/lib.service.ts:60-62 | the payload reaches a subscription as often as it is listed when its filter passes, and never when it does not |
| LibService.RegistrationOrder | src/lib/src/service/lib.service.ts:60-62 | two passing subscriptions registered in order are served in that order, with the deliveries of the runs around them in between |
| LibService.Without | src/lib/src/service/lib.service.ts:58-63 | the list left after one handle unsubscribes: no longer than before; that it holds no record with the handle and keeps every other record is stated by `WithoutDrops`, `WithoutCount` and `WithoutRemovesOne` |
| LibService.WithoutDrops | src/lib/src/service/lib.service.ts:58-63 | after a cancellation, every remaining subscription was live before and none holds the cancelled handle |
| LibService.WithoutCount | src/lib/src/service/lib.service.ts:58-63 | a cancellation removes every record of its handle and leaves every other record listed as often as before |
| LibService.WithoutAbsent | src/lib/src/service/lib.service.ts:58-63 | cancelling a handle that no live subscription holds leaves the list unchanged |
| LibService.WithoutRemovesOne | src/lib/src/service/lib.service.ts:58-63 | with unique increasing handles, cancelling the k-th subscription removes exactly that record and keeps the order of the rest |
| LibService.WithoutIncreasing | src/lib/src/service/lib.service.ts:58-63 | cancellation keeps the live list sorted by handle |
| LibService.ListedOnce | src/lib/src/service/lib.service.ts:58-63 | with handles increasing, every live subscription occurs once in the list |
| LibService.DeliveredOnce | src/lib/src/service/lib.service.ts:45-62 | one publish serves each live subscription whose filter passes exactly once, and serves no other subscription, live or not |
| LibService.CancelledNotServed | src/lib/src/service/lib.service.ts:58-63 | after a cancellation the cancelled handle is never served, and every other subscription is served exactly as often as before |
| LibService.RoomScenario | src/lib/src/service/lib.service.ts:61-67 | a publish to `room-1` serves the `room-1` listener and neither the `room-2` listener nor the unfiltered one |
| LibService.PicoEvent.constructor | src/lib/src/service/lib.service.ts:41-43 | a new bus has no subscriptions and satisfies the handle invariant |
| LibService.PicoEvent.Publish | src/lib/src/service/lib.service.ts:45-47 | the deliveries are exactly `Deliveries` of the live list for the payload, its channel and the given targets; nothing changes |
| LibService.PicoEvent.PublishUntargeted | src/lib/src/service/lib.service.ts:45-46 | with the default empty target list, a live subscription is served iff it listens on the payload's channel, whatever its filter |
| LibService.PicoEvent.ChannelImpl | src/lib/src/service/lib.service.ts:58-63 | appends one subscription with a handle that no live subscription holds, and keeps the handle invariant |
| LibService.PicoEvent.Listen | src/lib/src/service/lib.service.ts:49-56 | appends the subscription `channelImpl` would make for the normalised argument: a bare type gets an empty filter, a params object its own type and targets |
| LibService.PicoEvent.Cancel | src/lib/src/service/lib.service.ts:58-63 | the live list loses the records that hold the handle, nothing else changes, and the handle invariant is kept |

`TargetedScenario` and `CancelScenario` are client methods with no contract of
their own. They derive concrete runs on a live bus from the contracts above:
- a publish to `["room-1"]` reaches the `room-1` listener, and misses both
  the `room-2` listener and the unfiltered one;
- a broadcast after a cancellation misses the cancelled listener.

## Left out

- Angular's `@Injectable` decorator: it is framework wiring with no behaviour.
- RxJS itself (`Subject`, `Subscription`, the `filter`/`map` operators). The
  subject's observer list is not part of this model. It is stood in for by a
  list of subscription records in registration order. `Publish` iterates a
  snapshot of that list, and unsubscribing removes the record by its handle.
  The order that `RegistrationOrder` and `DeliveriesAppend` prove is therefore
  a property of this stand-in list. It is not a fact shown by the source:
  `lib.service.ts` relies on the `Subject` for the order. RxJS's unsubscribe
  idempotence and its re-entrancy behaviour are not asserted.
- Callbacks. A callback call is recorded as a `Delivery` in the returned list.
  Their side effects, exceptions thrown by a listener, and a nested publish
  from inside a callback are not modelled.
- JavaScript runtime type identity (`msg.constructor`, `Newable<T>`, the
  `typeof params === 'object'` test). The bus gets a fixed function
  `channelOf` from payload to channel tag. `listen`'s two argument shapes are
  the two cases of `ListenArg`. Arguments outside the declared types are not
  modelled: a `null` params object, `undefined` as a type, a `null` target
  list.
- LibService.Subscription: a subscription's targets are frozen as a `seq`
  when it is made. In the source, the filter closure reads the caller's own
  `targets` array on every message (lib.service.ts:51, 58, 61). A caller who
  mutates that array after `listen`, for example by pushing `'room-3'`,
  changes which later messages reach the listener. This aliasing is not
  modelled.
- LibService.PicoEvent.Publish: `channelOf` is total. In the source,
  `publish(null)` and `publish(undefined)` throw a TypeError when they read
  `msg.constructor` (lib.service.ts:46). Nothing is delivered and the error
  reaches the caller. The model has no such payloads and no error path for
  them.
- Payloads that are not class instances. A payload whose `constructor`
  property is `null` (for example `{constructor: null}`) gets a `null`
  channel, and such a message would reach a listener made from a default
  `ListenParams` (lib.service.ts:27, 46, 61). The model gives every payload a
  constructor channel, so `DefaultParamsNeverMatch` and
  `OtherChannelNeverMatches` hold only for class-instance payloads.
- Handles. The source returns an RxJS `Subscription` object as the
  cancellation handle. The model returns a natural-number handle drawn from a
  counter.
- LibService.Deliveries: its own contract only bounds the number of
  deliveries. What a publish delivers is stated by `DeliveriesSound`,
  `DeliveriesCount`, `DeliveredOnce` and `RegistrationOrder`.
