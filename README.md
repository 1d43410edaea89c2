# Timer store: timing-state model

A Dafny model of the timing state of the race-timing client's Pinia store
(`src/scripts/stores/timer.store.js`). The store keeps two indexes:

- `starterOnStage` maps a start number to the id of its open (unfinished) timetable entry.
- `finishedStarter` maps a start number to the ids of its finished entries.

Beside them are the registrant list (`starters`), the operator's `selectedStarter`, the
`mode`, the counterpart flag and the `sessionTakeOver` flag. The indexes are rebuilt in
bulk from fetched entries. After each remote write they are updated locally, and live
create/update/delete events are folded into them. Getters derive from them which start
numbers may start next and which controls each timing mode shows.

Layout:

- `types.dfy` (module `TimerTypes`): start numbers, entry ids, timetable entries, registrants, the user-type record, session markers.
- `stage_indexes.dfy` (module `StageIndexes`): the two indexes as one value `TimingIndex`, the update primitives that every action and handler uses, the bulk rebuild `Rebuilt` and its lemmas.
- `eligibility.dfy` (module `Eligibility`): `getStartNumbers` as two order-preserving filters, with lemmas.
- `mode_policy.dfy` (module `ModePolicy`): the mode getters, `getMaxStartNumber` and `getUserTypeEvent`.
- `session_coordination.dfy` (module `SessionCoordination`): the counter mode, the counterpart lookup and the takeover decision.
- `timer_store.dfy` (module `Store`): the class `TimerStore` with the store's fields, its actions, its live handlers and its two index getters. Each state-changing method states its new state through the primitives of `StageIndexes`.

Every remote call is a parameter of the method that makes it. The parameter carries the
backend's reply: a new id, success, or failure. A failed call leaves the store unchanged,
as in the source, where the awaited call throws before any local assignment.

## Model

| member | source | states |
|---|---|---|
| `StageIndexes.FinishedCountPositiveIffKey` | src/scripts/stores/timer.store.js:349 | in a well-formed index (every finished key holds at least one id) the count read by the try-count filter is positive exactly when the number has a finished key |
| `StageIndexes.SetOpen` | src/scripts/stores/timer.store.js:270-273 | recording an open entry sets exactly key `sn` to the id; other keys and the finished index are unchanged |
| `StageIndexes.ClearOpen` | src/scripts/stores/timer.store.js:274-277 | only key `sn` leaves the on-stage index; the rest of it and the finished index are unchanged |
| `StageIndexes.AppendFinished` | src/scripts/stores/timer.store.js:263-266 | the id is appended to the finished ids of `sn` (the key is created if absent), the count grows by one, every other key and the on-stage index are unchanged |
| `StageIndexes.ReplaceFinished` | src/scripts/stores/timer.store.js:158 | under the `[id]` reading of the assignment, the finished ids of `sn` become the single id, so the count is 1; every other key and the on-stage index are unchanged |
| `StageIndexes.CreateAndDeleteEventsIdempotent` | src/scripts/stores/timer.store.js:270-277 | applying a create event or a delete event twice gives the same indexes as applying it once |
| `StageIndexes.UpdateEventCountsEveryDelivery` | src/scripts/stores/timer.store.js:262-267 | a second delivery of the same update event leaves the on-stage index as it was but raises the finished count again; the update event is not idempotent |
| `StageIndexes.PrimitivesPreserveWellFormed` | src/scripts/stores/timer.store.js:153-159 | no update primitive leaves a finished key with an empty id list |
| `StageIndexes.Rebuilt` | src/scripts/stores/timer.store.js:73-85 | the rebuild loop from empty maps yields well-formed indexes |
| `StageIndexes.FinishedIds` | src/scripts/stores/timer.store.js:81-84 | reference definition: the ids of the entries of `sn` with a finish time, in fetch order; an id is in it exactly when some such entry carries it |
| `StageIndexes.RebuiltOnStage` | src/scripts/stores/timer.store.js:73-80 | after the rebuild, `sn` is on stage exactly when some fetched entry of `sn` has no finish time, and its value is the id of the first such entry in fetch order |
| `StageIndexes.RebuiltFinished` | src/scripts/stores/timer.store.js:74-84 | after the rebuild, `sn` has a finished key exactly when some fetched entry of `sn` has a finish time, and its ids are exactly `FinishedIds` (empty when there is no key) |
| `StageIndexes.FinishedIdsCount` | src/scripts/stores/timer.store.js:81-84 | the number of ids in `FinishedIds` equals the number of positions of finished entries of `sn` |
| `StageIndexes.RebuiltFinishedCount` | src/scripts/stores/timer.store.js:81-83 | after the rebuild, the finished count of `sn` is the number of fetched entries of `sn` that have a finish time |
| `Eligibility.NotOnStage` | src/scripts/stores/timer.store.js:342 | an order-preserving subsequence holding exactly the numbers that are not on stage, each as many times as in the input |
| `Eligibility.BelowTryCount` | src/scripts/stores/timer.store.js:348-351 | an order-preserving subsequence holding exactly the numbers whose finished count is below the try count, each as many times as in the input |
| `Eligibility.StartNumbersOrderedAndOffStage` | src/scripts/stores/timer.store.js:339-354 | the eligible numbers are a subsequence of the registrant numbers in registrant order, and none is a key of the on-stage index |
| `Eligibility.EventStartNumbers` | src/scripts/stores/timer.store.js:347-353 | for an event user a number is eligible exactly when it is registered, not on stage, and its finished count is below `stageTryCount`; it then appears as often as among the registrants, otherwise never |
| `Eligibility.PopupStartNumbers` | src/scripts/stores/timer.store.js:343-345 | for a popup user a number is eligible exactly when it is registered and not on stage, and then appears as often as among the registrants; no try-count filter applies |
| `Eligibility.SingleTryAdmitsOnlyUnfinished` | src/scripts/stores/timer.store.js:347-351 | with a try count of 1 and a well-formed index, an event user's number is eligible exactly when it is registered, not on stage and has no finished key |
| `Eligibility.StopReadmitsAfterAnyFinishCount` | src/scripts/stores/timer.store.js:158 | under the `[id]` reading of the assignment, because stop overwrites the finished ids, a stopped registrant of an event user is eligible again whenever the try count exceeds 1, however many finishes it had |
| `Eligibility.UnfinishedRecordsRebuildOnStage` | src/scripts/stores/timer.store.js:76-80 | a number whose fetched records all lack a finish time (result records included) is on stage after the rebuild with a finished count of 0, so it is not eligible |
| `ModePolicy.MaxStartNumber` | src/scripts/stores/timer.store.js:410-418 | 1000 exactly for a "code" popup, 5 exactly for a "free5x5" popup, 1 otherwise (other popup types, no popup type, event users, no user) |
| `ModePolicy.UserTypeEvent` | src/scripts/stores/timer.store.js:432-438 | the popup-id field exactly for popup users, else the event-id field; the chosen field is always present in the user-type record |
| `ModePolicy.StartNumberObserverIffEventSelection` | src/scripts/stores/timer.store.js:406-408 | the registrant-list feed is required exactly for event users in the modes where `showSelection` holds |
| `ModePolicy.TimerControlsNeedSelection` | src/scripts/stores/timer.store.js:364-370 | the start control needs a selection mode and a selected number; the reset control needs a selection mode and a non-empty on-stage index |
| `ModePolicy.ValueInputExcludesTimers` | src/scripts/stores/timer.store.js:360-381 | in `MODE_WIDTH` and `MODE_POINTS` the selection shows, no start, reset or stop control shows, no subscriptions are required and no counterpart warning appears |
| `ModePolicy.KnownModesOfferAnAction` | src/scripts/stores/timer.store.js:360-378 | each of the five modes shows the selection or the stop control |
| `SessionCoordination.CounterMode` | src/scripts/stores/timer.store.js:215 | `MODE_ONLY_STARTTIME` maps to `MODE_ONLY_STOPTIME` and every other mode to `MODE_ONLY_STARTTIME`; the counter mode is a subscription mode and never the mode itself |
| `SessionCoordination.SubscriptionModesPairUp` | src/scripts/stores/timer.store.js:402-404 | `requiresSubscriptions` holds exactly for the modes whose counter mode's counter mode is the mode itself, i.e. `MODE_ONLY_STARTTIME` and `MODE_ONLY_STOPTIME` |
| `SessionCoordination.CounterpartQuery` | src/scripts/stores/timer.store.js:216-224 | a marker matches the counterpart lookup only with the user's scope id, the counter mode as target and, for an event user, the user's `stage`; for a popup user scope and target are all it takes |
| `SessionCoordination.DistinctStagesNeverBothTakenOver` | src/scripts/stores/timer.store.js:242-244 | one deleted marker never flags a takeover on two event devices in the same mode whose records name different stages |
| `SessionCoordination.MissingStageNameNeverMatchesStage` | src/scripts/stores/timer.store.js:242-244 | an event user whose record has no `stageName` is taken over only by a marker without `StageName`, and never by a marker naming the user's `stage` |
| `SessionCoordination.CounterpartNeverTakesOver` | src/scripts/stores/timer.store.js:295-300 | while the store's mode is the user's own mode, a deleted marker that matches the counterpart lookup never flags a takeover |
| `Store.TimerStore.constructor` | src/scripts/stores/timer.store.js:23-45 | the initial state: no user, no registrants, `MODE_STARTSTOP`, nothing selected, counterpart unknown, empty indexes, not taken over |
| `Store.TimerStore.FetchData` | src/scripts/stores/timer.store.js:48-85 | on success both indexes equal `Rebuilt(entries)` and an event user's registrant list is replaced; without a user or on a failed remote call nothing changes |
| `Store.TimerStore.StartSelectedStarter` | src/scripts/stores/timer.store.js:97-123 | on success the selected number's open entry is the new id and the selection is cleared, so the number is among `getStartNumbersOnStage` and, in `MODE_ONLY_STARTTIME` and `MODE_STARTSTOP`, the reset control shows (:368-370); on failure nothing changes |
| `Store.TimerStore.SaveResult` | src/scripts/stores/timer.store.js:125-145 | on success only the selection is cleared; neither index changes; on failure nothing changes |
| `Store.TimerStore.RemoveSelectedStarter` | src/scripts/stores/timer.store.js:147-149 | only the selection is cleared |
| `Store.TimerStore.ResetSelectedStarter` | src/scripts/stores/timer.store.js:151-154 | on success only key `sn` leaves the on-stage index and the finished index is untouched; a number not on stage or a failed delete changes nothing |
| `Store.TimerStore.StopSelectedStarter` | src/scripts/stores/timer.store.js:156-160 | on success the finished ids of `sn` are overwritten with the id of its open entry and `sn` leaves the stage; a number not on stage or a failed update changes nothing |
| `Store.TimerStore.CheckForCounterpart` | src/scripts/stores/timer.store.js:213-234 | with a user, the lookup is `CounterpartQuery` and the flag becomes whether a marker was found; a failed lookup or no user leaves the flag as it was |
| `Store.TimerStore.CheckForSessionTakeOver` | src/scripts/stores/timer.store.js:236-246 | a popup user's flag becomes `Target == mode`, an event user's `Target == mode && StageName == stageName`, where an absent `stageName` matches only an absent `StageName`; with no user nothing changes |
| `Store.TimerStore.OnSessionDeleted` | src/scripts/stores/timer.store.js:295-300 | a deleted marker first decides takeover, then the counterpart flag is refreshed |
| `Store.TimerStore.OnTimetableCreated` | src/scripts/stores/timer.store.js:270-273 | the entry becomes its number's open entry; nothing else changes |
| `Store.TimerStore.OnTimetableDeleted` | src/scripts/stores/timer.store.js:274-277 | the entry's number leaves the stage; nothing else changes |
| `Store.TimerStore.OnTimetableUpdated` | src/scripts/stores/timer.store.js:262-267 | in `MODE_ONLY_STARTTIME` the id is appended to the finished ids of its number and the number leaves the stage; in any other mode nothing changes |
| `Store.TimerStore.OnRegistrantsUpdated` | src/scripts/stores/timer.store.js:311-313 | the registrant list is replaced wholesale |
| `Store.TimerStore.GetStartNumbers` | src/scripts/stores/timer.store.js:339-354 | the store's eligible numbers: a subsequence of the registrant numbers, none on stage, the try-count filter for event users only, both directions of membership, and every kept number as often as among the registrants; without a user, defined only when no number is off stage, and then empty |
| `Store.TimerStore.OnStageNeverEligible` | src/scripts/stores/timer.store.js:339-358 | no number returned by `getStartNumbersOnStage` is returned by `getStartNumbers` |
| `Store.TimerStore.SingleTryExcludesFinished` | src/scripts/stores/timer.store.js:347-351 | in a valid store with an event user and a try count of 1, a number is offered exactly when it is registered, off stage and has no finished key |

`Store.StartStopScenario` and `Store.StartResetScenario` are clients of the class. The
first starts number 5 and stops it; the second starts number 1, resets it, and resets it
once more. They show that the method contracts alone give the expected indexes,
eligibility and outcomes after each step.

### Behaviour of the code worth knowing

- Stop overwrites; it does not append. `stopSelectedStarter` assigns the entry id itself to `finishedStarter[sn]` (:158), where the rebuild (:82-83) and the update handler (:265) append to an array. The model stores `[id]`, which is the closest meaningful reading. Under that reading a stop resets the finished count to 1 (`StopReadmitsAfterAnyFinishCount`). In the source the value is the id string, so the `.length` at :349 reads the length of that string.
- The live update event is not idempotent. A repeated delivery appends the id again (`UpdateEventCountsEveryDelivery`). Create and delete events are idempotent.
- `saveResult` writes a record with no finish time and touches neither index (:138-144). The rebuild selects only start number, start time and finish time. A saved result is therefore rebuilt as an open entry: its number is on stage, with a finished count of 0 (`UnfinishedRecordsRebuildOnStage`). Results never reach the finished count that the try-count filter reads.
- The user-type record is read under two stage fields. The counterpart lookup reads `stage` (:222). The takeover check (:243) and the fetch (:60) read `stageName`. The model keeps both fields and does not assume they agree. `stageName` may be absent from the record: the event user record in `test/utils/MODE_POINTS_DATA.js:40-46` has `stage` but no `stageName`. Such a user is taken over only by a marker without a `StageName` (`MissingStageNameNeverMatchesStage`).

## Left out

- `src/scripts/parseFunctions.js` is not part of this model. Its find/first/get/create/update/delete wrappers over the backend SDK become reply parameters (`FetchReply`, `CreateReply`, `WriteReply`, `LookupReply`). The fields of the records sent (scope ids, stage, `Date.now()` timestamps, result values) are not modelled, so no method takes a clock or a result value.
- Backend initialisation, the live-query client, opening the subscriptions and registering the handlers (:5-7, :252-260, :284-287, :306-310, :316-335) are network plumbing. Only the handler bodies are modelled, and each handler runs whatever the mode. The exception is the update handler: it is registered only in `MODE_ONLY_STARTTIME`, so `OnTimetableUpdated` checks the store's current mode.
- `login`, `logout`, `callParseFunction`, router redirects, session and local storage persistence and the error-code-209 forced logout (:88-93, :166-211) are authentication and I/O. As written, `login` tests `this.user` at :170 before it is assigned at :172, so its try-count check does not see the new user.
- `getQuery`, `getSessionObserverQuery`, the subscription query at :253-259, `getEventName` and `toggleNavDrawer` build SDK queries or display values. They are not modelled.
- Asynchrony and the order of live events relative to local writes are left out. Each action and each handler is one atomic step.
- The fetch is modelled as delivering all of the scope's entries. The page-size limit of the find wrapper is not modelled.
- Start numbers are one type, `StartNumber`. In the source, `Object.keys(this.starterOnStage).includes(sn)` (:342) compares string keys with registrant values. That test only works when the registrant start numbers are strings. The model assumes they compare equal.
- `GetStartNumbersOnStage` returns a set. The key order of `Object.keys` is not modelled.
- The user-type record is assumed to carry `eventId` (event users), `popupId` (popup users), `stage` and `stageTryCount` (event users). The names behind `DB.USERTYPE_FIELD_EVENTID` and `DB.USERTYPE_FIELD_POPUPID` (:433-435) live in a configuration file that is not part of this model. They are taken to be these two fields, so the scope id that `UserTypeEvent` selects is always present. A record missing any of these fields is not modelled. The record in `test/utils/MODE_POINTS_DATA.js:40-46` has no `eventId`.
- `StageIndexes.WellFormed` (every finished key holds at least one id) is kept by every primitive, by the rebuild and by every method of the store, as `Valid()`. It is used only by `FinishedCountPositiveIffKey` and the two single-try lemmas.
- Only the user types `popup` and `event` are modelled. The `default` branches for other type strings are not.
- StageIndexes.ReplaceFinished: the count of 1 after a stop belongs to the `[id]` reading. In the source `finishedStarter[sn]` holds the id string itself (:158), and the count at :349 is the number of characters of that id.
- Eligibility.StopReadmitsAfterAnyFinishCount: the re-admission belongs to the model. In the source a stopped number of an event user stays excluded unless `stageTryCount` exceeds the length of its entry id. With backend ids and a small try count (2 in `test/utils/MODE_POINTS_DATA.js:6`) the number is not offered again until the next fetch rebuilds the index.
- Store.TimerStore.StartSelectedStarter: requires a selected start number. The start control only shows with a selection (:364-366). With no selection the source would create an entry under a `null` start number, and that is not modelled.
- Store.TimerStore.GetStartNumbers: requires a logged-in user or no registrant number off stage. Without a user `isPopup` is false, so the try-count filter runs and reads `this.user.usertype` (:350) for each number left after the on-stage filter. That read throws, and the model does not express the throw. When no number is left, as in the initial state, the result is `[]`, which the model returns.
- Store.TimerStore.ResetSelectedStarter: a number that is not on stage is reported as `StarterNotOnStage`. In the source the remote get is called with an undefined id and fails, so the store does not change either way.
- Store.TimerStore.StopSelectedStarter: the update call's reply is not used for the id. The id stored is the one on stage, which is the id of the record the update saves.
- Truthiness is modelled as follows. A finish time of 0 counts as no finish time, and entry ids are non-empty. A selected start number counts as present whenever one is set, although the source's truthiness test would treat a start number 0 as no selection.
- The create and update session-observer handlers (:288-294) only call `checkForCounterpart`. They are covered by `CheckForCounterpart` and have no member of their own. When that lookup fails, the source logs only the `INVALID_SESSION_TOKEN` code (:229-231); it drops every other error silently. The model leaves the flag unchanged.
