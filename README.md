# A verified model of the DCB event-store library and its scenario generator

This project models, in Dafny, the core of a Dynamic Consistency Boundary (DCB) event-store
library together with the helpers of its PHP scenario generator, and proves properties of that
model.

- **Queries** (`EventStore`): OR-combined query items, the `queryAll` wildcard, `merge`.
- **In-memory stores**: the TypeScript `InMemoryDcbEventStore` (`InMemoryDcbEventStore`); its
  older JavaScript twin, whose queries are plain arrays of items (`JsInMemoryDcbEventStore`); and
  the stream-based optimistic store (`JsInMemoryEventStore`). Each is a class over a sequence
  field, with `read` proved against a filter/reverse/slice specification and `append` proved
  against the append-condition check.
- **Projections** (`Projection`): a projection is a fold filtered by its own query; a composite
  runs a record of named projections over the merged query and returns the same state when no
  slice changed. It reads a missing, `null` or `undefined` slice as the initial state; which slice
  values are nullish is the parameter `nullish`.
- **Decision models** (`DecisionModel`): one read, a fold, and an append condition whose `after`
  is the last consumed position; the condition is accepted by the store exactly when nothing
  matching was appended since.
- **Documentation helpers** (`DocsLib`, `DocsLibV2`): the tag-scoped projections, in-place
  composite projections, event log with unknown-type rejection and the test loop of the two
  documentation scripts; `JsObject` is the plain JavaScript object they mutate.
- **Test runner** (`TestRunner`): `partialDeepEqual` and the "events appended since the given
  events" logic.
- **Scenario generator** (PHP): `TemplateString` (placeholder scanning, rendering through
  `strtr`, JavaScript template literals), `Output` (a line buffer with highlighted lines),
  `ProjectionHandlers`, the name-keyed registries `Projections`, `CommandDefinitions`,
  `CommandHandlerDefinitions`, `EventDefinitions` and `TestCases` (over the shared `NamedList`
  operations), `TestCase` (expected event xor expected error) and `Example` (cross-reference
  validation, the `with*` replacements and `forTestCases` pruning).

Conventions of the model:

- Event payloads, handler closures and tag resolvers are type parameters or functions passed in.
- JavaScript truthiness of optional numbers is explicit: an absent value or 0 is falsy.
- An exception is an `Err` of a `Result` (or a returned failure value of a method), carrying the
  message the source throws.
- PHP values the generator inspects are the datatype `PhpValues.PhpValue`; `(string)` casts,
  `get_debug_type`, the assertion library's type names and `array_is_list` are written out.

## Model

| member | source | states |
|---|---|---|
| EventStore.CreateQuery | libraries/dcb/EventStore.ts:90-111 | a created query holds exactly the given, non-empty item list, so it is never the wildcard |
| EventStore.QueryAll | libraries/dcb/EventStore.ts:116-126 | `queryAll()` is the wildcard: it has no items |
| EventStore.Merge | libraries/dcb/EventStore.ts:101-124 | the merge is the wildcard iff either side is; otherwise its items are this query's followed by the other's |
| EventStore.EmptyTypesMatchNothing | libraries/dcb/EventStore.ts:96 | an item with `types: []` matches no event at all, whatever its tags |
| EventStore.QueryAllMatches | libraries/dcb/EventStore.ts:119-121 | the wildcard matches every event |
| EventStore.MergeMatches | libraries/dcb/EventStore.ts:93-109 | the merge of two queries matches an event iff one of them does |
| EventStore.WildcardAbsorbs | libraries/dcb/EventStore.ts:101-124 | merging with the wildcard on either side gives the wildcard |
| EventStore.MergeAssociative | libraries/dcb/EventStore.ts:101-109 | merge is associative, in the resulting items and not only in what they match |
| EventStore.MergeCommutesForMatching | libraries/dcb/EventStore.ts:93-109 | swapping the operands of merge does not change what the result matches |
| EventStore.AddEventMetadata | libraries/dcb/EventStore.ts:131-138 | the result is the same event with the given metadata attached |
| InMemoryDcbEventStore.Filter | libraries/dcb/InMemoryDcbEventStore.ts:24-38 | the filter never yields more events than the log holds |
| InMemoryDcbEventStore.FilterMembers | libraries/dcb/InMemoryDcbEventStore.ts:24-38 | the filter keeps exactly the selected events of the log (the `from` bound, then the wildcard shortcut, then `matchesEvent`), and nothing else |
| InMemoryDcbEventStore.Reverse | libraries/dcb/InMemoryDcbEventStore.ts:40-42 | the reversal has the same length and lists the elements back to front |
| InMemoryDcbEventStore.SliceTo | libraries/dcb/InMemoryDcbEventStore.ts:44-46 | `slice(0, limit)` keeps a prefix of at most `limit` elements; a negative limit drops that many from the end |
| InMemoryDcbEventStore.First | libraries/dcb/InMemoryDcbEventStore.ts:51-53 | `first()` is the first event of the result, or none for an empty result |
| InMemoryDcbEventStore.AsBatch | libraries/dcb/InMemoryDcbEventStore.ts:77-79 | a single event is appended as a one-element batch; an array is appended as given |
| InMemoryDcbEventStore.Sequenced | libraries/dcb/InMemoryDcbEventStore.ts:80-83 | the batch's events get consecutive positions from the given start, in array order |
| InMemoryDcbEventStore.FilterLast | libraries/dcb/InMemoryDcbEventStore.ts:24-38 | the last event the filter keeps is the last selected event of the log |
| InMemoryDcbEventStore.FilterIncreasing | libraries/dcb/InMemoryDcbEventStore.ts:24-38 | filtering a gapless log keeps positions strictly increasing and within 1..length |
| InMemoryDcbEventStore.ReadAllIsLog | libraries/dcb/InMemoryDcbEventStore.ts:20-55 | reading everything forward returns the whole log in order |
| InMemoryDcbEventStore.ReadLastIsNewest | libraries/dcb/InMemoryDcbEventStore.ts:40-53 | reading everything backwards with limit 1, `first()` is the most recently appended event |
| InMemoryDcbEventStore.FilterSameSelection | libraries/dcb/InMemoryDcbEventStore.ts:24-38 | option sets that select the same events give the same filter result |
| InMemoryDcbEventStore.ReadContents | libraries/dcb/InMemoryDcbEventStore.ts:24-42 | without a bound or a limit, an event is read iff it is in the log and matches the query, in either direction |
| InMemoryDcbEventStore.ReadOrdered | libraries/dcb/InMemoryDcbEventStore.ts:20-55 | on a gapless log a forward read lists increasing positions, a backward read decreasing ones |
| InMemoryDcbEventStore.LastMatchingIsGreatest | libraries/dcb/InMemoryDcbEventStore.ts:59-63 | on a gapless log the position `append` reads back is the greatest position of a matching event, or none when nothing matches |
| InMemoryDcbEventStore.ConditionHoldsIff | libraries/dcb/InMemoryDcbEventStore.ts:58-76 | the append condition passes iff no stored event matching its query has a position after `after` (absent or 0 counting as 0) |
| InMemoryDcbEventStore.ConditionFailureKinds | libraries/dcb/InMemoryDcbEventStore.ts:64-74 | "none were expected" iff a match exists and `after` is falsy; "after position" iff `after` is truthy and a match lies beyond it |
| InMemoryDcbEventStore.AppendKeepsGapless | libraries/dcb/InMemoryDcbEventStore.ts:80-83 | appending a batch numbered from length+1 keeps positions gapless from 1 |
| InMemoryDcbEventStore.InMemoryDcbEventStore.constructor | libraries/dcb/InMemoryDcbEventStore.ts:18 | a new store has an empty, gapless log |
| InMemoryDcbEventStore.InMemoryDcbEventStore.Read | libraries/dcb/InMemoryDcbEventStore.ts:20-55 | `read` returns the filter/reverse/limit specification of the log (no options meaning forward and unbounded) and changes nothing |
| InMemoryDcbEventStore.InMemoryDcbEventStore.Append | libraries/dcb/InMemoryDcbEventStore.ts:57-84 | without a condition `append` always succeeds; with one it fails exactly as the condition check says, leaving the log unchanged; on success the batch is added with positions length+1, length+2, …; the log stays gapless |
| InMemoryDcbEventStore.InMemoryDcbEventStore.Flush | libraries/dcb/InMemoryDcbEventStore.ts:86-88 | `_flush` empties the log |
| Projection.QueryOf | libraries/dcb/Projection.ts:57-64 | a projection's query is one item whose types are exactly the handler keys (an empty set when there are none) and whose tags are the tag filter |
| Projection.ApplyHandles | libraries/dcb/Projection.ts:72-89 | `apply` runs the handler for the event's type exactly when there is one and the event carries every filter tag; otherwise it returns the state unchanged |
| Projection.NoHandlersNoChange | libraries/dcb/Projection.ts:62-74 | a projection without handlers never changes its state |
| Projection.InitialState | libraries/dcb/Projection.ts:111-116 | the composite initial state has exactly the projections' names as keys |
| Projection.InitialStateSlices | libraries/dcb/Projection.ts:111-116 | with distinct names, each name's initial slice is its projection's initial state |
| Projection.CombinedQueryMatches | libraries/dcb/Projection.ts:118-125 | the combined query (the left fold of `merge`) matches an event iff some projection's query does |
| Projection.UpdatedSlicesOther | libraries/dcb/Projection.ts:136-148 | a key no projection is named by is left as it was by the slice updates |
| Projection.UpdatedSlicesAt | libraries/dcb/Projection.ts:138-148 | after the updates each named slice, as the next event reads it, is that projection applied to `state[name] ?? initialState` and passed through `?? initialState` again, so a missing, `null` or `undefined` slice restarts from the initial state |
| Projection.UpdatedSlicesKeys | libraries/dcb/Projection.ts:136-148 | the updates keep every key and add only projection names |
| Projection.UpdatedSlicesRaw | libraries/dcb/Projection.ts:138-148 | the value stored under a name after the updates is its projection's `apply` of `state[name] ?? initialState` when that differs from the old slice, and the old stored value otherwise |
| Projection.CompositeApplyRaw | libraries/dcb/Projection.ts:129-151 | a stored value that `?? initialState` leaves alone becomes its projection's `apply` of it, as the raw `state[name]` |
| Projection.CompositeApplySlice | libraries/dcb/Projection.ts:129-151 | for one event, the composite gives each name its projection's `apply` of `state[name] ?? initialState`, also when the combined query misses or nothing changed |
| Projection.CompositeApplyKeys | libraries/dcb/Projection.ts:129-151 | the composite `apply` keeps the given keys and adds at most the projection names |
| Projection.CompositeFoldSlice | libraries/dcb/Projection.ts:129-151 | folding events through the composite gives each name its own projection's fold, with every result passed through `?? initialState` |
| Projection.CompositeFoldKeys | libraries/dcb/Projection.ts:111-151 | from the initial state, the folded composite state has exactly the names as keys |
| Projection.CompositionPreservesProjections | libraries/dcb/Projection.ts:102-157 | after any events the composite state holds every name, and the slice read for it is its own projection folded from its initial state with `?? initialState` after each event |
| Projection.FoldOrInitialIsFold | libraries/dcb/Projection.ts:142 | when the projection alone never reaches a nullish state, `?? initialState` never fires and the composite's slice is the plain fold |
| Projection.CompositeStateIsLoneFold | libraries/dcb/Projection.ts:102-157 | when the projection alone never reaches a nullish state, the raw value the composite stores under its name is present and is that projection's plain fold from its initial state |
| Projection.NullishResultRestarts | libraries/dcb/Projection.ts:142-145 | a handler result that is `null` or `undefined` is stored, but the composite reads the slice back as the initial state, where the lone projection keeps the nullish value |
| Projection.ApplyComposite | libraries/dcb/Projection.ts:129-151 | the loop with the shallow copy, the `?? initialState` read and the `hasChanged` flag computes the composite `apply` specification: the same state when the combined query misses or no slice changed, else the copy with the changed slices replaced |
| DecisionModel.BuildDecisionModel | libraries/dcb/DecisionModel.ts:18-43 | the builder reads once with the composite query and no options, changes nothing, and returns the composite fold of the read events from the initial state plus the condition `{combined query, after: last consumed position or 0}` |
| DecisionModel.MatchesAtOrBeforeLastPosition | libraries/dcb/DecisionModel.ts:32-36 | the last consumed position lies within the log, and every stored event matching the composite query lies at or before it |
| DecisionModel.ConditionAcceptedWithoutInterveningAppend | libraries/dcb/DecisionModel.ts:37-40 | with no append in between, the store's condition check accepts the returned condition |
| DecisionModel.UnrelatedAppendKeepsCondition | libraries/dcb/DecisionModel.ts:37-40 | after appending events the composite query does not match, the condition is still accepted |
| DecisionModel.MatchingAppendInvalidatesCondition | libraries/dcb/DecisionModel.ts:37-40 | after appending an event the composite query matches, the same condition is rejected |
| DecisionModel.StateIsPerProjectionFold | libraries/dcb/DecisionModel.ts:27-36 | the returned state holds every name, and each slice is that projection's fold under `?? initialState` over the events read |
| DecisionModel.FoldOverFilter | libraries/dcb/DecisionModel.ts:33-35 | folding a projection over the events a wider query selects equals folding it over the whole log |
| DecisionModel.DecisionStateIsWholeLogFold | libraries/dcb/DecisionModel.ts:27-36 | the single read loses nothing: each slice equals its projection folded, under `?? initialState`, over the whole log |
| DecisionModel.RawOverFilter | libraries/dcb/DecisionModel.ts:27-36 | when the projection alone never reaches a nullish state on the log, the raw value stored under its name after folding the read events is its plain fold over the whole log |
| DecisionModel.DecisionStateIsLoneFold | libraries/dcb/DecisionModel.ts:8-36 | when the projection alone never reaches a nullish state on the log, each slice is its plain fold over the whole log, both through `?? initialState` and as the raw `state.foo` that decisions read |
| JsInMemoryDcbEventStore.JsFilter | assets/js/InMemoryDcbEventStore.js:20-41 | the filter keeps only events that pass the `from` bound and match some item (or the empty query), and never more events than the log has |
| JsInMemoryDcbEventStore.ToQuery | assets/js/InMemoryDcbEventStore.js:2-3 | a plain array of `{eventTypes?, tags?}` items becomes the query with the same items, in order |
| JsInMemoryDcbEventStore.JsMatchesAgrees | assets/js/InMemoryDcbEventStore.js:29-40 | the JavaScript item match is exactly the TypeScript `matchesEvent` of the same items, including the empty-query wildcard |
| JsInMemoryDcbEventStore.JsFilterAgrees | assets/js/InMemoryDcbEventStore.js:20-41 | both stores filter the same log alike |
| JsInMemoryDcbEventStore.JsReadAgrees | assets/js/InMemoryDcbEventStore.js:16-51 | both stores read the same events in the same order for the same items and options (bound, reversal, prefix limit) |
| JsInMemoryDcbEventStore.JsConditionAgrees | assets/js/InMemoryDcbEventStore.js:59-77 | both stores accept and reject the same conditions with the same failure message |
| JsInMemoryDcbEventStore.JsConditionHoldsIff | assets/js/InMemoryDcbEventStore.js:59-77 | a condition passes iff no stored event matching its items lies after `after` (a falsy `after` counting as 0) |
| JsInMemoryDcbEventStore.JsInMemoryDcbEventStore.constructor | assets/js/InMemoryDcbEventStore.js:9 | a new store has an empty, gapless log |
| JsInMemoryDcbEventStore.JsInMemoryDcbEventStore.Read | assets/js/InMemoryDcbEventStore.js:16-51 | `read` returns the filter/reverse/limit specification (absent options being `{}`) and changes nothing |
| JsInMemoryDcbEventStore.JsInMemoryDcbEventStore.Append | assets/js/InMemoryDcbEventStore.js:58-85 | a failing condition is reported and leaves the log unchanged; otherwise the batch (a single event wrapped) is added at positions length+1, …; the log stays gapless |
| JsInMemoryEventStore.AsArray | assets/js/InMemoryEventStore.js:38-40 | a single event is wrapped into a one-element array; an array is kept as it is |
| JsInMemoryEventStore.CheckStreamState | assets/js/InMemoryEventStore.js:32-37 | the check passes iff the state is absent, 0, or equal to the stream's current length; a failure carries the expected state, the actual length and the stream name |
| JsInMemoryEventStore.Positioned | assets/js/InMemoryEventStore.js:44-47 | the batch keeps its order and length, and its k-th event gets position start + k |
| JsInMemoryEventStore.Number | assets/js/InMemoryEventStore.js:44-47 | the `++pos` loop gives the batch's events, in order, the positions pos + 1, pos + 2, … |
| JsInMemoryEventStore.AppendKeepsStreamsGapless | assets/js/InMemoryEventStore.js:27-49 | after any append, successful or not, every stream is numbered 1, 2, … |
| JsInMemoryEventStore.AppendTouchesOnlyItsStream | assets/js/InMemoryEventStore.js:27-49 | an append leaves every other stream's presence and events unchanged |
| JsInMemoryEventStore.LastPositionIsAccepted | assets/js/InMemoryEventStore.js:31-33 | the position of a stream's last event is accepted as its `streamState` |
| JsInMemoryEventStore.StaleStreamStateRejected | assets/js/InMemoryEventStore.js:31-37 | once another writer appended to a non-empty stream, the length read before is rejected with the new length in the failure |
| JsInMemoryEventStore.InMemoryEventStore.constructor | assets/js/InMemoryEventStore.js:9-11 | a new store holds no stream |
| JsInMemoryEventStore.InMemoryEventStore.ReadStream | assets/js/InMemoryEventStore.js:17-19 | the stream's events, or `[]` for a stream never appended to |
| JsInMemoryEventStore.InMemoryEventStore.AppendToStream | assets/js/InMemoryEventStore.js:27-49 | the failure is exactly the stream-state check; the new dictionary is the stream created if absent and, when the check passes, extended by the positioned batch; streams stay gapless |
| JsObject.Lookup | docs/assets/js/lib.js:22 | `record[name] ?? null`: an absent key reads as `null`, a present one as its value |
| JsObject.JsRecord.constructor | docs/assets/js/lib.js:14-19 | `Object.fromEntries` gives a record holding exactly the given entries |
| JsObject.JsRecord.Set | docs/assets/js/lib.js:22 | the assignment `state[key] = …` changes that one key in place and nothing else |
| DocsLib.Apply | docs/assets/js/lib.js:6-9 | a tagged event of a mapped type is reduced by that type's reducer; an event without the tag, or of an unmapped type, leaves the state as it is |
| DocsLib.UntaggedEventsIgnored | docs/assets/js/lib.js:6-9 | folding only events without the tag returns the starting state |
| DocsLib.InitialState | docs/assets/js/lib.js:13-19 | the composite initial state has exactly the projection names as keys |
| DocsLib.InitialStateAt | docs/assets/js/lib.js:13-19 | with distinct names, each key holds its own projection's initial state |
| DocsLib.ApplyAllOther | docs/assets/js/lib.js:20-24 | the composite `apply` leaves keys that name no projection untouched |
| DocsLib.ApplyAllKeys | docs/assets/js/lib.js:20-24 | after `apply` every projection name is a key, whether or not the event concerned it |
| DocsLib.ApplyAllAt | docs/assets/js/lib.js:20-24 | with distinct names, each slice becomes its projection's `apply` of its old slice (`null` when missing) |
| DocsLib.FoldAllAt | docs/assets/js/lib.js:27-34 | folding the composite gives each slice its own projection's fold |
| DocsLib.CompositionPreservesProjections | docs/assets/js/lib.js:27-34 | each slice of the decision state equals that projection folded alone from its initial state |
| DocsLib.CompositeApply | docs/assets/js/lib.js:20-24 | the loop returns the same object, rewritten in place to the composite `apply` of its old contents |
| DocsLib.BuildDecisionModel | docs/assets/js/lib.js:27-34 | a fresh record holding the composite fold of the page's events from the initial state |
| DocsLibV2.AppendAll | docs/assets/js/lib-v2.js:3-17 | appending never removes or rewrites stored events: the old list is a prefix of the new one |
| DocsLibV2.ResolvedAll | docs/assets/js/lib-v2.js:13-16 | each event keeps its order and gets the tags its type's resolver computes from its data |
| DocsLibV2.AppendAllStopsAtFirstUnknown | docs/assets/js/lib-v2.js:3-17 | the events before the first unknown type are stored with resolved tags, and the unknown-type message names that event's type; with no unknown type all are stored |
| DocsLibV2.AppendAllKeepsResolved | docs/assets/js/lib-v2.js:9-17 | every stored event keeps a known type and its resolved tags |
| DocsLibV2.AppendAllStopsAtFailure | docs/assets/js/lib-v2.js:4-6 | once an append throws, the rest of the events are not appended |
| DocsLibV2.InitialStateAt | docs/assets/js/lib-v2.js:20-23 | with distinct names, each key holds its projection's `initialState` value |
| DocsLibV2.ApplyAllOther | docs/assets/js/lib-v2.js:24-36 | keys that name no projection are untouched by `apply` |
| DocsLibV2.ApplyAllAt | docs/assets/js/lib-v2.js:24-36 | with distinct names, each slice is its handler's result when the projection handles the event type and every filter tag is present, and is unchanged otherwise |
| DocsLibV2.FoldAllAt | docs/assets/js/lib-v2.js:39-44 | folding the composite gives each slice its own projection's fold |
| DocsLibV2.CompositionPreservesProjections | docs/assets/js/lib-v2.js:39-44 | each slice of the decision state equals that projection folded alone from its initial state |
| DocsLibV2.CompositeApply | docs/assets/js/lib-v2.js:24-36 | the loop returns the same object, rewritten in place to the composite `apply` of its old contents |
| DocsLibV2.CompletedCaseRun | docs/assets/js/lib-v2.js:49-58 | a handler that returns normally leaves the given and the emitted events in the list, resolved and in order, and the verdict compares the emitted ones |
| DocsLibV2.ThrownCaseKeepsAppended | docs/assets/js/lib-v2.js:49-86 | a handler that appends events of known types through `appendEvent` and then throws is judged by its message, and the events it appended stay in the list after the given ones |
| DocsLibV2.CompletedCasePassesIff | docs/assets/js/lib-v2.js:49-70 | a case whose events all have known types passes iff no error is expected and, when an event is expected, the first emitted event with resolved tags partially equals it |
| DocsLibV2.RunCases | docs/assets/js/lib-v2.js:49-88 | a run that ends normally gives one verdict per case |
| DocsLibV2.RunCasesStopsAtError | docs/assets/js/lib-v2.js:50-52 | an unknown type among one case's given events escapes `test` and no later case runs |
| DocsLibV2.RunCasesNext | docs/assets/js/lib-v2.js:49-88 | one more case either escapes with its error, ending the run, or adds its verdict and its log |
| DocsLibV2.DocsEventLog.constructor | docs/assets/js/lib-v2.js:1 | the page starts with an empty event list |
| DocsLibV2.DocsEventLog.AppendEvent | docs/assets/js/lib-v2.js:9-17 | the condition is ignored; an unknown type throws and stores nothing; a known one is stored with resolved tags |
| DocsLibV2.DocsEventLog.AppendEvents | docs/assets/js/lib-v2.js:3-7 | the new list and the exception are exactly those of appending the events one by one, stopping at the first throw |
| DocsLibV2.DocsEventLog.BuildDecisionModel | docs/assets/js/lib-v2.js:39-47 | a fresh record with the composite fold of the stored events, and no append condition |
| DocsLibV2.DocsEventLog.TestCase | docs/assets/js/lib-v2.js:50-86 | one iteration of `test` (reset, given events outside the `try`, the handler, the verdict) as the case-run specification |
| DocsLibV2.DocsEventLog.Test | docs/assets/js/lib-v2.js:49-88 | the verdicts and the final list are those of the run specification, stopping at an escaping exception |
| TestRunner.ArrayValue | libraries/dcb/TestRunner.ts:94 | an array literal is an object whose keys are exactly the indices 0 … n-1, each holding its element |
| TestRunner.PartialDeepEqualReflexive | libraries/dcb/TestRunner.ts:7-18 | every value partially equals itself |
| TestRunner.PartialDeepEqualTransitive | libraries/dcb/TestRunner.ts:7-18 | partial deep equality is transitive |
| TestRunner.PartialDeepEqualIgnoresExtraKeys | libraries/dcb/TestRunner.ts:15-17 | adding keys to the second object never turns a match into a mismatch |
| TestRunner.ExpectedEventCheck | libraries/dcb/TestRunner.ts:92-95 | comparing `[expected]` with the new events holds iff there is a first new event and it partially equals `expected`; later events are ignored |
| TestRunner.ThrownVerdict | libraries/dcb/TestRunner.ts:68-82 | a handler that threw passes iff a non-empty error message is expected and equals the thrown one |
| TestRunner.CompletedVerdict | libraries/dcb/TestRunner.ts:92-109 | a handler that returned passes iff no (non-empty) error is expected and, when a truthy event is expected, the new events match it |
| TestRunner.Strip | libraries/dcb/TestRunner.ts:89-91 | removing `position` keeps every event, in order |
| TestRunner.StripSequenced | libraries/dcb/TestRunner.ts:89-91 | taking the positions off a numbered batch gives the batch back |
| TestRunner.ReadFromIsSuffix | libraries/dcb/TestRunner.ts:85-88 | reading everything from position b of a gapless log returns the log's suffix starting there |
| TestRunner.LastEventPositionIsLength | libraries/dcb/TestRunner.ts:55-61 | the last position read from a gapless store is none for an empty log and otherwise the log's length |
| TestRunner.NewEventsAreAppended | libraries/dcb/TestRunner.ts:55-91 | the events the runner treats as new are exactly the batch the handler appended after the last position it read, also for an empty store |
| TestRunner.Values | libraries/dcb/TestRunner.ts:94 | each event, in order, seen as a JavaScript value |
| TestRunner.ThrownCaseKeepsAppended | libraries/dcb/TestRunner.ts:66-83 | a handler that appends events and then throws is judged by its message, and the store keeps the given events followed by the appended ones, numbered from 1 |
| TestRunner.CompletedCasePassesIff | libraries/dcb/TestRunner.ts:48-109 | a case whose handler appends a batch passes iff no error is expected and, when an event is expected, the first appended event partially equals it |
| TestRunner.RunAll | libraries/dcb/TestRunner.ts:48-110 | a run that ends normally gives one verdict per case |
| TestRunner.RunAllStopsAtError | libraries/dcb/TestRunner.ts:62-65 | an unknown command type aborts `runTests`: no later case changes the outcome |
| TestRunner.RunTestCase | libraries/dcb/TestRunner.ts:49-109 | one loop iteration (flush, given events, last position, handler, new events, verdict) gives the case-result specification and the resulting log |
| TestRunner.Seed | libraries/dcb/TestRunner.ts:49-54 | after the flush and the appends of the given events the store holds exactly those events, numbered from 1 |
| TestRunner.RunTests | libraries/dcb/TestRunner.ts:43-111 | the verdicts and the store's final log are those of the run specification |
| Strings.NatToString | scripts/scenario-generator/src/Example.php:99 | the decimal form of a count (`%d`, `${n}`) is never empty |
| Strings.Repeat | scripts/scenario-generator/src/Output.php:44 | `str_repeat` of a string n times has n times its length |
| Strings.Split | scripts/scenario-generator/src/shared/TemplateString.php:49 | `explode` always yields at least one piece |
| Strings.SplitJoin | scripts/scenario-generator/src/shared/TemplateString.php:49 | `implode` of the pieces of `explode` gives the string back, and no piece contains the separator |
| Strings.JoinSplit | scripts/scenario-generator/src/Output.php:45 | exploding the `implode` of separator-free pieces gives the pieces back |
| Strings.SplitNoSeparator | scripts/scenario-generator/src/shared/TemplateString.php:49 | a string without the separator explodes into itself alone |
| NamedList.FindIndex | scripts/scenario-generator/src/projection/Projections.php:93-96 | the index found is the first element with the key, or the length when there is none |
| NamedList.Find | scripts/scenario-generator/src/projection/Projections.php:93-96 | `array_find` returns a value iff some element has the key, and then the first such element |
| NamedList.Filter | scripts/scenario-generator/src/projection/Projections.php:59-62 | `array_filter` keeps exactly the elements the callback accepts and never grows the list |
| NamedList.FilterConcat | scripts/scenario-generator/src/projection/Projections.php:59-62 | filtering keeps the original order: it distributes over concatenation |
| NamedList.FilterAllOrNone | scripts/scenario-generator/src/projection/Projections.php:59-62 | a filter that accepts every element keeps the list; one that accepts none empties it |
| NamedList.Names | scripts/scenario-generator/src/projection/Projections.php:101-104 | the keys, one per element, in order |
| NamedList.OnlyContents | scripts/scenario-generator/src/projection/Projections.php:69-72 | `only` keeps an element iff its key is listed |
| NamedList.FindOnly | scripts/scenario-generator/src/projection/Projections.php:69-79 | looking up a listed key after `only` finds what the full list finds |
| NamedList.WithReplaces | scripts/scenario-generator/src/projection/Projections.php:81-87 | after `with(x)`, `x` is last, no other element has its key, every element with another key is kept, and looking the key up finds `x` |
| NamedList.FindLast | scripts/scenario-generator/src/projection/Projections.php:93-96 | a key that occurs only at the end is found at the end |
| NamedList.FindDistinct | scripts/scenario-generator/src/projection/Projections.php:93-96 | with distinct keys every element is the one found for its key |
| NamedList.FindConcat | scripts/scenario-generator/src/projection/Projections.php:93-96 | a lookup in a concatenation searches the left part first |
| NamedList.MergeContents | scripts/scenario-generator/src/projection/Projections.php:106-112 | `merge` keeps every element of the other list and exactly those of this list whose key the other lacks; a key of the other list is found there, any other key here |
| NamedList.FindFilter | scripts/scenario-generator/src/projection/Projections.php:93-96 | filtering that keeps every element with the key does not change what is found for it |
| PhpValues.CastToString | scripts/scenario-generator/src/shared/TemplateString.php:64 | `(string)` fails only for an object without `__toString`; a string is itself and `null` is empty |
| ProjectionHandlers.EventTypes | scripts/scenario-generator/src/projection/ProjectionHandlers.php:52-55 | `array_keys`: the event types in insertion order |
| ProjectionHandlers.FromArray | scripts/scenario-generator/src/projection/ProjectionHandlers.php:31-35 | the array is accepted iff no key is one PHP stores as an integer; then the entries are kept as given; otherwise the `isMap` message |
| ProjectionHandlers.With | scripts/scenario-generator/src/projection/ProjectionHandlers.php:37-42 | a `$` prefix is rejected first, then an existing event type, then an integer-like one; otherwise the type is appended after the existing ones |
| ProjectionHandlers.IntegerEventTypesRejected | scripts/scenario-generator/src/projection/ProjectionHandlers.php:33-41 | an event type such as "42" can never get a handler |
| ProjectionHandlers.WithTwice | scripts/scenario-generator/src/projection/ProjectionHandlers.php:37-42 | two successful `with` calls list their event types in call order, and the two differ |
| Projections.None | scripts/scenario-generator/src/projection/Projections.php:36-39 | the empty collection |
| Projections.Map | scripts/scenario-generator/src/projection/Projections.php:51-54 | one result per projection, in order |
| Projections.Filter | scripts/scenario-generator/src/projection/Projections.php:59-62 | exactly the projections the callback accepts |
| Projections.Exists | scripts/scenario-generator/src/projection/Projections.php:64-67 | true iff some projection has the name |
| Projections.Only | scripts/scenario-generator/src/projection/Projections.php:69-72 | exactly the projections whose name is listed, each listed name resolving as before |
| Projections.OnlyKeepsListed | scripts/scenario-generator/src/projection/Projections.php:64-72 | a listed name exists after `only` iff it existed before |
| Projections.Get | scripts/scenario-generator/src/projection/Projections.php:74-79 | the first projection with the name, or the `Unknown projection` error iff there is none |
| Projections.With | scripts/scenario-generator/src/projection/Projections.php:81-87 | every projection with the new one's name is replaced by it, placed last; the others are kept; the names gain its name |
| Projections.Names | scripts/scenario-generator/src/projection/Projections.php:101-104 | the names in order |
| Projections.Merge | scripts/scenario-generator/src/projection/Projections.php:106-112 | the result holds all of `other` and exactly those projections of this collection whose name `other` lacks; a lookup prefers `other` |
| CommandDefinitions.None | scripts/scenario-generator/src/commandDefinition/CommandDefinitions.php:36-39 | the empty collection |
| CommandDefinitions.Get | scripts/scenario-generator/src/commandDefinition/CommandDefinitions.php:46-51 | the first definition for the command, or the `Unknown command type` error iff there is none |
| CommandDefinitions.Exists | scripts/scenario-generator/src/commandDefinition/CommandDefinitions.php:53-56 | true iff some definition has the command name |
| CommandDefinitions.Map | scripts/scenario-generator/src/commandDefinition/CommandDefinitions.php:63-66 | one result per definition, in order |
| CommandDefinitions.Only | scripts/scenario-generator/src/commandDefinition/CommandDefinitions.php:68-71 | exactly the definitions whose name is listed, each listed name resolving as before |
| CommandDefinitions.OnlyKeepsListed | scripts/scenario-generator/src/commandDefinition/CommandDefinitions.php:53-71 | a listed name exists after `only` iff it existed before |
| CommandDefinitions.With | scripts/scenario-generator/src/commandDefinition/CommandDefinitions.php:73-79 | every definition with the new one's name is replaced by it, placed last; the others are kept |
| CommandDefinitions.Names | scripts/scenario-generator/src/commandDefinition/CommandDefinitions.php:89-92 | the command names in order |
| CommandDefinitions.Merge | scripts/scenario-generator/src/commandDefinition/CommandDefinitions.php:94-100 | all of `other` and exactly those definitions whose name `other` lacks; a lookup prefers `other` |
| CommandHandlerDefinitions.None | scripts/scenario-generator/src/commandHandlerDefinition/CommandHandlerDefinitions.php:36-39 | the empty collection |
| CommandHandlerDefinitions.Map | scripts/scenario-generator/src/commandHandlerDefinition/CommandHandlerDefinitions.php:51-54 | one result per handler, in order |
| CommandHandlerDefinitions.Exists | scripts/scenario-generator/src/commandHandlerDefinition/CommandHandlerDefinitions.php:56-59 | true iff some handler is for the command |
| CommandHandlerDefinitions.GetForCommand | scripts/scenario-generator/src/commandHandlerDefinition/CommandHandlerDefinitions.php:61-66 | the first handler for the command, or the `Unknown command handler` error iff there is none |
| CommandHandlerDefinitions.OnlyForCommands | scripts/scenario-generator/src/commandHandlerDefinition/CommandHandlerDefinitions.php:68-71 | exactly the handlers whose command is listed, each listed command resolving as before |
| CommandHandlerDefinitions.OnlyForCommandsKeepsListed | scripts/scenario-generator/src/commandHandlerDefinition/CommandHandlerDefinitions.php:56-71 | a listed command still has a handler after filtering iff it had one before |
| CommandHandlerDefinitions.With | scripts/scenario-generator/src/commandHandlerDefinition/CommandHandlerDefinitions.php:73-79 | every handler for the same command is replaced by the new one, placed last; the others are kept |
| CommandHandlerDefinitions.CommandNames | scripts/scenario-generator/src/commandHandlerDefinition/CommandHandlerDefinitions.php:89-92 | the command names in order |
| CommandHandlerDefinitions.Merge | scripts/scenario-generator/src/commandHandlerDefinition/CommandHandlerDefinitions.php:94-100 | all of `other` and exactly those handlers whose command `other` lacks; a lookup prefers `other` |
| EventDefinitions.Map | scripts/scenario-generator/src/eventDefinition/EventDefinitions.php:54-57 | one result per event definition, in order |
| EventDefinitions.Names | scripts/scenario-generator/src/eventDefinition/EventDefinitions.php:54-57 | the event type names in order |
| EventDefinitions.Exists | scripts/scenario-generator/src/eventDefinition/EventDefinitions.php:59-62 | true iff some definition has the event type |
| EventDefinitions.Get | scripts/scenario-generator/src/eventDefinition/EventDefinitions.php:42-47 | the first definition of the type, or the `Unknown event type` error iff there is none |
| EventDefinitions.Only | scripts/scenario-generator/src/eventDefinition/EventDefinitions.php:64-67 | exactly the definitions whose type is listed, each listed type resolving as before |
| EventDefinitions.OnlyKeepsListed | scripts/scenario-generator/src/eventDefinition/EventDefinitions.php:59-67 | a listed type exists after `only` iff it existed before |
| TestCases.None | scripts/scenario-generator/src/testCase/TestCases.php:35-38 | the empty collection |
| TestCases.Map | scripts/scenario-generator/src/testCase/TestCases.php:50-53 | one result per test case, in order |
| TestCases.Descriptions | scripts/scenario-generator/src/testCase/TestCases.php:58-61 | the descriptions in order |
| TestCases.Merge | scripts/scenario-generator/src/testCase/TestCases.php:63-69 | all of `other` and exactly those cases whose description `other` lacks |
| TestCase.New | scripts/scenario-generator/src/testCase/TestCase.php:13-27 | construction succeeds iff exactly one of expected event and expected error is set, keeping the fields; both set gives the exclusive-error message, neither the missing one |
| TestCase.ValidIsConstructible | scripts/scenario-generator/src/testCase/TestCase.php:20-26 | every case with exactly one expectation is what the constructor builds from its fields |
| Example.FirstError | scripts/scenario-generator/src/Example.php:70-108 | the validation loops report nothing iff every item passes its check |
| Example.FirstErrorIsFirst | scripts/scenario-generator/src/Example.php:70-108 | a reported failure is that of the first failing item; every earlier item passed |
| Example.ProjectionErrorNone | scripts/scenario-generator/src/Example.php:70-79 | a projection passes iff every handled event type is defined, its tag filters form a list, and every tag filter is a string |
| Example.HandlerErrorNone | scripts/scenario-generator/src/Example.php:81-92 | a handler passes iff its command is defined, every decision model names an existing projection, and its success event type is defined |
| Example.GivenEventsErrorNone | scripts/scenario-generator/src/Example.php:96-102 | the given events from index `from` on pass iff every one of their event types is defined |
| Example.GivenEventsErrorReportsFirst | scripts/scenario-generator/src/Example.php:96-102 | a failure names the first undefined given event at or after index `from`, with its index in the whole list and the case description |
| Example.TestCaseErrorNone | scripts/scenario-generator/src/Example.php:94-108 | a test case passes iff its given event types are all defined and its command is defined |
| Example.Validate | scripts/scenario-generator/src/Example.php:23-33 | an example passes iff its projections, then its command handlers, then its test cases all pass |
| Example.ValidParts | scripts/scenario-generator/src/Example.php:23-33 | an example is valid iff its projections, its handlers and its test cases each pass |
| Example.New | scripts/scenario-generator/src/Example.php:23-33 | construction succeeds iff the example is valid, keeps its parts, and otherwise fails with the first validation message |
| Example.TestCaseErrorIgnoresPayloads | scripts/scenario-generator/src/Example.php:113-117 | payload validation is a no-op: two cases with the same types pass or fail alike |
| Example.WithProjection | scripts/scenario-generator/src/Example.php:136-145 | a valid example stays constructible after `withProjection` of a projection that passes its own check; the new example has the replaced projection |
| Example.AddedProjectionKeepsValid | scripts/scenario-generator/src/Example.php:136-145 | adding a passing projection to a valid example gives a valid example |
| Example.AddedProjectionsValid | scripts/scenario-generator/src/Example.php:136-145 | replacing or appending a passing projection keeps every projection passing |
| Example.HandlersSeeMoreProjections | scripts/scenario-generator/src/Example.php:81-92 | handlers that pass keep passing when every projection name stays available |
| Example.MoreCommandDefinitions | scripts/scenario-generator/src/Example.php:147-156 | handlers and test cases keep passing when every command name stays defined |
| Example.WithCommandDefinition | scripts/scenario-generator/src/Example.php:147-156 | `withCommandDefinition` on a valid example always succeeds, with the definition replaced or added |
| Example.WithCommandHandlerDefinition | scripts/scenario-generator/src/Example.php:158-167 | a valid example stays constructible after adding a handler that passes its own check |
| Example.AddedHandlerKeepsValid | scripts/scenario-generator/src/Example.php:158-167 | adding a passing handler to a valid example gives a valid example |
| Example.AddedHandlersValid | scripts/scenario-generator/src/Example.php:158-167 | replacing or appending a passing handler keeps every handler passing |
| Example.Add | scripts/scenario-generator/src/Example.php:44 | setting `$used[$key] = true` makes the key set grow by exactly that key |
| Example.AddAll | scripts/scenario-generator/src/Example.php:45-47 | adding several keys makes the key set grow by exactly those keys |
| Example.AddEach | scripts/scenario-generator/src/Example.php:45-47 | the loop over the keys computes that set |
| Example.EventTypesOf | scripts/scenario-generator/src/Example.php:53-55 | the given events' types in order |
| Example.ModelNames | scripts/scenario-generator/src/Example.php:43-44 | the decision model names in order |
| Example.AddModelsContents | scripts/scenario-generator/src/Example.php:43-48 | the decision-model loop succeeds iff every model names an existing projection; then it marks exactly those projections and their handled event types as used |
| Example.AddHandler | scripts/scenario-generator/src/Example.php:42-49 | resolving a command succeeds iff it has a handler whose models all exist; it then marks the models, their event types and the success event type as used |
| Example.AddCase | scripts/scenario-generator/src/Example.php:40-59 | one iteration fails only for a command seen for the first time whose handler cannot be resolved |
| Example.AddCaseContents | scripts/scenario-generator/src/Example.php:40-59 | after one iteration the used sets grow by the command, the handler's contributions when the command is new, and the given and expected event types |
| Example.CollectStep | scripts/scenario-generator/src/Example.php:40-60 | the loop over several cases is the loop over all but the last, then one more iteration |
| Example.SomeHasSnoc | scripts/scenario-generator/src/Example.php:40-60 | a key is used by some case iff it is used by an earlier case or by the last one |
| Example.CollectStopsAtError | scripts/scenario-generator/src/Example.php:40-60 | the first exception ends the loop; later cases change nothing |
| Example.AddModelsNext | scripts/scenario-generator/src/Example.php:43-48 | one more pass of the decision-model loop marks the model's projection and its handled event types, or ends the loop with the missing projection's error |
| Example.AddModelsStopsAtError | scripts/scenario-generator/src/Example.php:43-48 | the first missing projection ends the decision-model loop |
| Example.AddModelsLoop | scripts/scenario-generator/src/Example.php:43-48 | the imperative decision-model loop computes the specification |
| Example.AddCaseStep | scripts/scenario-generator/src/Example.php:40-59 | the imperative loop body computes the specification |
| Example.ForTestCases | scripts/scenario-generator/src/Example.php:35-68 | `forTestCases` computes the pruning specification: collect, then re-construct from the filtered parts and the new cases |
| Example.CollectCommandNames | scripts/scenario-generator/src/Example.php:41-51 | the used commands are exactly the commands of the new test cases |
| Example.CollectProjections | scripts/scenario-generator/src/Example.php:42-48 | the used projections are exactly those named by the decision models of the cases' handlers |
| Example.CollectEventTypes | scripts/scenario-generator/src/Example.php:40-59 | the used event types are exactly the handlers' projection and success event types plus the given and expected event types |
| Example.AllSnoc | scripts/scenario-generator/src/Example.php:40-60 | all cases are resolvable iff the earlier ones are and the last one is |
| Example.CollectSucceedsIff | scripts/scenario-generator/src/Example.php:40-60 | collecting succeeds iff every case's command resolves to a handler whose decision models all exist |
| Example.ValidHandlerResolvable | scripts/scenario-generator/src/Example.php:81-92 | in a valid example every command with a handler resolves |
| Example.PrunedKeepsExactlyUsed | scripts/scenario-generator/src/Example.php:61-67 | the pruned example keeps the new cases and exactly the used commands, handlers, projections and event definitions |
| Example.ModelEventTypesContain | scripts/scenario-generator/src/Example.php:45-47 | every event type of a model's projection is marked as used |
| Example.UsedProjectionSource | scripts/scenario-generator/src/Example.php:42-48 | every used projection comes from a decision model of some used command's handler, whose event types are all used |
| Example.PrunedProjectionValid | scripts/scenario-generator/src/Example.php:61-64 | a kept projection still passes against the pruned event definitions |
| Example.UsedCommandSource | scripts/scenario-generator/src/Example.php:42-51 | a used command's handler contributes all its models and event types to the used sets |
| Example.PrunedHandlerValid | scripts/scenario-generator/src/Example.php:61-65 | a kept handler still passes against the pruned commands, projections and events |
| Example.PrunedTestCaseValid | scripts/scenario-generator/src/Example.php:61-66 | each new test case passes against the pruned definitions |
| Example.PrunedProjectionsValid | scripts/scenario-generator/src/Example.php:61-64 | all kept projections pass against the pruned event definitions |
| Example.PrunedHandlersValid | scripts/scenario-generator/src/Example.php:61-65 | all kept handlers pass against the pruned definitions |
| Example.PrunedTestCasesValid | scripts/scenario-generator/src/Example.php:61-66 | all new test cases pass against the pruned definitions |
| Example.PrunedIsValid | scripts/scenario-generator/src/Example.php:35-68 | when every new case has a handler and passes against a valid example with distinct names, `forTestCases` succeeds |
| TemplateString.CloseFrom | scripts/scenario-generator/src/shared/TemplateString.php:40 | the position found is the first `}` at or after the start, or the end of the template |
| TemplateString.SegmentsWellFormed | scripts/scenario-generator/src/shared/TemplateString.php:40 | every placeholder the scan of `\{([^}]+)}` finds has a non-empty name without `}` |
| TemplateString.SegmentsRoundTrip | scripts/scenario-generator/src/shared/TemplateString.php:40 | the scan loses nothing: text and placeholders spell the template again |
| TemplateString.TokensMembers | scripts/scenario-generator/src/shared/TemplateString.php:41 | a name is a token iff the scan found a placeholder with that name |
| TemplateString.GetTokensMembers | scripts/scenario-generator/src/shared/TemplateString.php:38-42 | `getTokens` yields non-empty names without `}`, exactly those of the placeholders found |
| TemplateString.PlaceholderStartIff | scripts/scenario-generator/src/shared/TemplateString.php:40 | the scan starts a placeholder at the front iff a `{` there is followed, after at least one character, by a `}` with none between |
| TemplateString.PlaceholderAtShift | scripts/scenario-generator/src/shared/TemplateString.php:40 | whether a placeholder starts at a later position does not depend on the first character |
| TemplateString.NoTokensIff | scripts/scenario-generator/src/shared/TemplateString.php:38-42 | there are no tokens iff no position holds `{`, at least one non-`}` character and a `}` |
| TemplateString.NoOpenNoTokens | scripts/scenario-generator/src/shared/TemplateString.php:38-42 | a template without `{` has no tokens |
| TemplateString.TokensAfterText | scripts/scenario-generator/src/shared/TemplateString.php:38-42 | text without `{` in front adds no tokens |
| TemplateString.TokensAfterPlaceholder | scripts/scenario-generator/src/shared/TemplateString.php:38-42 | a leading placeholder contributes its name as the first token |
| TemplateString.SinglePlaceholder | scripts/scenario-generator/src/shared/TemplateString.php:38-42 | a template that is one placeholder has exactly that token |
| TemplateString.EscapeOpen | scripts/scenario-generator/src/shared/TemplateString.php:76 | after escaping, no `{` is left at the front (each became `${`) |
| TemplateString.EscapeOpenConcat | scripts/scenario-generator/src/shared/TemplateString.php:76 | escaping works piece by piece |
| TemplateString.EscapeOpenRoundTrip | scripts/scenario-generator/src/shared/TemplateString.php:76 | turning each `${` back into `{` gives the template again |
| TemplateString.ToJsTemplateString | scripts/scenario-generator/src/shared/TemplateString.php:67-77 | a template without tokens becomes a double-quoted string literal |
| TemplateString.NoPlaceholderIsQuoted | scripts/scenario-generator/src/shared/TemplateString.php:70-72 | a template with no placeholder anywhere is quoted as it is |
| TemplateString.SinglePlaceholderIsBare | scripts/scenario-generator/src/shared/TemplateString.php:73-75 | a template that is exactly one placeholder becomes the bare path expression |
| TemplateString.OtherwiseTemplateLiteral | scripts/scenario-generator/src/shared/TemplateString.php:76 | any other template with a placeholder becomes a backtick literal whose body unescapes to the template |
| TemplateString.EscapeOpenPlain | scripts/scenario-generator/src/shared/TemplateString.php:76 | text without `{` is not changed by escaping |
| TemplateString.EscapePlainPlaceholder | scripts/scenario-generator/src/shared/TemplateString.php:76 | a placeholder `{t}` escapes to `${t}` |
| TemplateString.TextThenPlaceholder | scripts/scenario-generator/src/shared/TemplateString.php:76 | text followed by one placeholder becomes a template literal with `${…}` for the placeholder |
| TemplateString.PlaceholderThenMore | scripts/scenario-generator/src/shared/TemplateString.php:76 | a placeholder followed by more tokens becomes a literal starting with `${…}` |
| TemplateString.PlaceholderTextPlaceholder | scripts/scenario-generator/src/shared/TemplateString.php:76 | two placeholders around text become two `${…}` around the text |
| TemplateString.ToJsQuotedCase | scripts/scenario-generator/tests/unit/shared/TemplateStringTest.php:18 | "no replacement" is quoted |
| TemplateString.ToJsTextThenPlaceholderCase | scripts/scenario-generator/tests/unit/shared/TemplateStringTest.php:19 | "foo:{bar}" becomes `` `foo:${bar}` `` |
| TemplateString.ToJsTextBetweenPlaceholdersCase | scripts/scenario-generator/tests/unit/shared/TemplateStringTest.php:20 | "{foo}:{bar}" becomes `` `${foo}:${bar}` `` |
| TemplateString.ToJsAdjacentPlaceholdersCase | scripts/scenario-generator/tests/unit/shared/TemplateStringTest.php:21 | "{foo}{bar}" becomes `` `${foo}${bar}` `` |
| TemplateString.ToJsBareCase | scripts/scenario-generator/tests/unit/shared/TemplateStringTest.php:22 | "{foo}" becomes `foo` |
| TemplateString.ToJsBarePathCase | scripts/scenario-generator/tests/unit/shared/TemplateStringTest.php:23 | "{foo.bar}" becomes `foo.bar` |
| TemplateString.Step | scripts/scenario-generator/src/shared/TemplateString.php:52-62 | a path part resolves iff the value is an array with that key or an object with that property; a failure names the part and the token |
| TemplateString.Walk | scripts/scenario-generator/src/shared/TemplateString.php:49-63 | a failed walk names one of the path parts and the token |
| TemplateString.ResolveToken | scripts/scenario-generator/src/shared/TemplateString.php:47-65 | the loop over the parts computes the resolution specification (walk, then `(string)` cast) |
| TemplateString.ResolveTopLevelString | scripts/scenario-generator/src/shared/TemplateString.php:47-65 | a plain name bound to a string resolves to that string |
| TemplateString.ResolveMissingVariable | scripts/scenario-generator/src/shared/TemplateString.php:52-54 | a path whose first part is not a variable fails with the missing-key error for that part |
| TemplateString.ResolveThroughScalar | scripts/scenario-generator/src/shared/TemplateString.php:62 | stepping into a scalar fails with the invalid-variable error naming the next part and the scalar's debug type |
| TemplateString.LongestKeyAt | scripts/scenario-generator/src/shared/TemplateString.php:32 | the key chosen at a position is the longest replacement key that matches there |
| TemplateString.StrtrNothing | scripts/scenario-generator/src/shared/TemplateString.php:32 | `strtr` with no replacements changes nothing |
| TemplateString.NoKeyAtText | scripts/scenario-generator/src/shared/TemplateString.php:32 | with placeholder-shaped keys, no key matches where the scan sees text |
| TemplateString.PlaceholderKeyAt | scripts/scenario-generator/src/shared/TemplateString.php:32 | with placeholder-shaped keys, the key matched at a placeholder is exactly that placeholder |
| TemplateString.StrtrSubstitutes | scripts/scenario-generator/src/shared/TemplateString.php:32 | with a key for every token, `strtr` replaces exactly the scanned placeholders and keeps all text |
| TemplateString.ReplacementsOkIff | scripts/scenario-generator/src/shared/TemplateString.php:27-31 | the replacement map is built iff every token resolves |
| TemplateString.ReplacementsKeys | scripts/scenario-generator/src/shared/TemplateString.php:27-31 | the keys of the built map are exactly `{token}` for the tokens found |
| TemplateString.ReplacementsValues | scripts/scenario-generator/src/shared/TemplateString.php:27-31 | each `{token}` key holds that token's resolved value |
| TemplateString.ReplacementsFirstError | scripts/scenario-generator/src/shared/TemplateString.php:29-31 | a failure is that of the first token that does not resolve |
| TemplateString.ReplacementsStopsAtError | scripts/scenario-generator/src/shared/TemplateString.php:29-31 | the first failing token ends the loop |
| TemplateString.BuiltMapFills | scripts/scenario-generator/src/shared/TemplateString.php:25-33 | `strtr` with the built map replaces every placeholder by its token's value and keeps all other text |
| TemplateString.Render | scripts/scenario-generator/src/shared/TemplateString.php:25-33 | the loop and the replacement compute the rendering specification |
| TemplateString.SubstituteResolved | scripts/scenario-generator/src/shared/TemplateString.php:32 | substituting resolved values is filling each placeholder with its resolution |
| TemplateString.RenderFills | scripts/scenario-generator/src/shared/TemplateString.php:25-33 | rendering succeeds iff every token resolves, and then every placeholder is replaced by its value and all text is kept |
| TemplateString.RenderWithoutTokens | scripts/scenario-generator/src/shared/TemplateString.php:25-33 | a template without tokens renders as itself |
| Output.Output.constructor | scripts/scenario-generator/src/Output.php:12-22 | a new buffer has no lines, no highlighted line and highlighting off |
| Output.Output.AddLine | scripts/scenario-generator/src/Output.php:24-30 | the line is appended; its 1-based number is recorded iff highlighting is on; the numbers stay increasing and in range |
| Output.Output.StartHighlighting | scripts/scenario-generator/src/Output.php:32-35 | highlighting turns on, the lines and numbers stay |
| Output.Output.EndHighlighting | scripts/scenario-generator/src/Output.php:37-40 | highlighting turns off, the lines and numbers stay |
| Output.Output.Render | scripts/scenario-generator/src/Output.php:42-46 | a negative indent raises the `str_repeat` error; an empty buffer renders as the indentation alone |
| Output.Prefixed | scripts/scenario-generator/src/Output.php:44-45 | each line gets the prefix, in order |
| Output.JoinWithPrefix | scripts/scenario-generator/src/Output.php:44-45 | indenting the first line and joining with a newline-plus-indent indents every line |
| Output.SpacesHaveNoNewline | scripts/scenario-generator/src/Output.php:44 | the indentation holds no newline |
| Output.RenderedLines | scripts/scenario-generator/src/Output.php:42-46 | splitting the rendered text at newlines gives every line, indented, when the lines hold no newline |
| Output.HighlightedLineExample | scripts/scenario-generator/src/Output.php:24-40 | adding a, then b while highlighting, then c records only line 2 |

## Left out

- The web-component bundle `assets/js/dcb-scenario.bundle.js`: user interface, DOM and floating-point layout.
- The code generators `GeneratorJS.php`, `GeneratorTS.php` and `render.php`: they are built on a JSON-schema library that is not part of this model, and `render.php` reads stdin and prints Markdown.
- `Normalizer.php`: it wraps a foreign normalizer, `json_encode`, gzip and base64.
- `extensions/replace_dcb_scenarios.py`: a Markdown preprocessor that runs PHP as a subprocess.
- The benchmark scripts and adapters under `libraries/benchmark`: their subject is concurrency and network I/O. The guarantees they probe appear here as the stores' gapless-position and append-condition lemmas.
- `java/events/*.java`: interface signatures only, with asynchronous futures.
- Records with no behaviour of their own: `Events.php`, `DecisionModels.php`, `ConstraintChecks.php`, `ConstraintCheck.php`, `fixture/Event.php`, `testCase/Command.php`, `projection/Projection.php`, `ProjectionHandler.php`, `CommandDefinition.php`, `EventDefinition.php`, `CommandHandlerDefinition.php`, `DecisionModel.php`, `Meta.php` and `MergeResult.php`. They appear only as datatype fields. Their `isMap` checks on payload keys (`Event.php`, `Command.php`) are not modelled.
- Locking and atomicity: the JavaScript stores are single-threaded, so `append` is one sequential method.
- `console.log` reporting in `runTests` and `test`: each case yields a `Verdict` value instead. The JSON text of the messages is not produced.
- Event payloads, command data, handler closures and tag resolvers are type parameters or function arguments. Handlers are deterministic functions of the command data and the current log. A handler's outcome lists all the events it appends, in order, joined into one batch, whether it then returns or throws; the store's log is the same as with several `append` calls.
- Reference identity (`!==`) in the composite projection is value inequality of slices.
- The TypeScript composite projection gives every sub-projection the same slice type; a record of differently typed slices is not modelled.
- The TypeScript types `Events` (a non-empty tuple) and `QueryItem` (`tags` or `types` given as a non-empty tuple) are compile-time constraints and are not checked: the model admits empty batches and items with empty or absent fields, as `createProjection` itself builds `{ types: [] }` through a cast (libraries/dcb/Projection.ts:62). Only the tuple type of `createQuery`'s argument appears, as the precondition `|items| > 0` of `EventStore.CreateQuery`.
- `EventStore.AddEventMetadata`: `Object.assign` adds `metadata` to the caller's event object in place and returns that same object. The model returns a new value, so the update in place and the aliasing between argument and result are not captured.
- Schemas, payload and success-event data: `validatePayload` is a no-op in the source, so payloads are carried but never inspected. The schema fields of the definitions are left out.
- Integer range: JavaScript numbers and PHP integers are unbounded here. Positions and counts never approach the limits in the source.
- Floating point: a PHP float is kept as the text `(string)` would print for it.
- PHP's loose `in_array` comparison and the conversion of numeric-string array keys to integers: names are compared as strings. The exception is `ProjectionHandlers`, where an integer-like event type makes `isMap` fail, and that is modelled.
- The "Array to string conversion" warning PHP raises when `(string)` is applied to an array inside `resolveToken`: only the resulting text "Array" is modelled.
- The assertion library's message formatting: every message passed to `Assert::true` or `Assert::keyExists` is run through `sprintf` once more. A `%` inside a name, token or description would be reinterpreted; the model's messages assume no `%` in them.
- `TemplateString.ErrorMessage`: the missing-key and missing-property messages show the path part in doubled quotes, as the assertion library's value quoting inside the source's own quotes gives; the same holds for `ProjectionHandlers.Message` on an existing handler.
- `Output.Output.AddLine`: the default argument `''` is not a separate operation; calling it with `""` covers it.
- `Output.Output.Render`: the default `indent = 0` is not a separate operation; calling it with 0 covers it.
- `TestCases.Merge`: unlike the other registries there is no `get`, so its contract is stated on membership only.
- `Example.PrunedIsValid`: it requires distinct projection names and distinct handler command names. With duplicates, `only` keeps all of them but `findByName` resolves only the first, so a second definition may refer to pruned event types and the re-construction can fail.
- `Example.PrunedIsValid`: it also requires every new test case to have a handler and to pass the old example's test-case checks, because `getForCommand` and the constructor throw otherwise.
- `ProjectionHandlers.FromArray`: it requires distinct keys, since a PHP array literal cannot hold a key twice.
- `DocsLib.InitialStateAt`, `DocsLibV2.InitialStateAt`, the `ApplyAllAt`/`FoldAllAt`/`CompositionPreservesProjections` lemmas and `Projection.InitialStateSlices`: they require distinct projection names, which JavaScript object keys always are.
- `DocsLib.Apply`: in `lib.js` the test `event.type in mapping` also holds for the type `$init` and for names inherited from `Object.prototype` (`toString`, `constructor`, …), and the source then calls that function as a reducer. The model's `mapping` holds only the reducers, so an event of such a type leaves the state unchanged. The model assumes event types are never such names.
- `DocsLibV2.AppendAll`, `DocsLibV2.DocsEventLog.AppendEvent`, `DocsLibV2.DocsEventLog.AppendEvents`, `DocsLibV2.RunCases`, `DocsLibV2.DocsEventLog.TestCase`, `DocsLibV2.DocsEventLog.Test`, `TestRunner.RunAll`, `TestRunner.RunTestCase`, `TestRunner.RunTests`, `JsInMemoryEventStore.InMemoryEventStore.ReadStream` and `TestRunner.PartialDeepEqual`: the JavaScript sources look keys up on plain objects with `in` and `obj[key]`, and both also find names inherited from `Object.prototype` (`toString`, `constructor`, …). The model looks keys up in maps that hold only own entries. It assumes event types, command types, stream names and the keys of an expected event are never such inherited names. So `appendEvent` of type `toString` is modelled as an unknown type, where the source throws a `TypeError` at `tagResolver`. A `toString` command is modelled as having no handler, where the source calls the inherited function. And `readStream("toString")` is modelled as `[]`, where the source returns the inherited function. `partialDeepEqual` also finds an array's `length` with `in` and treats the string key `"0"` and the index 0 as one key; the model's `Key` keeps string keys and array indices apart and gives arrays no `length` key.
- `docs/assets/js/lib-v2.js`: the `commandHandlers` and `eventTypes` globals of the page are parameters. A missing command handler throws a `TypeError` whose text is engine-specific; its message is the `missingHandler` parameter.
- `libraries/dcb/TestRunner.ts`: the `instanceof InMemoryDcbEventStore` test always holds, because the runner is modelled over the in-memory store only.
