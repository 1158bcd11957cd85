/**
 * The test runner of the DCB library: the `partialDeepEqual` comparison, the verdict of one test case,
 * and the "new events since the last position" logic of `runTests` against the in-memory store.
 * Console reporting becomes a returned verdict.
 */
module TestRunner {
  import opened Wrappers
  import opened EventStore
  import opened InMemoryDcbEventStore

  /** A property key: arrays are objects keyed by their indices. */
  datatype Key = Index(i: nat) | Name(name: string)

  /** A JSON-like JavaScript value. */
  datatype JsValue = Undefined | Null | Bool(b: bool) | Num(n: int) | Str(s: string) | Obj(props: map<Key, JsValue>)

  /** An array literal `[v0, v1, …]`. */
  function ArrayValue(elems: seq<JsValue>): (r: JsValue)
    ensures r.Obj?
    ensures forall k: nat :: Index(k) in r.props <==> k < |elems|
    ensures forall k: nat :: k < |elems| ==> r.props[Index(k)] == elems[k]
    ensures forall key :: key in r.props ==> key.Index?
  {
    Obj(map k: nat | k < |elems| :: Index(k) := elems[k])
  }

  /** JavaScript truthiness of a value. */
  predicate TruthyValue(v: JsValue) {
    !(v.Undefined? || v.Null? || v == Bool(false) || v == Num(0) || v == Str(""))
  }

  /**
   * `partialDeepEqual(a, b)`: a primitive or `null` compares with `===`; an object needs an object whose
   * keys include all of its own keys, with partially equal values.
   */
  predicate PartialDeepEqual(a: JsValue, b: JsValue) {
    match a
    case Obj(pa) => b.Obj? && forall key | key in pa :: key in b.props && PartialDeepEqual(pa[key], b.props[key])
    case _ => a == b
  }

  lemma {:induction false} PartialDeepEqualReflexive(a: JsValue)
    ensures PartialDeepEqual(a, a)
  {
    match a
    case Obj(pa) =>
      forall key | key in pa ensures PartialDeepEqual(pa[key], pa[key]) {
        PartialDeepEqualReflexive(pa[key]);
      }
    case _ =>
  }

  lemma {:induction false} PartialDeepEqualTransitive(a: JsValue, b: JsValue, c: JsValue)
    requires PartialDeepEqual(a, b) && PartialDeepEqual(b, c)
    ensures PartialDeepEqual(a, c)
  {
    match a
    case Obj(pa) =>
      forall key | key in pa ensures key in c.props && PartialDeepEqual(pa[key], c.props[key]) {
        PartialDeepEqualTransitive(pa[key], b.props[key], c.props[key]);
      }
    case _ =>
  }

  /** Keys present only in the second value never matter. */
  lemma PartialDeepEqualIgnoresExtraKeys(a: JsValue, b: JsValue, c: JsValue)
    requires b.Obj? && c.Obj?
    requires forall key :: key in b.props ==> key in c.props && c.props[key] == b.props[key]
    requires PartialDeepEqual(a, b)
    ensures PartialDeepEqual(a, c)
  {
    forall key | key in b.props ensures PartialDeepEqual(b.props[key], c.props[key]) {
      PartialDeepEqualReflexive(b.props[key]);
    }
    PartialDeepEqualTransitive(a, b, c);
  }

  /**
   * `partialDeepEqual([expected], newEvents)` only looks at the first new event: it holds iff there is one
   * and it partially equals `expected`; further events are ignored.
   */
  lemma ExpectedEventCheck(expected: JsValue, newEvents: seq<JsValue>)
    ensures PartialDeepEqual(ArrayValue([expected]), ArrayValue(newEvents)) <==>
      |newEvents| > 0 && PartialDeepEqual(expected, newEvents[0])
  {
    var one := ArrayValue([expected]);
    assert Index(0) in one.props && one.props[Index(0)] == expected;
    if |newEvents| > 0 {
      assert ArrayValue(newEvents).props[Index(0)] == newEvents[0];
    }
  }

  /** The `then` part of a test definition. */
  datatype Expectation = Expectation(expectedEvent: Option<JsValue>, expectedError: Option<string>)

  /** `if (!testCase.then.expectedError)` fails for an absent and for an empty message. */
  predicate ErrorExpected(t: Expectation) {
    t.expectedError.Some? && t.expectedError.value != ""
  }

  predicate EventExpected(t: Expectation) {
    t.expectedEvent.Some? && TruthyValue(t.expectedEvent.value)
  }

  /** What one test case reports. */
  datatype Verdict =
    | Passed
    | WrongEvent
    | ErrorNotThrown(expectedMessage: string)
    | UnexpectedError(message: string)
    | WrongError(expectedMessage: string, message: string)

  /** The verdict when the command handler threw `message`. */
  function ThrownVerdict(t: Expectation, message: string): (v: Verdict)
    ensures v == Passed <==> ErrorExpected(t) && t.expectedError.value == message
  {
    if !ErrorExpected(t) then UnexpectedError(message)
    else if t.expectedError.value != message then WrongError(t.expectedError.value, message)
    else Passed
  }

  /** The verdict when the command handler returned normally, given the events it appended. */
  function CompletedVerdict(t: Expectation, newEvents: seq<JsValue>): (v: Verdict)
    ensures v == Passed <==>
      !ErrorExpected(t) && (EventExpected(t) ==> PartialDeepEqual(ArrayValue([t.expectedEvent.value]), ArrayValue(newEvents)))
  {
    if EventExpected(t) && !PartialDeepEqual(ArrayValue([t.expectedEvent.value]), ArrayValue(newEvents)) then WrongEvent
    else if !ErrorExpected(t) then Passed
    else ErrorNotThrown(t.expectedError.value)
  }

  /** `({position, ...event}) => ({...event})` over a read result. */
  function Strip<D>(read: seq<SequencedEvent<D>>): (r: seq<Event<D>>)
    ensures |r| == |read|
    ensures forall k :: 0 <= k < |read| ==> r[k] == read[k].event
  {
    seq(|read|, k requires 0 <= k < |read| => read[k].event)
  }

  /** `read(queryAll(), {backwards: true, limit: 1}).first()?.position || null`. */
  function LastEventPosition<D>(log: seq<SequencedEvent<D>>): Option<int> {
    var first := First(ReadLog(log, QueryAll(), LastOneOptions()));
    if first.Some? && first.value.position != 0 then Some(first.value.position) else None
  }

  /** `{from: lastEventPosition !== null ? lastEventPosition + 1 : undefined}`. */
  function NewEventsOptions(last: Option<int>): ReadOptions {
    ReadOptions(if last.Some? then Some(last.value + 1) else None, false, None)
  }

  function NewEventsSince<D>(log: seq<SequencedEvent<D>>, last: Option<int>): seq<Event<D>> {
    Strip(ReadLog(log, QueryAll(), NewEventsOptions(last)))
  }

  /** Reading everything forward from a position `b >= 1` of a gapless log returns the suffix from `b`. */
  lemma {:induction false} ReadFromIsSuffix<D>(log: seq<SequencedEvent<D>>, b: int)
    requires Gapless(log) && b >= 1
    ensures Filter(log, QueryAll(), ReadOptions(Some(b), false, None)) == if b - 1 <= |log| then log[b - 1..] else []
  {
    if log != [] {
      var o := ReadOptions(Some(b), false, None);
      var prefix := log[..|log| - 1];
      var last := log[|log| - 1];
      assert Gapless(prefix) by {
        forall k | 0 <= k < |prefix| ensures prefix[k].position == k + 1 {
          assert prefix[k] == log[k];
        }
      }
      ReadFromIsSuffix(prefix, b);
      assert Selected(last, QueryAll(), o) <==> b <= |log|;
      if b <= |log| {
        calc {
          Filter(log, QueryAll(), o);
          Filter(prefix, QueryAll(), o) + [last];
          prefix[b - 1..] + [last];
          { assert prefix[b - 1..] + [last] == log[b - 1..|log| - 1] + [log[|log| - 1]] == log[b - 1..]; }
          log[b - 1..];
        }
      }
    }
  }

  /** Taking the positions off a sequenced batch gives the batch back. */
  lemma StripSequenced<D>(batch: seq<Event<D>>, start: int)
    ensures Strip(Sequenced(batch, start)) == batch
  {
  }

  /** The last position of a gapless log, as the runner reads it: none for an empty log, else its length. */
  lemma LastEventPositionIsLength<D>(log: seq<SequencedEvent<D>>)
    requires Gapless(log)
    ensures LastEventPosition(log) == if log == [] then None else Some(|log|)
  {
    if log != [] {
      ReadLastIsNewest(log);
    }
  }

  /** Whatever was appended after the last position read is exactly what the runner sees as new events. */
  lemma NewEventsAreAppended<D>(log: seq<SequencedEvent<D>>, batch: seq<Event<D>>)
    requires Gapless(log)
    ensures NewEventsSince(log + Sequenced(batch, |log| + 1), LastEventPosition(log)) == batch
  {
    var after := log + Sequenced(batch, |log| + 1);
    LastEventPositionIsLength(log);
    assert ReadLog(after, QueryAll(), NewEventsOptions(LastEventPosition(log))) == Sequenced(batch, |log| + 1) by {
      AppendKeepsGapless(log, batch);
      if log == [] {
        ReadAllIsLog(after);
        assert after == Sequenced(batch, 1);
      } else {
        ReadFromIsSuffix(after, |log| + 1);
        assert after[|log|..] == Sequenced(batch, |log| + 1);
      }
    }
    StripSequenced(batch, |log| + 1);
  }

  /**
   * What a command handler does: append events to the store, in one or several `append` calls, and then
   * either return or throw. `appended` lists every event stored before the throw, in order; these stay in
   * the store.
   */
  datatype HandlerOutcome<D> = Threw(appended: seq<Event<D>>, message: string) | Appended(events: seq<Event<D>>)

  /** A command handler, seen through its command data and the log it runs against. */
  type CommandHandler<!C, !D> = (C, seq<SequencedEvent<D>>) -> HandlerOutcome<D>

  datatype TestDefinition<C, D> = TestDefinition(description: string, given: seq<Event<D>>, commandType: string, commandData: C, expectation: Expectation)

  function Values<D>(toValue: Event<D> -> JsValue, events: seq<Event<D>>): (r: seq<JsValue>)
    ensures |r| == |events|
    ensures forall k :: 0 <= k < |events| ==> r[k] == toValue(events[k])
  {
    seq(|events|, k requires 0 <= k < |events| => toValue(events[k]))
  }

  /** The result of one test case: `Err` is the `Unknown command type` exception that ends `runTests`. */
  function CaseResult<C, D>(handlers: map<string, CommandHandler<C, D>>, toValue: Event<D> -> JsValue, tc: TestDefinition<C, D>): Result<Verdict, string> {
    var log := Sequenced(tc.given, 1);
    if tc.commandType !in handlers then Err("Unknown command type: " + tc.commandType)
    else match handlers[tc.commandType](tc.commandData, log)
      case Threw(_, message) => Ok(ThrownVerdict(tc.expectation, message))
      case Appended(events) =>
        var after := log + Sequenced(events, |log| + 1);
        Ok(CompletedVerdict(tc.expectation, Values(toValue, NewEventsSince(after, LastEventPosition(log)))))
  }

  /** The store's log after one test case. */
  function CaseLog<C, D>(handlers: map<string, CommandHandler<C, D>>, tc: TestDefinition<C, D>): seq<SequencedEvent<D>> {
    var log := Sequenced(tc.given, 1);
    if tc.commandType !in handlers then log
    else match handlers[tc.commandType](tc.commandData, log)
      case Threw(appended, _) => log + Sequenced(appended, |log| + 1)
      case Appended(events) => log + Sequenced(events, |log| + 1)
  }

  /**
   * A case whose handler appends `events` passes iff no error is expected and, when an event is expected,
   * the first appended event partially equals it.
   */
  lemma CompletedCasePassesIff<C, D>(handlers: map<string, CommandHandler<C, D>>, toValue: Event<D> -> JsValue, tc: TestDefinition<C, D>, events: seq<Event<D>>)
    requires tc.commandType in handlers
    requires handlers[tc.commandType](tc.commandData, Sequenced(tc.given, 1)) == Appended(events)
    ensures CaseResult(handlers, toValue, tc) == Ok(CompletedVerdict(tc.expectation, Values(toValue, events)))
    ensures CaseResult(handlers, toValue, tc) == Ok(Passed) <==>
      !ErrorExpected(tc.expectation) &&
      (EventExpected(tc.expectation) ==> |events| > 0 && PartialDeepEqual(tc.expectation.expectedEvent.value, toValue(events[0])))
  {
    var log := Sequenced(tc.given, 1);
    AppendKeepsGapless([], tc.given);
    assert [] + log == log;
    NewEventsAreAppended(log, events);
    if EventExpected(tc.expectation) {
      ExpectedEventCheck(tc.expectation.expectedEvent.value, Values(toValue, events));
    }
  }

  /**
   * A handler that appends events and then throws: the verdict is decided by its message, and the events
   * it appended stay in the store after the given ones, numbered on from them.
   */
  lemma ThrownCaseKeepsAppended<C, D>(handlers: map<string, CommandHandler<C, D>>, toValue: Event<D> -> JsValue, tc: TestDefinition<C, D>,
                                      appended: seq<Event<D>>, message: string)
    requires tc.commandType in handlers
    requires handlers[tc.commandType](tc.commandData, Sequenced(tc.given, 1)) == Threw(appended, message)
    ensures CaseResult(handlers, toValue, tc) == Ok(ThrownVerdict(tc.expectation, message))
    ensures CaseLog(handlers, tc) == Sequenced(tc.given + appended, 1)
  {
    var all := tc.given + appended;
    assert CaseLog(handlers, tc) == Sequenced(all, 1) by {
      forall k | |tc.given| <= k < |all| ensures all[k] == appended[k - |tc.given|] {
      }
    }
  }

  /** A run over several cases: the verdicts so far or the exception, and the store's log. */
  datatype Run<D> = Run(result: Result<seq<Verdict>, string>, log: seq<SequencedEvent<D>>)

  function RunAll<C, D>(handlers: map<string, CommandHandler<C, D>>, toValue: Event<D> -> JsValue, cases: seq<TestDefinition<C, D>>, log: seq<SequencedEvent<D>>): (r: Run<D>)
    ensures r.result.Ok? ==> |r.result.value| == |cases|
  {
    if cases == [] then Run(Ok([]), log)
    else
      var prev := RunAll(handlers, toValue, cases[..|cases| - 1], log);
      var tc := cases[|cases| - 1];
      if prev.result.Err? then prev
      else match CaseResult(handlers, toValue, tc)
        case Err(message) => Run(Err(message), CaseLog(handlers, tc))
        case Ok(v) => Run(Ok(prev.result.value + [v]), CaseLog(handlers, tc))
  }

  /** The first part of one iteration of `runTests`: flush, then append the given events one by one. */
  method Seed<D>(store: InMemoryDcbEventStore<D>, given: seq<Event<D>>)
    requires store.Valid()
    modifies store
    ensures store.Valid() && store.sequencedEvents == Sequenced(given, 1)
  {
    store.Flush();
    var i := 0;
    while i < |given|
      invariant 0 <= i <= |given|
      invariant store.Valid() && store.sequencedEvents == Sequenced(given[..i], 1)
    {
      var _ := store.Append(One(given[i]), None);
      assert given[..i + 1] == given[..i] + [given[i]];
      i := i + 1;
    }
    assert given[..i] == given;
  }

  /** One iteration of `runTests`: flush, append the given events one by one, run the handler, compare. */
  method RunTestCase<C, D>(handlers: map<string, CommandHandler<C, D>>, store: InMemoryDcbEventStore<D>, toValue: Event<D> -> JsValue, tc: TestDefinition<C, D>)
    returns (r: Result<Verdict, string>)
    requires store.Valid()
    modifies store
    ensures store.Valid()
    ensures r == CaseResult(handlers, toValue, tc)
    ensures store.sequencedEvents == CaseLog(handlers, tc)
  {
    Seed(store, tc.given);
    ghost var log := store.sequencedEvents;
    var newest := store.Read(QueryAll(), Some(LastOneOptions()));
    var first := First(newest);
    var lastEventPosition := if first.Some? && first.value.position != 0 then Some(first.value.position) else None;
    assert lastEventPosition == LastEventPosition(log);
    if tc.commandType !in handlers {
      return Err("Unknown command type: " + tc.commandType);
    }
    var outcome := handlers[tc.commandType](tc.commandData, store.sequencedEvents);
    match outcome {
      case Threw(appended, message) =>
        var _ := store.Append(Many(appended), None);
        r := Ok(ThrownVerdict(tc.expectation, message));
      case Appended(events) =>
        var _ := store.Append(Many(events), None);
        assert store.sequencedEvents == log + Sequenced(events, |log| + 1);
        var read := store.Read(QueryAll(), Some(NewEventsOptions(lastEventPosition)));
        var newEvents := Strip(read);
        assert newEvents == NewEventsSince(log + Sequenced(events, |log| + 1), LastEventPosition(log));
        r := Ok(CompletedVerdict(tc.expectation, Values(toValue, newEvents)));
    }
  }

  /** `runTests`: every case in order; an unknown command type aborts the run. */
  method RunTests<C, D>(handlers: map<string, CommandHandler<C, D>>, store: InMemoryDcbEventStore<D>, toValue: Event<D> -> JsValue, cases: seq<TestDefinition<C, D>>)
    returns (r: Result<seq<Verdict>, string>)
    requires store.Valid()
    modifies store
    ensures store.Valid()
    ensures r == RunAll(handlers, toValue, cases, old(store.sequencedEvents)).result
    ensures store.sequencedEvents == RunAll(handlers, toValue, cases, old(store.sequencedEvents)).log
  {
    ghost var log0 := store.sequencedEvents;
    var verdicts: seq<Verdict> := [];
    var i := 0;
    while i < |cases|
      invariant 0 <= i <= |cases|
      invariant store.Valid()
      invariant RunAll(handlers, toValue, cases[..i], log0) == Run(Ok(verdicts), store.sequencedEvents)
    {
      var result := RunTestCase(handlers, store, toValue, cases[i]);
      RunAllStep(handlers, toValue, cases, i, log0);
      if result.Err? {
        RunAllStopsAtError(handlers, toValue, cases, i + 1, log0);
        return Err(result.error);
      }
      verdicts := verdicts + [result.value];
      i := i + 1;
    }
    assert cases[..i] == cases;
    r := Ok(verdicts);
  }

  /** One more case: after a run that has not aborted, its verdict is added or its exception ends the run. */
  lemma RunAllStep<C, D>(handlers: map<string, CommandHandler<C, D>>, toValue: Event<D> -> JsValue, cases: seq<TestDefinition<C, D>>, i: nat, log: seq<SequencedEvent<D>>)
    requires i < |cases|
    requires RunAll(handlers, toValue, cases[..i], log).result.Ok?
    ensures RunAll(handlers, toValue, cases[..i + 1], log) ==
      match CaseResult(handlers, toValue, cases[i])
      case Err(message) => Run(Err(message), CaseLog(handlers, cases[i]))
      case Ok(v) => Run(Ok(RunAll(handlers, toValue, cases[..i], log).result.value + [v]), CaseLog(handlers, cases[i]))
  {
    assert cases[..i + 1][..i] == cases[..i];
  }

  /** Once a prefix of the cases aborts, the rest of the run no longer changes the outcome. */
  lemma {:induction false} RunAllStopsAtError<C, D>(handlers: map<string, CommandHandler<C, D>>, toValue: Event<D> -> JsValue, cases: seq<TestDefinition<C, D>>, n: nat, log: seq<SequencedEvent<D>>)
    requires n <= |cases|
    requires RunAll(handlers, toValue, cases[..n], log).result.Err?
    ensures RunAll(handlers, toValue, cases, log) == RunAll(handlers, toValue, cases[..n], log)
    decreases |cases|
  {
    if n < |cases| {
      var prefix := cases[..|cases| - 1];
      assert prefix[..n] == cases[..n];
      RunAllStopsAtError(handlers, toValue, prefix, n, log);
    } else {
      assert cases[..n] == cases;
    }
  }
}
