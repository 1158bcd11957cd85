/**
 * The second docs template library: a global event list that only accepts known event types and
 * resolves their tags, a composite projection that updates its state object in place, a decision
 * model without an append condition, and the `test` loop that resets the list between cases.
 */
module DocsLibV2 {
  import opened Wrappers
  import opened EventStore
  import opened JsObject
  import opened TestRunner
  import InMemoryDcbEventStore

  /** `eventTypes[type].tagResolver`. */
  type TagResolver<!D> = D -> seq<string>

  /** `{...eventToAppend, tags: tagResolver(eventToAppend.data)}`. */
  function Resolved<D>(e: Event<D>, resolver: TagResolver<D>): Event<D> {
    Event(e.data, e.eventType, resolver(e.data))
  }

  function UnknownTypeMessage(eventType: string): string {
    "Failed to append event of unknown type \"" + eventType + "\""
  }

  /** Every stored event has a known type and carries the tags its resolver gives. */
  ghost predicate AllResolved<D>(eventTypes: map<string, TagResolver<D>>, log: seq<Event<D>>) {
    forall k :: 0 <= k < |log| ==> log[k].eventType in eventTypes && log[k].tags == eventTypes[log[k].eventType](log[k].data)
  }

  /** The event list after a run of `appendEvent` calls, and the message of the exception that stopped it. */
  datatype AppendOutcome<D> = AppendOutcome(log: seq<Event<D>>, failure: Option<string>)

  /** `appendEvents(es)` from `log`: one `appendEvent` per event; the first unknown type throws. */
  function AppendAll<D>(eventTypes: map<string, TagResolver<D>>, log: seq<Event<D>>, es: seq<Event<D>>): (r: AppendOutcome<D>)
    ensures |log| <= |r.log| && r.log[..|log|] == log
    decreases |es|
  {
    if es == [] then AppendOutcome(log, None)
    else
      var prev := AppendAll(eventTypes, log, es[..|es| - 1]);
      var e := es[|es| - 1];
      if prev.failure.Some? then prev
      else if e.eventType !in eventTypes then AppendOutcome(prev.log, Some(UnknownTypeMessage(e.eventType)))
      else AppendOutcome(prev.log + [Resolved(e, eventTypes[e.eventType])], None)
  }

  function ResolvedAll<D>(eventTypes: map<string, TagResolver<D>>, es: seq<Event<D>>): (r: seq<Event<D>>)
    requires forall k :: 0 <= k < |es| ==> es[k].eventType in eventTypes
    ensures |r| == |es|
    ensures forall k :: 0 <= k < |es| ==> r[k] == Resolved(es[k], eventTypes[es[k].eventType])
  {
    seq(|es|, k requires 0 <= k < |es| => Resolved(es[k], eventTypes[es[k].eventType]))
  }

  /**
   * `appendEvents` stores the events before the first unknown type `j`, with resolved tags, and throws
   * the unknown-type message for `es[j]`; with no unknown type it stores them all.
   */
  lemma {:induction false} AppendAllStopsAtFirstUnknown<D>(eventTypes: map<string, TagResolver<D>>, log: seq<Event<D>>, es: seq<Event<D>>)
    returns (j: nat)
    ensures j <= |es|
    ensures forall k :: 0 <= k < j ==> es[k].eventType in eventTypes
    ensures j < |es| ==> es[j].eventType !in eventTypes
    ensures AppendAll(eventTypes, log, es) ==
      AppendOutcome(log + ResolvedAll(eventTypes, es[..j]), if j < |es| then Some(UnknownTypeMessage(es[j].eventType)) else None)
    decreases |es|
  {
    if es == [] {
      j := 0;
      assert log + ResolvedAll(eventTypes, es[..0]) == log;
    } else {
      var prefix := es[..|es| - 1];
      var e := es[|es| - 1];
      var i := AppendAllStopsAtFirstUnknown(eventTypes, log, prefix);
      assert prefix[..i] == es[..i];
      if i < |prefix| {
        j := i;
        assert prefix[j] == es[j];
      } else if e.eventType !in eventTypes {
        j := i;
      } else {
        j := |es|;
        assert es[..j] == es;
        ResolvedSnoc(eventTypes, log, es);
      }
    }
  }

  /** Resolving one more known event appends its resolved form. */
  lemma ResolvedSnoc<D>(eventTypes: map<string, TagResolver<D>>, log: seq<Event<D>>, es: seq<Event<D>>)
    requires es != [] && forall k :: 0 <= k < |es| ==> es[k].eventType in eventTypes
    ensures log + ResolvedAll(eventTypes, es)
      == log + ResolvedAll(eventTypes, es[..|es| - 1]) + [Resolved(es[|es| - 1], eventTypes[es[|es| - 1].eventType])]
  {
    var prefix := es[..|es| - 1];
    var e := es[|es| - 1];
    assert ResolvedAll(eventTypes, es) == ResolvedAll(eventTypes, prefix) + [Resolved(e, eventTypes[e.eventType])];
  }

  /** Appending never breaks the resolved-tags invariant. */
  lemma AppendAllKeepsResolved<D>(eventTypes: map<string, TagResolver<D>>, log: seq<Event<D>>, es: seq<Event<D>>)
    requires AllResolved(eventTypes, log)
    ensures AllResolved(eventTypes, AppendAll(eventTypes, log, es).log)
  {
    var j := AppendAllStopsAtFirstUnknown(eventTypes, log, es);
    var added := ResolvedAll(eventTypes, es[..j]);
    var r := log + added;
    forall k | 0 <= k < |r| ensures r[k].eventType in eventTypes && r[k].tags == eventTypes[r[k].eventType](r[k].data) {
      if k >= |log| {
        assert r[k] == added[k - |log|];
      }
    }
  }

  /** Once one append throws, the remaining events are never looked at. */
  lemma {:induction false} AppendAllStopsAtFailure<D>(eventTypes: map<string, TagResolver<D>>, log: seq<Event<D>>, es: seq<Event<D>>, n: nat)
    requires n <= |es|
    requires AppendAll(eventTypes, log, es[..n]).failure.Some?
    ensures AppendAll(eventTypes, log, es) == AppendAll(eventTypes, log, es[..n])
    decreases |es|
  {
    if n < |es| {
      var prefix := es[..|es| - 1];
      assert prefix[..n] == es[..n];
      AppendAllStopsAtFailure(eventTypes, log, prefix, n);
    } else {
      assert es[..n] == es;
    }
  }

  /** A slice handler: `handlers[type](state[name] ?? null, event)`. */
  type SliceHandler<!S, !D> = (Option<S>, Event<D>) -> Option<S>

  /** `{initialState, handlers, tagFilter?}`: `initialState` is a plain value here, not a function. */
  datatype DocsProjection<!S, !D> = DocsProjection(initialState: Option<S>, handlers: map<string, SliceHandler<S, D>>, tagFilter: Option<set<string>>)

  datatype NamedProjection<!S, !D> = NamedProjection(name: string, projection: DocsProjection<S, D>)

  ghost predicate DistinctNames<S, D>(ps: seq<NamedProjection<S, D>>) {
    forall a, b :: 0 <= a < b < |ps| ==> ps[a].name != ps[b].name
  }

  /** The projection reacts: it has a handler for the type and the event carries every filter tag. */
  predicate Handles<S, D>(p: DocsProjection<S, D>, e: Event<D>) {
    e.eventType in p.handlers && (p.tagFilter.None? || forall tag | tag in p.tagFilter.value :: tag in e.tags)
  }

  /** One projection on its own slice. */
  function Step<S, D>(p: DocsProjection<S, D>, slice: Option<S>, e: Event<D>): Option<S> {
    if Handles(p, e) then p.handlers[e.eventType](slice, e) else slice
  }

  /** One projection folded over events on its own. */
  function SingleFold<S, D>(p: DocsProjection<S, D>, slice: Option<S>, events: seq<Event<D>>): Option<S>
    decreases |events|
  {
    if events == [] then slice
    else Step(p, SingleFold(p, slice, events[..|events| - 1]), events[|events| - 1])
  }

  /** `initialState()`: `Object.fromEntries` of the names and initial states (a later name wins). */
  function InitialState<S, D>(ps: seq<NamedProjection<S, D>>): map<string, Option<S>> {
    if ps == [] then map[]
    else InitialState(ps[..|ps| - 1])[ps[|ps| - 1].name := ps[|ps| - 1].projection.initialState]
  }

  lemma {:induction false} InitialStateAt<S, D>(ps: seq<NamedProjection<S, D>>, k: nat)
    requires DistinctNames(ps) && k < |ps|
    ensures Lookup(InitialState(ps), ps[k].name) == ps[k].projection.initialState
  {
    if k < |ps| - 1 {
      InitialStateAt(ps[..|ps| - 1], k);
    }
  }

  /** The record after `apply`'s loop: every handling projection writes its slice in record order. */
  function ApplyAll<S, D>(ps: seq<NamedProjection<S, D>>, state: map<string, Option<S>>, e: Event<D>): map<string, Option<S>> {
    if ps == [] then state
    else
      var prev := ApplyAll(ps[..|ps| - 1], state, e);
      var n := ps[|ps| - 1];
      if Handles(n.projection, e) then prev[n.name := n.projection.handlers[e.eventType](Lookup(prev, n.name), e)] else prev
  }

  lemma {:induction false} ApplyAllOther<S, D>(ps: seq<NamedProjection<S, D>>, state: map<string, Option<S>>, e: Event<D>, name: string)
    requires forall k :: 0 <= k < |ps| ==> ps[k].name != name
    ensures name in ApplyAll(ps, state, e) <==> name in state
    ensures Lookup(ApplyAll(ps, state, e), name) == Lookup(state, name)
  {
    if ps != [] {
      ApplyAllOther(ps[..|ps| - 1], state, e, name);
    }
  }

  /** With distinct names each slice is its own projection's step on its old slice. */
  lemma {:induction false} ApplyAllAt<S, D>(ps: seq<NamedProjection<S, D>>, state: map<string, Option<S>>, e: Event<D>, k: nat)
    requires DistinctNames(ps) && k < |ps|
    ensures Lookup(ApplyAll(ps, state, e), ps[k].name) == Step(ps[k].projection, Lookup(state, ps[k].name), e)
  {
    var prefix := ps[..|ps| - 1];
    if k == |ps| - 1 {
      ApplyAllOther(prefix, state, e, ps[k].name);
    } else {
      assert prefix[k] == ps[k];
      ApplyAllAt(prefix, state, e, k);
    }
  }

  /** `events.reduce(apply, initialState)`. */
  function FoldAll<S, D>(ps: seq<NamedProjection<S, D>>, state: map<string, Option<S>>, events: seq<Event<D>>): map<string, Option<S>>
    decreases |events|
  {
    if events == [] then state
    else ApplyAll(ps, FoldAll(ps, state, events[..|events| - 1]), events[|events| - 1])
  }

  lemma {:induction false} FoldAllAt<S, D>(ps: seq<NamedProjection<S, D>>, state: map<string, Option<S>>, events: seq<Event<D>>, k: nat)
    requires DistinctNames(ps) && k < |ps|
    ensures Lookup(FoldAll(ps, state, events), ps[k].name) == SingleFold(ps[k].projection, Lookup(state, ps[k].name), events)
    decreases |events|
  {
    if events != [] {
      var prefix := events[..|events| - 1];
      FoldAllAt(ps, state, prefix, k);
      ApplyAllAt(ps, FoldAll(ps, state, prefix), events[|events| - 1], k);
    }
  }

  /** The decision state gives every projection exactly the slice it would compute alone. */
  lemma CompositionPreservesProjections<S, D>(ps: seq<NamedProjection<S, D>>, events: seq<Event<D>>, k: nat)
    requires DistinctNames(ps) && k < |ps|
    ensures Lookup(FoldAll(ps, InitialState(ps), events), ps[k].name) ==
      SingleFold(ps[k].projection, ps[k].projection.initialState, events)
  {
    FoldAllAt(ps, InitialState(ps), events, k);
    InitialStateAt(ps, k);
  }

  /** The composite `apply`: it writes the handled slices into `state` itself and returns that object. */
  method CompositeApply<S, D>(ps: seq<NamedProjection<S, D>>, state: JsRecord<S>, e: Event<D>) returns (r: JsRecord<S>)
    modifies state
    ensures r == state
    ensures state.props == ApplyAll(ps, old(state.props), e)
  {
    var i := 0;
    while i < |ps|
      invariant 0 <= i <= |ps|
      invariant state.props == ApplyAll(ps[..i], old(state.props), e)
    {
      var projection := ps[i].projection;
      assert ps[..i + 1][..i] == ps[..i];
      if e.eventType in projection.handlers {
        if projection.tagFilter.None? || forall tag | tag in projection.tagFilter.value :: tag in e.tags {
          state.Set(ps[i].name, projection.handlers[e.eventType](Lookup(state.props, ps[i].name), e));
        }
      }
      i := i + 1;
    }
    assert ps[..i] == ps;
    r := state;
  }

  /** A command handler of the docs page: it reads the event list and throws or emits events. */
  type DocsCommandHandler<!C, !D> = (C, seq<Event<D>>) -> HandlerOutcome<D>

  /** One test case's verdict (or the exception that ends `test`) and the event list it leaves. */
  datatype CaseRun<D> = CaseRun(result: Result<Verdict, string>, log: seq<Event<D>>)

  /**
   * One iteration of `test`: empty the list, append the given events (outside the `try`), run the
   * handler (a missing handler throws `missingHandler`), and compare what it appended after `eventsPosition`.
   */
  function RunCase<C, D>(eventTypes: map<string, TagResolver<D>>, handlers: map<string, DocsCommandHandler<C, D>>,
                         missingHandler: string, toValue: Event<D> -> JsValue, tc: TestDefinition<C, D>): CaseRun<D>
  {
    var given := AppendAll(eventTypes, [], tc.given);
    if given.failure.Some? then CaseRun(Err(given.failure.value), given.log)
    else if tc.commandType !in handlers then CaseRun(Ok(ThrownVerdict(tc.expectation, missingHandler)), given.log)
    else match handlers[tc.commandType](tc.commandData, given.log)
      case Threw(appended, message) =>
        var before := AppendAll(eventTypes, given.log, appended);
        if before.failure.Some? then CaseRun(Ok(ThrownVerdict(tc.expectation, before.failure.value)), before.log)
        else CaseRun(Ok(ThrownVerdict(tc.expectation, message)), before.log)
      case Appended(events) =>
        var after := AppendAll(eventTypes, given.log, events);
        if after.failure.Some? then CaseRun(Ok(ThrownVerdict(tc.expectation, after.failure.value)), after.log)
        else CaseRun(Ok(CompletedVerdict(tc.expectation, Values(toValue, after.log[|given.log|..]))), after.log)
  }

  /**
   * A case whose given events and emitted events all have known types passes iff no error is expected
   * and, when an event is expected, the first emitted event (with resolved tags) partially equals it.
   */
  lemma CompletedCasePassesIff<C, D>(eventTypes: map<string, TagResolver<D>>, handlers: map<string, DocsCommandHandler<C, D>>,
                                     missingHandler: string, toValue: Event<D> -> JsValue, tc: TestDefinition<C, D>, events: seq<Event<D>>)
    requires forall k :: 0 <= k < |tc.given| ==> tc.given[k].eventType in eventTypes
    requires forall k :: 0 <= k < |events| ==> events[k].eventType in eventTypes
    requires tc.commandType in handlers
    requires handlers[tc.commandType](tc.commandData, ResolvedAll(eventTypes, tc.given)) == Appended(events)
    ensures RunCase(eventTypes, handlers, missingHandler, toValue, tc).result ==
      Ok(CompletedVerdict(tc.expectation, Values(toValue, ResolvedAll(eventTypes, events))))
    ensures RunCase(eventTypes, handlers, missingHandler, toValue, tc).result == Ok(Passed) <==>
      !ErrorExpected(tc.expectation) &&
      (EventExpected(tc.expectation) ==>
         |events| > 0 && PartialDeepEqual(tc.expectation.expectedEvent.value, toValue(Resolved(events[0], eventTypes[events[0].eventType]))))
  {
    CompletedCaseRun(eventTypes, handlers, missingHandler, toValue, tc, events);
    if EventExpected(tc.expectation) {
      ExpectedEventCheck(tc.expectation.expectedEvent.value, Values(toValue, ResolvedAll(eventTypes, events)));
    }
  }

  /** A handler that returns normally: the given and the emitted events are stored, resolved, in order. */
  lemma CompletedCaseRun<C, D>(eventTypes: map<string, TagResolver<D>>, handlers: map<string, DocsCommandHandler<C, D>>,
                               missingHandler: string, toValue: Event<D> -> JsValue, tc: TestDefinition<C, D>, events: seq<Event<D>>)
    requires forall k :: 0 <= k < |tc.given| ==> tc.given[k].eventType in eventTypes
    requires forall k :: 0 <= k < |events| ==> events[k].eventType in eventTypes
    requires tc.commandType in handlers
    requires handlers[tc.commandType](tc.commandData, ResolvedAll(eventTypes, tc.given)) == Appended(events)
    ensures RunCase(eventTypes, handlers, missingHandler, toValue, tc) ==
      CaseRun(Ok(CompletedVerdict(tc.expectation, Values(toValue, ResolvedAll(eventTypes, events)))),
              ResolvedAll(eventTypes, tc.given) + ResolvedAll(eventTypes, events))
  {
    var i := AppendAllStopsAtFirstUnknown(eventTypes, [], tc.given);
    assert i == |tc.given| && tc.given[..i] == tc.given;
    var given := AppendAll(eventTypes, [], tc.given);
    assert given.failure.None? && given.log == ResolvedAll(eventTypes, tc.given);
    var j := AppendAllStopsAtFirstUnknown(eventTypes, given.log, events);
    assert j == |events| && events[..j] == events;
    var after := AppendAll(eventTypes, given.log, events);
    var added := ResolvedAll(eventTypes, events);
    assert after.failure.None? && after.log == given.log + added;
    assert after.log[|given.log|..] == added;
  }

  /**
   * A handler that appends events of known types and then throws: the verdict is decided by its message,
   * and the events it appended stay in the list after the given ones, resolved.
   */
  lemma ThrownCaseKeepsAppended<C, D>(eventTypes: map<string, TagResolver<D>>, handlers: map<string, DocsCommandHandler<C, D>>,
                                      missingHandler: string, toValue: Event<D> -> JsValue, tc: TestDefinition<C, D>,
                                      appended: seq<Event<D>>, message: string)
    requires forall k :: 0 <= k < |tc.given| ==> tc.given[k].eventType in eventTypes
    requires forall k :: 0 <= k < |appended| ==> appended[k].eventType in eventTypes
    requires tc.commandType in handlers
    requires handlers[tc.commandType](tc.commandData, ResolvedAll(eventTypes, tc.given)) == Threw(appended, message)
    ensures RunCase(eventTypes, handlers, missingHandler, toValue, tc) ==
      CaseRun(Ok(ThrownVerdict(tc.expectation, message)), ResolvedAll(eventTypes, tc.given) + ResolvedAll(eventTypes, appended))
  {
    var i := AppendAllStopsAtFirstUnknown(eventTypes, [], tc.given);
    assert i == |tc.given| && tc.given[..i] == tc.given;
    var given := AppendAll(eventTypes, [], tc.given);
    assert given.failure.None? && given.log == ResolvedAll(eventTypes, tc.given);
    var j := AppendAllStopsAtFirstUnknown(eventTypes, given.log, appended);
    assert j == |appended| && appended[..j] == appended;
  }

  /** `test(testCases)`: the verdicts in order; an exception from the given events ends the run. */
  function RunCases<C, D>(eventTypes: map<string, TagResolver<D>>, handlers: map<string, DocsCommandHandler<C, D>>,
                          missingHandler: string, toValue: Event<D> -> JsValue, cases: seq<TestDefinition<C, D>>,
                          log: seq<Event<D>>): (r: (Result<seq<Verdict>, string>, seq<Event<D>>))
    ensures r.0.Ok? ==> |r.0.value| == |cases|
    decreases |cases|
  {
    if cases == [] then (Ok([]), log)
    else
      var prev := RunCases(eventTypes, handlers, missingHandler, toValue, cases[..|cases| - 1], log);
      if prev.0.Err? then prev
      else
        var run := RunCase(eventTypes, handlers, missingHandler, toValue, cases[|cases| - 1]);
        match run.result
        case Err(message) => (Err(message), run.log)
        case Ok(v) => (Ok(prev.0.value + [v]), run.log)
  }

  lemma {:induction false} RunCasesStopsAtError<C, D>(eventTypes: map<string, TagResolver<D>>, handlers: map<string, DocsCommandHandler<C, D>>,
                                                      missingHandler: string, toValue: Event<D> -> JsValue, cases: seq<TestDefinition<C, D>>,
                                                      n: nat, log: seq<Event<D>>)
    requires n <= |cases|
    requires RunCases(eventTypes, handlers, missingHandler, toValue, cases[..n], log).0.Err?
    ensures RunCases(eventTypes, handlers, missingHandler, toValue, cases, log) ==
      RunCases(eventTypes, handlers, missingHandler, toValue, cases[..n], log)
    decreases |cases|
  {
    if n < |cases| {
      var prefix := cases[..|cases| - 1];
      assert prefix[..n] == cases[..n];
      RunCasesStopsAtError(eventTypes, handlers, missingHandler, toValue, prefix, n, log);
    } else {
      assert cases[..n] == cases;
    }
  }

  /**
   * One more case after a prefix that produced `verdicts`: a failing case ends the whole run with
   * its message, a passing one adds its verdict.
   */
  lemma RunCasesNext<C, D>(eventTypes: map<string, TagResolver<D>>, handlers: map<string, DocsCommandHandler<C, D>>,
                           missingHandler: string, toValue: Event<D> -> JsValue, cases: seq<TestDefinition<C, D>>,
                           i: nat, log: seq<Event<D>>, verdicts: seq<Verdict>, result: Result<Verdict, string>, after: seq<Event<D>>)
    requires i < |cases|
    requires RunCases(eventTypes, handlers, missingHandler, toValue, cases[..i], log).0 == Ok(verdicts)
    requires CaseRun(result, after) == RunCase(eventTypes, handlers, missingHandler, toValue, cases[i])
    ensures result.Err? ==> RunCases(eventTypes, handlers, missingHandler, toValue, cases, log) == (Err(result.error), after)
    ensures result.Ok? ==> RunCases(eventTypes, handlers, missingHandler, toValue, cases[..i + 1], log) == (Ok(verdicts + [result.value]), after)
  {
    assert cases[..i + 1][..i] == cases[..i];
    if result.Err? {
      RunCasesStopsAtError(eventTypes, handlers, missingHandler, toValue, cases, i + 1, log);
    }
  }

  /** The global `events` array together with the page's `eventTypes` definitions. */
  class DocsEventLog<D> {
    var events: seq<Event<D>>
    const eventTypes: map<string, TagResolver<D>>

    ghost predicate Valid()
      reads this
    {
      AllResolved(eventTypes, events)
    }

    constructor (eventTypes: map<string, TagResolver<D>>)
      ensures Valid() && this.eventTypes == eventTypes && events == []
    {
      this.eventTypes := eventTypes;
      events := [];
    }

    /** `appendEvent(event, appendCondition)`: the condition is ignored; an unknown type throws. */
    method AppendEvent(e: Event<D>, appendCondition: Option<InMemoryDcbEventStore.AppendCondition>) returns (failure: Option<string>)
      requires Valid()
      modifies this
      ensures Valid()
      ensures AppendOutcome(events, failure) == AppendAll(eventTypes, old(events), [e])
    {
      assert [e][..0] == [];
      if e.eventType !in eventTypes {
        return Some(UnknownTypeMessage(e.eventType));
      }
      events := events + [Resolved(e, eventTypes[e.eventType])];
      failure := None;
    }

    /** `appendEvents(es)`: `appendEvent(e, null)` for each event; the first exception ends the loop. */
    method AppendEvents(es: seq<Event<D>>) returns (failure: Option<string>)
      requires Valid()
      modifies this
      ensures Valid()
      ensures AppendOutcome(events, failure) == AppendAll(eventTypes, old(events), es)
    {
      var i := 0;
      while i < |es|
        invariant 0 <= i <= |es|
        invariant Valid()
        invariant AppendAll(eventTypes, old(events), es[..i]) == AppendOutcome(events, None)
      {
        assert es[..i + 1][..i] == es[..i];
        var f := AppendEvent(es[i], None);
        assert [es[i]][..0] == [];
        if f.Some? {
          AppendAllStopsAtFailure(eventTypes, old(events), es, i + 1);
          return f;
        }
        i := i + 1;
      }
      assert es[..i] == es;
      failure := None;
    }

    /** `buildDecisionModel(projections)`: the composite folded over every stored event; no append condition. */
    method BuildDecisionModel<S>(ps: seq<NamedProjection<S, D>>) returns (state: JsRecord<S>, appendCondition: Option<InMemoryDcbEventStore.AppendCondition>)
      ensures fresh(state)
      ensures state.props == FoldAll(ps, InitialState(ps), events)
      ensures appendCondition.None?
    {
      state := new JsRecord(InitialState(ps));
      var i := 0;
      while i < |events|
        invariant 0 <= i <= |events|
        invariant fresh(state)
        invariant state.props == FoldAll(ps, InitialState(ps), events[..i])
      {
        assert events[..i + 1][..i] == events[..i];
        state := CompositeApply(ps, state, events[i]);
        i := i + 1;
      }
      assert events[..i] == events;
      appendCondition := None;
    }

    /** One iteration of `test`: `events.splice(0)`, the given events, then the command. */
    method TestCase<C>(handlers: map<string, DocsCommandHandler<C, D>>, missingHandler: string, toValue: Event<D> -> JsValue, tc: TestDefinition<C, D>)
      returns (r: Result<Verdict, string>)
      requires Valid()
      modifies this
      ensures Valid()
      ensures CaseRun(r, events) == RunCase(eventTypes, handlers, missingHandler, toValue, tc)
    {
      events := [];
      var failed := AppendEvents(tc.given);
      if failed.Some? {
        return Err(failed.value);
      }
      var eventsPosition := |events|;
      if tc.commandType !in handlers {
        return Ok(ThrownVerdict(tc.expectation, missingHandler));
      }
      var outcome := handlers[tc.commandType](tc.commandData, events);
      match outcome {
        case Threw(appended, message) =>
          var thrown := AppendEvents(appended);
          if thrown.Some? {
            r := Ok(ThrownVerdict(tc.expectation, thrown.value));
          } else {
            r := Ok(ThrownVerdict(tc.expectation, message));
          }
        case Appended(emitted) =>
          var thrown := AppendEvents(emitted);
          if thrown.Some? {
            r := Ok(ThrownVerdict(tc.expectation, thrown.value));
          } else {
            r := Ok(CompletedVerdict(tc.expectation, Values(toValue, events[eventsPosition..])));
          }
      }
    }

    /** `test(testCases)`. */
    method Test<C>(handlers: map<string, DocsCommandHandler<C, D>>, missingHandler: string, toValue: Event<D> -> JsValue, cases: seq<TestDefinition<C, D>>)
      returns (r: Result<seq<Verdict>, string>)
      requires Valid()
      modifies this
      ensures Valid()
      ensures (r, events) == RunCases(eventTypes, handlers, missingHandler, toValue, cases, old(events))
    {
      ghost var log0 := events;
      var verdicts: seq<Verdict> := [];
      var i := 0;
      while i < |cases|
        invariant 0 <= i <= |cases|
        invariant Valid()
        invariant RunCases(eventTypes, handlers, missingHandler, toValue, cases[..i], log0) == (Ok(verdicts), events)
      {
        var result := TestCase(handlers, missingHandler, toValue, cases[i]);
        RunCasesNext(eventTypes, handlers, missingHandler, toValue, cases, i, log0, verdicts, result, events);
        if result.Err? {
          return Err(result.error);
        }
        verdicts := verdicts + [result.value];
        i := i + 1;
      }
      assert cases[..i] == cases;
      r := Ok(verdicts);
    }
  }
}
