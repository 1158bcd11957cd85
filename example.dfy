/**
 * `Example`: a complete scenario (event, command, projection and handler definitions plus test
 * cases).  Construction checks every cross-reference; `forTestCases` prunes a scenario down to what
 * a set of test cases uses.
 */
module Example {
  import opened Wrappers
  import opened Strings
  import opened PhpValues
  import opened Fixture
  import NamedList
  import PH = ProjectionHandlers
  import P = Projections
  import CD = CommandDefinitions
  import CHD = CommandHandlerDefinitions
  import ED = EventDefinitions
  import TC = TestCase
  import TCs = TestCases

  datatype Example = Example(
    eventDefinitions: ED.EventDefinitions,
    commandDefinitions: CD.CommandDefinitions,
    projections: P.Projections,
    commandHandlerDefinitions: CHD.CommandHandlerDefinitions,
    testCases: TCs.TestCases)

  /** The first failure a check reports over a list, in list order. */
  function FirstError<T>(xs: seq<T>, check: T -> Option<string>): (r: Option<string>)
    ensures r.None? <==> forall k :: 0 <= k < |xs| ==> check(xs[k]).None?
  {
    if xs == [] then None
    else if check(xs[0]).Some? then check(xs[0])
    else FirstError(xs[1..], check)
  }

  /** A reported failure is the report of the first element that fails. */
  lemma {:induction false} FirstErrorIsFirst<T>(xs: seq<T>, check: T -> Option<string>) returns (k: nat)
    requires FirstError(xs, check).Some?
    ensures k < |xs| && check(xs[k]) == FirstError(xs, check)
    ensures forall j :: 0 <= j < k ==> check(xs[j]).None?
  {
    if check(xs[0]).Some? {
      k := 0;
    } else {
      var rest := FirstErrorIsFirst(xs[1..], check);
      k := rest + 1;
      assert forall j :: 0 < j < k ==> xs[j] == xs[1..][j - 1];
    }
  }

  /** `validatePayload`: returns before checking anything. */
  function ValidatePayload(properties: map<string, PhpValue>, errorSuffix: string): Option<string> {
    None
  }

  function QuotedName(s: string): string {
    "\"" + s + "\""
  }

  /** What `validateProjections` demands of one projection. */
  ghost predicate ProjectionPasses(eventDefinitions: ED.EventDefinitions, p: P.Projection) {
    && (forall t :: t in PH.EventTypes(p.handlers) ==> ED.Exists(eventDefinitions, t))
    && IsList(p.tagFilters)
    && (forall k :: 0 <= k < |p.tagFilters| ==> p.tagFilters[k].value.Str?)
  }

  /** The checks `validateProjections` makes for one projection, in order. */
  function ProjectionError(eventDefinitions: ED.EventDefinitions, p: P.Projection): (r: Option<string>) {
    var unknown := FirstError(PH.EventTypes(p.handlers), (t: string) =>
      if ED.Exists(eventDefinitions, t) then None
      else Some("Unknown event type " + QuotedName(t) + " in projection " + QuotedName(p.name)));
    if unknown.Some? then unknown
    else if !IsList(p.tagFilters) then Some("tagFilters no list in projection " + QuotedName(p.name))
    else FirstError(p.tagFilters, (f: ArrayEntry) =>
      if f.value.Str? then None
      else Some("invalid tagFilter value of type " + GetType(f.value) + " in projection " + QuotedName(p.name)))
  }

  /** A projection passes its checks exactly when no failure is reported. */
  lemma ProjectionErrorNone(eventDefinitions: ED.EventDefinitions, p: P.Projection)
    ensures ProjectionError(eventDefinitions, p).None? <==> ProjectionPasses(eventDefinitions, p)
  {
  }

  /** What `validateCommandHandlers` demands of one handler. */
  ghost predicate HandlerPasses(
    commandDefinitions: CD.CommandDefinitions,
    projections: P.Projections,
    eventDefinitions: ED.EventDefinitions,
    h: CHD.CommandHandlerDefinition)
  {
    && CD.Exists(commandDefinitions, h.commandName)
    && (forall k :: 0 <= k < |h.decisionModels| ==> P.Exists(projections, h.decisionModels[k].name))
    && ED.Exists(eventDefinitions, h.successEvent.eventType)
  }

  /** The checks `validateCommandHandlers` makes for one handler, in order. */
  function CommandHandlerError(
    commandDefinitions: CD.CommandDefinitions,
    projections: P.Projections,
    eventDefinitions: ED.EventDefinitions,
    h: CHD.CommandHandlerDefinition): (r: Option<string>)
  {
    var c := h.commandName;
    if !CD.Exists(commandDefinitions, c) then Some("Handler for unknown command " + QuotedName(c))
    else
      var unknown := FirstError(h.decisionModels, (dm: CHD.DecisionModel) =>
        if P.Exists(projections, dm.name) then None
        else Some("Unknown projection reference " + QuotedName(dm.name) + " in decision model of command handler " + QuotedName(c)));
      if unknown.Some? then unknown
      else if !ED.Exists(eventDefinitions, h.successEvent.eventType) then
        Some("Unknown event type " + QuotedName(h.successEvent.eventType) + " in success event of command handler " + QuotedName(c))
      else ValidatePayload(h.successEvent.data, " in command handler " + QuotedName(c))
  }

  /** A handler passes its checks exactly when no failure is reported. */
  lemma HandlerErrorNone(
    commandDefinitions: CD.CommandDefinitions,
    projections: P.Projections,
    eventDefinitions: ED.EventDefinitions,
    h: CHD.CommandHandlerDefinition)
    ensures CommandHandlerError(commandDefinitions, projections, eventDefinitions, h).None?
      <==> HandlerPasses(commandDefinitions, projections, eventDefinitions, h)
  {
  }

  function UnknownGivenEventMessage(eventType: string, index: nat, description: string): string {
    "Unknown event " + QuotedName(eventType) + " in given.events #" + NatToString(index) + " of test case " + QuotedName(description)
  }

  /** The given events of one test case from position `from` on: the first unknown type is reported. */
  function GivenEventsError(eventDefinitions: ED.EventDefinitions, description: string, events: seq<Event>, from: nat): (r: Option<string>)
    decreases |events| - from
  {
    if from >= |events| then None
    else if !ED.Exists(eventDefinitions, events[from].eventType) then
      Some(UnknownGivenEventMessage(events[from].eventType, from, description))
    else
      var payload := ValidatePayload(events[from].data,
        " in given.events #" + NatToString(from) + " (type " + QuotedName(events[from].eventType) + ") of test case " + QuotedName(description));
      if payload.Some? then payload else GivenEventsError(eventDefinitions, description, events, from + 1)
  }

  /** The given events from `from` on pass exactly when every event type there is defined. */
  lemma {:induction false} GivenEventsErrorNone(eventDefinitions: ED.EventDefinitions, description: string, events: seq<Event>, from: nat)
    ensures GivenEventsError(eventDefinitions, description, events, from).None?
      <==> forall k :: from <= k < |events| ==> ED.Exists(eventDefinitions, events[k].eventType)
    decreases |events| - from
  {
    if from >= |events| {
    } else if !ED.Exists(eventDefinitions, events[from].eventType) {
      assert GivenEventsError(eventDefinitions, description, events, from).Some?;
    } else {
      assert GivenEventsError(eventDefinitions, description, events, from)
        == GivenEventsError(eventDefinitions, description, events, from + 1);
      GivenEventsErrorNone(eventDefinitions, description, events, from + 1);
    }
  }

  /** The report names the first unknown event type at or after `from`, with its position. */
  lemma {:induction false} GivenEventsErrorReportsFirst(eventDefinitions: ED.EventDefinitions, description: string, events: seq<Event>, from: nat)
    returns (k: nat)
    requires GivenEventsError(eventDefinitions, description, events, from).Some?
    ensures from <= k < |events| && !ED.Exists(eventDefinitions, events[k].eventType)
    ensures forall j :: from <= j < k ==> ED.Exists(eventDefinitions, events[j].eventType)
    ensures GivenEventsError(eventDefinitions, description, events, from)
      == Some(UnknownGivenEventMessage(events[k].eventType, k, description))
    decreases |events| - from
  {
    if !ED.Exists(eventDefinitions, events[from].eventType) {
      k := from;
    } else {
      k := GivenEventsErrorReportsFirst(eventDefinitions, description, events, from + 1);
    }
  }

  /** What `validateTestCases` demands of one test case. */
  ghost predicate TestCasePasses(eventDefinitions: ED.EventDefinitions, commandDefinitions: CD.CommandDefinitions, tc: TC.TestCase) {
    && (tc.givenEvents.Some? ==> forall k :: 0 <= k < |tc.givenEvents.value| ==> ED.Exists(eventDefinitions, tc.givenEvents.value[k].eventType))
    && CD.Exists(commandDefinitions, tc.whenCommand.commandType)
  }

  /** The checks `validateTestCases` makes for one test case: the given events, then the command. */
  function TestCaseError(eventDefinitions: ED.EventDefinitions, commandDefinitions: CD.CommandDefinitions, tc: TC.TestCase): (r: Option<string>) {
    var given := if tc.givenEvents.Some? then GivenEventsError(eventDefinitions, tc.description, tc.givenEvents.value, 0) else None;
    if given.Some? then given
    else if !CD.Exists(commandDefinitions, tc.whenCommand.commandType) then
      Some("Unknown when.command " + QuotedName(tc.whenCommand.commandType) + " in test case " + QuotedName(tc.description))
    else ValidatePayload(tc.whenCommand.data, " in when.command " + QuotedName(tc.whenCommand.commandType) + " of test case " + QuotedName(tc.description))
  }

  /** A test case passes its checks exactly when no failure is reported. */
  lemma TestCaseErrorNone(eventDefinitions: ED.EventDefinitions, commandDefinitions: CD.CommandDefinitions, tc: TC.TestCase)
    ensures TestCaseError(eventDefinitions, commandDefinitions, tc).None? <==> TestCasePasses(eventDefinitions, commandDefinitions, tc)
  {
    if tc.givenEvents.Some? {
      GivenEventsErrorNone(eventDefinitions, tc.description, tc.givenEvents.value, 0);
    }
  }

  ghost predicate ProjectionsValid(eventDefinitions: ED.EventDefinitions, projections: P.Projections) {
    forall k :: 0 <= k < |projections.items| ==> ProjectionPasses(eventDefinitions, projections.items[k])
  }

  ghost predicate HandlersValid(
    commandDefinitions: CD.CommandDefinitions,
    projections: P.Projections,
    eventDefinitions: ED.EventDefinitions,
    handlers: CHD.CommandHandlerDefinitions)
  {
    forall k :: 0 <= k < |handlers.items| ==> HandlerPasses(commandDefinitions, projections, eventDefinitions, handlers.items[k])
  }

  ghost predicate TestCasesValid(eventDefinitions: ED.EventDefinitions, commandDefinitions: CD.CommandDefinitions, testCases: TCs.TestCases) {
    forall k :: 0 <= k < |testCases.items| ==> TestCasePasses(eventDefinitions, commandDefinitions, testCases.items[k])
  }

  /** The constructor's three validation passes, in order; `None` when all pass. */
  function Validate(ex: Example): (r: Option<string>)
    ensures r.None? <==>
      && ProjectionsValid(ex.eventDefinitions, ex.projections)
      && HandlersValid(ex.commandDefinitions, ex.projections, ex.eventDefinitions, ex.commandHandlerDefinitions)
      && TestCasesValid(ex.eventDefinitions, ex.commandDefinitions, ex.testCases)
  {
    var projections := FirstError(ex.projections.items, (p: P.Projection) => ProjectionError(ex.eventDefinitions, p));
    assert projections.None? <==> ProjectionsValid(ex.eventDefinitions, ex.projections) by {
      forall p | p in ex.projections.items ensures ProjectionError(ex.eventDefinitions, p).None? <==> ProjectionPasses(ex.eventDefinitions, p) {
        ProjectionErrorNone(ex.eventDefinitions, p);
      }
    }
    if projections.Some? then projections
    else
      var handlers := FirstError(ex.commandHandlerDefinitions.items, (h: CHD.CommandHandlerDefinition) =>
        CommandHandlerError(ex.commandDefinitions, ex.projections, ex.eventDefinitions, h));
      assert handlers.None? <==> HandlersValid(ex.commandDefinitions, ex.projections, ex.eventDefinitions, ex.commandHandlerDefinitions) by {
        forall h | h in ex.commandHandlerDefinitions.items
          ensures CommandHandlerError(ex.commandDefinitions, ex.projections, ex.eventDefinitions, h).None?
            <==> HandlerPasses(ex.commandDefinitions, ex.projections, ex.eventDefinitions, h)
        {
          HandlerErrorNone(ex.commandDefinitions, ex.projections, ex.eventDefinitions, h);
        }
      }
      if handlers.Some? then handlers
      else
        var testCases := FirstError(ex.testCases.items, (tc: TC.TestCase) => TestCaseError(ex.eventDefinitions, ex.commandDefinitions, tc));
        assert testCases.None? <==> TestCasesValid(ex.eventDefinitions, ex.commandDefinitions, ex.testCases) by {
          forall tc | tc in ex.testCases.items
            ensures TestCaseError(ex.eventDefinitions, ex.commandDefinitions, tc).None? <==> TestCasePasses(ex.eventDefinitions, ex.commandDefinitions, tc)
          {
            TestCaseErrorNone(ex.eventDefinitions, ex.commandDefinitions, tc);
          }
        }
        testCases
  }

  ghost predicate Valid(ex: Example) {
    Validate(ex).None?
  }

  /** `new Example(…)`: the scenario, or the first validation failure. */
  function New(
    eventDefinitions: ED.EventDefinitions,
    commandDefinitions: CD.CommandDefinitions,
    projections: P.Projections,
    commandHandlerDefinitions: CHD.CommandHandlerDefinitions,
    testCases: TCs.TestCases): (r: Result<Example, string>)
    ensures r.Ok? <==> Valid(Example(eventDefinitions, commandDefinitions, projections, commandHandlerDefinitions, testCases))
    ensures r.Ok? ==> r.value == Example(eventDefinitions, commandDefinitions, projections, commandHandlerDefinitions, testCases)
    ensures r.Err? ==> Validate(Example(eventDefinitions, commandDefinitions, projections, commandHandlerDefinitions, testCases)) == Some(r.error)
  {
    var ex := Example(eventDefinitions, commandDefinitions, projections, commandHandlerDefinitions, testCases);
    var failure := Validate(ex);
    if failure.Some? then Err(failure.value) else Ok(ex)
  }

  /** Payloads never decide whether a test case validates: only event and command types do. */
  lemma TestCaseErrorIgnoresPayloads(ex: Example, tc: TC.TestCase, other: TC.TestCase)
    requires other.whenCommand.commandType == tc.whenCommand.commandType
    requires other.givenEvents.Some? == tc.givenEvents.Some?
    requires tc.givenEvents.Some? ==> |other.givenEvents.value| == |tc.givenEvents.value|
    requires tc.givenEvents.Some? ==>
      forall k :: 0 <= k < |tc.givenEvents.value| ==> other.givenEvents.value[k].eventType == tc.givenEvents.value[k].eventType
    ensures TestCaseError(ex.eventDefinitions, ex.commandDefinitions, other).None?
      <==> TestCaseError(ex.eventDefinitions, ex.commandDefinitions, tc).None?
  {
    TestCaseErrorNone(ex.eventDefinitions, ex.commandDefinitions, tc);
    TestCaseErrorNone(ex.eventDefinitions, ex.commandDefinitions, other);
  }

  /** `withProjection`: only the projections change, and a projection that passes its own checks keeps a valid scenario valid. */
  function WithProjection(ex: Example, p: P.Projection): (r: Result<Example, string>)
    ensures r.Ok? ==> r.value == ex.(projections := P.With(ex.projections, p))
    ensures Valid(ex) && ProjectionError(ex.eventDefinitions, p).None? ==> r.Ok?
  {
    var ps := P.With(ex.projections, p);
    assert Valid(ex) && ProjectionError(ex.eventDefinitions, p).None? ==> Valid(ex.(projections := ps)) by {
      if Valid(ex) && ProjectionError(ex.eventDefinitions, p).None? {
        ProjectionErrorNone(ex.eventDefinitions, p);
        AddedProjectionKeepsValid(ex, p);
      }
    }
    New(ex.eventDefinitions, ex.commandDefinitions, ps, ex.commandHandlerDefinitions, ex.testCases)
  }

  /** A scenario is valid exactly when its three passes each accept. */
  lemma ValidParts(ex: Example)
    ensures Valid(ex) <==>
      && ProjectionsValid(ex.eventDefinitions, ex.projections)
      && HandlersValid(ex.commandDefinitions, ex.projections, ex.eventDefinitions, ex.commandHandlerDefinitions)
      && TestCasesValid(ex.eventDefinitions, ex.commandDefinitions, ex.testCases)
  {
  }

  lemma AddedProjectionKeepsValid(ex: Example, p: P.Projection)
    requires Valid(ex) && ProjectionPasses(ex.eventDefinitions, p)
    ensures Valid(ex.(projections := P.With(ex.projections, p)))
  {
    var ps := P.With(ex.projections, p);
    ValidParts(ex);
    AddedProjectionsValid(ex.eventDefinitions, ex.projections, p);
    HandlersSeeMoreProjections(ex.commandDefinitions, ex.projections, ps, ex.eventDefinitions, ex.commandHandlerDefinitions);
    ValidParts(ex.(projections := ps));
  }

  /** Every element of `ys` is `x` or an element of `xs`: a property of `x` and of all of `xs` holds for all of `ys`. */
  lemma AllKept<T>(xs: seq<T>, ys: seq<T>, x: T, ok: T -> bool)
    requires forall y :: y in ys ==> y == x || y in xs
    requires forall k :: 0 <= k < |xs| ==> ok(xs[k])
    requires ok(x)
    ensures forall k :: 0 <= k < |ys| ==> ok(ys[k])
  {
    forall k | 0 <= k < |ys| ensures ok(ys[k]) {
      if ys[k] != x {
        assert ys[k] in ys;
        var j :| 0 <= j < |xs| && xs[j] == ys[k];
      }
    }
  }

  ghost function ProjectionOk(eventDefinitions: ED.EventDefinitions): P.Projection -> bool {
    p => ProjectionPasses(eventDefinitions, p)
  }

  ghost function HandlerOk(commandDefinitions: CD.CommandDefinitions, projections: P.Projections, eventDefinitions: ED.EventDefinitions): CHD.CommandHandlerDefinition -> bool {
    h => HandlerPasses(commandDefinitions, projections, eventDefinitions, h)
  }

  /** Adding a projection that passes its own checks keeps every projection valid. */
  lemma AddedProjectionsValid(eventDefinitions: ED.EventDefinitions, projections: P.Projections, p: P.Projection)
    requires ProjectionsValid(eventDefinitions, projections) && ProjectionPasses(eventDefinitions, p)
    ensures ProjectionsValid(eventDefinitions, P.With(projections, p))
  {
    var ok := ProjectionOk(eventDefinitions);
    assert forall k :: 0 <= k < |projections.items| ==> ok(projections.items[k]);
    AllKept(projections.items, P.With(projections, p).items, p, ok);
  }

  /** Handlers stay valid when projections are only added. */
  lemma HandlersSeeMoreProjections(
    commandDefinitions: CD.CommandDefinitions,
    projections: P.Projections,
    more: P.Projections,
    eventDefinitions: ED.EventDefinitions,
    handlers: CHD.CommandHandlerDefinitions)
    requires HandlersValid(commandDefinitions, projections, eventDefinitions, handlers)
    requires forall name :: name in P.Names(projections) ==> name in P.Names(more)
    ensures HandlersValid(commandDefinitions, more, eventDefinitions, handlers)
  {
    forall k | 0 <= k < |handlers.items| ensures HandlerPasses(commandDefinitions, more, eventDefinitions, handlers.items[k]) {
      assert HandlerPasses(commandDefinitions, projections, eventDefinitions, handlers.items[k]);
    }
  }

  /** Handlers and test cases stay valid when command definitions are only added. */
  lemma MoreCommandDefinitions(ex: Example, more: CD.CommandDefinitions)
    requires Valid(ex)
    requires forall name :: name in CD.Names(ex.commandDefinitions) ==> name in CD.Names(more)
    ensures HandlersValid(more, ex.projections, ex.eventDefinitions, ex.commandHandlerDefinitions)
    ensures TestCasesValid(ex.eventDefinitions, more, ex.testCases)
  {
    forall k | 0 <= k < |ex.commandHandlerDefinitions.items|
      ensures HandlerPasses(more, ex.projections, ex.eventDefinitions, ex.commandHandlerDefinitions.items[k])
    {
      assert HandlerPasses(ex.commandDefinitions, ex.projections, ex.eventDefinitions, ex.commandHandlerDefinitions.items[k]);
    }
    forall k | 0 <= k < |ex.testCases.items| ensures TestCasePasses(ex.eventDefinitions, more, ex.testCases.items[k]) {
      assert TestCasePasses(ex.eventDefinitions, ex.commandDefinitions, ex.testCases.items[k]);
    }
  }

  /** `withCommandDefinition`: only the command definitions change, and a valid scenario stays valid. */
  function WithCommandDefinition(ex: Example, d: CD.CommandDefinition): (r: Result<Example, string>)
    ensures r.Ok? ==> r.value == ex.(commandDefinitions := CD.With(ex.commandDefinitions, d))
    ensures Valid(ex) ==> r.Ok?
  {
    var cd := CD.With(ex.commandDefinitions, d);
    assert Valid(ex) ==> Valid(ex.(commandDefinitions := cd)) by {
      if Valid(ex) {
        MoreCommandDefinitions(ex, cd);
      }
    }
    New(ex.eventDefinitions, cd, ex.projections, ex.commandHandlerDefinitions, ex.testCases)
  }

  /** `withCommandHandlerDefinition`: only the handlers change, and a handler that passes its own checks keeps a valid scenario valid. */
  function WithCommandHandlerDefinition(ex: Example, h: CHD.CommandHandlerDefinition): (r: Result<Example, string>)
    ensures r.Ok? ==> r.value == ex.(commandHandlerDefinitions := CHD.With(ex.commandHandlerDefinitions, h))
    ensures Valid(ex) && CommandHandlerError(ex.commandDefinitions, ex.projections, ex.eventDefinitions, h).None? ==> r.Ok?
  {
    var hs := CHD.With(ex.commandHandlerDefinitions, h);
    assert Valid(ex) && CommandHandlerError(ex.commandDefinitions, ex.projections, ex.eventDefinitions, h).None? ==>
      Valid(ex.(commandHandlerDefinitions := hs)) by {
      if Valid(ex) && CommandHandlerError(ex.commandDefinitions, ex.projections, ex.eventDefinitions, h).None? {
        HandlerErrorNone(ex.commandDefinitions, ex.projections, ex.eventDefinitions, h);
        AddedHandlerKeepsValid(ex, h);
      }
    }
    New(ex.eventDefinitions, ex.commandDefinitions, ex.projections, hs, ex.testCases)
  }

  lemma AddedHandlerKeepsValid(ex: Example, h: CHD.CommandHandlerDefinition)
    requires Valid(ex) && HandlerPasses(ex.commandDefinitions, ex.projections, ex.eventDefinitions, h)
    ensures Valid(ex.(commandHandlerDefinitions := CHD.With(ex.commandHandlerDefinitions, h)))
  {
    var hs := CHD.With(ex.commandHandlerDefinitions, h);
    ValidParts(ex);
    AddedHandlersValid(ex.commandDefinitions, ex.projections, ex.eventDefinitions, ex.commandHandlerDefinitions, h);
    ValidParts(ex.(commandHandlerDefinitions := hs));
  }

  /** Adding a handler that passes its own checks keeps every handler valid. */
  lemma AddedHandlersValid(
    commandDefinitions: CD.CommandDefinitions,
    projections: P.Projections,
    eventDefinitions: ED.EventDefinitions,
    handlers: CHD.CommandHandlerDefinitions,
    h: CHD.CommandHandlerDefinition)
    requires HandlersValid(commandDefinitions, projections, eventDefinitions, handlers)
    requires HandlerPasses(commandDefinitions, projections, eventDefinitions, h)
    ensures HandlersValid(commandDefinitions, projections, eventDefinitions, CHD.With(handlers, h))
  {
    var ok := HandlerOk(commandDefinitions, projections, eventDefinitions);
    assert forall k :: 0 <= k < |handlers.items| ==> ok(handlers.items[k]);
    AllKept(handlers.items, CHD.With(handlers, h).items, h, ok);
  }

  // forTestCases

  /** The keys of the three `$used…` dictionaries, in insertion order. */
  datatype Used = Used(commandNames: seq<string>, eventTypes: seq<string>, projections: seq<string>)

  /** `$used[$key] = true`: the key list gains `key` unless it is already there. */
  function Add(keys: seq<string>, key: string): (r: seq<string>)
    ensures forall x :: x in r <==> x in keys || x == key
  {
    if key in keys then keys else keys + [key]
  }

  /** `Add` for each key in turn. */
  function AddAll(keys: seq<string>, ks: seq<string>): (r: seq<string>)
    ensures forall x :: x in r <==> x in keys || x in ks
  {
    if ks == [] then keys
    else
      assert ks == ks[..|ks| - 1] + [ks[|ks| - 1]];
      Add(AddAll(keys, ks[..|ks| - 1]), ks[|ks| - 1])
  }

  /** A `foreach` that sets `$used[$key] = true` for every key. */
  method AddEach(keys: seq<string>, ks: seq<string>) returns (r: seq<string>)
    ensures r == AddAll(keys, ks)
  {
    r := keys;
    var i := 0;
    while i < |ks|
      invariant 0 <= i <= |ks|
      invariant r == AddAll(keys, ks[..i])
    {
      assert ks[..i + 1][..i] == ks[..i];
      r := Add(r, ks[i]);
      i := i + 1;
    }
    assert ks[..i] == ks;
  }

  function EventTypesOf(events: seq<Event>): (r: seq<string>)
    ensures |r| == |events|
    ensures forall k :: 0 <= k < |r| ==> r[k] == events[k].eventType
  {
    seq(|events|, k requires 0 <= k < |events| => events[k].eventType)
  }

  function ModelNames(dms: seq<CHD.DecisionModel>): (r: seq<string>)
    ensures |r| == |dms|
    ensures forall k :: 0 <= k < |r| ==> r[k] == dms[k].name
  {
    seq(|dms|, k requires 0 <= k < |dms| => dms[k].name)
  }

  /** The handler event types of the projections the decision models name, in order. */
  function ModelEventTypes(projections: P.Projections, dms: seq<CHD.DecisionModel>): seq<string> {
    if dms == [] then []
    else
      var p := P.Get(projections, dms[|dms| - 1].name);
      ModelEventTypes(projections, dms[..|dms| - 1]) + (if p.Ok? then PH.EventTypes(p.value.handlers) else [])
  }

  /**
   * The inner loop over a handler's decision models: each one marks its projection used, which
   * must exist, and adds that projection's handler event types.
   */
  function AddModels(projections: P.Projections, used: Used, dms: seq<CHD.DecisionModel>): (r: Result<Used, string>)
  {
    if dms == [] then Ok(used)
    else
      var prev := AddModels(projections, used, dms[..|dms| - 1]);
      if prev.Err? then prev
      else
        var p := P.Get(projections, dms[|dms| - 1].name);
        if p.Err? then Err(p.error)
        else
          Ok(prev.value.(projections := Add(prev.value.projections, dms[|dms| - 1].name),
                         eventTypes := AddAll(prev.value.eventTypes, PH.EventTypes(p.value.handlers))))
  }

  /**
   * The inner loop succeeds exactly when every decision model names a known projection, and then it
   * has added each model's name and its projection's handler event types, and nothing else.
   */
  lemma {:induction false} AddModelsContents(projections: P.Projections, used: Used, dms: seq<CHD.DecisionModel>)
    ensures AddModels(projections, used, dms).Ok? <==> forall k :: 0 <= k < |dms| ==> P.Exists(projections, dms[k].name)
    ensures AddModels(projections, used, dms).Ok? ==> AddModels(projections, used, dms).value.commandNames == used.commandNames
    ensures AddModels(projections, used, dms).Ok? ==> forall n :: n in AddModels(projections, used, dms).value.projections <==> n in used.projections || n in ModelNames(dms)
    ensures AddModels(projections, used, dms).Ok? ==> forall t :: t in AddModels(projections, used, dms).value.eventTypes <==> t in used.eventTypes || t in ModelEventTypes(projections, dms)
    decreases |dms|
  {
    if dms != [] {
      var prefix := dms[..|dms| - 1];
      AddModelsContents(projections, used, prefix);
      var prev := AddModels(projections, used, prefix);
      if prev.Ok? {
        AddModelsLast(projections, used, dms, prefix, prev.value);
      }
    }
  }

  /** The last step of `AddModelsContents`, given what holds for all but the last decision model. */
  lemma AddModelsLast(projections: P.Projections, used: Used, dms: seq<CHD.DecisionModel>, prefix: seq<CHD.DecisionModel>, prev: Used)
    requires dms != [] && prefix == dms[..|dms| - 1] && AddModels(projections, used, prefix) == Ok(prev)
    requires forall k :: 0 <= k < |prefix| ==> P.Exists(projections, prefix[k].name)
    requires prev.commandNames == used.commandNames
    requires forall n :: n in prev.projections <==> n in used.projections || n in ModelNames(prefix)
    requires forall t :: t in prev.eventTypes <==> t in used.eventTypes || t in ModelEventTypes(projections, prefix)
    ensures AddModels(projections, used, dms).Ok? <==> forall k :: 0 <= k < |dms| ==> P.Exists(projections, dms[k].name)
    ensures AddModels(projections, used, dms).Ok? ==> AddModels(projections, used, dms).value.commandNames == used.commandNames
    ensures AddModels(projections, used, dms).Ok? ==> forall n :: n in AddModels(projections, used, dms).value.projections <==> n in used.projections || n in ModelNames(dms)
    ensures AddModels(projections, used, dms).Ok? ==> forall t :: t in AddModels(projections, used, dms).value.eventTypes <==> t in used.eventTypes || t in ModelEventTypes(projections, dms)
  {
    ModelNamesSnoc(dms);
    assert forall k :: 0 <= k < |prefix| ==> prefix[k] == dms[k];
  }

  lemma ModelNamesSnoc(dms: seq<CHD.DecisionModel>)
    requires dms != []
    ensures ModelNames(dms) == ModelNames(dms[..|dms| - 1]) + [dms[|dms| - 1].name]
  {
  }

  function HandlerFor(ex: Example, commandName: string): Result<CHD.CommandHandlerDefinition, string> {
    CHD.GetForCommand(ex.commandHandlerDefinitions, commandName)
  }

  function HandlerModelNames(ex: Example, commandName: string): seq<string> {
    var h := HandlerFor(ex, commandName);
    if h.Ok? then ModelNames(h.value.decisionModels) else []
  }

  function HandlerEventTypes(ex: Example, commandName: string): seq<string> {
    var h := HandlerFor(ex, commandName);
    if h.Ok? then ModelEventTypes(ex.projections, h.value.decisionModels) + [h.value.successEvent.eventType] else []
  }

  /** The command has a handler and every decision model of it names a known projection. */
  predicate Resolvable(ex: Example, commandName: string) {
    var h := HandlerFor(ex, commandName);
    h.Ok? && forall k :: 0 <= k < |h.value.decisionModels| ==> P.Exists(ex.projections, h.value.decisionModels[k].name)
  }

  /** The work done the first time a command is seen: its handler's projections and event types. */
  function AddHandler(ex: Example, used: Used, commandName: string): (r: Result<Used, string>)
    ensures r.Ok? <==> Resolvable(ex, commandName)
    ensures r.Ok? ==> r.value.commandNames == used.commandNames
    ensures r.Ok? ==> forall n :: n in r.value.projections <==> n in used.projections || n in HandlerModelNames(ex, commandName)
    ensures r.Ok? ==> forall t :: t in r.value.eventTypes <==> t in used.eventTypes || t in HandlerEventTypes(ex, commandName)
  {
    var h := HandlerFor(ex, commandName);
    if h.Err? then Err(h.error)
    else
      var m := AddModels(ex.projections, used, h.value.decisionModels);
      AddModelsContents(ex.projections, used, h.value.decisionModels);
      if m.Err? then m else Ok(m.value.(eventTypes := Add(m.value.eventTypes, h.value.successEvent.eventType)))
  }

  function GivenTypes(tc: TC.TestCase): seq<string> {
    if tc.givenEvents.Some? then EventTypesOf(tc.givenEvents.value) else []
  }

  function ExpectedTypes(tc: TC.TestCase): seq<string> {
    if tc.thenExpectedEvent.Some? then [tc.thenExpectedEvent.value.eventType] else []
  }

  /** Everything one test case contributes to the used event types. */
  function CaseEventTypes(ex: Example, tc: TC.TestCase): seq<string> {
    HandlerEventTypes(ex, tc.whenCommand.commandType) + GivenTypes(tc) + ExpectedTypes(tc)
  }

  /** One pass of the outer loop of `forTestCases`. */
  function AddCase(ex: Example, used: Used, tc: TC.TestCase): (r: Result<Used, string>)
    ensures r.Ok? <==> tc.whenCommand.commandType in used.commandNames || Resolvable(ex, tc.whenCommand.commandType)
  {
    var c := tc.whenCommand.commandType;
    var handled := if c in used.commandNames then Ok(used) else AddHandler(ex, used, c);
    if handled.Err? then handled
    else
      var u := handled.value.(commandNames := Add(handled.value.commandNames, c));
      var u := if tc.givenEvents.Some? then u.(eventTypes := AddAll(u.eventTypes, EventTypesOf(tc.givenEvents.value))) else u;
      var u := if tc.thenExpectedEvent.Some? then u.(eventTypes := Add(u.eventTypes, tc.thenExpectedEvent.value.eventType)) else u;
      Ok(u)
  }

  /** What one pass adds to each of the three key lists. */
  lemma AddCaseContents(ex: Example, used: Used, tc: TC.TestCase, u: Used)
    requires AddCase(ex, used, tc) == Ok(u)
    ensures forall c :: c in u.commandNames <==> c in used.commandNames || c == tc.whenCommand.commandType
    ensures forall n :: n in u.projections <==> (n in used.projections
      || (tc.whenCommand.commandType !in used.commandNames && n in HandlerModelNames(ex, tc.whenCommand.commandType)))
    ensures forall t :: t in u.eventTypes <==> (t in used.eventTypes
      || (tc.whenCommand.commandType !in used.commandNames && t in HandlerEventTypes(ex, tc.whenCommand.commandType))
      || t in GivenTypes(tc) || t in ExpectedTypes(tc))
  {
  }

  /** One step of the fold, with the prefix's result named. */
  lemma CollectStep(ex: Example, tcs: seq<TC.TestCase>) returns (used: Used, u: Used)
    requires tcs != [] && Collect(ex, tcs).Ok?
    ensures Collect(ex, tcs[..|tcs| - 1]) == Ok(used)
    ensures AddCase(ex, used, tcs[|tcs| - 1]) == Ok(u) && Collect(ex, tcs) == Ok(u)
  {
    used := Collect(ex, tcs[..|tcs| - 1]).value;
    u := Collect(ex, tcs).value;
  }

  ghost predicate UsesCommand(tcs: seq<TC.TestCase>, commandName: string) {
    exists k :: 0 <= k < |tcs| && tcs[k].whenCommand.commandType == commandName
  }

  /** Some element's list contains `s`. */
  ghost predicate SomeHas<X>(xs: seq<X>, f: X -> seq<string>, s: string) {
    exists k :: 0 <= k < |xs| && s in f(xs[k])
  }

  lemma SomeHasSnoc<X>(xs: seq<X>, f: X -> seq<string>)
    requires xs != []
    ensures forall s :: SomeHas(xs, f, s) <==> SomeHas(xs[..|xs| - 1], f, s) || s in f(xs[|xs| - 1])
  {
    var prefix := xs[..|xs| - 1];
    forall s ensures SomeHas(xs, f, s) <==> SomeHas(prefix, f, s) || s in f(xs[|xs| - 1]) {
      if SomeHas(prefix, f, s) {
        var k :| 0 <= k < |prefix| && s in f(prefix[k]);
        assert xs[k] == prefix[k];
      }
      if SomeHas(xs, f, s) {
        var k :| 0 <= k < |xs| && s in f(xs[k]);
        if k < |prefix| {
          assert xs[k] == prefix[k];
        }
      }
    }
  }

  function CaseModelNames(ex: Example): TC.TestCase -> seq<string> {
    (tc: TC.TestCase) => HandlerModelNames(ex, tc.whenCommand.commandType)
  }

  function CaseEventTypesOf(ex: Example): TC.TestCase -> seq<string> {
    (tc: TC.TestCase) => CaseEventTypes(ex, tc)
  }

  /** Some test case's command has a handler whose decision models name the projection. */
  ghost predicate UsesProjection(ex: Example, tcs: seq<TC.TestCase>, name: string) {
    SomeHas(tcs, CaseModelNames(ex), name)
  }

  /** Some test case contributes the event type. */
  ghost predicate UsesEventType(ex: Example, tcs: seq<TC.TestCase>, eventType: string) {
    SomeHas(tcs, CaseEventTypesOf(ex), eventType)
  }

  /** The outer loop of `forTestCases` as a fold over the test cases, failing at the first failure. */
  function Collect(ex: Example, tcs: seq<TC.TestCase>): Result<Used, string> {
    if tcs == [] then Ok(Used([], [], []))
    else
      var prev := Collect(ex, tcs[..|tcs| - 1]);
      if prev.Err? then prev else AddCase(ex, prev.value, tcs[|tcs| - 1])
  }

  /** What `forTestCases` returns: the scenario cut down to the used names, re-validated. */
  function Pruned(ex: Example, testCases: TCs.TestCases): Result<Example, string> {
    var used := Collect(ex, testCases.items);
    if used.Err? then Err(used.error)
    else
      New(
        ED.Only(ex.eventDefinitions, used.value.eventTypes),
        CD.Only(ex.commandDefinitions, used.value.commandNames),
        P.Only(ex.projections, used.value.projections),
        CHD.OnlyForCommands(ex.commandHandlerDefinitions, used.value.commandNames),
        testCases)
  }

  /** Once the fold over a prefix fails, the whole fold fails the same way. */
  lemma {:induction false} CollectStopsAtError(ex: Example, tcs: seq<TC.TestCase>, i: nat)
    requires i <= |tcs| && Collect(ex, tcs[..i]).Err?
    ensures Collect(ex, tcs) == Collect(ex, tcs[..i])
    decreases |tcs|
  {
    if i < |tcs| {
      assert tcs[..|tcs| - 1][..i] == tcs[..i];
      CollectStopsAtError(ex, tcs[..|tcs| - 1], i);
    } else {
      assert tcs[..i] == tcs;
    }
  }

  /** Once the decision-model loop fails on a prefix, it fails the same way on the whole list. */
  lemma {:induction false} AddModelsStopsAtError(projections: P.Projections, used: Used, dms: seq<CHD.DecisionModel>, j: nat)
    requires j <= |dms| && AddModels(projections, used, dms[..j]).Err?
    ensures AddModels(projections, used, dms) == AddModels(projections, used, dms[..j])
    decreases |dms|
  {
    if j < |dms| {
      assert dms[..|dms| - 1][..j] == dms[..j];
      AddModelsStopsAtError(projections, used, dms[..|dms| - 1], j);
    } else {
      assert dms[..j] == dms;
    }
  }

  /** One more decision model after a prefix that succeeded with `inner`. */
  lemma AddModelsNext(projections: P.Projections, used: Used, dms: seq<CHD.DecisionModel>, j: nat, inner: Used)
    requires j < |dms| && AddModels(projections, used, dms[..j]) == Ok(inner)
    ensures P.Get(projections, dms[j].name).Err? ==> AddModels(projections, used, dms) == Err(P.Get(projections, dms[j].name).error)
    ensures P.Get(projections, dms[j].name).Ok? ==>
      AddModels(projections, used, dms[..j + 1]) ==
        Ok(inner.(projections := Add(inner.projections, dms[j].name),
                  eventTypes := AddAll(inner.eventTypes, PH.EventTypes(P.Get(projections, dms[j].name).value.handlers))))
  {
    assert dms[..j + 1][..j] == dms[..j];
    if P.Get(projections, dms[j].name).Err? {
      AddModelsStopsAtError(projections, used, dms, j + 1);
    }
  }

  /** The loop over one handler's decision models. */
  method AddModelsLoop(projections: P.Projections, used: Used, dms: seq<CHD.DecisionModel>) returns (r: Result<Used, string>)
    ensures r == AddModels(projections, used, dms)
  {
    var inner := used;
    var j := 0;
    while j < |dms|
      invariant 0 <= j <= |dms|
      invariant AddModels(projections, used, dms[..j]) == Ok(inner)
    {
      var dm := dms[j];
      AddModelsNext(projections, used, dms, j, inner);
      inner := inner.(projections := Add(inner.projections, dm.name));
      var projection := P.Get(projections, dm.name);
      if projection.Err? {
        return Err(projection.error);
      }
      var eventTypes := AddEach(inner.eventTypes, PH.EventTypes(projection.value.handlers));
      inner := inner.(eventTypes := eventTypes);
      j := j + 1;
    }
    assert dms[..j] == dms;
    r := Ok(inner);
  }

  /** The body of the outer loop for one test case. */
  method AddCaseStep(ex: Example, used: Used, tc: TC.TestCase) returns (r: Result<Used, string>)
    ensures r == AddCase(ex, used, tc)
  {
    var c := tc.whenCommand.commandType;
    var u := used;
    if c !in u.commandNames {
      var handler := CHD.GetForCommand(ex.commandHandlerDefinitions, c);
      if handler.Err? {
        return Err(handler.error);
      }
      var models := AddModelsLoop(ex.projections, u, handler.value.decisionModels);
      if models.Err? {
        return models;
      }
      u := models.value.(eventTypes := Add(models.value.eventTypes, handler.value.successEvent.eventType));
    }
    u := u.(commandNames := Add(u.commandNames, c));
    if tc.givenEvents.Some? {
      var eventTypes := AddEach(u.eventTypes, EventTypesOf(tc.givenEvents.value));
      u := u.(eventTypes := eventTypes);
    }
    if tc.thenExpectedEvent.Some? {
      u := u.(eventTypes := Add(u.eventTypes, tc.thenExpectedEvent.value.eventType));
    }
    r := Ok(u);
  }

  /** `forTestCases($testCases)`. */
  method ForTestCases(ex: Example, testCases: TCs.TestCases) returns (r: Result<Example, string>)
    ensures r == Pruned(ex, testCases)
  {
    var tcs := testCases.items;
    var used := Used([], [], []);
    var i := 0;
    while i < |tcs|
      invariant 0 <= i <= |tcs|
      invariant Collect(ex, tcs[..i]) == Ok(used)
    {
      assert tcs[..i + 1][..i] == tcs[..i];
      var step := AddCaseStep(ex, used, tcs[i]);
      if step.Err? {
        CollectStopsAtError(ex, tcs, i + 1);
        return Err(step.error);
      }
      used := step.value;
      i := i + 1;
    }
    assert tcs[..i] == tcs;
    r := New(
      ED.Only(ex.eventDefinitions, used.eventTypes),
      CD.Only(ex.commandDefinitions, used.commandNames),
      P.Only(ex.projections, used.projections),
      CHD.OnlyForCommands(ex.commandHandlerDefinitions, used.commandNames),
      testCases);
  }

  /** The fold collects exactly the commands of the test cases. */
  lemma {:induction false} CollectCommandNames(ex: Example, tcs: seq<TC.TestCase>)
    requires Collect(ex, tcs).Ok?
    ensures forall c :: c in Collect(ex, tcs).value.commandNames <==> UsesCommand(tcs, c)
  {
    if tcs != [] {
      var prefix := tcs[..|tcs| - 1];
      var last := |tcs| - 1;
      CollectCommandNames(ex, prefix);
      var used, u := CollectStep(ex, tcs);
      AddCaseContents(ex, used, tcs[last], u);
      forall x ensures x in u.commandNames <==> UsesCommand(tcs, x) {
        if x == tcs[last].whenCommand.commandType {
          assert UsesCommand(tcs, x);
        }
        if UsesCommand(prefix, x) {
          var k :| 0 <= k < |prefix| && prefix[k].whenCommand.commandType == x;
          assert tcs[k] == prefix[k];
        }
        if UsesCommand(tcs, x) {
          var k :| 0 <= k < |tcs| && tcs[k].whenCommand.commandType == x;
          if k < last {
            assert prefix[k] == tcs[k];
          }
        }
      }
    }
  }

  /** The fold collects exactly the projections the handlers of the test cases' commands name. */
  lemma {:induction false} CollectProjections(ex: Example, tcs: seq<TC.TestCase>)
    requires Collect(ex, tcs).Ok?
    ensures forall n :: n in Collect(ex, tcs).value.projections <==> UsesProjection(ex, tcs, n)
  {
    if tcs != [] {
      var prefix := tcs[..|tcs| - 1];
      var tc := tcs[|tcs| - 1];
      var c := tc.whenCommand.commandType;
      CollectProjections(ex, prefix);
      CollectCommandNames(ex, prefix);
      var used, u := CollectStep(ex, tcs);
      AddCaseContents(ex, used, tc, u);
      SomeHasSnoc(tcs, CaseModelNames(ex));
      assert CaseModelNames(ex)(tc) == HandlerModelNames(ex, c);
      if c in used.commandNames {
        // A command seen before already contributed its handler's projections.
        var j :| 0 <= j < |prefix| && prefix[j].whenCommand.commandType == c;
        assert CaseModelNames(ex)(prefix[j]) == HandlerModelNames(ex, c);
      }
    }
  }

  /**
   * The fold collects exactly the event types of the used handlers (their projections' handler
   * types and their success events) and of the cases' given and expected events.
   */
  lemma {:induction false} CollectEventTypes(ex: Example, tcs: seq<TC.TestCase>)
    requires Collect(ex, tcs).Ok?
    ensures forall t :: t in Collect(ex, tcs).value.eventTypes <==> UsesEventType(ex, tcs, t)
  {
    if tcs != [] {
      var prefix := tcs[..|tcs| - 1];
      var tc := tcs[|tcs| - 1];
      var c := tc.whenCommand.commandType;
      CollectEventTypes(ex, prefix);
      CollectCommandNames(ex, prefix);
      var used, u := CollectStep(ex, tcs);
      AddCaseContents(ex, used, tc, u);
      SomeHasSnoc(tcs, CaseEventTypesOf(ex));
      assert CaseEventTypesOf(ex)(tc) == CaseEventTypes(ex, tc);
      if c in used.commandNames {
        // A command seen before already contributed its handler's event types.
        var j :| 0 <= j < |prefix| && prefix[j].whenCommand.commandType == c;
        assert forall t :: t in HandlerEventTypes(ex, c) ==> t in CaseEventTypesOf(ex)(prefix[j]);
      }
    }
  }

  function ResolvableCase(ex: Example): TC.TestCase -> bool {
    (tc: TC.TestCase) => Resolvable(ex, tc.whenCommand.commandType)
  }

  /** Every element satisfies `f`. */
  ghost predicate All<X>(xs: seq<X>, f: X -> bool) {
    forall k :: 0 <= k < |xs| ==> f(xs[k])
  }

  lemma AllSnoc<X>(xs: seq<X>, f: X -> bool)
    requires xs != []
    ensures All(xs, f) <==> All(xs[..|xs| - 1], f) && f(xs[|xs| - 1])
  {
    assert forall k :: 0 <= k < |xs| - 1 ==> xs[..|xs| - 1][k] == xs[k];
  }

  /** The fold succeeds iff every test case's command has a handler whose decision models all resolve. */
  lemma {:induction false} CollectSucceedsIff(ex: Example, tcs: seq<TC.TestCase>)
    ensures Collect(ex, tcs).Ok? <==> All(tcs, ResolvableCase(ex))
  {
    if tcs != [] {
      var prefix := tcs[..|tcs| - 1];
      var tc := tcs[|tcs| - 1];
      var c := tc.whenCommand.commandType;
      CollectSucceedsIff(ex, prefix);
      AllSnoc(tcs, ResolvableCase(ex));
      assert ResolvableCase(ex)(tc) == Resolvable(ex, c);
      if Collect(ex, prefix).Ok? {
        var used := Collect(ex, prefix).value;
        assert Collect(ex, tcs) == AddCase(ex, used, tc);
        CollectCommandNames(ex, prefix);
        if c in used.commandNames && All(prefix, ResolvableCase(ex)) {
          var j :| 0 <= j < |prefix| && prefix[j].whenCommand.commandType == c;
          assert ResolvableCase(ex)(prefix[j]);
        }
      }
    }
  }

  /** In a valid scenario, a command with a handler resolves: its decision models name known projections. */
  lemma ValidHandlerResolvable(ex: Example, commandName: string)
    requires HandlersValid(ex.commandDefinitions, ex.projections, ex.eventDefinitions, ex.commandHandlerDefinitions)
    requires CHD.Exists(ex.commandHandlerDefinitions, commandName)
    ensures Resolvable(ex, commandName)
  {
    var i := NamedList.FindIndex(ex.commandHandlerDefinitions.items, CHD.CommandNameOf, commandName);
    assert HandlerPasses(ex.commandDefinitions, ex.projections, ex.eventDefinitions, ex.commandHandlerDefinitions.items[i]);
  }

  /**
   * `forTestCases` keeps the given test cases, the command definitions and handlers of their
   * commands, the projections those handlers' decision models name, and the event definitions of
   * the event types the cases use, and nothing else.
   */
  lemma PrunedKeepsExactlyUsed(ex: Example, testCases: TCs.TestCases)
    requires Pruned(ex, testCases).Ok?
    ensures Pruned(ex, testCases).value.testCases == testCases
    ensures forall d :: (d in Pruned(ex, testCases).value.commandDefinitions.items
      <==> d in ex.commandDefinitions.items && UsesCommand(testCases.items, d.name))
    ensures forall h :: (h in Pruned(ex, testCases).value.commandHandlerDefinitions.items
      <==> h in ex.commandHandlerDefinitions.items && UsesCommand(testCases.items, h.commandName))
    ensures forall p :: (p in Pruned(ex, testCases).value.projections.items
      <==> p in ex.projections.items && UsesProjection(ex, testCases.items, p.name))
    ensures forall d :: (d in Pruned(ex, testCases).value.eventDefinitions.items
      <==> d in ex.eventDefinitions.items && UsesEventType(ex, testCases.items, d.name))
  {
    CollectCommandNames(ex, testCases.items);
    CollectProjections(ex, testCases.items);
    CollectEventTypes(ex, testCases.items);
  }

  /** A projection's handler event types all end up among the decision models' event types. */
  lemma {:induction false} ModelEventTypesContain(projections: P.Projections, dms: seq<CHD.DecisionModel>, i: nat, p: P.Projection)
    requires i < |dms| && P.Get(projections, dms[i].name) == Ok(p)
    ensures forall t :: t in PH.EventTypes(p.handlers) ==> t in ModelEventTypes(projections, dms)
  {
    if i < |dms| - 1 {
      var prefix := dms[..|dms| - 1];
      assert prefix[i] == dms[i];
      ModelEventTypesContain(projections, prefix, i, p);
    }
  }

  /** A projection marked used comes from a decision model of some used handler, whose event types are all used. */
  lemma UsedProjectionSource(ex: Example, tcs: seq<TC.TestCase>, used: Used, name: string)
    returns (c: string, h: CHD.CommandHandlerDefinition, i: nat)
    requires Collect(ex, tcs) == Ok(used) && name in used.projections
    ensures HandlerFor(ex, c) == Ok(h) && i < |h.decisionModels| && h.decisionModels[i].name == name
    ensures forall t :: t in HandlerEventTypes(ex, c) ==> t in used.eventTypes
  {
    CollectProjections(ex, tcs);
    CollectEventTypes(ex, tcs);
    var m :| 0 <= m < |tcs| && name in CaseModelNames(ex)(tcs[m]);
    c := tcs[m].whenCommand.commandType;
    h := HandlerFor(ex, c).value;
    i :| 0 <= i < |h.decisionModels| && ModelNames(h.decisionModels)[i] == name;
    forall t | t in HandlerEventTypes(ex, c) ensures t in used.eventTypes {
      assert t in CaseEventTypesOf(ex)(tcs[m]);
    }
  }

  /** A kept projection passes its checks against the kept event definitions. */
  lemma PrunedProjectionValid(ex: Example, tcs: seq<TC.TestCase>, used: Used, q: P.Projection)
    requires Collect(ex, tcs) == Ok(used)
    requires ProjectionPasses(ex.eventDefinitions, q)
    requires P.Get(ex.projections, q.name) == Ok(q) && q.name in used.projections
    ensures ProjectionPasses(ED.Only(ex.eventDefinitions, used.eventTypes), q)
  {
    var c, h, i := UsedProjectionSource(ex, tcs, used, q.name);
    ModelEventTypesContain(ex.projections, h.decisionModels, i, q);
    forall t | t in PH.EventTypes(q.handlers) ensures ED.Exists(ED.Only(ex.eventDefinitions, used.eventTypes), t) {
      assert t in HandlerEventTypes(ex, c);
      ED.OnlyKeepsListed(ex.eventDefinitions, used.eventTypes, t);
    }
  }

  /** A command marked used is the command of some test case, and its handler's event types are all used. */
  lemma UsedCommandSource(ex: Example, tcs: seq<TC.TestCase>, used: Used, c: string)
    requires Collect(ex, tcs) == Ok(used) && c in used.commandNames
    ensures forall n :: n in HandlerModelNames(ex, c) ==> n in used.projections
    ensures forall t :: t in HandlerEventTypes(ex, c) ==> t in used.eventTypes
  {
    CollectCommandNames(ex, tcs);
    CollectProjections(ex, tcs);
    CollectEventTypes(ex, tcs);
    var m :| 0 <= m < |tcs| && tcs[m].whenCommand.commandType == c;
    forall n | n in HandlerModelNames(ex, c) ensures n in used.projections {
      assert n in CaseModelNames(ex)(tcs[m]);
    }
    forall t | t in HandlerEventTypes(ex, c) ensures t in used.eventTypes {
      assert t in CaseEventTypesOf(ex)(tcs[m]);
    }
  }

  /** A kept handler passes its checks against the kept commands, projections and event definitions. */
  lemma PrunedHandlerValid(ex: Example, tcs: seq<TC.TestCase>, used: Used, h: CHD.CommandHandlerDefinition)
    requires Collect(ex, tcs) == Ok(used)
    requires HandlerPasses(ex.commandDefinitions, ex.projections, ex.eventDefinitions, h)
    requires HandlerFor(ex, h.commandName) == Ok(h) && h.commandName in used.commandNames
    ensures HandlerPasses(
      CD.Only(ex.commandDefinitions, used.commandNames),
      P.Only(ex.projections, used.projections),
      ED.Only(ex.eventDefinitions, used.eventTypes), h)
  {
    UsedCommandSource(ex, tcs, used, h.commandName);
    CD.OnlyKeepsListed(ex.commandDefinitions, used.commandNames, h.commandName);
    forall k | 0 <= k < |h.decisionModels| ensures P.Exists(P.Only(ex.projections, used.projections), h.decisionModels[k].name) {
      assert h.decisionModels[k].name in HandlerModelNames(ex, h.commandName);
      P.OnlyKeepsListed(ex.projections, used.projections, h.decisionModels[k].name);
    }
    assert h.successEvent.eventType in HandlerEventTypes(ex, h.commandName);
    ED.OnlyKeepsListed(ex.eventDefinitions, used.eventTypes, h.successEvent.eventType);
  }

  /** A test case that validates against the full scenario validates against the pruned one. */
  lemma PrunedTestCaseValid(ex: Example, tcs: seq<TC.TestCase>, used: Used, tc: TC.TestCase)
    requires Collect(ex, tcs) == Ok(used)
    requires tc in tcs && TestCasePasses(ex.eventDefinitions, ex.commandDefinitions, tc)
    ensures TestCasePasses(ED.Only(ex.eventDefinitions, used.eventTypes), CD.Only(ex.commandDefinitions, used.commandNames), tc)
  {
    CollectCommandNames(ex, tcs);
    CollectEventTypes(ex, tcs);
    var m :| 0 <= m < |tcs| && tcs[m] == tc;
    assert UsesCommand(tcs, tc.whenCommand.commandType);
    CD.OnlyKeepsListed(ex.commandDefinitions, used.commandNames, tc.whenCommand.commandType);
    if tc.givenEvents.Some? {
      var events := tc.givenEvents.value;
      forall k | 0 <= k < |events| ensures ED.Exists(ED.Only(ex.eventDefinitions, used.eventTypes), events[k].eventType) {
        assert events[k].eventType in CaseEventTypesOf(ex)(tcs[m]);
        ED.OnlyKeepsListed(ex.eventDefinitions, used.eventTypes, events[k].eventType);
      }
    }
  }

  /** Every kept projection validates against the kept event definitions. */
  lemma PrunedProjectionsValid(ex: Example, tcs: seq<TC.TestCase>, used: Used)
    requires ProjectionsValid(ex.eventDefinitions, ex.projections) && NamedList.Distinct(ex.projections.items, P.NameOf)
    requires Collect(ex, tcs) == Ok(used)
    ensures ProjectionsValid(ED.Only(ex.eventDefinitions, used.eventTypes), P.Only(ex.projections, used.projections))
  {
    var ps := P.Only(ex.projections, used.projections);
    forall k | 0 <= k < |ps.items| ensures ProjectionPasses(ED.Only(ex.eventDefinitions, used.eventTypes), ps.items[k]) {
      KeptProjectionValid(ex, tcs, used, ps.items[k]);
    }
  }

  /** A kept projection validates against the kept event definitions. */
  lemma KeptProjectionValid(ex: Example, tcs: seq<TC.TestCase>, used: Used, q: P.Projection)
    requires ProjectionsValid(ex.eventDefinitions, ex.projections) && NamedList.Distinct(ex.projections.items, P.NameOf)
    requires Collect(ex, tcs) == Ok(used)
    requires q in P.Only(ex.projections, used.projections).items
    ensures ProjectionPasses(ED.Only(ex.eventDefinitions, used.eventTypes), q)
  {
    var j :| 0 <= j < |ex.projections.items| && ex.projections.items[j] == q;
    NamedList.FindDistinct(ex.projections.items, P.NameOf, j);
    PrunedProjectionValid(ex, tcs, used, q);
  }

  /** Every kept handler validates against the kept commands, projections and event definitions. */
  lemma PrunedHandlersValid(ex: Example, tcs: seq<TC.TestCase>, used: Used)
    requires HandlersValid(ex.commandDefinitions, ex.projections, ex.eventDefinitions, ex.commandHandlerDefinitions)
    requires NamedList.Distinct(ex.commandHandlerDefinitions.items, CHD.CommandNameOf)
    requires Collect(ex, tcs) == Ok(used)
    ensures HandlersValid(
      CD.Only(ex.commandDefinitions, used.commandNames),
      P.Only(ex.projections, used.projections),
      ED.Only(ex.eventDefinitions, used.eventTypes),
      CHD.OnlyForCommands(ex.commandHandlerDefinitions, used.commandNames))
  {
    var hs := CHD.OnlyForCommands(ex.commandHandlerDefinitions, used.commandNames);
    forall k | 0 <= k < |hs.items|
      ensures HandlerPasses(
        CD.Only(ex.commandDefinitions, used.commandNames),
        P.Only(ex.projections, used.projections),
        ED.Only(ex.eventDefinitions, used.eventTypes), hs.items[k])
    {
      KeptHandlerValid(ex, tcs, used, hs.items[k]);
    }
  }

  /** A kept handler validates against the kept commands, projections and event definitions. */
  lemma KeptHandlerValid(ex: Example, tcs: seq<TC.TestCase>, used: Used, h: CHD.CommandHandlerDefinition)
    requires HandlersValid(ex.commandDefinitions, ex.projections, ex.eventDefinitions, ex.commandHandlerDefinitions)
    requires NamedList.Distinct(ex.commandHandlerDefinitions.items, CHD.CommandNameOf)
    requires Collect(ex, tcs) == Ok(used)
    requires h in CHD.OnlyForCommands(ex.commandHandlerDefinitions, used.commandNames).items
    ensures HandlerPasses(
      CD.Only(ex.commandDefinitions, used.commandNames),
      P.Only(ex.projections, used.projections),
      ED.Only(ex.eventDefinitions, used.eventTypes), h)
  {
    var j :| 0 <= j < |ex.commandHandlerDefinitions.items| && ex.commandHandlerDefinitions.items[j] == h;
    NamedList.FindDistinct(ex.commandHandlerDefinitions.items, CHD.CommandNameOf, j);
    PrunedHandlerValid(ex, tcs, used, h);
  }

  /** Test cases that validate against the full scenario validate against the kept parts. */
  lemma PrunedTestCasesValid(ex: Example, testCases: TCs.TestCases, used: Used)
    requires Collect(ex, testCases.items) == Ok(used)
    requires TestCasesValid(ex.eventDefinitions, ex.commandDefinitions, testCases)
    ensures TestCasesValid(ED.Only(ex.eventDefinitions, used.eventTypes), CD.Only(ex.commandDefinitions, used.commandNames), testCases)
  {
    var tcs := testCases.items;
    forall k | 0 <= k < |tcs|
      ensures TestCasePasses(ED.Only(ex.eventDefinitions, used.eventTypes), CD.Only(ex.commandDefinitions, used.commandNames), tcs[k])
    {
      PrunedTestCaseValid(ex, tcs, used, tcs[k]);
    }
  }

  /**
   * Pruning a valid scenario (with distinct projection names and one handler per command) to test
   * cases that validate against it and whose commands all have handlers always succeeds.
   */
  lemma PrunedIsValid(ex: Example, testCases: TCs.TestCases)
    requires Valid(ex)
    requires NamedList.Distinct(ex.projections.items, P.NameOf)
    requires NamedList.Distinct(ex.commandHandlerDefinitions.items, CHD.CommandNameOf)
    requires forall k :: 0 <= k < |testCases.items| ==> CHD.Exists(ex.commandHandlerDefinitions, testCases.items[k].whenCommand.commandType)
    requires TestCasesValid(ex.eventDefinitions, ex.commandDefinitions, testCases)
    ensures Pruned(ex, testCases).Ok?
  {
    var tcs := testCases.items;
    ValidParts(ex);
    forall k | 0 <= k < |tcs| ensures ResolvableCase(ex)(tcs[k]) {
      ValidHandlerResolvable(ex, tcs[k].whenCommand.commandType);
    }
    CollectSucceedsIff(ex, tcs);
    var used := Collect(ex, tcs).value;
    PrunedProjectionsValid(ex, tcs, used);
    PrunedHandlersValid(ex, tcs, used);
    PrunedTestCasesValid(ex, testCases, used);
    ValidParts(Example(
      ED.Only(ex.eventDefinitions, used.eventTypes),
      CD.Only(ex.commandDefinitions, used.commandNames),
      P.Only(ex.projections, used.projections),
      CHD.OnlyForCommands(ex.commandHandlerDefinitions, used.commandNames),
      testCases));
  }
}
