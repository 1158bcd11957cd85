/**
 * `TestCase`: one given/when/then case of a scenario.  The constructor accepts exactly one of an
 * expected event and an expected error.
 */
module TestCase {
  import opened Wrappers
  import opened Fixture

  datatype TestCase = TestCase(
    description: string,
    givenEvents: Option<seq<Event>>,
    whenCommand: Command,
    thenExpectedEvent: Option<Event>,
    thenExpectedError: Option<string>)

  /** What every constructed test case satisfies. */
  predicate Valid(tc: TestCase) {
    tc.thenExpectedEvent.Some? != tc.thenExpectedError.Some?
  }

  const ExclusiveMessage := "Expected event and error are mutually exclusive"
  const MissingMessage := "Either expected event or error must be set"

  /** The constructor: the event is checked first, then the error, and neither set is rejected. */
  function New(
    description: string,
    givenEvents: Option<seq<Event>>,
    whenCommand: Command,
    thenExpectedEvent: Option<Event>,
    thenExpectedError: Option<string>): (r: Result<TestCase, string>)
    ensures r.Ok? <==> thenExpectedEvent.Some? != thenExpectedError.Some?
    ensures r.Ok? ==> Valid(r.value)
    ensures r.Ok? ==> r.value == TestCase(description, givenEvents, whenCommand, thenExpectedEvent, thenExpectedError)
    ensures thenExpectedEvent.Some? && thenExpectedError.Some? ==> r == Err(ExclusiveMessage)
    ensures thenExpectedEvent.None? && thenExpectedError.None? ==> r == Err(MissingMessage)
  {
    var tc := TestCase(description, givenEvents, whenCommand, thenExpectedEvent, thenExpectedError);
    if thenExpectedEvent.Some? then
      if thenExpectedError.Some? then Err(ExclusiveMessage) else Ok(tc)
    else if thenExpectedError.Some? then
      if thenExpectedEvent.Some? then Err(ExclusiveMessage) else Ok(tc)
    else
      Err(MissingMessage)
  }

  /** Every valid test case is what the constructor builds from its own fields. */
  lemma ValidIsConstructible(tc: TestCase)
    requires Valid(tc)
    ensures New(tc.description, tc.givenEvents, tc.whenCommand, tc.thenExpectedEvent, tc.thenExpectedError) == Ok(tc)
  {
  }
}
