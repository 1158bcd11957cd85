/**
 * The JavaScript copy of the in-memory DCB store.  Its query is a plain array of
 * `{eventTypes?, tags?}` items rather than a query object; everything else follows the TypeScript store,
 * and the lemmas at the end show that both stores read and check conditions identically.
 */
module JsInMemoryDcbEventStore {
  import opened Wrappers
  import opened EventStore
  import opened InMemoryDcbEventStore

  datatype JsQueryItem = JsQueryItem(eventTypes: Option<set<string>>, tags: Option<set<string>>)

  /** `query.length === 0` passes everything; otherwise some item must match. */
  predicate JsMatches<D>(query: seq<JsQueryItem>, e: Event<D>) {
    || query == []
    || exists k :: 0 <= k < |query| &&
         (query[k].eventTypes.None? || e.eventType in query[k].eventTypes.value) &&
         (query[k].tags.None? || forall tag :: tag in query[k].tags.value ==> tag in e.tags)
  }

  /** The filter of `read`: the `from` bound, then the item match. */
  function JsFilter<D>(log: seq<SequencedEvent<D>>, query: seq<JsQueryItem>, o: ReadOptions): (r: seq<SequencedEvent<D>>)
    ensures |r| <= |log|
  {
    if log == [] then []
    else
      var rest := JsFilter(log[..|log| - 1], query, o);
      var e := log[|log| - 1];
      if WithinBound(e, o) && JsMatches(query, e.event) then rest + [e] else rest
  }

  function JsReadLog<D>(log: seq<SequencedEvent<D>>, query: seq<JsQueryItem>, o: ReadOptions): seq<SequencedEvent<D>> {
    var filtered := JsFilter(log, query, o);
    var ordered := if o.backwards then Reverse(filtered) else filtered;
    if Truthy(o.limit) then SliceTo(ordered, o.limit.value) else ordered
  }

  datatype JsAppendCondition = JsAppendCondition(failIfEventsMatch: seq<JsQueryItem>, after: Option<int>)

  /** `read(q, {backwards: true, limit: 1})[0]?.position || null`, then the two checks. */
  function JsCheckCondition<D>(log: seq<SequencedEvent<D>>, c: JsAppendCondition): Option<AppendError> {
    var newest := JsReadLog(log, c.failIfEventsMatch, LastOneOptions());
    if newest == [] || newest[0].position == 0 then None
    else if !Truthy(c.after) then Some(UnexpectedMatch)
    else if newest[0].position > c.after.value then Some(MatchAfterPosition(c.after.value))
    else None
  }

  /** The TypeScript query with the same items. */
  function ToQuery(query: seq<JsQueryItem>): (q: Query)
    ensures |q.items| == |query|
    ensures forall k :: 0 <= k < |query| ==> q.items[k] == QueryItem(query[k].eventTypes, query[k].tags)
  {
    Query(seq(|query|, k requires 0 <= k < |query| => QueryItem(query[k].eventTypes, query[k].tags)))
  }

  /** The JavaScript match is the TypeScript `matchesEvent` of the same items. */
  lemma JsMatchesAgrees<D>(query: seq<JsQueryItem>, e: Event<D>)
    ensures JsMatches(query, e) == Matches(ToQuery(query), e)
  {
    var q := ToQuery(query);
    if JsMatches(query, e) && query != [] {
      var k :| 0 <= k < |query| &&
         (query[k].eventTypes.None? || e.eventType in query[k].eventTypes.value) &&
         (query[k].tags.None? || forall tag :: tag in query[k].tags.value ==> tag in e.tags);
      assert ItemMatches(q.items[k], e);
    }
    if Matches(q, e) && query != [] {
      var k :| 0 <= k < |q.items| && ItemMatches(q.items[k], e);
      assert q.items[k] == QueryItem(query[k].eventTypes, query[k].tags);
    }
  }

  /** Both stores filter the same log alike. */
  lemma {:induction false} JsFilterAgrees<D>(log: seq<SequencedEvent<D>>, query: seq<JsQueryItem>, o: ReadOptions)
    ensures JsFilter(log, query, o) == Filter(log, ToQuery(query), o)
  {
    if log != [] {
      JsFilterAgrees(log[..|log| - 1], query, o);
      JsMatchesAgrees(query, log[|log| - 1].event);
    }
  }

  /** Both stores read the same events in the same order for the same items and options. */
  lemma JsReadAgrees<D>(log: seq<SequencedEvent<D>>, query: seq<JsQueryItem>, o: ReadOptions)
    ensures JsReadLog(log, query, o) == ReadLog(log, ToQuery(query), o)
  {
    JsFilterAgrees(log, query, o);
  }

  /** Both stores accept and reject the same conditions, with the same failure. */
  lemma JsConditionAgrees<D>(log: seq<SequencedEvent<D>>, c: JsAppendCondition)
    ensures JsCheckCondition(log, c) == CheckCondition(log, AppendCondition(ToQuery(c.failIfEventsMatch), c.after))
  {
    JsReadAgrees(log, c.failIfEventsMatch, LastOneOptions());
  }

  /** Through the TypeScript theorem: a condition succeeds iff no matching event lies after `after`. */
  lemma JsConditionHoldsIff<D>(log: seq<SequencedEvent<D>>, c: JsAppendCondition)
    requires Gapless(log)
    ensures JsCheckCondition(log, c).None? <==>
      forall k :: 0 <= k < |log| && JsMatches(c.failIfEventsMatch, log[k].event) ==>
        log[k].position <= (if Truthy(c.after) then c.after.value else 0)
  {
    var tc := AppendCondition(ToQuery(c.failIfEventsMatch), c.after);
    JsConditionAgrees(log, c);
    ConditionHoldsIff(log, tc);
    forall k | 0 <= k < |log| ensures JsMatches(c.failIfEventsMatch, log[k].event) == Matches(tc.failIfEventsMatch, log[k].event) {
      JsMatchesAgrees(c.failIfEventsMatch, log[k].event);
    }
  }

  /** The JavaScript `InMemoryDcbEventStore` with its private `#sequencedEvents` field. */
  class JsInMemoryDcbEventStore<D> {
    var sequencedEvents: seq<SequencedEvent<D>>

    ghost predicate Valid()
      reads this
    {
      Gapless(sequencedEvents)
    }

    constructor ()
      ensures Valid() && sequencedEvents == []
    {
      sequencedEvents := [];
    }

    /** `read(query, options)`: an absent options object is `{}`. */
    method Read(query: seq<JsQueryItem>, options: Option<ReadOptions>) returns (r: seq<SequencedEvent<D>>)
      ensures r == JsReadLog(sequencedEvents, query, options.GetOr(NoOptions()))
    {
      var o := options.GetOr(NoOptions());
      r := JsFilter(sequencedEvents, query, o);
      if o.backwards {
        r := Reverse(r);
      }
      if Truthy(o.limit) {
        r := SliceTo(r, o.limit.value);
      }
    }

    /** `append(events, condition?)`: a failed check throws and leaves the log unchanged. */
    method Append(events: EventsArg<D>, condition: Option<JsAppendCondition>) returns (failure: Option<AppendError>)
      requires Valid()
      modifies this
      ensures Valid()
      ensures failure == if condition.Some? then JsCheckCondition(old(sequencedEvents), condition.value) else None
      ensures failure.Some? ==> sequencedEvents == old(sequencedEvents)
      ensures failure.None? ==> sequencedEvents == old(sequencedEvents) + Sequenced(AsBatch(events), |old(sequencedEvents)| + 1)
    {
      if condition.Some? {
        var c := condition.value;
        var newest := Read(c.failIfEventsMatch, Some(LastOneOptions()));
        if newest != [] && newest[0].position != 0 {
          if !Truthy(c.after) {
            return Some(UnexpectedMatch);
          }
          if newest[0].position > c.after.value {
            return Some(MatchAfterPosition(c.after.value));
          }
        }
      }
      var batch := AsBatch(events);
      var sequencePosition := |sequencedEvents| + 1;
      var appended: seq<SequencedEvent<D>> := [];
      var i := 0;
      while i < |batch|
        invariant 0 <= i <= |batch|
        invariant sequencePosition == |sequencedEvents| + 1 + i
        invariant appended == Sequenced(batch[..i], |sequencedEvents| + 1)
      {
        appended := appended + [SequencedEvent(batch[i], sequencePosition)];
        sequencePosition := sequencePosition + 1;
        i := i + 1;
      }
      assert batch[..i] == batch;
      AppendKeepsGapless(sequencedEvents, batch);
      sequencedEvents := sequencedEvents + appended;
      failure := None;
    }
  }
}
