/**
 * The in-memory DCB event store: a gapless, growing log of sequenced events, read through a
 * filter/reverse/slice pipeline and appended to under an optimistic-concurrency append condition.
 */
module InMemoryDcbEventStore {
  import opened Wrappers
  import opened EventStore
  import Strings

  /** `{from?, backwards?, limit?}`; an absent `backwards` is `false`. */
  datatype ReadOptions = ReadOptions(from: Option<int>, backwards: bool, limit: Option<int>)

  /** What `read` uses when it is given no options: forward, unbounded. */
  function NoOptions(): ReadOptions {
    ReadOptions(None, false, None)
  }

  /** The options `append` reads the last matching event with. */
  function LastOneOptions(): ReadOptions {
    ReadOptions(None, true, Some(1))
  }

  /** A JavaScript number field is truthy when it is present and not 0. */
  predicate Truthy(n: Option<int>) {
    n.Some? && n.value != 0
  }

  /** The position bound: with a truthy `from`, forward reads skip lower and backward reads higher positions. */
  predicate WithinBound<D>(e: SequencedEvent<D>, o: ReadOptions) {
    !(Truthy(o.from) && ((o.backwards && e.position > o.from.value) || (!o.backwards && e.position < o.from.value)))
  }

  /** The predicate of `read`'s filter: the bound, then the wildcard shortcut, then `matchesEvent`. */
  predicate Selected<D>(e: SequencedEvent<D>, q: Query, o: ReadOptions) {
    WithinBound(e, o) && (IsWildcard(q) || Matches(q, e.event))
  }

  /** `Array.prototype.filter` with `Selected`. */
  function Filter<D>(log: seq<SequencedEvent<D>>, q: Query, o: ReadOptions): (r: seq<SequencedEvent<D>>)
    ensures |r| <= |log|
  {
    if log == [] then []
    else
      var rest := Filter(log[..|log| - 1], q, o);
      if Selected(log[|log| - 1], q, o) then rest + [log[|log| - 1]] else rest
  }

  /** The filter keeps exactly the selected events of the log. */
  lemma {:induction false} FilterMembers<D>(log: seq<SequencedEvent<D>>, q: Query, o: ReadOptions)
    ensures forall k :: 0 <= k < |Filter(log, q, o)| ==> Filter(log, q, o)[k] in log && Selected(Filter(log, q, o)[k], q, o)
    ensures forall k :: 0 <= k < |log| && Selected(log[k], q, o) ==> log[k] in Filter(log, q, o)
  {
    if log != [] {
      var prefix := log[..|log| - 1];
      var last := log[|log| - 1];
      FilterMembers(prefix, q, o);
      assert log == prefix + [last];
      var f := Filter(log, q, o);
      forall k | 0 <= k < |log| && Selected(log[k], q, o) ensures log[k] in f {
        if k < |prefix| {
          assert log[k] == prefix[k];
        }
      }
    }
  }

  /** `Array.prototype.reverse`. */
  function Reverse<T>(s: seq<T>): (r: seq<T>)
    ensures |r| == |s|
    ensures forall k :: 0 <= k < |s| ==> r[k] == s[|s| - 1 - k]
  {
    if s == [] then [] else [s[|s| - 1]] + Reverse(s[..|s| - 1])
  }

  /** `s.slice(0, end)`: a negative end counts from the back of the array. */
  function SliceTo<T>(s: seq<T>, end: int): (r: seq<T>)
    ensures end >= 0 ==> r == s[..if end < |s| then end else |s|]
    ensures end < 0 ==> r == s[..if |s| + end > 0 then |s| + end else 0]
  {
    if end >= 0 then s[..if end < |s| then end else |s|]
    else s[..if |s| + end > 0 then |s| + end else 0]
  }

  /** What `read(q, o)` returns: filter, then reverse when `backwards`, then keep a prefix when `limit` is truthy. */
  function ReadLog<D>(log: seq<SequencedEvent<D>>, q: Query, o: ReadOptions): seq<SequencedEvent<D>> {
    var filtered := Filter(log, q, o);
    var ordered := if o.backwards then Reverse(filtered) else filtered;
    if Truthy(o.limit) then SliceTo(ordered, o.limit.value) else ordered
  }

  /** `first()` of a read result. */
  function First<T>(s: seq<T>): (r: Option<T>)
    ensures r.Some? <==> |s| > 0
    ensures r.Some? ==> r.value == s[0]
  {
    if |s| > 0 then Some(s[0]) else None
  }

  /** Positions are gapless and start at 1. */
  ghost predicate Gapless<D>(log: seq<SequencedEvent<D>>) {
    forall k :: 0 <= k < |log| ==> log[k].position == k + 1
  }

  /** `{failIfEventsMatch, after?}`. */
  datatype AppendCondition = AppendCondition(failIfEventsMatch: Query, after: Option<int>)

  /** The two ways an append condition can fail. */
  datatype AppendError = UnexpectedMatch | MatchAfterPosition(after: int)

  function Message(e: AppendError): string {
    match e
    case UnexpectedMatch =>
      "The Event Store contained events matching the specified query but none were expected"
    case MatchAfterPosition(after) =>
      "The Event Store contained events matching the specified query after position " + Strings.IntToString(after)
  }

  /** `read(q, {backwards: true, limit: 1}).first()?.position || null`: a position of 0 reads as none. */
  function LastMatchingPosition<D>(log: seq<SequencedEvent<D>>, q: Query): Option<int> {
    var first := First(ReadLog(log, q, LastOneOptions()));
    if first.Some? && first.value.position != 0 then Some(first.value.position) else None
  }

  /** The condition check of `append`: `None` when the append may proceed. */
  function CheckCondition<D>(log: seq<SequencedEvent<D>>, c: AppendCondition): Option<AppendError> {
    match LastMatchingPosition(log, c.failIfEventsMatch)
    case None => None
    case Some(p) =>
      if !Truthy(c.after) then Some(UnexpectedMatch)
      else if p > c.after.value then Some(MatchAfterPosition(c.after.value))
      else None
  }

  /** The condition as it reads in words: an absent or zero `after` stands for position 0. */
  function AfterOrZero(c: AppendCondition): int {
    if Truthy(c.after) then c.after.value else 0
  }

  /** The argument of `append`: one event, or an array of them. */
  datatype EventsArg<D> = One(event: Event<D>) | Many(events: seq<Event<D>>)

  /** `if (!Array.isArray(events)) events = [events]`. */
  function AsBatch<D>(arg: EventsArg<D>): (r: seq<Event<D>>)
    ensures arg.One? ==> r == [arg.event]
    ensures arg.Many? ==> r == arg.events
  {
    match arg
    case One(e) => [e]
    case Many(es) => es
  }

  /** The batch with positions `start, start + 1, ...` in array order. */
  function Sequenced<D>(batch: seq<Event<D>>, start: int): (r: seq<SequencedEvent<D>>)
    ensures |r| == |batch|
    ensures forall k :: 0 <= k < |batch| ==> r[k] == SequencedEvent(batch[k], start + k)
  {
    seq(|batch|, k requires 0 <= k < |batch| => SequencedEvent(batch[k], start + k))
  }

  /** The last element a filter keeps is the last selected element of the log. */
  lemma {:induction false} FilterLast<D>(log: seq<SequencedEvent<D>>, q: Query, o: ReadOptions) returns (j: nat)
    requires Filter(log, q, o) != []
    ensures j < |log| && Selected(log[j], q, o)
    ensures Filter(log, q, o)[|Filter(log, q, o)| - 1] == log[j]
    ensures forall k :: j < k < |log| ==> !Selected(log[k], q, o)
  {
    var last := log[|log| - 1];
    var prefix := log[..|log| - 1];
    if Selected(last, q, o) {
      assert Filter(log, q, o) == Filter(prefix, q, o) + [last];
      j := |log| - 1;
    } else {
      assert Filter(log, q, o) == Filter(prefix, q, o);
      j := FilterLast(prefix, q, o);
      assert log[j] == prefix[j];
      forall k | j < k < |log| ensures !Selected(log[k], q, o) {
        if k < |prefix| { assert log[k] == prefix[k]; }
      }
    }
  }

  /** Filtering a gapless log leaves positions strictly increasing. */
  lemma {:induction false} FilterIncreasing<D>(log: seq<SequencedEvent<D>>, q: Query, o: ReadOptions)
    requires Gapless(log)
    ensures forall a, b :: 0 <= a < b < |Filter(log, q, o)| ==> Filter(log, q, o)[a].position < Filter(log, q, o)[b].position
    ensures forall a :: 0 <= a < |Filter(log, q, o)| ==> 1 <= Filter(log, q, o)[a].position <= |log|
  {
    if log != [] {
      var prefix := log[..|log| - 1];
      assert Gapless(prefix);
      FilterIncreasing(prefix, q, o);
      var f := Filter(prefix, q, o);
      FilterMembers(prefix, q, o);
      forall a | 0 <= a < |f| ensures f[a] in log && f[a].position <= |prefix| {
        assert f[a] in prefix;
      }
    }
  }

  /** Reading everything forward gives back the whole log, in order. */
  lemma {:induction false} ReadAllIsLog<D>(log: seq<SequencedEvent<D>>)
    ensures ReadLog(log, QueryAll(), NoOptions()) == log
  {
    if log != [] {
      ReadAllIsLog(log[..|log| - 1]);
      assert log == log[..|log| - 1] + [log[|log| - 1]];
    }
  }

  /** Reading everything backwards with limit 1 gives the most recently appended event. */
  lemma ReadLastIsNewest<D>(log: seq<SequencedEvent<D>>)
    requires log != []
    ensures First(ReadLog(log, QueryAll(), ReadOptions(None, true, Some(1)))) == Some(log[|log| - 1])
  {
    ReadAllIsLog(log);
    assert Filter(log, QueryAll(), ReadOptions(None, true, Some(1))) == Filter(log, QueryAll(), NoOptions()) by {
      FilterSameSelection(log, QueryAll(), ReadOptions(None, true, Some(1)), NoOptions());
    }
  }

  /** Two option sets whose bounds select the same events filter alike. */
  lemma {:induction false} FilterSameSelection<D>(log: seq<SequencedEvent<D>>, q: Query, o1: ReadOptions, o2: ReadOptions)
    requires forall k :: 0 <= k < |log| ==> (Selected(log[k], q, o1) <==> Selected(log[k], q, o2))
    ensures Filter(log, q, o1) == Filter(log, q, o2)
  {
    if log != [] {
      FilterSameSelection(log[..|log| - 1], q, o1, o2);
    }
  }

  /** Without a bound or a limit, `read` returns exactly the matching events of the log. */
  lemma ReadContents<D>(log: seq<SequencedEvent<D>>, q: Query, backwards: bool, e: SequencedEvent<D>)
    ensures e in ReadLog(log, q, ReadOptions(None, backwards, None)) <==> e in log && Matches(q, e.event)
  {
    var f := Filter(log, q, ReadOptions(None, backwards, None));
    FilterMembers(log, q, ReadOptions(None, backwards, None));
    if backwards && e in f {
      var k :| 0 <= k < |f| && f[k] == e;
      assert Reverse(f)[|f| - 1 - k] == e;
    }
    if backwards && e in Reverse(f) {
      var k :| 0 <= k < |f| && Reverse(f)[k] == e;
    }
  }

  /** A read forward from a gapless log lists positions in increasing order; backwards, in decreasing order. */
  lemma ReadOrdered<D>(log: seq<SequencedEvent<D>>, q: Query, o: ReadOptions)
    requires Gapless(log)
    ensures var r := ReadLog(log, q, o);
      forall a, b :: 0 <= a < b < |r| ==> if o.backwards then r[a].position > r[b].position else r[a].position < r[b].position
  {
    FilterIncreasing(log, q, o);
  }

  /** In a gapless log, the last matching position is the greatest position of a matching event. */
  lemma LastMatchingIsGreatest<D>(log: seq<SequencedEvent<D>>, q: Query)
    requires Gapless(log)
    ensures match LastMatchingPosition(log, q)
      case None => forall k :: 0 <= k < |log| ==> !Matches(q, log[k].event)
      case Some(p) => (1 <= p <= |log| && Matches(q, log[p - 1].event)
        && forall k :: 0 <= k < |log| && Matches(q, log[k].event) ==> log[k].position <= p)
  {
    var o := LastOneOptions();
    var f := Filter(log, q, o);
    if f == [] {
      FilterMembers(log, q, o);
      forall k | 0 <= k < |log| ensures !Matches(q, log[k].event) {
        assert log[k] !in f;
      }
    } else {
      var j := FilterLast(log, q, o);
      assert Reverse(f)[0] == f[|f| - 1];
      assert SliceTo(Reverse(f), 1) == [f[|f| - 1]];
    }
  }

  /** The append condition succeeds iff no stored event matching the query lies after `after`. */
  lemma ConditionHoldsIff<D>(log: seq<SequencedEvent<D>>, c: AppendCondition)
    requires Gapless(log)
    ensures CheckCondition(log, c).None? <==>
      forall k :: 0 <= k < |log| && Matches(c.failIfEventsMatch, log[k].event) ==> log[k].position <= AfterOrZero(c)
  {
    LastMatchingIsGreatest(log, c.failIfEventsMatch);
  }

  /** Which of the two failures an append reports: no `after` given, or a match beyond `after`. */
  lemma ConditionFailureKinds<D>(log: seq<SequencedEvent<D>>, c: AppendCondition)
    requires Gapless(log)
    ensures CheckCondition(log, c) == Some(UnexpectedMatch) <==>
      !Truthy(c.after) && exists k :: 0 <= k < |log| && Matches(c.failIfEventsMatch, log[k].event)
    ensures CheckCondition(log, c) == Some(MatchAfterPosition(AfterOrZero(c))) <==>
      Truthy(c.after) && exists k :: 0 <= k < |log| && Matches(c.failIfEventsMatch, log[k].event) && log[k].position > c.after.value
  {
    LastMatchingIsGreatest(log, c.failIfEventsMatch);
  }

  /** Appending a sequenced batch at the next position keeps the log gapless. */
  lemma AppendKeepsGapless<D>(log: seq<SequencedEvent<D>>, batch: seq<Event<D>>)
    requires Gapless(log)
    ensures Gapless(log + Sequenced(batch, |log| + 1))
  {
  }

  /**
   * `InMemoryDcbEventStore`: the private `sequencedEvents` array is the only state.
   */
  class InMemoryDcbEventStore<D> {
    var sequencedEvents: seq<SequencedEvent<D>>

    ghost predicate Valid()
      reads this
    {
      Gapless(sequencedEvents)
    }

    constructor ()
      ensures Valid() && sequencedEvents == []
    {
      sequencedEvents := [];
    }

    /** `read(query, options)`; it changes nothing. */
    method Read(query: Query, options: Option<ReadOptions>) returns (r: seq<SequencedEvent<D>>)
      ensures r == ReadLog(sequencedEvents, query, options.GetOr(NoOptions()))
    {
      var o := options.GetOr(NoOptions());
      var filtered := Filter(sequencedEvents, query, o);
      if o.backwards {
        filtered := Reverse(filtered);
      }
      if Truthy(o.limit) {
        filtered := SliceTo(filtered, o.limit.value);
      }
      r := filtered;
    }

    /**
     * `append(events, condition?)`: checks the condition against the current log, then appends the
     * batch at the next positions.  A failed check leaves the log as it was.
     */
    method Append(events: EventsArg<D>, condition: Option<AppendCondition>) returns (failure: Option<AppendError>)
      requires Valid()
      modifies this
      ensures Valid()
      ensures condition.None? ==> failure.None?
      ensures condition.Some? ==> failure == CheckCondition(old(sequencedEvents), condition.value)
      ensures failure.Some? ==> sequencedEvents == old(sequencedEvents)
      ensures failure.None? ==> sequencedEvents == old(sequencedEvents) + Sequenced(AsBatch(events), |old(sequencedEvents)| + 1)
    {
      if condition.Some? {
        var c := condition.value;
        var lastEvents := Read(c.failIfEventsMatch, Some(LastOneOptions()));
        var first := First(lastEvents);
        var lastMatchingEventPosition := if first.Some? && first.value.position != 0 then Some(first.value.position) else None;
        if lastMatchingEventPosition.Some? {
          if !Truthy(c.after) {
            return Some(UnexpectedMatch);
          }
          if lastMatchingEventPosition.value > c.after.value {
            return Some(MatchAfterPosition(c.after.value));
          }
        }
      }
      var batch := AsBatch(events);
      var sequencePosition := |sequencedEvents| + 1;
      var appended: seq<SequencedEvent<D>> := [];
      var i := 0;
      while i < |batch|
        invariant 0 <= i <= |batch|
        invariant sequencePosition == |sequencedEvents| + 1 + i
        invariant appended == Sequenced(batch[..i], |sequencedEvents| + 1)
      {
        appended := appended + [SequencedEvent(batch[i], sequencePosition)];
        sequencePosition := sequencePosition + 1;
        i := i + 1;
      }
      assert batch[..i] == batch;
      AppendKeepsGapless(sequencedEvents, batch);
      sequencedEvents := sequencedEvents + appended;
      failure := None;
    }

    /** `_flush()`: empties the log (used between test cases). */
    method Flush()
      modifies this
      ensures Valid() && sequencedEvents == []
    {
      sequencedEvents := [];
    }
  }
}
