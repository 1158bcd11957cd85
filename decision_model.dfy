/**
 * The decision-model builder: one read with the composite query, a fold of the events read, and an
 * append condition anchored at the last consumed position.
 */
module DecisionModel {
  import opened Wrappers
  import opened EventStore
  import opened InMemoryDcbEventStore
  import opened Projection

  /** `lastConsumedEventPosition`: 0 for an empty read, else the position of the last event read. */
  function LastPosition<D>(events: seq<SequencedEvent<D>>): int {
    if events == [] then 0 else events[|events| - 1].position
  }

  /** The events the builder reads: the composite query, no options. */
  function DecisionEvents<S, D>(log: seq<SequencedEvent<D>>, ps: seq<Named<S, D>>): seq<SequencedEvent<D>> {
    ReadLog(log, CombinedQuery(ps), NoOptions())
  }

  /** The append condition the builder returns for a log. */
  function ConditionFor<S, D>(log: seq<SequencedEvent<D>>, ps: seq<Named<S, D>>): AppendCondition {
    AppendCondition(CombinedQuery(ps), Some(LastPosition(DecisionEvents(log, ps))))
  }

  /** The state the builder returns for a log; `nullish` tells which slice values are `null` or `undefined`. */
  function StateFor<S(==), D>(nullish: S -> bool, log: seq<SequencedEvent<D>>, ps: seq<Named<S, D>>): map<string, S> {
    CompositeFold(nullish, ps, InitialState(ps), DecisionEvents(log, ps))
  }

  /**
   * `buildDecisionModel(eventStore, projections)`: one forward read with the composite query, then a loop
   * that folds each event into the state and remembers its position.
   */
  method BuildDecisionModel<S(==), D>(nullish: S -> bool, store: InMemoryDcbEventStore<D>, ps: seq<Named<S, D>>)
    returns (state: map<string, S>, appendCondition: AppendCondition)
    ensures state == StateFor(nullish, store.sequencedEvents, ps)
    ensures appendCondition == ConditionFor(store.sequencedEvents, ps)
  {
    var query := CombinedQuery(ps);
    state := InitialState(ps);
    var lastConsumedEventPosition := 0;
    var events := store.Read(query, None);
    var i := 0;
    while i < |events|
      invariant 0 <= i <= |events|
      invariant state == CompositeFold(nullish, ps, InitialState(ps), events[..i])
      invariant lastConsumedEventPosition == LastPosition(events[..i])
    {
      assert events[..i + 1][..i] == events[..i];
      state := ApplyComposite(nullish, ps, state, events[i]);
      lastConsumedEventPosition := events[i].position;
      i := i + 1;
    }
    assert events[..i] == events;
    appendCondition := AppendCondition(query, Some(lastConsumedEventPosition));
  }

  /** Every stored event matching the composite query lies at or before the last consumed position. */
  lemma MatchesAtOrBeforeLastPosition<S, D>(log: seq<SequencedEvent<D>>, ps: seq<Named<S, D>>)
    requires Gapless(log)
    ensures 0 <= LastPosition(DecisionEvents(log, ps)) <= |log|
    ensures forall k :: 0 <= k < |log| && Matches(CombinedQuery(ps), log[k].event) ==>
      log[k].position <= LastPosition(DecisionEvents(log, ps))
  {
    var q := CombinedQuery(ps);
    var f := Filter(log, q, NoOptions());
    FilterMembers(log, q, NoOptions());
    if f != [] {
      var j := FilterLast(log, q, NoOptions());
      assert LastPosition(DecisionEvents(log, ps)) == j + 1;
    }
  }

  /** Central contract: with no append in between, the store accepts the returned condition. */
  lemma ConditionAcceptedWithoutInterveningAppend<S, D>(log: seq<SequencedEvent<D>>, ps: seq<Named<S, D>>)
    requires Gapless(log)
    ensures CheckCondition(log, ConditionFor(log, ps)).None?
  {
    MatchesAtOrBeforeLastPosition(log, ps);
    ConditionHoldsIff(log, ConditionFor(log, ps));
  }

  /** An append of events that the composite query does not match leaves the condition acceptable. */
  lemma UnrelatedAppendKeepsCondition<S, D>(log: seq<SequencedEvent<D>>, ps: seq<Named<S, D>>, batch: seq<Event<D>>)
    requires Gapless(log)
    requires forall k :: 0 <= k < |batch| ==> !Matches(CombinedQuery(ps), batch[k])
    ensures CheckCondition(log + Sequenced(batch, |log| + 1), ConditionFor(log, ps)).None?
  {
    var after := log + Sequenced(batch, |log| + 1);
    var c := ConditionFor(log, ps);
    MatchesAtOrBeforeLastPosition(log, ps);
    AppendKeepsGapless(log, batch);
    forall k | |log| <= k < |after| ensures !Matches(c.failIfEventsMatch, after[k].event) {
      assert after[k].event == batch[k - |log|];
    }
    forall k | 0 <= k < |log| ensures after[k] == log[k] {
    }
    ConditionHoldsIff(after, c);
  }

  /** Once an event matching the composite query has been appended, the same condition is rejected. */
  lemma MatchingAppendInvalidatesCondition<S, D>(log: seq<SequencedEvent<D>>, ps: seq<Named<S, D>>, batch: seq<Event<D>>, k: nat)
    requires Gapless(log)
    requires k < |batch| && Matches(CombinedQuery(ps), batch[k])
    ensures CheckCondition(log + Sequenced(batch, |log| + 1), ConditionFor(log, ps)).Some?
  {
    var after := log + Sequenced(batch, |log| + 1);
    MatchesAtOrBeforeLastPosition(log, ps);
    AppendKeepsGapless(log, batch);
    assert after[|log| + k].event == batch[k];
    ConditionHoldsIff(after, ConditionFor(log, ps));
  }

  /** The returned state holds every name, and each slice is that projection's fold over the events read. */
  lemma StateIsPerProjectionFold<S, D>(nullish: S -> bool, log: seq<SequencedEvent<D>>, ps: seq<Named<S, D>>, k: nat)
    requires DistinctNames(ps) && k < |ps|
    ensures var r := StateFor(nullish, log, ps);
      && ps[k].name in r
      && Slice(nullish, r, ps[k]) == FoldOrInitial(nullish, ps[k].projection, ps[k].projection.initialState, DecisionEvents(log, ps))
  {
    CompositionPreservesProjections(nullish, ps, DecisionEvents(log, ps), k);
  }

  /** `?? initialState` leaves a fold result as it is once it left its start that way. */
  lemma FoldOrInitialSettled<S, D>(nullish: S -> bool, p: Projection<S, D>, state: S, events: seq<SequencedEvent<D>>)
    requires OrInitial(nullish, p, state) == state
    ensures OrInitial(nullish, p, FoldOrInitial(nullish, p, state, events)) == FoldOrInitial(nullish, p, state, events)
  {
  }

  /** Folding only the events a wider query selects gives what folding the whole log gives. */
  lemma {:induction false} FoldOverFilter<S, D>(nullish: S -> bool, p: Projection<S, D>, state: S, log: seq<SequencedEvent<D>>, q: Query)
    requires forall e: Event<D> :: Matches(QueryOf(p), e) ==> Matches(q, e)
    requires OrInitial(nullish, p, state) == state
    ensures FoldOrInitial(nullish, p, state, Filter(log, q, NoOptions())) == FoldOrInitial(nullish, p, state, log)
    decreases |log|
  {
    if log != [] {
      var prefix := log[..|log| - 1];
      FoldOverFilter(nullish, p, state, prefix, q);
      var last := log[|log| - 1];
      if !Selected(last, q, NoOptions()) {
        assert !Matches(QueryOf(p), last.event);
        FoldOrInitialSettled(nullish, p, state, prefix);
      } else {
        var f := Filter(prefix, q, NoOptions()) + [last];
        assert f[..|f| - 1] == Filter(prefix, q, NoOptions());
      }
    }
  }

  /** The single read loses nothing: each slice equals the projection folded over the whole log. */
  lemma DecisionStateIsWholeLogFold<S, D>(nullish: S -> bool, log: seq<SequencedEvent<D>>, ps: seq<Named<S, D>>, k: nat)
    requires DistinctNames(ps) && k < |ps|
    ensures var r := StateFor(nullish, log, ps);
      && ps[k].name in r
      && Slice(nullish, r, ps[k]) == FoldOrInitial(nullish, ps[k].projection, ps[k].projection.initialState, log)
  {
    StateIsPerProjectionFold(nullish, log, ps, k);
    forall e: Event<D> | Matches(QueryOf(ps[k].projection), e) ensures Matches(CombinedQuery(ps), e) {
      CombinedQueryMatches(ps, e);
    }
    FoldOverFilter(nullish, ps[k].projection, ps[k].projection.initialState, log, CombinedQuery(ps));
  }

  /**
   * When the projection alone never reaches a nullish state on the log, the value stored under its name
   * over the events the builder reads is its plain fold over the whole log.
   */
  lemma {:induction false} RawOverFilter<S, D>(nullish: S -> bool, log: seq<SequencedEvent<D>>, ps: seq<Named<S, D>>, k: nat)
    requires DistinctNames(ps) && k < |ps|
    requires forall j :: 1 <= j <= |log| ==> !nullish(Fold(ps[k].projection, ps[k].projection.initialState, log[..j]))
    ensures var r := CompositeFold(nullish, ps, InitialState(ps), Filter(log, CombinedQuery(ps), NoOptions()));
      && ps[k].name in r
      && r[ps[k].name] == Fold(ps[k].projection, ps[k].projection.initialState, log)
    decreases |log|
  {
    var p := ps[k].projection;
    var q := CombinedQuery(ps);
    assert ps[k].name in NameSet(ps);
    if log == [] {
      InitialStateSlices(ps, k);
    } else {
      var prefix := log[..|log| - 1];
      var last := log[|log| - 1];
      forall j | 1 <= j <= |prefix| ensures !nullish(Fold(p, p.initialState, prefix[..j])) {
        assert prefix[..j] == log[..j];
      }
      RawOverFilter(nullish, prefix, ps, k);
      if prefix != [] {
        assert log[..|prefix|] == prefix;
      }
      var st := CompositeFold(nullish, ps, InitialState(ps), Filter(prefix, q, NoOptions()));
      if Selected(last, q, NoOptions()) {
        var f := Filter(prefix, q, NoOptions()) + [last];
        assert f[..|f| - 1] == Filter(prefix, q, NoOptions());
        CompositeApplyRaw(nullish, ps, st, last, k);
      } else {
        CombinedQueryMatches(ps, last.event);
        assert !Matches(QueryOf(p), last.event);
      }
    }
  }

  /**
   * When the projection alone never reaches a nullish state on the log, the slice is its plain fold, both as
   * read through `?? initialState` and as the raw `state.foo` a decision reads.
   */
  lemma DecisionStateIsLoneFold<S, D>(nullish: S -> bool, log: seq<SequencedEvent<D>>, ps: seq<Named<S, D>>, k: nat)
    requires DistinctNames(ps) && k < |ps|
    requires forall j :: 1 <= j <= |log| ==> !nullish(Fold(ps[k].projection, ps[k].projection.initialState, log[..j]))
    ensures var r := StateFor(nullish, log, ps);
      && ps[k].name in r
      && Slice(nullish, r, ps[k]) == Fold(ps[k].projection, ps[k].projection.initialState, log)
      && r[ps[k].name] == Fold(ps[k].projection, ps[k].projection.initialState, log)
  {
    DecisionStateIsWholeLogFold(nullish, log, ps, k);
    FoldOrInitialIsFold(nullish, ps[k].projection, ps[k].projection.initialState, log);
    RawOverFilter(nullish, log, ps, k);
  }
}
