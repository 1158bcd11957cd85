/**
 * Projections: a fold over the events that match the projection's own query, and the composite
 * projection that runs a record of named projections over one merged query.
 */
module Projection {
  import opened Wrappers
  import opened EventStore

  /** A handler for one event type: the current state and the event give the next state. */
  type Handler<!S, !D> = (S, SequencedEvent<D>) -> S

  /** What `createProjection(config)` is built from: initial state, handlers keyed by event type, tag filter. */
  datatype Projection<!S, !D> = Projection(initialState: S, handlers: map<string, Handler<S, D>>, tagFilter: Option<set<string>>)

  /** The projection's query: one item whose types are the handler keys, narrowed by the tag filter. */
  function QueryOf<S, D>(p: Projection<S, D>): (q: Query)
    ensures |q.items| == 1 && q.items[0].types == Some(p.handlers.Keys) && q.items[0].tags == p.tagFilter
  {
    CreateQuery([QueryItem(Some(p.handlers.Keys), p.tagFilter)])
  }

  /** `apply(state, event)`: events outside the query and events without a handler leave `state` as it is. */
  function Apply<S, D>(p: Projection<S, D>, state: S, e: SequencedEvent<D>): S {
    if !Matches(QueryOf(p), e.event) then state
    else if e.event.eventType in p.handlers then p.handlers[e.event.eventType](state, e)
    else state
  }

  /** The event carries every tag of the tag filter (trivially so without a filter). */
  predicate CarriesFilterTags<S, D>(p: Projection<S, D>, e: SequencedEvent<D>) {
    p.tagFilter.None? || forall tag :: tag in p.tagFilter.value ==> tag in e.event.tags
  }

  /** A projection handles exactly the events of a type it has a handler for that carry the filter tags. */
  lemma ApplyHandles<S, D>(p: Projection<S, D>, state: S, e: SequencedEvent<D>)
    ensures Apply(p, state, e) ==
      if e.event.eventType in p.handlers && CarriesFilterTags(p, e)
      then p.handlers[e.event.eventType](state, e) else state
  {
    var q := QueryOf(p);
    if e.event.eventType in p.handlers && CarriesFilterTags(p, e) {
      assert ItemMatches(q.items[0], e.event);
    }
  }

  /** A projection without handlers has `types: []` and never changes its state. */
  lemma NoHandlersNoChange<S, D>(p: Projection<S, D>, state: S, e: SequencedEvent<D>)
    requires p.handlers == map[]
    ensures Apply(p, state, e) == state
  {
    ApplyHandles(p, state, e);
  }

  /** Folding a projection over events in order, from `state`. */
  function Fold<S, D>(p: Projection<S, D>, state: S, events: seq<SequencedEvent<D>>): S
    decreases |events|
  {
    if events == [] then state
    else Apply(p, Fold(p, state, events[..|events| - 1]), events[|events| - 1])
  }

  /** One entry of the record handed to `composeProjections`. */
  datatype Named<!S, !D> = Named(name: string, projection: Projection<S, D>)

  /** The keys of a JavaScript record are distinct. */
  ghost predicate DistinctNames<S, D>(ps: seq<Named<S, D>>) {
    forall a, b :: 0 <= a < b < |ps| ==> ps[a].name != ps[b].name
  }

  function NameSet<S, D>(ps: seq<Named<S, D>>): set<string> {
    set k | 0 <= k < |ps| :: ps[k].name
  }

  /** The composite `initialState`: each name mapped to its projection's initial state (`Object.fromEntries`). */
  function InitialState<S, D>(ps: seq<Named<S, D>>): (r: map<string, S>)
    ensures r.Keys == NameSet(ps)
  {
    if ps == [] then map[]
    else
      var last := ps[|ps| - 1];
      var r := InitialState(ps[..|ps| - 1])[last.name := last.projection.initialState];
      assert NameSet(ps) == NameSet(ps[..|ps| - 1]) + {last.name} by {
        assert forall k :: 0 <= k < |ps| - 1 ==> ps[..|ps| - 1][k] == ps[k];
      }
      r
  }

  /** With distinct names, each name's initial slice is its projection's initial state. */
  lemma {:induction false} InitialStateSlices<S, D>(ps: seq<Named<S, D>>, k: nat)
    requires DistinctNames(ps) && k < |ps|
    ensures InitialState(ps)[ps[k].name] == ps[k].projection.initialState
  {
    if k < |ps| - 1 {
      InitialStateSlices(ps[..|ps| - 1], k);
    }
  }

  /** The left fold of `merge` over the projections' queries (the `reduce` seeded with `null`). */
  function MergedQueries<S, D>(ps: seq<Named<S, D>>): Query
    requires ps != []
  {
    if |ps| == 1 then QueryOf(ps[0].projection)
    else Merge(MergedQueries(ps[..|ps| - 1]), QueryOf(ps[|ps| - 1].projection))
  }

  /** The combined query; `queryAll()` when there are no projections. */
  function CombinedQuery<S, D>(ps: seq<Named<S, D>>): Query {
    if ps == [] then QueryAll() else MergedQueries(ps)
  }

  /** The combined query matches an event iff some projection's query does. */
  lemma {:induction false} CombinedQueryMatches<S, D>(ps: seq<Named<S, D>>, e: Event<D>)
    requires ps != []
    ensures Matches(CombinedQuery(ps), e) <==> exists k :: 0 <= k < |ps| && Matches(QueryOf(ps[k].projection), e)
  {
    if |ps| > 1 {
      var prefix := ps[..|ps| - 1];
      CombinedQueryMatches(prefix, e);
      MergeMatches(MergedQueries(prefix), QueryOf(ps[|ps| - 1].projection), e);
      if exists k :: 0 <= k < |ps| && Matches(QueryOf(ps[k].projection), e) {
        var k :| 0 <= k < |ps| && Matches(QueryOf(ps[k].projection), e);
        if k < |ps| - 1 { assert prefix[k] == ps[k]; }
      }
      if exists k :: 0 <= k < |prefix| && Matches(QueryOf(prefix[k].projection), e) {
        var k :| 0 <= k < |prefix| && Matches(QueryOf(prefix[k].projection), e);
        assert prefix[k] == ps[k];
      }
    }
  }

  /**
   * `v ?? p.initialState`; `nullish` tells which slice values are `null` or `undefined` (a missing key reads
   * as `undefined`, see `Slice`).
   */
  function OrInitial<S, D>(nullish: S -> bool, p: Projection<S, D>, v: S): S {
    if nullish(v) then p.initialState else v
  }

  /** `state[name] ?? projection.initialState`. */
  function Slice<S, D>(nullish: S -> bool, state: map<string, S>, n: Named<S, D>): S {
    if n.name in state then OrInitial(nullish, n.projection, state[n.name]) else n.projection.initialState
  }

  /** The sub-projection's new slice differs from the old one (the source's `!==`, as value inequality). */
  predicate Changed<S(==), D>(nullish: S -> bool, n: Named<S, D>, state: map<string, S>, e: SequencedEvent<D>) {
    Apply(n.projection, Slice(nullish, state, n), e) != Slice(nullish, state, n)
  }

  /** The copy of `state` with every changed slice replaced, in the order of the record. */
  function UpdatedSlices<S(==), D>(nullish: S -> bool, ps: seq<Named<S, D>>, state: map<string, S>, e: SequencedEvent<D>): map<string, S> {
    if ps == [] then state
    else
      var n := ps[|ps| - 1];
      var prev := UpdatedSlices(nullish, ps[..|ps| - 1], state, e);
      if Changed(nullish, n, state, e) then prev[n.name := Apply(n.projection, Slice(nullish, state, n), e)] else prev
  }

  /** The composite `apply`: the same state when the event misses the combined query or nothing changed. */
  function CompositeApply<S(==), D>(nullish: S -> bool, ps: seq<Named<S, D>>, state: map<string, S>, e: SequencedEvent<D>): map<string, S> {
    if !Matches(CombinedQuery(ps), e.event) then state
    else if exists k :: 0 <= k < |ps| && Changed(nullish, ps[k], state, e) then UpdatedSlices(nullish, ps, state, e)
    else state
  }

  /** One more entry of the record: its slice is replaced exactly when it changed. */
  lemma UpdatedSlicesStep<S, D>(nullish: S -> bool, ps: seq<Named<S, D>>, state: map<string, S>, e: SequencedEvent<D>, i: nat)
    requires i < |ps|
    ensures UpdatedSlices(nullish, ps[..i + 1], state, e) ==
      if Changed(nullish, ps[i], state, e)
      then UpdatedSlices(nullish, ps[..i], state, e)[ps[i].name := Apply(ps[i].projection, Slice(nullish, state, ps[i]), e)]
      else UpdatedSlices(nullish, ps[..i], state, e)
    ensures (exists k :: 0 <= k < i + 1 && Changed(nullish, ps[k], state, e))
      <==> (exists k :: 0 <= k < i && Changed(nullish, ps[k], state, e)) || Changed(nullish, ps[i], state, e)
  {
    assert ps[..i + 1][..i] == ps[..i];
  }

  /** A name no entry carries is left alone by the slice updates. */
  lemma {:induction false} UpdatedSlicesOther<S, D>(nullish: S -> bool, ps: seq<Named<S, D>>, state: map<string, S>, e: SequencedEvent<D>, name: string)
    requires forall k :: 0 <= k < |ps| ==> ps[k].name != name
    ensures name in UpdatedSlices(nullish, ps, state, e) <==> name in state
    ensures name in state ==> UpdatedSlices(nullish, ps, state, e)[name] == state[name]
  {
    if ps != [] {
      UpdatedSlicesOther(nullish, ps[..|ps| - 1], state, e, name);
    }
  }

  /** A slice as read is already past `?? initialState`: applying it again changes nothing. */
  lemma SliceIsOrInitial<S, D>(nullish: S -> bool, state: map<string, S>, n: Named<S, D>)
    ensures OrInitial(nullish, n.projection, Slice(nullish, state, n)) == Slice(nullish, state, n)
  {
  }

  /**
   * Each named slice after the updates, as the next event reads it, is that projection applied to its old
   * slice and then passed through `?? initialState`.
   */
  lemma {:induction false} UpdatedSlicesAt<S, D>(nullish: S -> bool, ps: seq<Named<S, D>>, state: map<string, S>, e: SequencedEvent<D>, k: nat)
    requires DistinctNames(ps) && k < |ps|
    ensures Slice(nullish, UpdatedSlices(nullish, ps, state, e), ps[k])
      == OrInitial(nullish, ps[k].projection, Apply(ps[k].projection, Slice(nullish, state, ps[k]), e))
  {
    var prefix := ps[..|ps| - 1];
    if k == |ps| - 1 {
      UpdatedSlicesOther(nullish, prefix, state, e, ps[k].name);
      SliceIsOrInitial(nullish, state, ps[k]);
    } else {
      assert prefix[k] == ps[k];
      UpdatedSlicesAt(nullish, prefix, state, e, k);
    }
  }

  /** The raw value the updates store under a name: the new slice when it changed, else the old value. */
  lemma {:induction false} UpdatedSlicesRaw<S, D>(nullish: S -> bool, ps: seq<Named<S, D>>, state: map<string, S>, e: SequencedEvent<D>, k: nat)
    requires DistinctNames(ps) && k < |ps| && ps[k].name in state
    ensures ps[k].name in UpdatedSlices(nullish, ps, state, e)
    ensures UpdatedSlices(nullish, ps, state, e)[ps[k].name]
      == if Changed(nullish, ps[k], state, e) then Apply(ps[k].projection, Slice(nullish, state, ps[k]), e) else state[ps[k].name]
  {
    var prefix := ps[..|ps| - 1];
    if k == |ps| - 1 {
      UpdatedSlicesOther(nullish, prefix, state, e, ps[k].name);
    } else {
      assert prefix[k] == ps[k];
      UpdatedSlicesRaw(nullish, prefix, state, e, k);
    }
  }

  /** The slice updates add no key other than the projections' names. */
  lemma {:induction false} UpdatedSlicesKeys<S, D>(nullish: S -> bool, ps: seq<Named<S, D>>, state: map<string, S>, e: SequencedEvent<D>)
    ensures state.Keys <= UpdatedSlices(nullish, ps, state, e).Keys <= state.Keys + NameSet(ps)
  {
    if ps != [] {
      UpdatedSlicesKeys(nullish, ps[..|ps| - 1], state, e);
      var prefix := ps[..|ps| - 1];
      assert NameSet(prefix) <= NameSet(ps) by {
        forall k | 0 <= k < |prefix| ensures prefix[k].name in NameSet(ps) {
          assert prefix[k] == ps[k];
        }
      }
    }
  }

  /** For one event, the composite gives each sub-projection its own `apply`, followed by `?? initialState`. */
  lemma CompositeApplySlice<S, D>(nullish: S -> bool, ps: seq<Named<S, D>>, state: map<string, S>, e: SequencedEvent<D>, k: nat)
    requires DistinctNames(ps) && k < |ps|
    ensures Slice(nullish, CompositeApply(nullish, ps, state, e), ps[k])
      == OrInitial(nullish, ps[k].projection, Apply(ps[k].projection, Slice(nullish, state, ps[k]), e))
  {
    SliceIsOrInitial(nullish, state, ps[k]);
    if !Matches(CombinedQuery(ps), e.event) {
      CombinedQueryMatches(ps, e.event);
      assert !Matches(QueryOf(ps[k].projection), e.event);
    } else if exists j :: 0 <= j < |ps| && Changed(nullish, ps[j], state, e) {
      UpdatedSlicesAt(nullish, ps, state, e, k);
    } else {
      assert !Changed(nullish, ps[k], state, e);
    }
  }

  /** A stored value that `?? initialState` leaves alone is replaced by its projection's `apply` of it. */
  lemma CompositeApplyRaw<S, D>(nullish: S -> bool, ps: seq<Named<S, D>>, state: map<string, S>, e: SequencedEvent<D>, k: nat)
    requires DistinctNames(ps) && k < |ps| && ps[k].name in state
    requires OrInitial(nullish, ps[k].projection, state[ps[k].name]) == state[ps[k].name]
    ensures ps[k].name in CompositeApply(nullish, ps, state, e)
    ensures CompositeApply(nullish, ps, state, e)[ps[k].name] == Apply(ps[k].projection, state[ps[k].name], e)
  {
    if !Matches(CombinedQuery(ps), e.event) {
      CombinedQueryMatches(ps, e.event);
      assert !Matches(QueryOf(ps[k].projection), e.event);
    } else if exists j :: 0 <= j < |ps| && Changed(nullish, ps[j], state, e) {
      UpdatedSlicesRaw(nullish, ps, state, e, k);
    } else {
      assert !Changed(nullish, ps[k], state, e);
    }
  }

  /** The composite `apply` keeps the keys it is given and adds at most the projections' names. */
  lemma CompositeApplyKeys<S, D>(nullish: S -> bool, ps: seq<Named<S, D>>, state: map<string, S>, e: SequencedEvent<D>)
    ensures state.Keys <= CompositeApply(nullish, ps, state, e).Keys <= state.Keys + NameSet(ps)
  {
    UpdatedSlicesKeys(nullish, ps, state, e);
  }

  /** Folding events through the composite projection, from `state`. */
  function CompositeFold<S(==), D>(nullish: S -> bool, ps: seq<Named<S, D>>, state: map<string, S>, events: seq<SequencedEvent<D>>): map<string, S>
    decreases |events|
  {
    if events == [] then state
    else CompositeApply(nullish, ps, CompositeFold(nullish, ps, state, events[..|events| - 1]), events[|events| - 1])
  }

  /** One projection folded the way the composite feeds it: every result passes through `?? initialState`. */
  function FoldOrInitial<S, D>(nullish: S -> bool, p: Projection<S, D>, state: S, events: seq<SequencedEvent<D>>): S
    decreases |events|
  {
    if events == [] then state
    else OrInitial(nullish, p, Apply(p, FoldOrInitial(nullish, p, state, events[..|events| - 1]), events[|events| - 1]))
  }

  /** Folding through the composite gives each name the slice its projection computes under `?? initialState`. */
  lemma {:induction false} CompositeFoldSlice<S, D>(nullish: S -> bool, ps: seq<Named<S, D>>, state: map<string, S>, events: seq<SequencedEvent<D>>, k: nat)
    requires DistinctNames(ps) && k < |ps|
    ensures Slice(nullish, CompositeFold(nullish, ps, state, events), ps[k])
      == FoldOrInitial(nullish, ps[k].projection, Slice(nullish, state, ps[k]), events)
    decreases |events|
  {
    if events != [] {
      var prefix := events[..|events| - 1];
      CompositeFoldSlice(nullish, ps, state, prefix, k);
      CompositeApplySlice(nullish, ps, CompositeFold(nullish, ps, state, prefix), events[|events| - 1], k);
    }
  }

  /** From the initial state, the keys of the folded composite state are exactly the names. */
  lemma {:induction false} CompositeFoldKeys<S, D>(nullish: S -> bool, ps: seq<Named<S, D>>, events: seq<SequencedEvent<D>>)
    ensures CompositeFold(nullish, ps, InitialState(ps), events).Keys == NameSet(ps)
    decreases |events|
  {
    if events != [] {
      var prefix := events[..|events| - 1];
      CompositeFoldKeys(nullish, ps, prefix);
      CompositeApplyKeys(nullish, ps, CompositeFold(nullish, ps, InitialState(ps), prefix), events[|events| - 1]);
    }
  }

  /**
   * Key invariant: after any events, the composite state holds every name, and the slice read for it is
   * that projection's own fold under `?? initialState`.
   */
  lemma CompositionPreservesProjections<S, D>(nullish: S -> bool, ps: seq<Named<S, D>>, events: seq<SequencedEvent<D>>, k: nat)
    requires DistinctNames(ps) && k < |ps|
    ensures var r := CompositeFold(nullish, ps, InitialState(ps), events);
      && ps[k].name in r
      && Slice(nullish, r, ps[k]) == FoldOrInitial(nullish, ps[k].projection, ps[k].projection.initialState, events)
  {
    CompositeFoldKeys(nullish, ps, events);
    CompositeFoldSlice(nullish, ps, InitialState(ps), events, k);
    InitialStateSlices(ps, k);
  }

  /**
   * When the projection folded alone never reaches a nullish state after an event, the composite's
   * `?? initialState` never fires and its slice is the lone fold.
   */
  lemma {:induction false} FoldOrInitialIsFold<S, D>(nullish: S -> bool, p: Projection<S, D>, state: S, events: seq<SequencedEvent<D>>)
    requires forall j :: 1 <= j <= |events| ==> !nullish(Fold(p, state, events[..j]))
    ensures FoldOrInitial(nullish, p, state, events) == Fold(p, state, events)
    decreases |events|
  {
    if events != [] {
      var prefix := events[..|events| - 1];
      forall j | 1 <= j <= |prefix| ensures !nullish(Fold(p, state, prefix[..j])) {
        assert prefix[..j] == events[..j];
      }
      FoldOrInitialIsFold(nullish, p, state, prefix);
      assert events[..|events|] == events;
    }
  }

  /**
   * When the projection folded alone never reaches a nullish state after an event, the value the composite
   * stores under its name, as `state.foo` reads it, is that lone fold.
   */
  lemma {:induction false} CompositeStateIsLoneFold<S, D>(nullish: S -> bool, ps: seq<Named<S, D>>, events: seq<SequencedEvent<D>>, k: nat)
    requires DistinctNames(ps) && k < |ps|
    requires forall j :: 1 <= j <= |events| ==> !nullish(Fold(ps[k].projection, ps[k].projection.initialState, events[..j]))
    ensures var r := CompositeFold(nullish, ps, InitialState(ps), events);
      && ps[k].name in r
      && r[ps[k].name] == Fold(ps[k].projection, ps[k].projection.initialState, events)
    decreases |events|
  {
    var p := ps[k].projection;
    assert ps[k].name in NameSet(ps);
    if events == [] {
      InitialStateSlices(ps, k);
    } else {
      var prefix := events[..|events| - 1];
      forall j | 1 <= j <= |prefix| ensures !nullish(Fold(p, p.initialState, prefix[..j])) {
        assert prefix[..j] == events[..j];
      }
      CompositeStateIsLoneFold(nullish, ps, prefix, k);
      if prefix != [] {
        assert events[..|prefix|] == prefix;
      }
      CompositeApplyRaw(nullish, ps, CompositeFold(nullish, ps, InitialState(ps), prefix), events[|events| - 1], k);
    }
  }

  /** A nullish result sends the composite's slice back to the initial state, where the lone fold keeps it. */
  lemma NullishResultRestarts<S, D>(nullish: S -> bool, p: Projection<S, D>, state: S, e: SequencedEvent<D>)
    requires nullish(Apply(p, state, e))
    ensures FoldOrInitial(nullish, p, state, [e]) == p.initialState
    ensures Fold(p, state, [e]) == Apply(p, state, e)
  {
    assert [e][..0] == [];
  }

  /** One pass of the loop in `ApplyComposite` keeps the copy and the flag in step with the specification. */
  lemma ApplyCompositeStep<S, D>(nullish: S -> bool, ps: seq<Named<S, D>>, state: map<string, S>, e: SequencedEvent<D>,
                                 i: nat, newState: map<string, S>, hasChanged: bool, oldSubState: S, newSubState: S)
    requires i < |ps| && newState == UpdatedSlices(nullish, ps[..i], state, e)
    requires hasChanged <==> exists k :: 0 <= k < i && Changed(nullish, ps[k], state, e)
    requires oldSubState == Slice(nullish, state, ps[i]) && newSubState == Apply(ps[i].projection, oldSubState, e)
    ensures oldSubState != newSubState ==> newState[ps[i].name := newSubState] == UpdatedSlices(nullish, ps[..i + 1], state, e)
    ensures oldSubState == newSubState ==> newState == UpdatedSlices(nullish, ps[..i + 1], state, e)
    ensures (hasChanged || oldSubState != newSubState) <==> exists k :: 0 <= k < i + 1 && Changed(nullish, ps[k], state, e)
  {
    UpdatedSlicesStep(nullish, ps, state, e, i);
  }

  /** After the loop: the flag picks between the copy and the original state as the specification does. */
  lemma ApplyCompositeDone<S, D>(nullish: S -> bool, ps: seq<Named<S, D>>, state: map<string, S>, e: SequencedEvent<D>,
                                 newState: map<string, S>, hasChanged: bool)
    requires Matches(CombinedQuery(ps), e.event)
    requires newState == UpdatedSlices(nullish, ps[..|ps|], state, e)
    requires hasChanged <==> exists k :: 0 <= k < |ps| && Changed(nullish, ps[k], state, e)
    ensures (if hasChanged then newState else state) == CompositeApply(nullish, ps, state, e)
  {
    assert ps[..|ps|] == ps;
  }

  /**
   * The composite `apply` as the source runs it: a shallow copy, a loop over the record that replaces the
   * slices that changed and raises `hasChanged`, and the original state when nothing changed.
   */
  method ApplyComposite<S(==), D>(nullish: S -> bool, ps: seq<Named<S, D>>, state: map<string, S>, e: SequencedEvent<D>)
    returns (r: map<string, S>)
    ensures r == CompositeApply(nullish, ps, state, e)
  {
    if !Matches(CombinedQuery(ps), e.event) {
      return state;
    }
    var hasChanged := false;
    var newState := state;
    var i := 0;
    while i < |ps|
      invariant 0 <= i <= |ps|
      invariant newState == UpdatedSlices(nullish, ps[..i], state, e)
      invariant hasChanged <==> exists k :: 0 <= k < i && Changed(nullish, ps[k], state, e)
    {
      var n := ps[i];
      var oldSubState := if n.name in state && !nullish(state[n.name]) then state[n.name] else n.projection.initialState;
      var newSubState := Apply(n.projection, oldSubState, e);
      ApplyCompositeStep(nullish, ps, state, e, i, newState, hasChanged, oldSubState, newSubState);
      if oldSubState != newSubState {
        newState := newState[n.name := newSubState];
        hasChanged := true;
      }
      i := i + 1;
    }
    ApplyCompositeDone(nullish, ps, state, e, newState, hasChanged);
    r := if hasChanged then newState else state;
  }
}
