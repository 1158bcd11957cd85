/**
 * The first docs template library: tag-scoped projections built from a type-to-reducer mapping, a
 * composite projection that rewrites every slice of its state object in place, and a decision model
 * that is only the folded state.
 */
module DocsLib {
  import opened Wrappers
  import opened EventStore
  import opened JsObject

  type Reducer<!S, !D> = (Option<S>, Event<D>) -> Option<S>

  /**
   * `projection(mapping, tag)`: `init` is the value `mapping.$init()` returns (`None` for a nullish one),
   * `mapping` holds the reducers of the other keys.
   */
  datatype TaggedProjection<!S, !D> = TaggedProjection(init: Option<S>, mapping: map<string, Reducer<S, D>>, tag: string)

  /** `projection.initialState()`: `mapping.$init() ?? null`. */
  function InitialSlice<S, D>(p: TaggedProjection<S, D>): Option<S> {
    p.init
  }

  /** `projection.apply(state, event)`: only events tagged with `tag` and of a mapped type are reduced. */
  function Apply<S, D>(p: TaggedProjection<S, D>, state: Option<S>, e: Event<D>): (r: Option<S>)
    ensures p.tag in e.tags && e.eventType in p.mapping ==> r == p.mapping[e.eventType](state, e)
    ensures (p.tag !in e.tags || e.eventType !in p.mapping) ==> r == state
  {
    if p.tag in e.tags && e.eventType in p.mapping then p.mapping[e.eventType](state, e) else state
  }

  /** One projection on its own over a sequence of events. */
  function Fold<S, D>(p: TaggedProjection<S, D>, state: Option<S>, events: seq<Event<D>>): Option<S>
    decreases |events|
  {
    if events == [] then state
    else Apply(p, Fold(p, state, events[..|events| - 1]), events[|events| - 1])
  }

  /** Events without the projection's tag never reach its reducers. */
  lemma {:induction false} UntaggedEventsIgnored<S, D>(p: TaggedProjection<S, D>, state: Option<S>, events: seq<Event<D>>)
    requires forall k :: 0 <= k < |events| ==> p.tag !in events[k].tags
    ensures Fold(p, state, events) == state
    decreases |events|
  {
    if events != [] {
      UntaggedEventsIgnored(p, state, events[..|events| - 1]);
    }
  }

  datatype NamedProjection<!S, !D> = NamedProjection(name: string, projection: TaggedProjection<S, D>)

  ghost predicate DistinctNames<S, D>(ps: seq<NamedProjection<S, D>>) {
    forall a, b :: 0 <= a < b < |ps| ==> ps[a].name != ps[b].name
  }

  function NameSet<S, D>(ps: seq<NamedProjection<S, D>>): set<string> {
    set k | 0 <= k < |ps| :: ps[k].name
  }

  /** The composite `initialState()`: each key mapped to its projection's `initialState()`. */
  function InitialState<S, D>(ps: seq<NamedProjection<S, D>>): (r: map<string, Option<S>>)
    ensures r.Keys == NameSet(ps)
  {
    if ps == [] then map[]
    else
      var last := ps[|ps| - 1];
      assert NameSet(ps) == NameSet(ps[..|ps| - 1]) + {last.name} by {
        assert forall k :: 0 <= k < |ps| - 1 ==> ps[..|ps| - 1][k] == ps[k];
      }
      InitialState(ps[..|ps| - 1])[last.name := InitialSlice(last.projection)]
  }

  lemma {:induction false} InitialStateAt<S, D>(ps: seq<NamedProjection<S, D>>, k: nat)
    requires DistinctNames(ps) && k < |ps|
    ensures Lookup(InitialState(ps), ps[k].name) == InitialSlice(ps[k].projection)
  {
    if k < |ps| - 1 {
      InitialStateAt(ps[..|ps| - 1], k);
    }
  }

  /** The `reduce` of the composite `apply`: every entry writes `apply(state[key] ?? null, event)`. */
  function ApplyAll<S, D>(ps: seq<NamedProjection<S, D>>, state: map<string, Option<S>>, e: Event<D>): map<string, Option<S>> {
    if ps == [] then state
    else
      var prev := ApplyAll(ps[..|ps| - 1], state, e);
      var n := ps[|ps| - 1];
      prev[n.name := Apply(n.projection, Lookup(prev, n.name), e)]
  }

  lemma {:induction false} ApplyAllOther<S, D>(ps: seq<NamedProjection<S, D>>, state: map<string, Option<S>>, e: Event<D>, name: string)
    requires forall k :: 0 <= k < |ps| ==> ps[k].name != name
    ensures name in ApplyAll(ps, state, e) <==> name in state
    ensures Lookup(ApplyAll(ps, state, e), name) == Lookup(state, name)
  {
    if ps != [] {
      ApplyAllOther(ps[..|ps| - 1], state, e, name);
    }
  }

  /** Every name becomes a key, even for a projection the event does not concern. */
  lemma {:induction false} ApplyAllKeys<S, D>(ps: seq<NamedProjection<S, D>>, state: map<string, Option<S>>, e: Event<D>)
    ensures ApplyAll(ps, state, e).Keys == state.Keys + NameSet(ps)
  {
    if ps != [] {
      var prefix := ps[..|ps| - 1];
      ApplyAllKeys(prefix, state, e);
      assert NameSet(ps) == NameSet(prefix) + {ps[|ps| - 1].name} by {
        assert forall k :: 0 <= k < |prefix| ==> prefix[k] == ps[k];
      }
    }
  }

  /** With distinct keys, each slice is its projection's `apply` on the old slice (`null` when missing). */
  lemma {:induction false} ApplyAllAt<S, D>(ps: seq<NamedProjection<S, D>>, state: map<string, Option<S>>, e: Event<D>, k: nat)
    requires DistinctNames(ps) && k < |ps|
    ensures Lookup(ApplyAll(ps, state, e), ps[k].name) == Apply(ps[k].projection, Lookup(state, ps[k].name), e)
  {
    var prefix := ps[..|ps| - 1];
    if k == |ps| - 1 {
      ApplyAllOther(prefix, state, e, ps[k].name);
    } else {
      assert prefix[k] == ps[k];
      ApplyAllAt(prefix, state, e, k);
    }
  }

  /** `events.reduce(apply, initialState())`. */
  function FoldAll<S, D>(ps: seq<NamedProjection<S, D>>, state: map<string, Option<S>>, events: seq<Event<D>>): map<string, Option<S>>
    decreases |events|
  {
    if events == [] then state
    else ApplyAll(ps, FoldAll(ps, state, events[..|events| - 1]), events[|events| - 1])
  }

  lemma {:induction false} FoldAllAt<S, D>(ps: seq<NamedProjection<S, D>>, state: map<string, Option<S>>, events: seq<Event<D>>, k: nat)
    requires DistinctNames(ps) && k < |ps|
    ensures Lookup(FoldAll(ps, state, events), ps[k].name) == Fold(ps[k].projection, Lookup(state, ps[k].name), events)
    decreases |events|
  {
    if events != [] {
      var prefix := events[..|events| - 1];
      FoldAllAt(ps, state, prefix, k);
      ApplyAllAt(ps, FoldAll(ps, state, prefix), events[|events| - 1], k);
    }
  }

  /** The decision state is the record of each projection's own fold from its initial slice. */
  lemma CompositionPreservesProjections<S, D>(ps: seq<NamedProjection<S, D>>, events: seq<Event<D>>, k: nat)
    requires DistinctNames(ps) && k < |ps|
    ensures Lookup(FoldAll(ps, InitialState(ps), events), ps[k].name) ==
      Fold(ps[k].projection, InitialSlice(ps[k].projection), events)
  {
    FoldAllAt(ps, InitialState(ps), events, k);
    InitialStateAt(ps, k);
  }

  /** The composite `apply`: assigns `state[key]` for every entry and returns the same object. */
  method CompositeApply<S, D>(ps: seq<NamedProjection<S, D>>, state: JsRecord<S>, e: Event<D>) returns (r: JsRecord<S>)
    modifies state
    ensures r == state
    ensures state.props == ApplyAll(ps, old(state.props), e)
  {
    var i := 0;
    while i < |ps|
      invariant 0 <= i <= |ps|
      invariant state.props == ApplyAll(ps[..i], old(state.props), e)
    {
      assert ps[..i + 1][..i] == ps[..i];
      state.Set(ps[i].name, Apply(ps[i].projection, Lookup(state.props, ps[i].name), e));
      i := i + 1;
    }
    assert ps[..i] == ps;
    r := state;
  }

  /** `buildDecisionModel(projections)` over the page's `events`: only the folded state. */
  method BuildDecisionModel<S, D>(ps: seq<NamedProjection<S, D>>, events: seq<Event<D>>) returns (state: JsRecord<S>)
    ensures fresh(state)
    ensures state.props == FoldAll(ps, InitialState(ps), events)
  {
    state := new JsRecord(InitialState(ps));
    var i := 0;
    while i < |events|
      invariant 0 <= i <= |events|
      invariant fresh(state)
      invariant state.props == FoldAll(ps, InitialState(ps), events[..i])
    {
      assert events[..i + 1][..i] == events[..i];
      state := CompositeApply(ps, state, events[i]);
      i := i + 1;
    }
    assert events[..i] == events;
  }
}
