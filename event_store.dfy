/**
 * The query model of the Dynamic Consistency Boundary (DCB) library: events, sequenced events,
 * query items, queries, and the `merge` of two queries.
 *
 * A query item restricts by event type and by tags.  The TypeScript item fields are arrays, but they are
 * only ever consulted with `includes` and `every`, so they are modelled as sets.
 */
module EventStore {
  import opened Wrappers

  /** An event that can be stored: `type` is a keyword in Dafny, so the field is `eventType`. */
  datatype Event<D> = Event(data: D, eventType: string, tags: seq<string>)

  /** A stored event: the event plus the position the store assigned to it. */
  datatype SequencedEvent<D> = SequencedEvent(event: Event<D>, position: int)

  /** One item of a query; `None` stands for an absent (undefined) field. */
  datatype QueryItem = QueryItem(types: Option<set<string>>, tags: Option<set<string>>)

  /** An item matches an event whose type it lists (or it lists none) and that carries all its tags. */
  predicate ItemMatches<D>(item: QueryItem, e: Event<D>) {
    && (item.types.None? || e.eventType in item.types.value)
    && (item.tags.None? || forall tag :: tag in item.tags.value ==> tag in e.tags)
  }

  /** A query: its items are OR-combined; no items at all is the wildcard produced by `queryAll`. */
  datatype Query = Query(items: seq<QueryItem>)

  predicate IsWildcard(q: Query) {
    q.items == []
  }

  /** Some item of `q` matches `e`, or `q` is the wildcard (whose `matchesEvent` is constantly true). */
  predicate Matches<D>(q: Query, e: Event<D>) {
    IsWildcard(q) || exists k :: 0 <= k < |q.items| && ItemMatches(q.items[k], e)
  }

  /** `createQuery(items)`: the tuple type of its argument demands at least one item. */
  function CreateQuery(items: seq<QueryItem>): (q: Query)
    requires |items| > 0
    ensures !IsWildcard(q) && q.items == items
  {
    Query(items)
  }

  /** `queryAll()`: the wildcard. */
  function QueryAll(): (q: Query)
    ensures IsWildcard(q)
  {
    Query([])
  }

  /**
   * `q.merge(other)`.  The wildcard's own `merge` returns the wildcard; a created query returns `other`
   * itself when `other` is the wildcard, and otherwise a query over both item lists.
   */
  function Merge(q: Query, other: Query): (r: Query)
    ensures IsWildcard(q) || IsWildcard(other) <==> IsWildcard(r)
    ensures !IsWildcard(r) ==> r.items == q.items + other.items
  {
    if IsWildcard(q) then QueryAll()
    else if IsWildcard(other) then other
    else CreateQuery(q.items + other.items)
  }

  /** An item with `types: []` is truthy but lists no type, so it matches no event at all. */
  lemma EmptyTypesMatchNothing<D>(tags: Option<set<string>>, e: Event<D>)
    ensures !ItemMatches(QueryItem(Some({}), tags), e)
  {
  }

  /** The wildcard matches every event. */
  lemma QueryAllMatches<D>(e: Event<D>)
    ensures Matches(QueryAll(), e)
  {
  }

  /** Merging is a union for matching: the merged query matches exactly what either query matches. */
  lemma MergeMatches<D>(q1: Query, q2: Query, e: Event<D>)
    ensures Matches(Merge(q1, q2), e) <==> Matches(q1, e) || Matches(q2, e)
  {
    if !IsWildcard(q1) && !IsWildcard(q2) {
      var items := q1.items + q2.items;
      if Matches(q1, e) {
        var k :| 0 <= k < |q1.items| && ItemMatches(q1.items[k], e);
        assert items[k] == q1.items[k];
      } else if Matches(q2, e) {
        var k :| 0 <= k < |q2.items| && ItemMatches(q2.items[k], e);
        assert items[|q1.items| + k] == q2.items[k];
      }
      if Matches(Merge(q1, q2), e) {
        var k :| 0 <= k < |items| && ItemMatches(items[k], e);
        if k < |q1.items| {
          assert items[k] == q1.items[k];
        } else {
          assert items[k] == q2.items[k - |q1.items|];
        }
      }
    }
  }

  /** The wildcard absorbs on both sides. */
  lemma WildcardAbsorbs(q: Query)
    ensures Merge(QueryAll(), q) == QueryAll() && Merge(q, QueryAll()) == QueryAll()
  {
  }

  /** Merging is associative, not only in what it matches but in the resulting item list. */
  lemma MergeAssociative(q1: Query, q2: Query, q3: Query)
    ensures Merge(Merge(q1, q2), q3) == Merge(q1, Merge(q2, q3))
  {
    if !IsWildcard(q1) && !IsWildcard(q2) && !IsWildcard(q3) {
      assert (q1.items + q2.items) + q3.items == q1.items + (q2.items + q3.items);
    }
  }

  /** Merging is commutative in what it matches (the item order differs). */
  lemma MergeCommutesForMatching<D>(q1: Query, q2: Query, e: Event<D>)
    ensures Matches(Merge(q1, q2), e) == Matches(Merge(q2, q1), e)
  {
    MergeMatches(q1, q2, e);
    MergeMatches(q2, q1, e);
  }

  /** The event returned by `addEventMetadata`: the fields of the event plus `metadata`. */
  datatype EventWithMetadata<D, M> = EventWithMetadata(event: Event<D>, metadata: M)

  function AddEventMetadata<D, M>(e: Event<D>, metadata: M): (r: EventWithMetadata<D, M>)
    ensures r.event == e && r.metadata == metadata
  {
    EventWithMetadata(e, metadata)
  }
}
