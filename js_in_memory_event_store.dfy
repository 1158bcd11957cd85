/**
 * The stream-based in-memory store: events live in named streams, each stream numbers its own events
 * from 1, and an append may name the stream length it expects (`streamState`).
 */
module JsInMemoryEventStore {
  import opened Wrappers
  import opened Strings

  /** A stored event: the supplied event with its per-stream `position`. */
  datatype StreamEvent<E> = StreamEvent(event: E, position: int)

  /** The `events` argument: a single event or an array of them. */
  datatype StreamEvents<E> = OneEvent(event: E) | EventArray(events: seq<E>)

  function AsArray<E>(events: StreamEvents<E>): (r: seq<E>)
    ensures events.OneEvent? ==> r == [events.event]
    ensures events.EventArray? ==> r == events.events
  {
    match events
    case OneEvent(e) => [e]
    case EventArray(es) => es
  }

  datatype StreamStateError = UnexpectedStreamState(expected: int, actual: int, streamName: string)

  function Message(e: StreamStateError): string {
    "Expected stream state to be " + IntToString(e.expected) + " but it was " + IntToString(e.actual) +
      " for stream \"" + e.streamName + "\""
  }

  /** `streams[name] || []`. */
  function StreamOf<E>(streams: map<string, seq<StreamEvent<E>>>, name: string): seq<StreamEvent<E>> {
    if name in streams then streams[name] else []
  }

  /** `streamState && pos !== streamState`: 0 and an absent state skip the check. */
  function CheckStreamState(current: nat, streamState: Option<int>, streamName: string): (r: Option<StreamStateError>)
    ensures r.None? <==> streamState.None? || streamState.value == 0 || streamState.value == current
    ensures r.Some? ==> r.value == UnexpectedStreamState(streamState.value, current, streamName)
  {
    if streamState.Some? && streamState.value != 0 && current != streamState.value then
      Some(UnexpectedStreamState(streamState.value, current, streamName))
    else None
  }

  /** The events of a batch numbered `start, start + 1, …` in array order. */
  function Positioned<E>(events: seq<E>, start: int): (r: seq<StreamEvent<E>>)
    ensures |r| == |events|
    ensures forall k :: 0 <= k < |events| ==> r[k] == StreamEvent(events[k], start + k)
  {
    seq(|events|, k requires 0 <= k < |events| => StreamEvent(events[k], start + k))
  }

  /** The streams after `appendToStream`: the stream always exists afterwards, even when the check fails. */
  function AfterAppend<E>(streams: map<string, seq<StreamEvent<E>>>, name: string, events: seq<E>, streamState: Option<int>): map<string, seq<StreamEvent<E>>> {
    var stream := StreamOf(streams, name);
    if CheckStreamState(|stream|, streamState, name).Some? then streams[name := stream]
    else streams[name := stream + Positioned(events, |stream| + 1)]
  }

  ghost predicate StreamGapless<E>(stream: seq<StreamEvent<E>>) {
    forall k :: 0 <= k < |stream| ==> stream[k].position == k + 1
  }

  ghost predicate AllGapless<E>(streams: map<string, seq<StreamEvent<E>>>) {
    forall name :: name in streams ==> StreamGapless(streams[name])
  }

  /** Every stream stays numbered 1, 2, … after any append, successful or not. */
  lemma AppendKeepsStreamsGapless<E>(streams: map<string, seq<StreamEvent<E>>>, name: string, events: seq<E>, streamState: Option<int>)
    requires AllGapless(streams)
    ensures AllGapless(AfterAppend(streams, name, events, streamState))
  {
    var stream := StreamOf(streams, name);
    var grown := stream + Positioned(events, |stream| + 1);
    assert StreamGapless(grown) by {
      forall k | 0 <= k < |grown| ensures grown[k].position == k + 1 {
        if k < |stream| {
          assert grown[k] == stream[k];
        } else {
          assert grown[k] == Positioned(events, |stream| + 1)[k - |stream|];
        }
      }
    }
  }

  /** An append changes at most the named stream: the others keep their names and events. */
  lemma AppendTouchesOnlyItsStream<E>(streams: map<string, seq<StreamEvent<E>>>, name: string, events: seq<E>, streamState: Option<int>, other: string)
    requires other != name
    ensures other in AfterAppend(streams, name, events, streamState) <==> other in streams
    ensures other in streams ==> AfterAppend(streams, name, events, streamState)[other] == streams[other]
  {
  }

  /** A stream's last position is its length, so passing it as `streamState` is accepted. */
  lemma LastPositionIsAccepted<E>(stream: seq<StreamEvent<E>>, name: string)
    requires StreamGapless(stream) && stream != []
    ensures CheckStreamState(|stream|, Some(stream[|stream| - 1].position), name).None?
  {
  }

  /**
   * Optimistic concurrency: a writer that read a non-empty stream of length `n` is rejected once another
   * writer has appended to that stream.
   */
  lemma StaleStreamStateRejected<E>(streams: map<string, seq<StreamEvent<E>>>, name: string, others: seq<E>, otherState: Option<int>, mine: seq<E>)
    requires |StreamOf(streams, name)| > 0 && |others| > 0
    requires CheckStreamState(|StreamOf(streams, name)|, otherState, name).None?
    ensures var after := AfterAppend(streams, name, others, otherState);
      CheckStreamState(|StreamOf(after, name)|, Some(|StreamOf(streams, name)|), name) ==
        Some(UnexpectedStreamState(|StreamOf(streams, name)|, |StreamOf(streams, name)| + |others|, name))
  {
  }

  /** `events.map((e) => ({...e, position: ++pos}))`, with the counter starting at `pos`. */
  method Number<E>(batch: seq<E>, pos: int) returns (positioned: seq<StreamEvent<E>>)
    ensures positioned == Positioned(batch, pos + 1)
  {
    positioned := [];
    var counter := pos;
    var i := 0;
    while i < |batch|
      invariant 0 <= i <= |batch|
      invariant counter == pos + i
      invariant |positioned| == i
      invariant forall k :: 0 <= k < i ==> positioned[k] == StreamEvent(batch[k], pos + 1 + k)
    {
      counter := counter + 1;
      positioned := positioned + [StreamEvent(batch[i], counter)];
      i := i + 1;
    }
  }

  /** The JavaScript `InMemoryEventStore` with its private `#eventsByStreamName` dictionary. */
  class InMemoryEventStore<E> {
    var eventsByStreamName: map<string, seq<StreamEvent<E>>>

    ghost predicate Valid()
      reads this
    {
      AllGapless(eventsByStreamName)
    }

    constructor ()
      ensures Valid() && eventsByStreamName == map[]
    {
      eventsByStreamName := map[];
    }

    /** `readStream(name)`: the stream's events, or `[]` for a stream never appended to. */
    method ReadStream(streamName: string) returns (r: seq<StreamEvent<E>>)
      ensures r == StreamOf(eventsByStreamName, streamName)
      ensures streamName !in eventsByStreamName ==> r == []
    {
      if streamName in eventsByStreamName {
        r := eventsByStreamName[streamName];
      } else {
        r := [];
      }
    }

    /** `appendToStream(name, events, {streamState})`: a failed check throws after creating the stream. */
    method AppendToStream(streamName: string, events: StreamEvents<E>, streamState: Option<int>) returns (failure: Option<StreamStateError>)
      requires Valid()
      modifies this
      ensures Valid()
      ensures failure == CheckStreamState(|StreamOf(old(eventsByStreamName), streamName)|, streamState, streamName)
      ensures eventsByStreamName == AfterAppend(old(eventsByStreamName), streamName, AsArray(events), streamState)
    {
      AppendKeepsStreamsGapless(eventsByStreamName, streamName, AsArray(events), streamState);
      if streamName !in eventsByStreamName {
        eventsByStreamName := eventsByStreamName[streamName := []];
      }
      var stream := eventsByStreamName[streamName];
      var pos := |stream|;
      if streamState.Some? && streamState.value != 0 && pos != streamState.value {
        return Some(UnexpectedStreamState(streamState.value, pos, streamName));
      }
      var positioned := Number(AsArray(events), pos);
      eventsByStreamName := eventsByStreamName[streamName := stream + positioned];
      failure := None;
    }
  }
}
