/**
 * `ProjectionHandlers`: the handler code of one projection, keyed by event type, in insertion order.
 * PHP turns a key such as "42" into the integer 42, and the collection only accepts string keys.
 */
module ProjectionHandlers {
  import opened Wrappers
  import opened Strings

  /** One `'<EventType>' => '<code>'` entry. */
  datatype Entry = Entry(eventType: string, code: string)

  datatype ProjectionHandlers = ProjectionHandlers(entries: seq<Entry>)

  datatype HandlersError = NotAMap | VirtualEventType | HandlerExists(eventType: string)

  function Message(e: HandlersError): string {
    match e
    case NotAMap => "Handlers must be indexed by event type (string)"
    case VirtualEventType => "Virtual event types are not allowed"
    // `keyNotExists` formats the key with the assertion library's quoting, so it appears in doubled quotes.
    case HandlerExists(t) => "Handler for event type \"\"" + t + "\"\" already exists"
  }

  predicate IsDigit(c: char) {
    '0' <= c <= '9'
  }

  /** Digits without a leading zero, as in "7" or "120". */
  predicate IsPositiveDecimal(d: string) {
    |d| > 0 && '1' <= d[0] <= '9' && forall k :: 0 <= k < |d| ==> IsDigit(d[k])
  }

  /** A decimal integer in canonical form: PHP stores an array key written like this as an integer. */
  predicate IsIntegerKey(s: string) {
    s == "0" || IsPositiveDecimal(s) || (|s| > 1 && s[0] == '-' && IsPositiveDecimal(s[1..]))
  }

  /** The keys of a PHP array are distinct. */
  predicate DistinctKeys(entries: seq<Entry>) {
    forall a, b :: 0 <= a < b < |entries| ==> entries[a].eventType != entries[b].eventType
  }

  /** What `fromArray` accepts: a map whose keys all stayed strings. */
  predicate Valid(h: ProjectionHandlers) {
    DistinctKeys(h.entries) && forall k :: 0 <= k < |h.entries| ==> !IsIntegerKey(h.entries[k].eventType)
  }

  /** `eventTypes()`: `array_keys` in insertion order. */
  function EventTypes(h: ProjectionHandlers): (r: seq<string>)
    ensures |r| == |h.entries|
    ensures forall k :: 0 <= k < |r| ==> r[k] == h.entries[k].eventType
  {
    seq(|h.entries|, k requires 0 <= k < |h.entries| => h.entries[k].eventType)
  }

  /** `fromArray(array)`: `Assert::isMap` rejects any integer key. */
  function FromArray(entries: seq<Entry>): (r: Result<ProjectionHandlers, HandlersError>)
    requires DistinctKeys(entries)
    ensures r.Ok? <==> forall k :: 0 <= k < |entries| ==> !IsIntegerKey(entries[k].eventType)
    ensures r.Ok? ==> Valid(r.value) && r.value.entries == entries
    ensures r.Err? ==> r.error == NotAMap
  {
    if forall k :: 0 <= k < |entries| ==> !IsIntegerKey(entries[k].eventType) then Ok(ProjectionHandlers(entries))
    else Err(NotAMap)
  }

  /**
   * `with(eventType, code)`: a new collection with the entry appended.  It rejects a `$` prefix, then an
   * existing key, and an event type PHP would store as an integer fails `fromArray`.
   */
  function With(h: ProjectionHandlers, eventType: string, code: string): (r: Result<ProjectionHandlers, HandlersError>)
    requires Valid(h)
    ensures StartsWith(eventType, "$") ==> r == Err(VirtualEventType)
    ensures !StartsWith(eventType, "$") && eventType in EventTypes(h) ==> r == Err(HandlerExists(eventType))
    ensures r.Ok? <==> !StartsWith(eventType, "$") && eventType !in EventTypes(h) && !IsIntegerKey(eventType)
    ensures r.Ok? ==> Valid(r.value) && EventTypes(r.value) == EventTypes(h) + [eventType]
    ensures r.Err? && !StartsWith(eventType, "$") && eventType !in EventTypes(h) ==> r.error == NotAMap
  {
    if StartsWith(eventType, "$") then Err(VirtualEventType)
    else if eventType in EventTypes(h) then Err(HandlerExists(eventType))
    else
      var entries := h.entries + [Entry(eventType, code)];
      assert DistinctKeys(entries) by {
        forall a, b | 0 <= a < b < |entries| ensures entries[a].eventType != entries[b].eventType {
          if b == |entries| - 1 {
            assert EventTypes(h)[a] == entries[a].eventType;
          }
        }
      }
      assert (forall k :: 0 <= k < |entries| ==> !IsIntegerKey(entries[k].eventType)) <==> !IsIntegerKey(eventType) by {
        assert entries[|entries| - 1].eventType == eventType;
        assert forall k :: 0 <= k < |h.entries| ==> entries[k] == h.entries[k];
      }
      var r := FromArray(entries);
      assert r.Ok? ==> EventTypes(r.value) == EventTypes(h) + [eventType];
      r
  }

  /** A numeric event type can never get a handler, whatever the collection holds. */
  lemma IntegerEventTypesRejected(h: ProjectionHandlers, code: string)
    requires Valid(h)
    ensures With(h, "42", code) == Err(NotAMap)
  {
    assert !StartsWith("42", "$");
    assert IsPositiveDecimal("42") by {
      assert forall k :: 0 <= k < |"42"| ==> IsDigit("42"[k]);
    }
    assert IsIntegerKey("42");
    assert forall k :: 0 <= k < |EventTypes(h)| ==> EventTypes(h)[k] != "42" by {
      forall k | 0 <= k < |EventTypes(h)| ensures EventTypes(h)[k] != "42" {
        assert EventTypes(h)[k] == h.entries[k].eventType;
        assert !IsIntegerKey(h.entries[k].eventType);
      }
    }
  }

  /** Adding handlers one after another lists their event types in that order. */
  lemma WithTwice(h: ProjectionHandlers, t1: string, c1: string, t2: string, c2: string)
    requires Valid(h)
    requires With(h, t1, c1).Ok?
    requires With(With(h, t1, c1).value, t2, c2).Ok?
    ensures EventTypes(With(With(h, t1, c1).value, t2, c2).value) == EventTypes(h) + [t1, t2]
    ensures t1 != t2
  {
  }
}
