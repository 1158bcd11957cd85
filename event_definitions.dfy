/** `EventDefinitions`: the event types a scenario knows, a readonly list looked up by name. */
module EventDefinitions {
  import opened Wrappers
  import NamedList

  /** An event definition; its payload schema is not modelled. */
  datatype EventDefinition = EventDefinition(name: string, tagResolvers: seq<string>, icon: Option<string>)

  datatype EventDefinitions = EventDefinitions(items: seq<EventDefinition>)

  function NameOf(x: EventDefinition): string {
    x.name
  }

  /** `map($callback)`: one result per event definition, in order. */
  function Map<U>(c: EventDefinitions, f: EventDefinition -> U): (r: seq<U>)
    ensures |r| == |c.items|
    ensures forall k :: 0 <= k < |r| ==> r[k] == f(c.items[k])
  {
    seq(|c.items|, k requires 0 <= k < |c.items| => f(c.items[k]))
  }

  /** `map(fn ($d) => $d->name)()`: the names in order. */
  function Names(c: EventDefinitions): (r: seq<string>)
    ensures |r| == |c.items|
    ensures forall k :: 0 <= k < |r| ==> r[k] == c.items[k].name
  {
    NamedList.Names(c.items, NameOf)
  }

  /** `exists($name)`. */
  function Exists(c: EventDefinitions, name: string): (r: bool)
    ensures r <==> exists k :: 0 <= k < |c.items| && c.items[k].name == name
    ensures r <==> name in Names(c)
  {
    NamedList.Find(c.items, NameOf, name).Some?
  }

  function UnknownMessage(name: string): string {
    "Unknown event type \"" + name + "\""
  }

  /** `get($name)`: the first event definition with that name. */
  function Get(c: EventDefinitions, name: string): (r: Result<EventDefinition, string>)
    ensures r.Ok? <==> name in Names(c)
    ensures r.Ok? ==> r.value.name == name && r.value == c.items[NamedList.FindIndex(c.items, NameOf, name)]
    ensures r.Err? ==> r.error == UnknownMessage(name)
  {
    var candidate := NamedList.Find(c.items, NameOf, name);
    if candidate.Some? then Ok(candidate.value) else Err(UnknownMessage(name))
  }

  /** `only(...$names)`: exactly the event definitions whose name is listed, in order. */
  function Only(c: EventDefinitions, names: seq<string>): (r: EventDefinitions)
    ensures |r.items| <= |c.items|
    ensures forall x :: x in r.items <==> x in c.items && x.name in names
    ensures forall name :: name in names ==> Get(r, name) == Get(c, name)
  {
    var r := EventDefinitions(NamedList.Only(c.items, NameOf, names));
    assert forall x :: x in r.items <==> x in c.items && x.name in names by {
      forall x ensures x in r.items <==> x in c.items && x.name in names {
        NamedList.OnlyContents(c.items, NameOf, names, x);
      }
    }
    assert forall name :: name in names ==> Get(r, name) == Get(c, name) by {
      forall name | name in names ensures Get(r, name) == Get(c, name) {
        NamedList.FindOnly(c.items, NameOf, names, name);
      }
    }
    r
  }

  /** Filtering by a list of names keeps a listed name exactly when the collection has it. */
  lemma OnlyKeepsListed(c: EventDefinitions, names: seq<string>, name: string)
    requires name in names
    ensures Exists(Only(c, names), name) == Exists(c, name)
  {
  }

}
