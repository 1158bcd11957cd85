/** `CommandDefinitions`: the commands a scenario accepts, a readonly list looked up by name. */
module CommandDefinitions {
  import opened Wrappers
  import NamedList

  /** A command definition; its payload schema is not modelled. */
  datatype CommandDefinition = CommandDefinition(name: string)

  datatype CommandDefinitions = CommandDefinitions(items: seq<CommandDefinition>)

  function NameOf(x: CommandDefinition): string {
    x.name
  }

  /** `none()`. */
  function None(): (r: CommandDefinitions)
    ensures |r.items| == 0
  {
    CommandDefinitions([])
  }

  /** `map($callback)`: one result per command definition, in order. */
  function Map<U>(c: CommandDefinitions, f: CommandDefinition -> U): (r: seq<U>)
    ensures |r| == |c.items|
    ensures forall k :: 0 <= k < |r| ==> r[k] == f(c.items[k])
  {
    seq(|c.items|, k requires 0 <= k < |c.items| => f(c.items[k]))
  }

  /** `names()`: the names in order. */
  function Names(c: CommandDefinitions): (r: seq<string>)
    ensures |r| == |c.items|
    ensures forall k :: 0 <= k < |r| ==> r[k] == c.items[k].name
  {
    NamedList.Names(c.items, NameOf)
  }

  /** `exists($name)`. */
  function Exists(c: CommandDefinitions, name: string): (r: bool)
    ensures r <==> exists k :: 0 <= k < |c.items| && c.items[k].name == name
    ensures r <==> name in Names(c)
  {
    NamedList.Find(c.items, NameOf, name).Some?
  }

  function UnknownMessage(name: string): string {
    "Unknown command type \"" + name + "\""
  }

  /** `get($name)`: the first command definition with that name. */
  function Get(c: CommandDefinitions, name: string): (r: Result<CommandDefinition, string>)
    ensures r.Ok? <==> name in Names(c)
    ensures r.Ok? ==> r.value.name == name && r.value == c.items[NamedList.FindIndex(c.items, NameOf, name)]
    ensures r.Err? ==> r.error == UnknownMessage(name)
  {
    var candidate := NamedList.Find(c.items, NameOf, name);
    if candidate.Some? then Ok(candidate.value) else Err(UnknownMessage(name))
  }

  /** `only(...$names)`: exactly the command definitions whose name is listed, in order. */
  function Only(c: CommandDefinitions, names: seq<string>): (r: CommandDefinitions)
    ensures |r.items| <= |c.items|
    ensures forall x :: x in r.items <==> x in c.items && x.name in names
    ensures forall name :: name in names ==> Get(r, name) == Get(c, name)
  {
    var r := CommandDefinitions(NamedList.Only(c.items, NameOf, names));
    assert forall x :: x in r.items <==> x in c.items && x.name in names by {
      forall x ensures x in r.items <==> x in c.items && x.name in names {
        NamedList.OnlyContents(c.items, NameOf, names, x);
      }
    }
    assert forall name :: name in names ==> Get(r, name) == Get(c, name) by {
      forall name | name in names ensures Get(r, name) == Get(c, name) {
        NamedList.FindOnly(c.items, NameOf, names, name);
      }
    }
    r
  }

  /** Filtering by a list of names keeps a listed name exactly when the collection has it. */
  lemma OnlyKeepsListed(c: CommandDefinitions, names: seq<string>, name: string)
    requires name in names
    ensures Exists(Only(c, names), name) == Exists(c, name)
  {
  }

  /** `with($x)`: drops every command definition with `x`'s name and appends `x`. */
  function With(c: CommandDefinitions, x: CommandDefinition): (r: CommandDefinitions)
    ensures |r.items| > 0 && r.items[|r.items| - 1] == x
    ensures forall k :: 0 <= k < |r.items| - 1 ==> r.items[k].name != x.name
    ensures forall y :: y in c.items && y.name != x.name ==> y in r.items
    ensures forall y :: y in r.items ==> y == x || y in c.items
    ensures Get(r, x.name) == Ok(x)
    ensures forall name :: name in Names(r) <==> name in Names(c) || name == x.name
  {
    NamedList.WithReplaces(c.items, NameOf, x);
    CommandDefinitions(NamedList.With(c.items, NameOf, x))
  }

  /** `merge($other)`: the command definitions whose name `other` does not have, then all of `other`'s. */
  function Merge(c: CommandDefinitions, other: CommandDefinitions): (r: CommandDefinitions)
    ensures |r.items| <= |c.items| + |other.items|
    ensures forall y :: y in other.items ==> y in r.items
    ensures forall y :: y in c.items && y.name !in Names(other) ==> y in r.items
    ensures forall y :: y in r.items ==> y in other.items || (y in c.items && y.name !in Names(other))
    ensures forall name :: Get(r, name) == if name in Names(other) then Get(other, name) else Get(c, name)
  {
    var r := CommandDefinitions(NamedList.Merge(c.items, other.items, NameOf));
    assert forall name :: Get(r, name) == if name in Names(other) then Get(other, name) else Get(c, name) by {
      forall name ensures Get(r, name) == if name in Names(other) then Get(other, name) else Get(c, name) {
        NamedList.MergeContents(c.items, other.items, NameOf, name);
      }
    }
    NamedList.MergeContents(c.items, other.items, NameOf, "");
    r
  }

}
