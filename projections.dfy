/** `Projections`: the scenario's projections, a readonly list looked up by name. */
module Projections {
  import opened Wrappers
  import opened PhpValues
  import ProjectionHandlers
  import NamedList

  /** A projection definition; its parameter and state schemas are not modelled. */
  datatype Projection = Projection(name: string, handlers: ProjectionHandlers.ProjectionHandlers, tagFilters: seq<ArrayEntry>)

  datatype Projections = Projections(items: seq<Projection>)

  function NameOf(x: Projection): string {
    x.name
  }

  /** `none()`. */
  function None(): (r: Projections)
    ensures |r.items| == 0
  {
    Projections([])
  }

  /** `map($callback)`: one result per projection, in order. */
  function Map<U>(c: Projections, f: Projection -> U): (r: seq<U>)
    ensures |r| == |c.items|
    ensures forall k :: 0 <= k < |r| ==> r[k] == f(c.items[k])
  {
    seq(|c.items|, k requires 0 <= k < |c.items| => f(c.items[k]))
  }

  /** `names()`: the names in order. */
  function Names(c: Projections): (r: seq<string>)
    ensures |r| == |c.items|
    ensures forall k :: 0 <= k < |r| ==> r[k] == c.items[k].name
  {
    NamedList.Names(c.items, NameOf)
  }

  /** `exists($name)`. */
  function Exists(c: Projections, name: string): (r: bool)
    ensures r <==> exists k :: 0 <= k < |c.items| && c.items[k].name == name
    ensures r <==> name in Names(c)
  {
    NamedList.Find(c.items, NameOf, name).Some?
  }

  function UnknownMessage(name: string): string {
    "Unknown projection \"" + name + "\""
  }

  /** `get($name)`: the first projection with that name. */
  function Get(c: Projections, name: string): (r: Result<Projection, string>)
    ensures r.Ok? <==> name in Names(c)
    ensures r.Ok? ==> r.value.name == name && r.value == c.items[NamedList.FindIndex(c.items, NameOf, name)]
    ensures r.Err? ==> r.error == UnknownMessage(name)
  {
    var candidate := NamedList.Find(c.items, NameOf, name);
    if candidate.Some? then Ok(candidate.value) else Err(UnknownMessage(name))
  }

  /** `filter($callback)`: the projections the callback accepts, in order. */
  function Filter(c: Projections, keep: Projection -> bool): (r: Projections)
    ensures |r.items| <= |c.items|
    ensures forall x :: x in r.items <==> x in c.items && keep(x)
  {
    Projections(NamedList.Filter(c.items, keep))
  }

  /** `only(...$names)`: exactly the projections whose name is listed, in order. */
  function Only(c: Projections, names: seq<string>): (r: Projections)
    ensures |r.items| <= |c.items|
    ensures forall x :: x in r.items <==> x in c.items && x.name in names
    ensures forall name :: name in names ==> Get(r, name) == Get(c, name)
  {
    var r := Projections(NamedList.Only(c.items, NameOf, names));
    assert forall x :: x in r.items <==> x in c.items && x.name in names by {
      forall x ensures x in r.items <==> x in c.items && x.name in names {
        NamedList.OnlyContents(c.items, NameOf, names, x);
      }
    }
    assert forall name :: name in names ==> Get(r, name) == Get(c, name) by {
      forall name | name in names ensures Get(r, name) == Get(c, name) {
        NamedList.FindOnly(c.items, NameOf, names, name);
      }
    }
    r
  }

  /** Filtering by a list of names keeps a listed name exactly when the collection has it. */
  lemma OnlyKeepsListed(c: Projections, names: seq<string>, name: string)
    requires name in names
    ensures Exists(Only(c, names), name) == Exists(c, name)
  {
  }

  /** `with($x)`: drops every projection with `x`'s name and appends `x`. */
  function With(c: Projections, x: Projection): (r: Projections)
    ensures |r.items| > 0 && r.items[|r.items| - 1] == x
    ensures forall k :: 0 <= k < |r.items| - 1 ==> r.items[k].name != x.name
    ensures forall y :: y in c.items && y.name != x.name ==> y in r.items
    ensures forall y :: y in r.items ==> y == x || y in c.items
    ensures Get(r, x.name) == Ok(x)
    ensures forall name :: name in Names(r) <==> name in Names(c) || name == x.name
  {
    NamedList.WithReplaces(c.items, NameOf, x);
    Projections(NamedList.With(c.items, NameOf, x))
  }

  /** `merge($other)`: the projections whose name `other` does not have, then all of `other`'s. */
  function Merge(c: Projections, other: Projections): (r: Projections)
    ensures |r.items| <= |c.items| + |other.items|
    ensures forall y :: y in other.items ==> y in r.items
    ensures forall y :: y in c.items && y.name !in Names(other) ==> y in r.items
    ensures forall y :: y in r.items ==> y in other.items || (y in c.items && y.name !in Names(other))
    ensures forall name :: Get(r, name) == if name in Names(other) then Get(other, name) else Get(c, name)
  {
    var r := Projections(NamedList.Merge(c.items, other.items, NameOf));
    assert forall name :: Get(r, name) == if name in Names(other) then Get(other, name) else Get(c, name) by {
      forall name ensures Get(r, name) == if name in Names(other) then Get(other, name) else Get(c, name) {
        NamedList.MergeContents(c.items, other.items, NameOf, name);
      }
    }
    NamedList.MergeContents(c.items, other.items, NameOf, "");
    r
  }

}
