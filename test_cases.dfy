/** `TestCases`: a scenario's test cases, a readonly list keyed by description. */
module TestCases {
  import opened Wrappers
  import opened TestCase
  import NamedList



  datatype TestCases = TestCases(items: seq<TestCase>)

  function DescriptionOf(x: TestCase): string {
    x.description
  }

  /** `none()`. */
  function None(): (r: TestCases)
    ensures |r.items| == 0
  {
    TestCases([])
  }

  /** `map($callback)`: one result per test case, in order. */
  function Map<U>(c: TestCases, f: TestCase -> U): (r: seq<U>)
    ensures |r| == |c.items|
    ensures forall k :: 0 <= k < |r| ==> r[k] == f(c.items[k])
  {
    seq(|c.items|, k requires 0 <= k < |c.items| => f(c.items[k]))
  }

  /** `descriptions()`: the descriptions in order. */
  function Descriptions(c: TestCases): (r: seq<string>)
    ensures |r| == |c.items|
    ensures forall k :: 0 <= k < |r| ==> r[k] == c.items[k].description
  {
    NamedList.Names(c.items, DescriptionOf)
  }

  /** `merge($other)`: the test cases whose description `other` does not have, then all of `other`'s. */
  function Merge(c: TestCases, other: TestCases): (r: TestCases)
    ensures |r.items| <= |c.items| + |other.items|
    ensures forall y :: y in other.items ==> y in r.items
    ensures forall y :: y in c.items && y.description !in Descriptions(other) ==> y in r.items
    ensures forall y :: y in r.items ==> y in other.items || (y in c.items && y.description !in Descriptions(other))
  {
    var r := TestCases(NamedList.Merge(c.items, other.items, DescriptionOf));
    NamedList.MergeContents(c.items, other.items, DescriptionOf, "");
    r
  }

}
