/**
 * The list operations the scenario generator's readonly collections share: `array_find` by a key,
 * `array_filter` (order-preserving), "replace by key and append", and "merge, the other side wins".
 */
module NamedList {
  import opened Wrappers

  /** The index of the first element with key `name`, or `|xs|` when there is none. */
  function FindIndex<T>(xs: seq<T>, key: T -> string, name: string): (i: nat)
    ensures i <= |xs|
    ensures i < |xs| ==> key(xs[i]) == name
    ensures forall j :: 0 <= j < i ==> key(xs[j]) != name
  {
    if xs == [] then 0
    else if key(xs[0]) == name then 0
    else 1 + FindIndex(xs[1..], key, name)
  }

  /** `array_find($xs, fn($x) => key($x) === $name)`. */
  function Find<T>(xs: seq<T>, key: T -> string, name: string): (r: Option<T>)
    ensures r.Some? <==> exists k :: 0 <= k < |xs| && key(xs[k]) == name
    ensures r.Some? ==> key(r.value) == name && r.value == xs[FindIndex(xs, key, name)]
  {
    var i := FindIndex(xs, key, name);
    if i < |xs| then Some(xs[i]) else None
  }

  /** `array_filter($xs, $p)`, with the keys dropped. */
  function Filter<T>(xs: seq<T>, p: T -> bool): (r: seq<T>)
    ensures |r| <= |xs|
    ensures forall k :: 0 <= k < |r| ==> p(r[k]) && r[k] in xs
    ensures forall k :: 0 <= k < |xs| && p(xs[k]) ==> xs[k] in r
  {
    if xs == [] then []
    else
      var rest := Filter(xs[..|xs| - 1], p);
      var x := xs[|xs| - 1];
      assert xs == xs[..|xs| - 1] + [x];
      if p(x) then rest + [x] else rest
  }

  /** Filtering preserves order: it distributes over concatenation. */
  lemma {:induction false} FilterConcat<T>(a: seq<T>, b: seq<T>, p: T -> bool)
    ensures Filter(a + b, p) == Filter(a, p) + Filter(b, p)
    decreases |b|
  {
    if b == [] {
      assert a + b == a;
    } else {
      var b0 := b[..|b| - 1];
      FilterConcat(a, b0, p);
      assert (a + b)[..|a + b| - 1] == a + b0;
    }
  }

  /** A filter keeps everything when every element passes, and nothing when none does. */
  lemma {:induction false} FilterAllOrNone<T>(xs: seq<T>, p: T -> bool)
    ensures (forall k :: 0 <= k < |xs| ==> p(xs[k])) ==> Filter(xs, p) == xs
    ensures (forall k :: 0 <= k < |xs| ==> !p(xs[k])) ==> Filter(xs, p) == []
  {
    if xs != [] {
      FilterAllOrNone(xs[..|xs| - 1], p);
      assert xs == xs[..|xs| - 1] + [xs[|xs| - 1]];
    }
  }

  /** The keys in order (`map(fn($x) => key($x))`). */
  function Names<T>(xs: seq<T>, key: T -> string): (r: seq<string>)
    ensures |r| == |xs|
    ensures forall k :: 0 <= k < |xs| ==> r[k] == key(xs[k])
  {
    seq(|xs|, k requires 0 <= k < |xs| => key(xs[k]))
  }

  /** The elements whose key is listed, in their original order. */
  function Only<T>(xs: seq<T>, key: T -> string, names: seq<string>): seq<T> {
    Filter(xs, x => key(x) in names)
  }

  /** The elements whose key is not listed. */
  function Without<T>(xs: seq<T>, key: T -> string, names: seq<string>): seq<T> {
    Filter(xs, x => key(x) !in names)
  }

  /** `array_merge(array_filter($xs, fn($e) => key($e) !== key($x)), [$x])`. */
  function With<T>(xs: seq<T>, key: T -> string, x: T): seq<T> {
    Without(xs, key, [key(x)]) + [x]
  }

  /** `array_merge(array_filter($xs, fn($e) => !in_array(key($e), names($ys))), $ys)`. */
  function Merge<T>(xs: seq<T>, ys: seq<T>, key: T -> string): seq<T> {
    Without(xs, key, Names(ys, key)) + ys
  }

  /** `Only` keeps exactly the listed elements. */
  lemma OnlyContents<T>(xs: seq<T>, key: T -> string, names: seq<string>, x: T)
    ensures x in Only(xs, key, names) <==> x in xs && key(x) in names
  {
    if x in xs && key(x) in names {
      var k :| 0 <= k < |xs| && xs[k] == x;
    }
    if x in Only(xs, key, names) {
      var k :| 0 <= k < |Only(xs, key, names)| && Only(xs, key, names)[k] == x;
    }
  }

  /** `Only` finds a listed key exactly where the unfiltered list does. */
  lemma FindOnly<T>(xs: seq<T>, key: T -> string, names: seq<string>, name: string)
    requires name in names
    ensures Find(Only(xs, key, names), key, name) == Find(xs, key, name)
  {
    FindFilter(xs, key, name, x => key(x) in names);
  }

  /**
   * After `With(xs, x)` exactly one element has `x`'s key, `x` itself, placed last; every element
   * with another key is kept.
   */
  lemma WithReplaces<T>(xs: seq<T>, key: T -> string, x: T)
    ensures var r := With(xs, key, x);
      && |r| > 0 && r[|r| - 1] == x
      && (forall k :: 0 <= k < |r| - 1 ==> key(r[k]) != key(x))
      && (forall k :: 0 <= k < |xs| && key(xs[k]) != key(x) ==> xs[k] in r)
      && Find(r, key, key(x)) == Some(x)
  {
    var r := With(xs, key, x);
    var kept := Without(xs, key, [key(x)]);
    assert r[..|r| - 1] == kept;
    assert FindIndex(r, key, key(x)) == |r| - 1 by {
      FindLast(r, key, key(x));
    }
  }

  /** An element whose key occurs only at the end is found at the end. */
  lemma {:induction false} FindLast<T>(xs: seq<T>, key: T -> string, name: string)
    requires |xs| > 0 && key(xs[|xs| - 1]) == name
    requires forall k :: 0 <= k < |xs| - 1 ==> key(xs[k]) != name
    ensures FindIndex(xs, key, name) == |xs| - 1
  {
    if |xs| > 1 {
      FindLast(xs[1..], key, name);
    }
  }

  /** No two elements share a key. */
  ghost predicate Distinct<T>(xs: seq<T>, key: T -> string) {
    forall i, j :: 0 <= i < j < |xs| ==> key(xs[i]) != key(xs[j])
  }

  /** With distinct keys, every element is the one found for its key. */
  lemma FindDistinct<T>(xs: seq<T>, key: T -> string, k: nat)
    requires Distinct(xs, key) && k < |xs|
    ensures FindIndex(xs, key, key(xs[k])) == k
    ensures Find(xs, key, key(xs[k])) == Some(xs[k])
  {
  }

  /** Finding in a concatenation: the left part first, then the right part. */
  lemma {:induction false} FindConcat<T>(a: seq<T>, b: seq<T>, key: T -> string, name: string)
    ensures Find(a + b, key, name) == if Find(a, key, name).Some? then Find(a, key, name) else Find(b, key, name)
    decreases |a|
  {
    if a != [] {
      FindConcat(a[1..], b, key, name);
      assert (a + b)[1..] == a[1..] + b;
    } else {
      assert a + b == b;
    }
  }

  /**
   * `Merge(xs, ys)`: every element of `ys` is kept, an element of `xs` is dropped iff `ys` has its key,
   * and a key of `ys` is found in `ys`, any other key in `xs`.
   */
  lemma MergeContents<T>(xs: seq<T>, ys: seq<T>, key: T -> string, name: string)
    ensures var r := Merge(xs, ys, key);
      && |r| <= |xs| + |ys|
      && (forall k :: 0 <= k < |ys| ==> ys[k] in r)
      && (forall k :: 0 <= k < |xs| && key(xs[k]) !in Names(ys, key) ==> xs[k] in r)
      && Find(r, key, name) == if name in Names(ys, key) then Find(ys, key, name) else Find(xs, key, name)
  {
    var kept := Without(xs, key, Names(ys, key));
    var r := Merge(xs, ys, key);
    forall k | 0 <= k < |ys| ensures ys[k] in r {
      assert r[|kept| + k] == ys[k];
    }
    FindConcat(kept, ys, key, name);
    if name in Names(ys, key) {
      var k :| 0 <= k < |ys| && Names(ys, key)[k] == name;
      assert Find(kept, key, name).None?;
    } else {
      assert Find(ys, key, name).None?;
      FindFilter(xs, key, name, x => key(x) !in Names(ys, key));
    }
  }

  /** Filtering that keeps every element with key `name` does not change what is found for it. */
  lemma {:induction false} FindFilter<T>(xs: seq<T>, key: T -> string, name: string, p: T -> bool)
    requires forall k :: 0 <= k < |xs| && key(xs[k]) == name ==> p(xs[k])
    ensures Find(Filter(xs, p), key, name) == Find(xs, key, name)
    decreases |xs|
  {
    if xs != [] {
      var prefix := xs[..|xs| - 1];
      var x := xs[|xs| - 1];
      FindFilter(prefix, key, name, p);
      assert xs == prefix + [x];
      FindConcat(prefix, [x], key, name);
      if p(x) {
        FindConcat(Filter(prefix, p), [x], key, name);
      }
    }
  }
}
