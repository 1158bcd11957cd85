/** String helpers with the semantics of the PHP and JavaScript built-ins the core uses. */
module Strings {

  /** Decimal digits of a natural number, as JavaScript's template literals and PHP's `%d` print it. */
  function NatToString(n: nat): (r: string)
    ensures |r| > 0
    decreases n
  {
    var d := [('0' as int + n % 10) as char];
    if n < 10 then d else NatToString(n / 10) + d
  }

  function IntToString(i: int): string {
    if i < 0 then "-" + NatToString(-i) else NatToString(i)
  }

  /** PHP `str_repeat($s, $n)` for a non-negative count. */
  function Repeat(s: string, n: nat): (r: string)
    ensures |r| == |s| * n
  {
    if n == 0 then "" else s + Repeat(s, n - 1)
  }

  predicate StartsWith(s: string, prefix: string) {
    |prefix| <= |s| && s[..|prefix|] == prefix
  }

  /** PHP `implode($sep, $parts)` / JavaScript `parts.join(sep)`. */
  function Join(parts: seq<string>, sep: string): string {
    if |parts| == 0 then ""
    else if |parts| == 1 then parts[0]
    else parts[0] + sep + Join(parts[1..], sep)
  }

  /** PHP `explode($sep, $s)` for a one-character separator: the pieces between separators, at least one. */
  function Split(s: string, sep: char): (r: seq<string>)
    ensures |r| > 0
    decreases |s|
  {
    if |s| == 0 then [""]
    else
      var rest := Split(s[1..], sep);
      if s[0] == sep then [""] + rest
      else [[s[0]] + rest[0]] + rest[1..]
  }

  /** Splitting and re-joining with the separator gives the string back, and no piece holds the separator. */
  lemma {:induction false} SplitJoin(s: string, sep: char)
    ensures Join(Split(s, sep), [sep]) == s
    ensures forall k :: 0 <= k < |Split(s, sep)| ==> sep !in Split(s, sep)[k]
    decreases |s|
  {
    if |s| > 0 {
      SplitJoin(s[1..], sep);
      if s[0] == sep {
        SplitJoinAtSeparator(s, sep);
      } else {
        SplitJoinOtherChar(s, sep);
      }
    }
  }

  /** The step of `SplitJoin` for a string that starts with the separator. */
  lemma SplitJoinAtSeparator(s: string, sep: char)
    requires |s| > 0 && s[0] == sep
    requires Join(Split(s[1..], sep), [sep]) == s[1..]
    requires forall k :: 0 <= k < |Split(s[1..], sep)| ==> sep !in Split(s[1..], sep)[k]
    ensures Join(Split(s, sep), [sep]) == s
    ensures forall k :: 0 <= k < |Split(s, sep)| ==> sep !in Split(s, sep)[k]
  {
    var rest := Split(s[1..], sep);
    assert Split(s, sep) == [""] + rest;
    assert s == [sep] + s[1..];
    JoinEmptyFirst(rest, [sep]);
    NoSeparatorEmptyFirst(rest, sep);
  }

  /** An empty first piece leaves just the separator in front of the join of the others. */
  lemma JoinEmptyFirst(parts: seq<string>, sep: string)
    requires |parts| > 0
    ensures Join([""] + parts, sep) == sep + Join(parts, sep)
  {
    assert ([""] + parts)[1..] == parts;
  }

  /** An empty first piece holds no separator. */
  lemma NoSeparatorEmptyFirst(parts: seq<string>, sep: char)
    requires forall k :: 0 <= k < |parts| ==> sep !in parts[k]
    ensures forall k :: 0 <= k < |[""] + parts| ==> sep !in ([""] + parts)[k]
  {
    forall k | 0 <= k < |[""] + parts| ensures sep !in ([""] + parts)[k] {
      if k > 0 {
        assert ([""] + parts)[k] == parts[k - 1];
      }
    }
  }

  /** The step of `SplitJoin` for a string that starts with another character. */
  lemma SplitJoinOtherChar(s: string, sep: char)
    requires |s| > 0 && s[0] != sep
    requires Join(Split(s[1..], sep), [sep]) == s[1..]
    requires forall k :: 0 <= k < |Split(s[1..], sep)| ==> sep !in Split(s[1..], sep)[k]
    ensures Join(Split(s, sep), [sep]) == s
    ensures forall k :: 0 <= k < |Split(s, sep)| ==> sep !in Split(s, sep)[k]
  {
    var rest := Split(s[1..], sep);
    assert Split(s, sep) == [[s[0]] + rest[0]] + rest[1..];
    assert s == [s[0]] + s[1..];
    JoinCons(s[0], rest, [sep]);
    NoSeparatorCons(s[0], rest, sep);
  }

  /** Putting a character in front of the first piece puts it in front of the join. */
  lemma JoinCons(c: char, parts: seq<string>, sep: string)
    requires |parts| > 0
    ensures Join([[c] + parts[0]] + parts[1..], sep) == [c] + Join(parts, sep)
  {
    var pieces := [[c] + parts[0]] + parts[1..];
    if |parts| > 1 {
      assert pieces[1..] == parts[1..];
      assert Join(pieces, sep) == ([c] + parts[0]) + sep + Join(parts[1..], sep);
      assert Join(parts, sep) == parts[0] + sep + Join(parts[1..], sep);
    }
  }

  /** A character other than the separator in front of the first piece keeps every piece free of it. */
  lemma NoSeparatorCons(c: char, parts: seq<string>, sep: char)
    requires |parts| > 0 && c != sep
    requires forall k :: 0 <= k < |parts| ==> sep !in parts[k]
    ensures forall k :: 0 <= k < |[[c] + parts[0]] + parts[1..]| ==> sep !in ([[c] + parts[0]] + parts[1..])[k]
  {
    var pieces := [[c] + parts[0]] + parts[1..];
    forall k | 0 <= k < |pieces| ensures sep !in pieces[k] {
      if k == 0 {
        assert sep !in parts[0];
      } else {
        assert pieces[k] == parts[k];
      }
    }
  }

  /** Joining pieces that hold no separator and splitting again gives the pieces back. */
  lemma {:induction false} JoinSplit(parts: seq<string>, sep: char)
    requires |parts| > 0
    requires forall k :: 0 <= k < |parts| ==> sep !in parts[k]
    ensures Split(Join(parts, [sep]), sep) == parts
    decreases |parts|, |parts[0]|
  {
    if |parts| == 1 {
      SplitNoSeparator(parts[0], sep);
    } else if |parts[0]| == 0 {
      JoinSplit(parts[1..], sep);
      assert Join(parts, [sep]) == [sep] + Join(parts[1..], [sep]);
      assert (([sep] + Join(parts[1..], [sep]))[1..]) == Join(parts[1..], [sep]);
    } else {
      var shorter := [parts[0][1..]] + parts[1..];
      JoinSplit(shorter, sep);
      JoinSplitFirstChar(parts, sep);
    }
  }

  /** The step of `JoinSplit` that takes the first character off the first piece. */
  lemma JoinSplitFirstChar(parts: seq<string>, sep: char)
    requires |parts| > 1 && |parts[0]| > 0 && parts[0][0] != sep
    requires Split(Join([parts[0][1..]] + parts[1..], [sep]), sep) == [parts[0][1..]] + parts[1..]
    ensures Split(Join(parts, [sep]), sep) == parts
  {
    var shorter := [parts[0][1..]] + parts[1..];
    assert Join(shorter, [sep]) == parts[0][1..] + [sep] + Join(parts[1..], [sep]);
    assert Join(parts, [sep]) == [parts[0][0]] + Join(shorter, [sep]);
    assert ([parts[0][0]] + Join(shorter, [sep]))[1..] == Join(shorter, [sep]);
    assert [parts[0][0]] + shorter[0] == parts[0];
    assert shorter[1..] == parts[1..];
  }

  lemma {:induction false} SplitNoSeparator(s: string, sep: char)
    requires sep !in s
    ensures Split(s, sep) == [s]
    decreases |s|
  {
    if |s| > 0 {
      assert sep !in s[1..];
      SplitNoSeparator(s[1..], sep);
      assert s[0] != sep;
      assert [s[0]] + s[1..] == s;
    }
  }
}
