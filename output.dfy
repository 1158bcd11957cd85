/** The scenario generator's output buffer: lines of text, some of them marked as highlighted. */
module Output {
  import opened Wrappers
  import opened Strings

  /** The `ValueError` PHP raises for a negative repeat count. */
  const NegativeRepeatMessage := "str_repeat(): Argument #2 ($times) must be greater than or equal to 0"

  class Output {
    var lines: seq<string>
    /** 1-based numbers of the lines added while highlighting was on. */
    var highlightedLineNumbers: seq<int>
    var isHighlighting: bool

    /** Highlighted numbers are strictly increasing and each names an existing line. */
    ghost predicate Valid()
      reads this
    {
      && (forall k :: 0 <= k < |highlightedLineNumbers| ==> 1 <= highlightedLineNumbers[k] <= |lines|)
      && (forall i, j :: 0 <= i < j < |highlightedLineNumbers| ==> highlightedLineNumbers[i] < highlightedLineNumbers[j])
    }

    constructor ()
      ensures Valid()
      ensures lines == [] && highlightedLineNumbers == [] && !isHighlighting
    {
      lines := [];
      highlightedLineNumbers := [];
      isHighlighting := false;
    }

    /** `addLine`: appends one line and, while highlighting, records its number. */
    method AddLine(line: string)
      requires Valid()
      modifies this
      ensures Valid()
      ensures lines == old(lines) + [line]
      ensures highlightedLineNumbers == if old(isHighlighting) then old(highlightedLineNumbers) + [|lines|] else old(highlightedLineNumbers)
      ensures isHighlighting == old(isHighlighting)
    {
      lines := lines + [line];
      if isHighlighting {
        highlightedLineNumbers := highlightedLineNumbers + [|lines|];
      }
    }

    /** `startHighlighting`: lines added from now on are highlighted. */
    method StartHighlighting()
      requires Valid()
      modifies this
      ensures Valid()
      ensures isHighlighting
      ensures lines == old(lines) && highlightedLineNumbers == old(highlightedLineNumbers)
    {
      isHighlighting := true;
    }

    /** `endHighlighting`: lines added from now on are not highlighted. */
    method EndHighlighting()
      requires Valid()
      modifies this
      ensures Valid()
      ensures !isHighlighting
      ensures lines == old(lines) && highlightedLineNumbers == old(highlightedLineNumbers)
    {
      isHighlighting := false;
    }

    /** `render`: the lines joined by newlines, each indented by `indent` spaces. */
    function Render(indent: int): (r: Result<string, string>)
      reads this
      ensures r.Err? <==> indent < 0
      ensures r.Err? ==> r.error == NegativeRepeatMessage
      ensures r.Ok? && |lines| == 0 ==> r.value == Repeat(" ", indent)
    {
      if indent < 0 then Err(NegativeRepeatMessage)
      else
        var indentString := Repeat(" ", indent);
        Ok(indentString + Join(lines, "\n" + indentString))
    }
  }

  /** Each line with `prefix` in front. */
  function Prefixed(lines: seq<string>, prefix: string): (r: seq<string>)
    ensures |r| == |lines|
    ensures forall k :: 0 <= k < |lines| ==> r[k] == prefix + lines[k]
  {
    seq(|lines|, k requires 0 <= k < |lines| => prefix + lines[k])
  }

  lemma {:induction false} JoinWithPrefix(lines: seq<string>, prefix: string)
    requires |lines| > 0
    ensures prefix + Join(lines, "\n" + prefix) == Join(Prefixed(lines, prefix), "\n")
    decreases |lines|
  {
    if |lines| > 1 {
      JoinWithPrefix(lines[1..], prefix);
      assert Prefixed(lines, prefix)[1..] == Prefixed(lines[1..], prefix);
      assert prefix + Join(lines, "\n" + prefix)
        == (prefix + lines[0]) + "\n" + (prefix + Join(lines[1..], "\n" + prefix));
    }
  }

  lemma {:induction false} SpacesHaveNoNewline(n: nat)
    ensures '\n' !in Repeat(" ", n)
  {
    if n > 0 {
      SpacesHaveNoNewline(n - 1);
    }
  }

  /**
   * Splitting the rendered text at newlines gives back every line with the indentation in front,
   * when the lines themselves hold no newline.
   */
  lemma RenderedLines(o: Output, indent: nat)
    requires |o.lines| > 0
    requires forall k :: 0 <= k < |o.lines| ==> '\n' !in o.lines[k]
    ensures Split(o.Render(indent).value, '\n') == Prefixed(o.lines, Repeat(" ", indent))
  {
    var prefix := Repeat(" ", indent);
    JoinWithPrefix(o.lines, prefix);
    SpacesHaveNoNewline(indent);
    var parts := Prefixed(o.lines, prefix);
    forall k | 0 <= k < |parts| ensures '\n' !in parts[k] {
      assert parts[k] == prefix + o.lines[k];
    }
    JoinSplit(parts, '\n');
  }

  /** Highlighting one line out of three records the number of that line only. */
  method HighlightedLineExample() returns (o: Output)
    ensures o.Valid() && o.lines == ["a", "b", "c"] && o.highlightedLineNumbers == [2]
  {
    o := new Output();
    o.AddLine("a");
    o.StartHighlighting();
    o.AddLine("b");
    o.EndHighlighting();
    o.AddLine("c");
  }
}
