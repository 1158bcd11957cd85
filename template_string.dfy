/**
 * The scenario generator's template strings: text with `{token}` placeholders, where a token is a
 * dotted path into nested arrays and objects.  A template string is a read-only value holding its
 * template text, so it is represented by that text.
 */
module TemplateString {
  import opened Wrappers
  import opened Strings
  import opened PhpValues

  // ---------------------------------------------------------------------------------------------
  // Placeholders: the matches of `\{([^}]+)}`, scanned left to right without overlap.

  /** One piece of a template: a literal character or a `{token}` placeholder. */
  datatype Segment = Text(c: char) | Placeholder(token: string)

  /** The index of the first `}` at or after `i`, or `|s|` when there is none. */
  function CloseFrom(s: string, i: nat): (r: nat)
    requires i <= |s|
    ensures i <= r <= |s|
    ensures r < |s| ==> s[r] == '}'
    ensures forall k :: i <= k < r ==> s[k] != '}'
    decreases |s| - i
  {
    if i == |s| || s[i] == '}' then i else CloseFrom(s, i + 1)
  }

  /** At the start of `s`: a `{`, at least one character other than `}`, then `}`. */
  predicate PlaceholderStart(s: string) {
    |s| > 0 && s[0] == '{' && 2 <= CloseFrom(s, 1) < |s|
  }

  /** The template split into text and placeholders, as the pattern scan sees it. */
  function Segments(s: string): seq<Segment>
    decreases |s|
  {
    if |s| == 0 then []
    else if PlaceholderStart(s) then
      var j := CloseFrom(s, 1);
      [Placeholder(s[1..j])] + Segments(s[j + 1..])
    else [Text(s[0])] + Segments(s[1..])
  }

  /** The template text one segment stands for. */
  function SegmentText(g: Segment): string {
    match g
    case Text(c) => [c]
    case Placeholder(t) => "{" + t + "}"
  }

  /** The template text a list of segments spells. */
  function Unparse(segments: seq<Segment>): string {
    if |segments| == 0 then "" else SegmentText(segments[0]) + Unparse(segments[1..])
  }

  lemma UnparseCons(g: Segment, rest: seq<Segment>)
    ensures Unparse([g] + rest) == SegmentText(g) + Unparse(rest)
  {
    assert ([g] + rest)[1..] == rest;
  }

  /** How the scan begins: a placeholder when one starts here, else one character of text. */
  lemma SegmentsCons(s: string)
    requires |s| > 0
    ensures PlaceholderStart(s) ==> Segments(s) == [Placeholder(s[1..CloseFrom(s, 1)])] + Segments(s[CloseFrom(s, 1) + 1..])
    ensures !PlaceholderStart(s) ==> Segments(s) == [Text(s[0])] + Segments(s[1..])
  {
  }

  /** A template that starts with a placeholder closing at `j` is `{`, the token, `}` and the rest. */
  lemma PlaceholderPrefix(s: string, j: nat)
    requires 1 <= j < |s| && s[0] == '{' && s[j] == '}'
    ensures s == "{" + s[1..j] + "}" + s[j + 1..]
  {
    assert s == [s[0]] + s[1..j] + [s[j]] + s[j + 1..];
  }

  /** Scanning loses nothing: the segments spell the template again. */
  lemma {:induction false} SegmentsRoundTrip(s: string)
    ensures Unparse(Segments(s)) == s
    decreases |s|
  {
    if |s| > 0 {
      SegmentsCons(s);
      if PlaceholderStart(s) {
        var j := CloseFrom(s, 1);
        var rest := s[j + 1..];
        var g := Placeholder(s[1..j]);
        SegmentsRoundTrip(rest);
        UnparseCons(g, Segments(rest));
        PlaceholderPrefix(s, j);
        calc {
          Unparse(Segments(s));
          Unparse([g] + Segments(rest));
          SegmentText(g) + Unparse(Segments(rest));
          "{" + s[1..j] + "}" + rest;
        }
      } else {
        var g := Text(s[0]);
        SegmentsRoundTrip(s[1..]);
        UnparseCons(g, Segments(s[1..]));
        calc {
          Unparse(Segments(s));
          Unparse([g] + Segments(s[1..]));
          SegmentText(g) + Unparse(Segments(s[1..]));
          [s[0]] + s[1..];
        }
      }
    }
  }

  /** Every placeholder the scan finds has a non-empty name without `}`. */
  lemma {:induction false} SegmentsWellFormed(s: string)
    ensures forall g :: g in Segments(s) && g.Placeholder? ==> g.token != [] && '}' !in g.token
    decreases |s|
  {
    if |s| > 0 {
      SegmentsCons(s);
      if PlaceholderStart(s) {
        var j := CloseFrom(s, 1);
        SegmentsWellFormed(s[j + 1..]);
        assert '}' !in s[1..j] by {
          forall k | 0 <= k < j - 1 ensures s[1..j][k] != '}' {
            assert s[1..j][k] == s[k + 1];
          }
        }
      } else {
        SegmentsWellFormed(s[1..]);
      }
    }
  }

  /** The tokens of the placeholders, in order. */
  function Tokens(segments: seq<Segment>): seq<string> {
    if |segments| == 0 then []
    else if segments[0].Placeholder? then [segments[0].token] + Tokens(segments[1..])
    else Tokens(segments[1..])
  }

  lemma TokensCons(g: Segment, rest: seq<Segment>)
    ensures Tokens([g] + rest) == (if g.Placeholder? then [g.token] else []) + Tokens(rest)
  {
    assert ([g] + rest)[1..] == rest;
  }

  /** A name is a token exactly when a placeholder with that name is among the segments. */
  lemma {:induction false} TokensMembers(segments: seq<Segment>)
    ensures forall t :: t in Tokens(segments) <==> Placeholder(t) in segments
  {
    if |segments| > 0 {
      TokensMembers(segments[1..]);
      assert segments == [segments[0]] + segments[1..];
    }
  }

  /** `getTokens`: the inner text of every placeholder, left to right. */
  function GetTokens(template: string): seq<string> {
    Tokens(Segments(template))
  }

  /** The tokens are non-empty names without `}`, exactly those of the placeholders the scan finds. */
  lemma GetTokensMembers(template: string)
    ensures forall k :: 0 <= k < |GetTokens(template)| ==> GetTokens(template)[k] != [] && '}' !in GetTokens(template)[k]
    ensures forall t :: t in GetTokens(template) <==> Placeholder(t) in Segments(template)
  {
    TokensMembers(Segments(template));
    SegmentsWellFormed(template);
    var r := GetTokens(template);
    forall k | 0 <= k < |r| ensures r[k] != [] && '}' !in r[k] {
      assert r[k] in r;
      assert Placeholder(r[k]) in Segments(template);
    }
  }

  /** `{`, then a run of characters other than `}`, then `}` occurs at index `i` of `s`. */
  ghost predicate PlaceholderAt(s: string, i: int) {
    0 <= i < |s| && s[i] == '{' && exists j :: i + 1 < j < |s| && s[j] == '}' && '}' !in s[i + 1..j]
  }

  lemma PlaceholderStartIff(s: string)
    requires |s| > 0
    ensures PlaceholderStart(s) <==> PlaceholderAt(s, 0)
  {
    if PlaceholderAt(s, 0) {
      var j :| 0 + 1 < j < |s| && s[j] == '}' && '}' !in s[1..j];
    }
    if PlaceholderStart(s) {
      var c := CloseFrom(s, 1);
      assert '}' !in s[1..c] by {
        forall k | 0 <= k < c - 1 ensures s[1..c][k] != '}' {
          assert s[1..c][k] == s[k + 1];
        }
      }
    }
  }

  lemma PlaceholderAtShift(s: string, i: int)
    requires |s| > 0 && 1 <= i
    ensures PlaceholderAt(s, i) <==> PlaceholderAt(s[1..], i - 1)
  {
    if PlaceholderAt(s, i) {
      var j :| i + 1 < j < |s| && s[j] == '}' && '}' !in s[i + 1..j];
      assert s[1..][i - 1 + 1..j - 1] == s[i + 1..j];
      assert s[1..][j - 1] == s[j];
    }
    if PlaceholderAt(s[1..], i - 1) {
      var j :| i < j < |s| - 1 && s[1..][j] == '}' && '}' !in s[1..][i..j];
      assert s[1..][i..j] == s[i + 1..j + 1];
    }
  }

  /** A template has no tokens exactly when no placeholder occurs anywhere in it. */
  lemma {:induction false} NoTokensIff(s: string)
    ensures GetTokens(s) == [] <==> forall i :: 0 <= i < |s| ==> !PlaceholderAt(s, i)
    decreases |s|
  {
    if |s| > 0 {
      PlaceholderStartIff(s);
      if PlaceholderStart(s) {
        var j := CloseFrom(s, 1);
        assert Segments(s)[0] == Placeholder(s[1..j]);
        assert s[1..j] in GetTokens(s);
      } else {
        NoTokensIff(s[1..]);
        assert Segments(s)[1..] == Segments(s[1..]);
        assert GetTokens(s) == GetTokens(s[1..]);
        forall i | 1 <= i < |s| ensures PlaceholderAt(s, i) <==> PlaceholderAt(s[1..], i - 1) {
          PlaceholderAtShift(s, i);
        }
        if GetTokens(s) == [] {
          forall i | 0 <= i < |s| ensures !PlaceholderAt(s, i) {
            if i > 0 {
              assert !PlaceholderAt(s[1..], i - 1);
            }
          }
        } else {
          var i :| 0 <= i < |s| - 1 && PlaceholderAt(s[1..], i);
          assert PlaceholderAt(s, i + 1);
        }
      }
    }
  }

  /** A template without `{` has no tokens. */
  lemma {:induction false} NoOpenNoTokens(s: string)
    requires '{' !in s
    ensures GetTokens(s) == []
  {
    forall i | 0 <= i < |s| ensures !PlaceholderAt(s, i) {
      assert s[i] in s;
    }
    NoTokensIff(s);
  }

  /** Text without `{` in front of a template adds no tokens. */
  lemma {:induction false} TokensAfterText(a: string, b: string)
    requires '{' !in a
    ensures GetTokens(a + b) == GetTokens(b)
    decreases |a|
  {
    if |a| > 0 {
      var s := a + b;
      assert s[0] == a[0] && a[0] in a;
      assert s[1..] == a[1..] + b;
      assert '{' !in a[1..];
      TokensAfterText(a[1..], b);
      assert Segments(s) == [Text(s[0])] + Segments(s[1..]);
      assert Segments(s)[1..] == Segments(s[1..]);
    } else {
      assert a + b == b;
    }
  }

  /** A placeholder in front of a template adds its token in front. */
  lemma TokensAfterPlaceholder(t: string, b: string)
    requires t != [] && '}' !in t
    ensures GetTokens("{" + t + "}" + b) == [t] + GetTokens(b)
  {
    var s := "{" + t + "}" + b;
    var c := CloseFrom(s, 1);
    forall k | 1 <= k < |t| + 1 ensures s[k] != '}' {
      assert s[k] == t[k - 1];
    }
    assert s[|t| + 1] == '}';
    assert c == |t| + 1;
    assert s[1..c] == t;
    assert s[c + 1..] == b;
    assert Segments(s) == [Placeholder(t)] + Segments(b);
    assert Segments(s)[1..] == Segments(b);
  }

  /** A template that is one placeholder has exactly that one token. */
  lemma SinglePlaceholder(t: string)
    requires t != [] && '}' !in t
    ensures GetTokens("{" + t + "}") == [t]
  {
    TokensAfterPlaceholder(t, "");
    assert "{" + t + "}" + "" == "{" + t + "}";
  }

  // ---------------------------------------------------------------------------------------------
  // `toJsTemplateString`

  /** Every `{` becomes `${`; every other character stays (replacing `}` by itself changes nothing). */
  function EscapeOpen(s: string): (r: string)
    ensures |r| == 0 || r[0] != '{'
  {
    if |s| == 0 then ""
    else (if s[0] == '{' then "${" else [s[0]]) + EscapeOpen(s[1..])
  }

  lemma {:induction false} EscapeOpenConcat(a: string, b: string)
    ensures EscapeOpen(a + b) == EscapeOpen(a) + EscapeOpen(b)
    decreases |a|
  {
    if |a| > 0 {
      assert (a + b)[1..] == a[1..] + b;
      EscapeOpenConcat(a[1..], b);
    } else {
      assert a + b == b;
    }
  }

  /** Reads a `${` back as `{`. */
  function UnescapeOpen(s: string): string {
    if |s| >= 2 && s[0] == '$' && s[1] == '{' then "{" + UnescapeOpen(s[2..])
    else if |s| == 0 then ""
    else [s[0]] + UnescapeOpen(s[1..])
  }

  /** The body of a JavaScript template literal gives the template back. */
  lemma {:induction false} EscapeOpenRoundTrip(s: string)
    ensures UnescapeOpen(EscapeOpen(s)) == s
  {
    if |s| > 0 {
      EscapeOpenRoundTrip(s[1..]);
      var rest := EscapeOpen(s[1..]);
      if s[0] == '{' {
        assert EscapeOpen(s) == "${" + rest;
        assert ("${" + rest)[2..] == rest;
      } else {
        assert EscapeOpen(s) == [s[0]] + rest;
        assert ([s[0]] + rest)[1..] == rest;
      }
      assert s == [s[0]] + s[1..];
    }
  }

  /**
   * `toJsTemplateString`: a quoted string literal when there are no tokens, the bare token when
   * the template is exactly one placeholder, otherwise a template literal.
   */
  function ToJsTemplateString(template: string): (r: string)
    ensures GetTokens(template) == [] ==> r == "\"" + template + "\""
  {
    var tokens := GetTokens(template);
    if tokens == [] then "\"" + template + "\""
    else if |tokens| == 1 && "{" + tokens[0] + "}" == template then tokens[0]
    else "`" + EscapeOpen(template) + "`"
  }

  /** Without any placeholder the template is emitted as a quoted literal. */
  lemma NoPlaceholderIsQuoted(template: string)
    requires forall i :: 0 <= i < |template| ==> !PlaceholderAt(template, i)
    ensures ToJsTemplateString(template) == "\"" + template + "\""
  {
    NoTokensIff(template);
  }

  /** A template that is one placeholder is emitted as the bare expression. */
  lemma SinglePlaceholderIsBare(t: string)
    requires t != [] && '}' !in t
    ensures ToJsTemplateString("{" + t + "}") == t
  {
    SinglePlaceholder(t);
  }

  /** Any other template with placeholders becomes a template literal whose body reads back as the template. */
  lemma OtherwiseTemplateLiteral(template: string)
    requires exists i :: PlaceholderAt(template, i)
    requires forall t :: t != [] && '}' !in t ==> template != "{" + t + "}"
    ensures var r := ToJsTemplateString(template);
      && |r| >= 2 && r[0] == '`' && r[|r| - 1] == '`'
      && UnescapeOpen(r[1..|r| - 1]) == template
  {
    NoTokensIff(template);
    GetTokensMembers(template);
    var tokens := GetTokens(template);
    if |tokens| == 1 {
      assert "{" + tokens[0] + "}" != template;
    }
    var r := ToJsTemplateString(template);
    assert r[1..|r| - 1] == EscapeOpen(template);
    EscapeOpenRoundTrip(template);
  }

  /** The cases of the unit test for `toJsTemplateString`: no placeholder. */
  lemma ToJsQuotedCase(template: string)
    requires template == "no replacement"
    ensures ToJsTemplateString(template) == "\"no replacement\""
  {
    calc {
      ToJsTemplateString(template);
      { NoOpenNoTokens(template); }
      "\"" + template + "\"";
      "\"no replacement\"";
    }
  }

  /** Text without braces is escaped as itself. */
  lemma {:induction false} EscapeOpenPlain(s: string)
    requires '{' !in s
    ensures EscapeOpen(s) == s
  {
    if |s| > 0 {
      assert s[0] in s && '{' !in s[1..];
      EscapeOpenPlain(s[1..]);
      assert s == [s[0]] + s[1..];
    }
  }

  // Regrouping concatenations, each on its own so that no larger proof pays for it.

  lemma Group3(a: string, b: string, c: string)
    ensures a + b + c == a + (b + c)
  {
  }

  lemma Group4(a: string, b: string, c: string, d: string)
    ensures a + b + c + d == a + (b + c + d)
  {
  }

  lemma Group5(a: string, b: string, c: string, d: string, e: string)
    ensures a + b + c + d + e == a + (b + c + d + e)
  {
  }

  lemma Wrapped(a: string, b: string, c: string, d: string, e: string, f: string)
    ensures a + (b + c + d + e) + f == a + b + c + d + e + f
  {
  }

  /** A placeholder whose token has no braces is escaped to a `${token}` substitution. */
  lemma EscapePlainPlaceholder(t: string)
    requires '{' !in t
    ensures EscapeOpen("{" + t + "}") == "${" + t + "}"
  {
    EscapeOpenConcat("{", t + "}");
    EscapeOpenConcat(t, "}");
    EscapeOpenPlain(t);
    Group3("{", t, "}");
    Group3("${", t, "}");
  }

  /** A template with at least two tokens, or with one token that is not all of it, becomes a template literal. */
  lemma TemplateLiteralWhen(template: string)
    requires |GetTokens(template)| >= 2 || (|GetTokens(template)| == 1 && template != "{" + GetTokens(template)[0] + "}")
    ensures ToJsTemplateString(template) == "`" + EscapeOpen(template) + "`"
  {
  }

  /** Text, then a placeholder: a template literal. */
  lemma TextThenPlaceholder(a: string, t: string)
    requires a != [] && '{' !in a && t != [] && '{' !in t && '}' !in t
    ensures ToJsTemplateString(a + "{" + t + "}") == "`" + a + "${" + t + "}" + "`"
  {
    var p := "{" + t + "}";
    Group4(a, "{", t, "}");
    TokensAfterText(a, p);
    SinglePlaceholder(t);
    assert |a + p| != |p|;
    TemplateLiteralWhen(a + p);
    EscapeOpenConcat(a, p);
    EscapeOpenPlain(a);
    EscapePlainPlaceholder(t);
    calc {
      ToJsTemplateString(a + p);
      "`" + EscapeOpen(a + p) + "`";
      "`" + (a + ("${" + t + "}")) + "`";
      { Group4(a, "${", t, "}"); }
      "`" + (a + "${" + t + "}") + "`";
      { Wrapped("`", a, "${", t, "}", "`"); }
      "`" + a + "${" + t + "}" + "`";
    }
  }

  /** A placeholder, then more template with at least one placeholder: a template literal. */
  lemma PlaceholderThenMore(t: string, rest: string)
    requires t != [] && '{' !in t && '}' !in t && GetTokens(rest) != []
    ensures ToJsTemplateString("{" + t + "}" + rest) == "`" + "${" + t + "}" + EscapeOpen(rest) + "`"
  {
    var p := "{" + t + "}";
    TokensAfterPlaceholder(t, rest);
    TemplateLiteralWhen(p + rest);
    EscapeOpenConcat(p, rest);
    EscapePlainPlaceholder(t);
    calc {
      ToJsTemplateString(p + rest);
      "`" + EscapeOpen(p + rest) + "`";
      "`" + ("${" + t + "}" + EscapeOpen(rest)) + "`";
      { Wrapped("`", "${", t, "}", EscapeOpen(rest), "`"); }
      "`" + "${" + t + "}" + EscapeOpen(rest) + "`";
    }
  }

  /** Two placeholders, with plain text (possibly none) between them: a template literal. */
  lemma PlaceholderTextPlaceholder(t: string, a: string, u: string)
    requires t != [] && '{' !in t && '}' !in t
    requires '{' !in a
    requires u != [] && '{' !in u && '}' !in u
    ensures ToJsTemplateString("{" + t + "}" + a + "{" + u + "}") == "`" + "${" + t + "}" + a + "${" + u + "}" + "`"
  {
    var p := "{" + t + "}";
    var q := "{" + u + "}";
    var rest := a + "{" + u + "}";
    Group4(a, "{", u, "}");
    TokensAfterText(a, q);
    SinglePlaceholder(u);
    PlaceholderThenMore(t, rest);
    EscapeOpenConcat(a, q);
    EscapeOpenPlain(a);
    EscapePlainPlaceholder(u);
    Group4(a, "${", u, "}");
    Group5(p, a, "{", u, "}");
    calc {
      ToJsTemplateString(p + a + "{" + u + "}");
      ToJsTemplateString(p + rest);
      "`" + "${" + t + "}" + EscapeOpen(rest) + "`";
      "`" + "${" + t + "}" + (a + "${" + u + "}") + "`";
      { Wrapped("`" + "${" + t + "}", a, "${", u, "}", "`"); }
      "`" + "${" + t + "}" + a + "${" + u + "}" + "`";
    }
  }

  /** The unit test case with text before a placeholder. */
  lemma ToJsTextThenPlaceholderCase(template: string)
    requires template == "foo:{bar}"
    ensures ToJsTemplateString(template) == "`foo:${bar}`"
  {
    calc {
      ToJsTemplateString(template);
      { assert template == "foo:" + "{" + "bar" + "}"; }
      ToJsTemplateString("foo:" + "{" + "bar" + "}");
      { TextThenPlaceholder("foo:", "bar"); }
      "`" + "foo:" + "${" + "bar" + "}" + "`";
      "`foo:${bar}`";
    }
  }

  /** The unit test case with text between two placeholders. */
  lemma ToJsTextBetweenPlaceholdersCase(template: string)
    requires template == "{foo}:{bar}"
    ensures ToJsTemplateString(template) == "`${foo}:${bar}`"
  {
    calc {
      ToJsTemplateString(template);
      { assert template == "{" + "foo" + "}" + ":" + "{" + "bar" + "}"; }
      ToJsTemplateString("{" + "foo" + "}" + ":" + "{" + "bar" + "}");
      { PlaceholderTextPlaceholder("foo", ":", "bar"); }
      "`" + "${" + "foo" + "}" + ":" + "${" + "bar" + "}" + "`";
      "`${foo}:${bar}`";
    }
  }

  /** The unit test case with two adjacent placeholders. */
  lemma ToJsAdjacentPlaceholdersCase(template: string)
    requires template == "{foo}{bar}"
    ensures ToJsTemplateString(template) == "`${foo}${bar}`"
  {
    calc {
      ToJsTemplateString(template);
      { assert template == "{" + "foo" + "}" + "" + "{" + "bar" + "}"; }
      ToJsTemplateString("{" + "foo" + "}" + "" + "{" + "bar" + "}");
      { PlaceholderTextPlaceholder("foo", "", "bar"); }
      "`" + "${" + "foo" + "}" + "" + "${" + "bar" + "}" + "`";
      "`${foo}${bar}`";
    }
  }

  /** The unit test case that is a single placeholder. */
  lemma ToJsBareCase(template: string)
    requires template == "{foo}"
    ensures ToJsTemplateString(template) == "foo"
  {
    SinglePlaceholderIsBare("foo");
    assert template == "{" + "foo" + "}";
  }

  /** The unit test case that is a single placeholder with a dotted path. */
  lemma ToJsBarePathCase(template: string)
    requires template == "{foo.bar}"
    ensures ToJsTemplateString(template) == "foo.bar"
  {
    SinglePlaceholderIsBare("foo.bar");
    assert template == "{" + "foo.bar" + "}";
  }

  // ---------------------------------------------------------------------------------------------
  // `resolveToken`

  /** Why a token could not be resolved. */
  datatype ResolveError =
    | MissingKey(part: string, token: string)
    | MissingProperty(part: string, token: string)
    | InvalidVariable(part: string, token: string, actualType: string)
    | NotStringable(message: string)

  /** The code of the exception raised for a path through a value that is neither array nor object. */
  const InvalidVariableCode := 1741347096

  /**
   * The exception message.  The assertion library formats the key or property name as a quoted
   * string into the message's `%s`, so it appears in doubled quotes.
   */
  function ErrorMessage(e: ResolveError): string {
    match e
    case MissingKey(p, t) => "Missing array key \"\"" + p + "\"\" for token \"" + t + "\""
    case MissingProperty(p, t) => "Missing property \"\"" + p + "\"\" for token \"" + t + "\""
    case InvalidVariable(p, t, ty) =>
      "Invalid variable \"" + p + "\" for token \"" + t + "\", expected array or object, got " + ty
    case NotStringable(m) => m
  }

  /** One step of the path: an array key or an object property. */
  function Step(value: PhpValue, part: string, token: string): (r: Result<PhpValue, ResolveError>)
    ensures r.Ok? <==> (value.Arr? && part in value.entries) || (value.Obj? && part in value.properties)
    ensures r.Err? ==> !r.error.NotStringable? && r.error.part == part && r.error.token == token
  {
    match value
    case Arr(m) => if part in m then Ok(m[part]) else Err(MissingKey(part, token))
    case Obj(_, properties, _) => if part in properties then Ok(properties[part]) else Err(MissingProperty(part, token))
    case _ => Err(InvalidVariable(part, token, DebugType(value)))
  }

  /** The value at the end of the path, or the first step that fails. */
  function Walk(value: PhpValue, parts: seq<string>, token: string): (r: Result<PhpValue, ResolveError>)
    ensures r.Err? ==> !r.error.NotStringable? && r.error.part in parts && r.error.token == token
    decreases |parts|
  {
    if |parts| == 0 then Ok(value)
    else
      match Step(value, parts[0], token)
      case Err(e) => Err(e)
      case Ok(next) => Walk(next, parts[1..], token)
  }

  /** What `resolveToken` returns for a token, or why it fails. */
  function Resolve(variables: map<string, PhpValue>, token: string): Result<string, ResolveError> {
    match Walk(Arr(variables), Split(token, '.'), token)
    case Err(e) => Err(e)
    case Ok(v) =>
      match CastToString(v)
      case Err(m) => Err(NotStringable(m))
      case Ok(s) => Ok(s)
  }

  /** `resolveToken`: walks the dotted path one part at a time. */
  method ResolveToken(variables: map<string, PhpValue>, token: string) returns (r: Result<string, ResolveError>)
    ensures r == Resolve(variables, token)
  {
    var parts := Split(token, '.');
    var value := Arr(variables);
    var i := 0;
    while i < |parts|
      invariant 0 <= i <= |parts|
      invariant Walk(Arr(variables), parts, token) == Walk(value, parts[i..], token)
    {
      var part := parts[i];
      assert parts[i..][0] == part && parts[i..][1..] == parts[i + 1..];
      match value {
        case Arr(m) =>
          if part !in m {
            return Err(MissingKey(part, token));
          }
          value := m[part];
        case Obj(_, properties, _) =>
          if part !in properties {
            return Err(MissingProperty(part, token));
          }
          value := properties[part];
        case _ =>
          return Err(InvalidVariable(part, token, DebugType(value)));
      }
      i := i + 1;
    }
    var s := CastToString(value);
    if s.Err? {
      return Err(NotStringable(s.error));
    }
    return Ok(s.value);
  }

  /** A token without dots names a top-level variable; a string variable resolves to itself. */
  lemma ResolveTopLevelString(variables: map<string, PhpValue>, name: string, s: string)
    requires '.' !in name && name in variables && variables[name] == Str(s)
    ensures Resolve(variables, name) == Ok(s)
  {
    SplitNoSeparator(name, '.');
    var parts := Split(name, '.');
    assert parts[0] == name && parts[1..] == [];
    assert Step(Arr(variables), name, name) == Ok(Str(s));
    assert Walk(Arr(variables), parts, name) == Walk(Str(s), parts[1..], name);
  }

  /** A path whose first part is not a variable fails on that key. */
  lemma ResolveMissingVariable(variables: map<string, PhpValue>, token: string)
    requires Split(token, '.')[0] !in variables
    ensures Resolve(variables, token) == Err(MissingKey(Split(token, '.')[0], token))
  {
    var parts := Split(token, '.');
    assert Step(Arr(variables), parts[0], token) == Err(MissingKey(parts[0], token));
    assert Walk(Arr(variables), parts, token) == Err(MissingKey(parts[0], token));
  }

  /** A path that goes on past a variable that is neither array nor object fails with its type. */
  lemma ResolveThroughScalar(variables: map<string, PhpValue>, name: string, rest: string)
    requires '.' !in name && name in variables
    requires !variables[name].Arr? && !variables[name].Obj?
    ensures Resolve(variables, name + "." + rest)
      == Err(InvalidVariable(Split(rest, '.')[0], name + "." + rest, DebugType(variables[name])))
  {
    var token := name + "." + rest;
    SplitJoin(rest, '.');
    SplitNoSeparator(name, '.');
    var parts := [name] + Split(rest, '.');
    forall k | 0 <= k < |parts| ensures '.' !in parts[k] {
      if k > 0 {
        assert parts[k] == Split(rest, '.')[k - 1];
      }
    }
    assert Join(parts, ".") == token;
    JoinSplit(parts, '.');
    assert Split(token, '.') == parts;
    assert parts[1..][0] == Split(rest, '.')[0];
    var v := variables[name];
    assert Step(Arr(variables), name, token) == Ok(v);
    assert Walk(Arr(variables), parts, token) == Walk(v, parts[1..], token);
    assert Step(v, parts[1..][0], token) == Err(InvalidVariable(parts[1..][0], token, DebugType(v)));
  }

  // ---------------------------------------------------------------------------------------------
  // `render`

  /** The length of the longest key of `replacements` that starts `s`, among lengths up to `n`; 0 if none. */
  function LongestKeyAt(s: string, replacements: map<string, string>, n: nat): (r: nat)
    requires n <= |s|
    ensures r <= n
    ensures r > 0 ==> s[..r] in replacements
    ensures forall m :: r < m <= n ==> s[..m] !in replacements
  {
    if n == 0 then 0
    else if s[..n] in replacements then n
    else LongestKeyAt(s, replacements, n - 1)
  }

  /**
   * `strtr($s, $replacements)`: at each position the longest matching key is replaced, and the
   * replacement is not searched again; an empty key never matches.
   */
  function Strtr(s: string, replacements: map<string, string>): string
    decreases |s|
  {
    if |s| == 0 then ""
    else
      var n := LongestKeyAt(s, replacements, |s|);
      if n > 0 then replacements[s[..n]] + Strtr(s[n..], replacements)
      else [s[0]] + Strtr(s[1..], replacements)
  }

  /** With no replacements a string stays as it is. */
  lemma {:induction false} StrtrNothing(s: string)
    ensures Strtr(s, map[]) == s
    decreases |s|
  {
    if |s| > 0 {
      StrtrNothing(s[1..]);
      assert s == [s[0]] + s[1..];
    }
  }

  /** `{token}` for a non-empty token without `}`. */
  predicate IsPlaceholderKey(k: string) {
    |k| >= 3 && k[0] == '{' && k[|k| - 1] == '}' && '}' !in k[1..|k| - 1]
  }

  /** A placeholder replaced by its entry in `replacements`, left as it is without one; text kept. */
  function SubstituteOne(g: Segment, replacements: map<string, string>): string {
    match g
    case Text(c) => [c]
    case Placeholder(t) => var k := "{" + t + "}"; if k in replacements then replacements[k] else k
  }

  /** Every segment substituted in turn. */
  function Substitute(segments: seq<Segment>, replacements: map<string, string>): string {
    if |segments| == 0 then ""
    else SubstituteOne(segments[0], replacements) + Substitute(segments[1..], replacements)
  }

  lemma SubstituteCons(g: Segment, rest: seq<Segment>, replacements: map<string, string>)
    ensures Substitute([g] + rest, replacements) == SubstituteOne(g, replacements) + Substitute(rest, replacements)
  {
    assert ([g] + rest)[1..] == rest;
  }

  /** No key matches where the scan sees text. */
  lemma NoKeyAtText(s: string, replacements: map<string, string>)
    requires forall k :: k in replacements ==> IsPlaceholderKey(k)
    requires |s| > 0 && !PlaceholderStart(s)
    ensures LongestKeyAt(s, replacements, |s|) == 0
  {
    forall m | 0 < m <= |s| ensures !IsPlaceholderKey(s[..m]) {
      var k := s[..m];
      if s[0] == '{' && m >= 3 && s[m - 1] == '}' {
        var c := CloseFrom(s, 1);
        assert k[1..m - 1][c - 1] == s[c];
      }
    }
  }

  /** Where the scan sees a placeholder, its own key is the longest that matches. */
  lemma PlaceholderKeyAt(s: string, replacements: map<string, string>)
    requires forall k :: k in replacements ==> IsPlaceholderKey(k)
    requires PlaceholderStart(s) && s[..CloseFrom(s, 1) + 1] in replacements
    ensures LongestKeyAt(s, replacements, |s|) == CloseFrom(s, 1) + 1
  {
    var j := CloseFrom(s, 1);
    forall m | j + 1 < m <= |s| ensures !IsPlaceholderKey(s[..m]) {
      assert s[..m][1..m - 1][j - 1] == s[j];
    }
  }

  /** How many characters the first segment of a template takes. */
  function HeadLength(s: string): (n: nat)
    requires |s| > 0
    ensures 1 <= n <= |s|
  {
    if PlaceholderStart(s) then CloseFrom(s, 1) + 1 else 1
  }

  /** The first segment of a template. */
  function HeadSegment(s: string): Segment
    requires |s| > 0
  {
    if PlaceholderStart(s) then Placeholder(s[1..CloseFrom(s, 1)]) else Text(s[0])
  }

  /** The first segment, then the segments of what follows it. */
  lemma SegmentsHead(s: string)
    requires |s| > 0
    ensures Segments(s) == [HeadSegment(s)] + Segments(s[HeadLength(s)..])
  {
    SegmentsCons(s);
  }

  /** The token of the first segment, if it is a placeholder, then the tokens of what follows it. */
  lemma TokensHead(s: string)
    requires |s| > 0
    ensures GetTokens(s) == (if HeadSegment(s).Placeholder? then [HeadSegment(s).token] else []) + GetTokens(s[HeadLength(s)..])
  {
    SegmentsHead(s);
    TokensCons(HeadSegment(s), Segments(s[HeadLength(s)..]));
  }

  /** `strtr` replaces the first segment as substitution does, then goes on after it. */
  lemma StrtrHead(s: string, replacements: map<string, string>)
    requires forall k :: k in replacements ==> IsPlaceholderKey(k)
    requires |s| > 0
    requires HeadSegment(s).Placeholder? ==> "{" + HeadSegment(s).token + "}" in replacements
    ensures Strtr(s, replacements) == SubstituteOne(HeadSegment(s), replacements) + Strtr(s[HeadLength(s)..], replacements)
  {
    if PlaceholderStart(s) {
      var n := HeadLength(s);
      assert s[..n] == "{" + s[1..n - 1] + "}";
      PlaceholderKeyAt(s, replacements);
    } else {
      NoKeyAtText(s, replacements);
    }
  }

  /** With placeholder keys covering every placeholder, `strtr` substitutes exactly the placeholders the scan finds. */
  lemma {:induction false} StrtrSubstitutes(s: string, replacements: map<string, string>)
    requires forall k :: k in replacements ==> IsPlaceholderKey(k)
    requires forall t :: t in GetTokens(s) ==> "{" + t + "}" in replacements
    ensures Strtr(s, replacements) == Substitute(Segments(s), replacements)
    decreases |s|
  {
    if |s| > 0 {
      var g := HeadSegment(s);
      var rest := s[HeadLength(s)..];
      TokensHead(s);
      assert g.Placeholder? ==> g.token in GetTokens(s);
      assert forall t :: t in GetTokens(rest) ==> "{" + t + "}" in replacements by {
        forall t | t in GetTokens(rest) ensures "{" + t + "}" in replacements {
          assert t in GetTokens(s);
        }
      }
      StrtrSubstitutes(rest, replacements);
      StrtrHead(s, replacements);
      SegmentsHead(s);
      SubstituteCons(g, Segments(rest), replacements);
    }
  }

  /** The map `render` builds: each `{token}` to its resolved value, or the first token that fails. */
  function Replacements(variables: map<string, PhpValue>, tokens: seq<string>): Result<map<string, string>, ResolveError>
    decreases |tokens|
  {
    if |tokens| == 0 then Ok(map[])
    else
      match Replacements(variables, tokens[..|tokens| - 1])
      case Err(e) => Err(e)
      case Ok(m) =>
        match Resolve(variables, tokens[|tokens| - 1])
        case Err(e) => Err(e)
        case Ok(v) => Ok(m["{" + tokens[|tokens| - 1] + "}" := v])
  }

  /** Different tokens give different placeholder keys. */
  lemma PlaceholderKeyInjective(t: string, u: string)
    requires "{" + t + "}" == "{" + u + "}"
    ensures t == u
  {
    assert ("{" + t + "}")[1..|t| + 1] == t;
    assert ("{" + u + "}")[1..|u| + 1] == u;
  }

  /** The map is built exactly when every token resolves. */
  lemma {:induction false} ReplacementsOkIff(variables: map<string, PhpValue>, tokens: seq<string>)
    ensures Replacements(variables, tokens).Ok? <==> forall k :: 0 <= k < |tokens| ==> Resolve(variables, tokens[k]).Ok?
    decreases |tokens|
  {
    if |tokens| > 0 {
      var prefix := tokens[..|tokens| - 1];
      ReplacementsOkIff(variables, prefix);
      assert forall k :: 0 <= k < |prefix| ==> tokens[k] == prefix[k];
    }
  }

  /** The keys of a built map are exactly the `{token}` keys. */
  lemma {:induction false} ReplacementsKeys(variables: map<string, PhpValue>, tokens: seq<string>)
    requires Replacements(variables, tokens).Ok?
    ensures Replacements(variables, tokens).value.Keys == set t | t in tokens :: "{" + t + "}"
    decreases |tokens|
  {
    if |tokens| > 0 {
      var last := tokens[|tokens| - 1];
      var prefix := tokens[..|tokens| - 1];
      ReplacementsKeys(variables, prefix);
      assert forall t :: t in tokens <==> t in prefix || t == last;
    }
  }

  /** Each token's key is in a built map and holds the value the token resolves to. */
  lemma {:induction false} ReplacementsValues(variables: map<string, PhpValue>, tokens: seq<string>)
    requires Replacements(variables, tokens).Ok?
    ensures forall k :: 0 <= k < |tokens| ==>
      && "{" + tokens[k] + "}" in Replacements(variables, tokens).value
      && Resolve(variables, tokens[k]) == Ok(Replacements(variables, tokens).value["{" + tokens[k] + "}"])
    decreases |tokens|
  {
    if |tokens| > 0 {
      var last := tokens[|tokens| - 1];
      var prefix := tokens[..|tokens| - 1];
      ReplacementsValues(variables, prefix);
      var m := Replacements(variables, prefix).value;
      var v := Resolve(variables, last);
      var r := Replacements(variables, tokens).value;
      assert r == m["{" + last + "}" := v.value];
      forall k | 0 <= k < |tokens|
        ensures "{" + tokens[k] + "}" in r && Resolve(variables, tokens[k]) == Ok(r["{" + tokens[k] + "}"])
      {
        if k < |prefix| {
          assert tokens[k] == prefix[k];
          if "{" + tokens[k] + "}" == "{" + last + "}" {
            PlaceholderKeyInjective(tokens[k], last);
          }
        }
      }
    }
  }

  /** When the map fails, it fails on the first token that does not resolve. */
  lemma {:induction false} ReplacementsFirstError(variables: map<string, PhpValue>, tokens: seq<string>) returns (k: nat)
    requires Replacements(variables, tokens).Err?
    ensures k < |tokens| && Resolve(variables, tokens[k]) == Err(Replacements(variables, tokens).error)
    ensures forall i :: 0 <= i < k ==> Resolve(variables, tokens[i]).Ok?
    decreases |tokens|
  {
    var prefix := tokens[..|tokens| - 1];
    assert forall i :: 0 <= i < |prefix| ==> tokens[i] == prefix[i];
    ReplacementsOkIff(variables, prefix);
    if Replacements(variables, prefix).Err? {
      k := ReplacementsFirstError(variables, prefix);
    } else {
      k := |tokens| - 1;
    }
  }

  /** Once a prefix of the tokens fails, the whole list fails the same way. */
  lemma {:induction false} ReplacementsStopsAtError(variables: map<string, PhpValue>, tokens: seq<string>, i: nat)
    requires i <= |tokens| && Replacements(variables, tokens[..i]).Err?
    ensures Replacements(variables, tokens) == Replacements(variables, tokens[..i])
    decreases |tokens|
  {
    if i < |tokens| {
      var prefix := tokens[..|tokens| - 1];
      assert prefix[..i] == tokens[..i];
      ReplacementsStopsAtError(variables, prefix, i);
    } else {
      assert tokens[..i] == tokens;
    }
  }

  /** What `render` returns for a template, or why it fails. */
  function Rendered(template: string, variables: map<string, PhpValue>): Result<string, ResolveError> {
    match Replacements(variables, GetTokens(template))
    case Err(e) => Err(e)
    case Ok(m) => Ok(Strtr(template, m))
  }

  /** `render`: resolves every token into a replacement map, then replaces. */
  method Render(template: string, variables: map<string, PhpValue>) returns (r: Result<string, ResolveError>)
    ensures r == Rendered(template, variables)
  {
    var tokens := GetTokens(template);
    var replacements: map<string, string> := map[];
    var i := 0;
    while i < |tokens|
      invariant 0 <= i <= |tokens|
      invariant Replacements(variables, tokens[..i]) == Ok(replacements)
    {
      assert tokens[..i + 1][..i] == tokens[..i];
      var value := ResolveToken(variables, tokens[i]);
      if value.Err? {
        ReplacementsStopsAtError(variables, tokens, i + 1);
        return Err(value.error);
      }
      replacements := replacements["{" + tokens[i] + "}" := value.value];
      i := i + 1;
    }
    assert tokens[..i] == tokens;
    return Ok(Strtr(template, replacements));
  }

  /** A placeholder replaced by the value its token resolves to (kept when it does not resolve); text kept. */
  function FillOne(g: Segment, variables: map<string, PhpValue>): string {
    match g
    case Text(c) => [c]
    case Placeholder(t) => match Resolve(variables, t) case Ok(v) => v case Err(_) => "{" + t + "}"
  }

  /** The template with every placeholder replaced by the value its token resolves to. */
  function Fill(segments: seq<Segment>, variables: map<string, PhpValue>): string {
    if |segments| == 0 then ""
    else FillOne(segments[0], variables) + Fill(segments[1..], variables)
  }

  lemma {:induction false} SubstituteResolved(segments: seq<Segment>, variables: map<string, PhpValue>, m: map<string, string>)
    requires forall t :: Placeholder(t) in segments ==> "{" + t + "}" in m && Resolve(variables, t) == Ok(m["{" + t + "}"])
    ensures Substitute(segments, m) == Fill(segments, variables)
  {
    if |segments| > 0 {
      var g := segments[0];
      forall t | Placeholder(t) in segments[1..] ensures "{" + t + "}" in m && Resolve(variables, t) == Ok(m["{" + t + "}"]) {
        assert Placeholder(t) in segments;
      }
      SubstituteResolved(segments[1..], variables, m);
      assert SubstituteOne(g, m) == FillOne(g, variables) by {
        if g.Placeholder? {
          assert g in segments;
        }
      }
    }
  }

  /**
   * `render` succeeds exactly when every token resolves; it then fills each placeholder with its
   * value and keeps all other text, and otherwise fails as the first unresolvable token does.
   */
  lemma RenderFills(template: string, variables: map<string, PhpValue>)
    ensures Rendered(template, variables).Ok? <==> forall t :: t in GetTokens(template) ==> Resolve(variables, t).Ok?
    ensures Rendered(template, variables).Ok? ==> Rendered(template, variables).value == Fill(Segments(template), variables)
  {
    var tokens := GetTokens(template);
    ReplacementsOkIff(variables, tokens);
    assert (forall t :: t in tokens ==> Resolve(variables, t).Ok?) <==> (forall k :: 0 <= k < |tokens| ==> Resolve(variables, tokens[k]).Ok?) by {
      if forall k :: 0 <= k < |tokens| ==> Resolve(variables, tokens[k]).Ok? {
        forall t | t in tokens ensures Resolve(variables, t).Ok? {
          var k :| 0 <= k < |tokens| && tokens[k] == t;
        }
      }
    }
    if Replacements(variables, tokens).Ok? {
      BuiltMapFills(template, variables);
    }
  }

  /** Once the map is built, `strtr` with it fills every placeholder with its token's value. */
  lemma BuiltMapFills(template: string, variables: map<string, PhpValue>)
    requires Replacements(variables, GetTokens(template)).Ok?
    ensures Strtr(template, Replacements(variables, GetTokens(template)).value) == Fill(Segments(template), variables)
  {
    var tokens := GetTokens(template);
    var m := Replacements(variables, tokens).value;
    assert forall k :: k in m ==> IsPlaceholderKey(k) by {
      GetTokensMembers(template);
      ReplacementsKeys(variables, tokens);
      forall k | k in m ensures IsPlaceholderKey(k) {
        var t :| t in tokens && k == "{" + t + "}";
        assert k[1..|k| - 1] == t;
      }
    }
    ReplacementsValues(variables, tokens);
    assert forall t :: t in tokens ==> "{" + t + "}" in m by {
      forall t | t in tokens ensures "{" + t + "}" in m {
        var k :| 0 <= k < |tokens| && tokens[k] == t;
      }
    }
    StrtrSubstitutes(template, m);
    assert forall t :: Placeholder(t) in Segments(template) ==> "{" + t + "}" in m && Resolve(variables, t) == Ok(m["{" + t + "}"]) by {
      GetTokensMembers(template);
      forall t | Placeholder(t) in Segments(template) ensures "{" + t + "}" in m && Resolve(variables, t) == Ok(m["{" + t + "}"]) {
        assert t in tokens;
        var k :| 0 <= k < |tokens| && tokens[k] == t;
      }
    }
    SubstituteResolved(Segments(template), variables, m);
  }

  /** A template without placeholders renders to itself. */
  lemma RenderWithoutTokens(template: string, variables: map<string, PhpValue>)
    requires GetTokens(template) == []
    ensures Rendered(template, variables) == Ok(template)
  {
    StrtrNothing(template);
  }
}
