/** The CSS text built by `generateGradient`. */
module Gradient {
  import opened Wrappers

  /** The number of characters of all the items together. */
  function TotalLength(parts: seq<string>): nat {
    if |parts| == 0 then 0 else |parts[0]| + TotalLength(parts[1..])
  }

  /** `parts.join(sep)`: the items in order with one separator between each
      two, so the text starts with the first item and has the items'
      characters plus one separator fewer than there are items. */
  function Join(parts: seq<string>, sep: string): (s: string)
    ensures |parts| == 0 ==> s == ""
    ensures |parts| >= 1 ==> |s| == TotalLength(parts) + (|parts| - 1) * |sep|
    ensures |parts| >= 1 ==> |parts[0]| <= |s| && s[..|parts[0]|] == parts[0]
    decreases |parts|
  {
    if |parts| == 0 then ""
    else if |parts| == 1 then parts[0]
    else
      var rest := Join(parts[1..], sep);
      assert (|parts| - 1) * |sep| == (|parts| - 2) * |sep| + |sep|;
      parts[0] + sep + rest
  }

  /** Index of the first ", " in `s`, or `|s|` when there is none. */
  function IndexOfSeparator(s: string): (k: nat)
    ensures k <= |s|
    ensures k < |s| ==> k + 1 < |s| && s[k] == ',' && s[k + 1] == ' '
    ensures forall j :: 0 <= j < k && j + 1 < |s| ==> !(s[j] == ',' && s[j + 1] == ' ')
  {
    if |s| < 2 then |s|
    else if s[0] == ',' && s[1] == ' ' then 0
    else 1 + IndexOfSeparator(s[1..])
  }

  /** Splits a list written with the separator ", " back into its items, as
      `split(", ")` would: a comma not followed by a space does not separate. */
  function SplitList(s: string): (parts: seq<string>)
    ensures |parts| >= 1
    decreases |s|
  {
    var k := IndexOfSeparator(s);
    if k < |s| then [s[..k]] + SplitList(s[k + 2..]) else [s]
  }

  predicate NoComma(s: string) {
    forall j :: 0 <= j < |s| ==> s[j] != ','
  }

  /** Splitting a joined list of comma-free items gives the items back. */
  lemma {:induction false} SplitJoin(parts: seq<string>)
    requires |parts| >= 1
    requires forall i :: 0 <= i < |parts| ==> NoComma(parts[i])
    ensures SplitList(Join(parts, ", ")) == parts
    decreases |parts|
  {
    if |parts| == 1 {
      SplitSingle(parts[0]);
    } else {
      var rest := Join(parts[1..], ", ");
      assert Join(parts, ", ") == parts[0] + ", " + rest;
      SplitCons(parts[0], rest);
      SplitJoin(parts[1..]);
      assert parts == [parts[0]] + parts[1..];
    }
  }

  /** A comma-free item splits into itself. */
  lemma SplitSingle(p: string)
    requires NoComma(p)
    ensures SplitList(p) == [p]
  {
    SeparatorFree(p, "");
    assert p + "" == p;
  }

  /** A comma-free item followed by ", " splits off as the first part. */
  lemma SplitCons(p: string, rest: string)
    requires NoComma(p)
    ensures SplitList(p + ", " + rest) == [p] + SplitList(rest)
  {
    var s := p + ", " + rest;
    assert s == p + (", " + rest);
    SeparatorFree(p, ", " + rest);
    assert IndexOfSeparator(s) == |p|;
    assert s[..|p|] == p;
    assert s[|p| + 2..] == rest;
  }

  /** A comma that is not followed by a space separates nothing: it stays
      inside the item that `t`'s first part continues. */
  lemma CommaWithoutSpaceKept(p: string, t: string)
    requires NoComma(p)
    requires |t| > 0 && t[0] != ' '
    ensures SplitList(p + "," + t) == [p + "," + SplitList(t)[0]] + SplitList(t)[1..]
  {
    var s := p + "," + t;
    var k := IndexOfSeparator(t);
    SkipComma(p, t);
    var parts := SplitList(t);
    if k < |t| {
      SplitAt(t, k);
      SplitAt(s, |p| + 1 + k);
      SliceAfterComma(p, t, k);
      var rest := SplitList(t[k + 2..]);
      assert parts[0] == t[..k] && parts[1..] == rest;
    } else {
      assert parts == [t];
    }
  }

  /** One step of `SplitList`. */
  lemma SplitAt(s: string, k: nat)
    requires k == IndexOfSeparator(s) && k < |s|
    ensures SplitList(s) == [s[..k]] + SplitList(s[k + 2..])
  {
  }

  /** Cutting `p + "," + t` at a position inside `t`. */
  lemma SliceAfterComma(p: string, t: string, k: nat)
    requires k + 2 <= |t|
    ensures (p + "," + t)[..|p| + 1 + k] == p + "," + t[..k]
    ensures (p + "," + t)[|p| + 1 + k + 2..] == t[k + 2..]
  {
  }

  /** The first separator of `p + "," + t` is the first of `t`. */
  lemma SkipComma(p: string, t: string)
    requires NoComma(p)
    requires |t| > 0 && t[0] != ' '
    ensures IndexOfSeparator(p + "," + t) == |p| + 1 + IndexOfSeparator(t)
  {
    var c := [','] + t;
    assert p + "," + t == p + c;
    SeparatorFree(p, c);
    SkipLeadingComma(t);
  }

  /** A leading comma followed by anything but a space is skipped. */
  lemma SkipLeadingComma(t: string)
    requires |t| > 0 && t[0] != ' '
    ensures IndexOfSeparator([','] + t) == 1 + IndexOfSeparator(t)
  {
    assert ([','] + t)[1..] == t;
  }

  /** No separator starts inside a comma-free `p`, so the first separator of
      `p + t` is the first of `t`. */
  lemma {:induction false} SeparatorFree(p: string, t: string)
    requires NoComma(p)
    ensures IndexOfSeparator(p + t) == |p| + IndexOfSeparator(t)
    decreases |p|
  {
    if |p| > 0 {
      assert (p + t)[1..] == p[1..] + t;
      SeparatorFree(p[1..], t);
    } else {
      assert p + t == t;
    }
  }

  /** The colour stops: the hex codes of at most the first five colours,
      separated by ", ". */
  function ColorStops(hexes: seq<string>): (stops: string)
    ensures (forall i :: 0 <= i < |hexes| ==> NoComma(hexes[i])) && |hexes| >= 1 ==>
      SplitList(stops) == hexes[..if |hexes| < 5 then |hexes| else 5]
  {
    var first := hexes[..if |hexes| < 5 then |hexes| else 5];
    assert (forall i :: 0 <= i < |hexes| ==> NoComma(hexes[i])) && |hexes| >= 1 ==> SplitList(Join(first, ", ")) == first by {
      if (forall i :: 0 <= i < |hexes| ==> NoComma(hexes[i])) && |hexes| >= 1 {
        SplitJoin(first);
      }
    }
    Join(first, ", ")
  }

  const LinearPrefix := "linear-gradient("
  const RadialPrefix := "radial-gradient("
  const TooFewColorsMessage := "Please analyze an image first to generate a gradient"

  /** The text between the opening and the closing parenthesis. */
  function Arguments(css: string): string
    requires |css| >= 17
  {
    css[16..|css| - 1]
  }

  /** The gradient CSS for the given palette hex codes: fewer than two
      colours are refused; gradient type "linear" gives `linear-gradient`
      with the chosen direction, any other type `radial-gradient` with
      `circle`; the arguments are that first argument followed by the first
      five colour stops. */
  function ComposeGradient(hexes: seq<string>, gradientType: string, direction: string): (result: Result<string, string>)
    ensures result.Failure? <==> |hexes| < 2
    ensures result.Failure? ==> result.error == TooFewColorsMessage
    ensures result.Success? && gradientType == "linear" ==>
      result.value == LinearPrefix + direction + ", " + ColorStops(hexes) + ")"
    ensures result.Success? && gradientType != "linear" ==>
      result.value == RadialPrefix + "circle, " + ColorStops(hexes) + ")"
  {
    if |hexes| < 2 then Failure(TooFewColorsMessage)
    else if gradientType == "linear" then Success(LinearPrefix + direction + ", " + ColorStops(hexes) + ")")
    else Success(RadialPrefix + "circle, " + ColorStops(hexes) + ")")
  }

  /** Reading the gradient back: the arguments split at ", " are the first
      argument (the direction, or `circle`) followed by the hex codes of the
      first five colours. */
  lemma GradientArguments(hexes: seq<string>, gradientType: string, direction: string)
    requires |hexes| >= 2
    requires forall i :: 0 <= i < |hexes| ==> NoComma(hexes[i])
    requires NoComma(direction)
    ensures var css := ComposeGradient(hexes, gradientType, direction).value;
      |css| >= 17 &&
      SplitList(Arguments(css)) ==
        [if gradientType == "linear" then direction else "circle"] + hexes[..if |hexes| < 5 then |hexes| else 5]
  {
    var first := if gradientType == "linear" then direction else "circle";
    var prefix := if gradientType == "linear" then LinearPrefix else RadialPrefix;
    var stops := ColorStops(hexes);
    assert ComposeGradient(hexes, gradientType, direction).value == prefix + (first + ", " + stops) + ")";
    Unwrap(prefix, first + ", " + stops);
    SplitCons(first, stops);
  }

  /** The arguments of a CSS function whose name and parenthesis take
      16 characters. */
  lemma Unwrap(prefix: string, inner: string)
    requires |prefix| == 16
    ensures |prefix + inner + ")"| >= 17 && Arguments(prefix + inner + ")") == inner
  {
    assert (prefix + inner + ")")[16..|prefix + inner + ")"| - 1] == inner;
  }

  /** With more than five colours only the first five appear. */
  lemma AtMostFiveStops(hexes: seq<string>)
    requires |hexes| > 5
    requires forall i :: 0 <= i < |hexes| ==> NoComma(hexes[i])
    ensures |SplitList(ColorStops(hexes))| == 5
  {
  }
}
