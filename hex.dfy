/** The hex codec of the profiler: `rgbToHex`, `hexToRgb` and `isValidHex`.
    The two regular expressions of the source are written out as character
    predicates over strings. */
module HexCodec {
  import opened Wrappers
  import opened Colors

  predicate IsDecimalDigit(c: char) {
    '0' <= c <= '9'
  }

  /** `[a-f\d]` (equivalently `[0-9A-F]`) under the `i` flag. */
  predicate IsHexDigit(c: char) {
    IsDecimalDigit(c) || 'a' <= c <= 'f' || 'A' <= c <= 'F'
  }

  /** The digits `Number.prototype.toString(16)` produces. */
  predicate IsLowerHexDigit(c: char) {
    IsDecimalDigit(c) || 'a' <= c <= 'f'
  }

  predicate AllHexDigits(s: string) {
    forall i :: 0 <= i < |s| ==> IsHexDigit(s[i])
  }

  /** The value of one digit, as `parseInt(_, 16)` reads it. */
  function DigitValue(c: char): (v: nat)
    requires IsHexDigit(c)
    ensures v < 16
  {
    if IsDecimalDigit(c) then c as int - '0' as int
    else if 'a' <= c <= 'f' then c as int - 'a' as int + 10
    else c as int - 'A' as int + 10
  }

  /** The lower-case digit of a value below 16. */
  function LowerDigit(v: nat): (c: char)
    requires v < 16
    ensures IsLowerHexDigit(c) && DigitValue(c) == v
  {
    if v < 10 then ('0' as int + v) as char else ('a' as int + v - 10) as char
  }

  function ToLowerDigit(c: char): (l: char)
    requires IsHexDigit(c)
    ensures IsLowerHexDigit(l) && DigitValue(l) == DigitValue(c)
  {
    if 'A' <= c <= 'F' then (c as int - 'A' as int + 'a' as int) as char else c
  }

  /** `n.toString(16)` for a non-negative integer: the shortest base-16
      numeral, most significant digit first. */
  function ToBase16(n: nat): (s: string)
    ensures |s| >= 1
    ensures forall i :: 0 <= i < |s| ==> IsLowerHexDigit(s[i])
    ensures n < 16 <==> |s| == 1
    decreases n
  {
    if n < 16 then [LowerDigit(n)] else ToBase16(n / 16) + [LowerDigit(n % 16)]
  }

  /** One channel of `rgbToHex`: the numeral, left-padded with `0` when it
      has a single digit. A byte becomes exactly its high and its low
      nibble. */
  function ChannelHex(n: nat): (s: string)
    ensures n < 256 ==> s == [LowerDigit(n / 16), LowerDigit(n % 16)]
  {
    var hex := ToBase16(n);
    assert 16 <= n < 256 ==> hex == [LowerDigit(n / 16), LowerDigit(n % 16)] by {
      if 16 <= n < 256 { assert ToBase16(n / 16) == [LowerDigit(n / 16)]; }
    }
    if |hex| == 1 then "0" + hex else hex
  }

  /** `rgbToHex(r, g, b)`. */
  function RgbToHex(r: nat, g: nat, b: nat): (hex: string)
    ensures IsByte(r) && IsByte(g) && IsByte(b) ==>
      |hex| == 7 && hex[0] == '#' && forall i :: 1 <= i < 7 ==> IsLowerHexDigit(hex[i])
  {
    var hex := "#" + ChannelHex(r) + ChannelHex(g) + ChannelHex(b);
    assert IsByte(r) && IsByte(g) && IsByte(b) ==>
      |hex| == 7 && hex[0] == '#' && forall i :: 1 <= i < 7 ==> IsLowerHexDigit(hex[i])
    by {
      if IsByte(r) && IsByte(g) && IsByte(b) {
        var cr, cg, cb := ChannelHex(r), ChannelHex(g), ChannelHex(b);
        assert |cr| == 2 && |cg| == 2 && |cb| == 2;
        forall i | 1 <= i < 7 ensures IsLowerHexDigit(hex[i]) {
          if i < 3 {
            assert hex[i] == cr[i - 1];
          } else if i < 5 {
            assert hex[i] == cg[i - 3];
          } else {
            assert hex[i] == cb[i - 5];
          }
        }
      }
    }
    hex
  }

  /** The pattern `/^#?([a-f\d]{2})([a-f\d]{2})([a-f\d]{2})$/i` of `hexToRgb`:
      an optional `#` and then exactly six hex digits of either case. */
  predicate MatchesHexPattern(s: string) {
    || (|s| == 7 && s[0] == '#' && AllHexDigits(s[1..]))
    || (|s| == 6 && AllHexDigits(s))
  }

  /** The pattern `/^#[0-9A-F]{6}$/i` of `isValidHex`: the `#` is mandatory.
      Whatever it accepts, `hexToRgb` parses. */
  predicate IsValidHex(s: string)
    ensures IsValidHex(s) ==> MatchesHexPattern(s)
  {
    |s| == 7 && s[0] == '#' && AllHexDigits(s[1..])
  }

  /** The two patterns differ only in the `#`: a string matches the
      `hexToRgb` pattern exactly when it, or it with a `#` put in front,
      passes `isValidHex`. */
  lemma HexPatternIsOptionalHash(s: string)
    ensures MatchesHexPattern(s) <==> IsValidHex(s) || IsValidHex("#" + s)
  {
    var t := "#" + s;
    assert t[1..] == s;
  }

  /** The six digits of a string that matches the pattern (its `#` dropped). */
  function Digits(s: string): (d: string)
    requires MatchesHexPattern(s)
    ensures |d| == 6 && AllHexDigits(d)
  {
    if |s| == 7 then s[1..] else s
  }

  /** `parseInt` of the two digits at `i`. */
  function ParsePair(d: string, i: nat): (v: int)
    requires i + 1 < |d| && IsHexDigit(d[i]) && IsHexDigit(d[i + 1])
    ensures IsByte(v)
  {
    16 * DigitValue(d[i]) + DigitValue(d[i + 1])
  }

  /** `hexToRgb(hex)`: `None` stands for the source's `null`. */
  function HexToRgb(hex: string): (rgb: Option<Rgb>)
    ensures rgb.Some? <==> MatchesHexPattern(hex)
    ensures rgb.Some? ==> ValidColor(rgb.value)
  {
    if MatchesHexPattern(hex) then
      var d := Digits(hex);
      Some(Rgb(ParsePair(d, 0), ParsePair(d, 2), ParsePair(d, 4)))
    else
      None
  }

  /** The canonical spelling of a matching string: `#` and the six digits in
      lower case. */
  function Normalize(hex: string): (n: string)
    requires MatchesHexPattern(hex)
  {
    var d := Digits(hex);
    ['#', ToLowerDigit(d[0]), ToLowerDigit(d[1]), ToLowerDigit(d[2]),
     ToLowerDigit(d[3]), ToLowerDigit(d[4]), ToLowerDigit(d[5])]
  }

  lemma ParseLowerPair(n: int)
    requires IsByte(n)
    ensures ParsePair([LowerDigit(n / 16), LowerDigit(n % 16)], 0) == n
  {
  }

  /** Encoding a byte triple and parsing it back gives the triple. */
  lemma HexRoundTrip(r: int, g: int, b: int)
    requires IsByte(r) && IsByte(g) && IsByte(b)
    ensures HexToRgb(RgbToHex(r, g, b)) == Some(Rgb(r, g, b))
  {
    var hex := RgbToHex(r, g, b);
    var d := Digits(hex);
    assert d == ChannelHex(r) + ChannelHex(g) + ChannelHex(b);
    ParseLowerPair(r);
    ParseLowerPair(g);
    ParseLowerPair(b);
  }

  lemma LowerOfValue(c: char)
    requires IsHexDigit(c)
    ensures LowerDigit(DigitValue(c)) == ToLowerDigit(c)
  {
  }

  /** A pair of digits is re-encoded as the same pair in lower case. */
  lemma PairRoundTrip(d: string, i: nat)
    requires i + 1 < |d| && IsHexDigit(d[i]) && IsHexDigit(d[i + 1])
    ensures ChannelHex(ParsePair(d, i)) == [ToLowerDigit(d[i]), ToLowerDigit(d[i + 1])]
  {
    var n := ParsePair(d, i);
    assert n / 16 == DigitValue(d[i]) && n % 16 == DigitValue(d[i + 1]);
    LowerOfValue(d[i]);
    LowerOfValue(d[i + 1]);
  }

  /** The three pairs of six digits re-encoded: the digits in lower case. */
  lemma EncodePairs(d: string)
    requires |d| == 6 && AllHexDigits(d)
    ensures RgbToHex(ParsePair(d, 0), ParsePair(d, 2), ParsePair(d, 4)) ==
      ['#', ToLowerDigit(d[0]), ToLowerDigit(d[1]), ToLowerDigit(d[2]),
       ToLowerDigit(d[3]), ToLowerDigit(d[4]), ToLowerDigit(d[5])]
  {
    PairRoundTrip(d, 0);
    PairRoundTrip(d, 2);
    PairRoundTrip(d, 4);
  }

  /** Parsing a matching string and encoding the triple gives the string's
      canonical spelling. */
  lemma ParseThenEncode(hex: string)
    requires MatchesHexPattern(hex)
    ensures HexToRgb(hex).Some?
    ensures var c := HexToRgb(hex).value; RgbToHex(c.r, c.g, c.b) == Normalize(hex)
  {
    EncodePairs(Digits(hex));
  }

  /** `isValidHex` is strictly narrower than what `hexToRgb` accepts: a
      string without the `#` parses but is not "valid". */
  lemma ValidHexIsStricter()
    ensures MatchesHexPattern("ff0000") && !IsValidHex("ff0000")
    ensures HexToRgb("ff0000") == HexToRgb("#FF0000") == Some(Rgb(255, 0, 0))
  {
  }

  lemma RedExample()
    ensures RgbToHex(255, 0, 0) == "#ff0000"
  {
    assert ChannelHex(255) == "ff";
    assert ChannelHex(0) == "00";
  }
}
