/** `rgbToHsl` and `rgbToHsv`, over exact reals (an idealisation of the
    source's double arithmetic), and the integer bins the HSV histogram
    derives from them. */
module ColorSpace {
  import opened Colors

  /** `Math.max` of two numbers. */
  function Max(a: real, b: real): (m: real)
    ensures m >= a && m >= b && (m == a || m == b)
  {
    if a >= b then a else b
  }

  /** `Math.min` of two numbers. */
  function Min(a: real, b: real): (m: real)
    ensures m <= a && m <= b && (m == a || m == b)
  {
    if a <= b then a else b
  }

  /** `Math.max(r, g, b)`. */
  function Max3(a: real, b: real, c: real): (m: real)
    ensures m >= a && m >= b && m >= c && (m == a || m == b || m == c)
  {
    Max(Max(a, b), c)
  }

  /** `Math.min(r, g, b)`. */
  function Min3(a: real, b: real, c: real): (m: real)
    ensures m <= a && m <= b && m <= c && (m == a || m == b || m == c)
  {
    Min(Min(a, b), c)
  }

  /** `Math.round`: the nearest integer, halves rounded up. */
  function Round(x: real): int {
    (x + 0.5).Floor
  }

  lemma RoundBounds(x: real, hi: int)
    requires 0.0 <= x <= hi as real
    ensures 0 <= Round(x) <= hi
  {
  }

  /** Bounds of a quotient whose numerator is no larger than its divisor. */
  lemma QuotientBounds(x: real, d: real)
    requires d > 0.0 && -d <= x <= d
    ensures -1.0 <= x / d <= 1.0
    ensures x < 0.0 <==> x / d < 0.0
    ensures x / d == 1.0 <==> x == d
    ensures x / d == 0.0 <==> x == 0.0
  {
    var q := x / d;
    assert q * d == x;
  }

  /** The hue shared by both conversions, as a fraction of a full turn:
      the six-piece formula keyed on the channel that is the maximum,
      tested in the order r, g, b, with 6 added when g < b. */
  function Hue(r: real, g: real, b: real): (h: real)
    ensures 0.0 <= h < 1.0
  {
    var max := Max3(r, g, b);
    var min := Min3(r, g, b);
    if max == min then 0.0
    else
      var d := max - min;
      if max == r then
        QuotientBounds(g - b, d);
        ((g - b) / d + (if g < b then 6.0 else 0.0)) / 6.0
      else if max == g then
        QuotientBounds(b - r, d);
        ((b - r) / d + 2.0) / 6.0
      else
        QuotientBounds(r - g, d);
        ((r - g) / d + 4.0) / 6.0
  }

  /** A channel byte scaled to [0, 1], as `r /= 255` does. */
  function Unit(x: int): real {
    x as real / 255.0
  }

  /** The result of `rgbToHsv`: degrees and percentages, unrounded. */
  datatype Hsv = Hsv(h: real, s: real, v: real)

  /** `rgbToHsv(r, g, b)`. Saturation is zero exactly for greys, value is
      zero exactly for black, and value is the largest channel in percent. */
  function RgbToHsv(c: Rgb): (hsv: Hsv)
    requires ValidColor(c)
    ensures 0.0 <= hsv.h < 360.0 && 0.0 <= hsv.s <= 100.0 && 0.0 <= hsv.v <= 100.0
    ensures hsv.s == 0.0 <==> c.r == c.g == c.b
    ensures hsv.v == 0.0 <==> c == Rgb(0, 0, 0)
    ensures hsv.v == MaxChannel(c) as real * 100.0 / 255.0
  {
    var r, g, b := Unit(c.r), Unit(c.g), Unit(c.b);
    var max := Max3(r, g, b);
    var min := Min3(r, g, b);
    var d := max - min;
    var s := if max == 0.0 then 0.0 else (QuotientBounds(d, max); d / max);
    var v := max;
    Hsv(Hue(r, g, b) * 360.0, s * 100.0, v * 100.0)
  }

  /** The rounded triple `rgbToHsl` formats as `(h, s%, l%)`. */
  datatype Hsl = Hsl(h: int, s: int, l: int)

  /** `rgbToHsl(r, g, b)`, each component rounded with `Math.round`. Greys
      have hue and saturation zero. The hue can be 360: `Math.round` is
      applied to a hue just below a full turn. */
  function RgbToHsl(c: Rgb): (hsl: Hsl)
    requires ValidColor(c)
    ensures 0 <= hsl.h <= 360 && 0 <= hsl.s <= 100 && 0 <= hsl.l <= 100
    ensures c.r == c.g == c.b ==> hsl.h == 0 && hsl.s == 0
    ensures hsl.l == Round((MaxChannel(c) + MinChannel(c)) as real * 50.0 / 255.0)
  {
    var r, g, b := Unit(c.r), Unit(c.g), Unit(c.b);
    var max := Max3(r, g, b);
    var min := Min3(r, g, b);
    var l := (max + min) / 2.0;
    var d := max - min;
    var h := if max == min then 0.0 else Hue(r, g, b);
    var s :=
      if max == min then 0.0
      else if l > 0.5 then (QuotientBounds(d, 2.0 - max - min); d / (2.0 - max - min))
      else (QuotientBounds(d, max + min); d / (max + min));
    RoundBounds(h * 360.0, 360);
    RoundBounds(s * 100.0, 100);
    RoundBounds(l * 100.0, 100);
    Hsl(Round(h * 360.0), Round(s * 100.0), Round(l * 100.0))
  }

  lemma HslExamples()
    ensures RgbToHsl(Rgb(255, 0, 0)) == Hsl(0, 100, 50)
    ensures RgbToHsl(Rgb(255, 0, 1)).h == 360
  {
  }

  /** `Math.floor(hsv.h)`: a hue bin, always one of the 360 bins. */
  function HueBin(r: byte, g: byte, b: byte): (bin: int)
    ensures 0 <= bin < 360
  {
    RgbToHsv(Rgb(r as int, g as int, b as int)).h.Floor
  }

  /** `Math.floor(hsv.s)`: it reaches 100, one past the last of the 100
      saturation bins, exactly when the smallest channel is 0 and the
      largest is not. */
  function SaturationBin(r: byte, g: byte, b: byte): (bin: int)
    ensures 0 <= bin <= 100
    ensures var c := Rgb(r as int, g as int, b as int);
      bin == 100 <==> MinChannel(c) == 0 < MaxChannel(c)
  {
    var c := Rgb(r as int, g as int, b as int);
    SaturationReaches100(c);
    RgbToHsv(c).s.Floor
  }

  lemma SaturationReaches100(c: Rgb)
    requires ValidColor(c)
    ensures RgbToHsv(c).s == 100.0 <==> MinChannel(c) == 0 < MaxChannel(c)
  {
    var r, g, b := Unit(c.r), Unit(c.g), Unit(c.b);
    var max := Max3(r, g, b);
    var min := Min3(r, g, b);
    assert max == MaxChannel(c) as real / 255.0;
    assert min == MinChannel(c) as real / 255.0;
    if max != 0.0 {
      QuotientBounds(max - min, max);
    }
  }

  /** `Math.floor(hsv.v)`: it reaches 100, one past the last of the 100
      value bins, exactly when the largest channel is 255. */
  function ValueBin(r: byte, g: byte, b: byte): (bin: int)
    ensures 0 <= bin <= 100
    ensures bin == 100 <==> MaxChannel(Rgb(r as int, g as int, b as int)) == 255
  {
    RgbToHsv(Rgb(r as int, g as int, b as int)).v.Floor
  }

  /** A percentage bin clamped to the 100 bins that exist: 100 % shares the
      last bin with [99, 100). */
  function ClampedPercentBin(bin: int): (clamped: int)
    requires 0 <= bin <= 100
    ensures 0 <= clamped < 100
    ensures bin < 100 ==> clamped == bin
  {
    if bin < 100 then bin else 99
  }
}
