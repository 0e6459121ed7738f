/** The contrast checker: `getContrastRatio` and the WCAG 2 thresholds of
    `checkContrast`. Relative luminance (`getLuminance`) is a parameter. */
module Contrast {
  import opened Wrappers
  import opened Colors
  import opened HexCodec
  import opened ColorSpace

  /** What the model asks of the luminance function: a value in [0, 1] for
      every colour with byte channels, as WCAG relative luminance is. */
  ghost predicate IsLuminance(lum: Rgb -> real) {
    forall c :: ValidColor(c) ==> 0.0 <= lum(c) <= 1.0
  }

  /** Comparing a quotient with a bound is comparing the dividend with the
      bound times the (positive) divisor. */
  lemma DivCompare(x: real, d: real, k: real)
    requires d > 0.0
    ensures x / d <= k <==> x <= k * d
    ensures x / d == k <==> x == k * d
    ensures x / d >= k <==> x >= k * d
  {
    var q := x / d;
    assert q * d == x;
    assert (q - k) * d == x - k * d;
  }

  /** `(lighter + 0.05) / (darker + 0.05)`: at least 1, exactly 1 for equal
      luminances, larger than 1 otherwise. */
  function ContrastRatio(l1: real, l2: real): (ratio: real)
    requires l1 >= 0.0 && l2 >= 0.0
    ensures ratio >= 1.0
    ensures ratio == 1.0 <==> l1 == l2
  {
    var lighter, darker := Max(l1, l2), Min(l1, l2);
    DivCompare(lighter + 0.05, darker + 0.05, 1.0);
    (lighter + 0.05) / (darker + 0.05)
  }

  /** The ratio does not depend on which colour is the foreground. */
  lemma ContrastSymmetric(l1: real, l2: real)
    requires l1 >= 0.0 && l2 >= 0.0
    ensures ContrastRatio(l1, l2) == ContrastRatio(l2, l1)
  {
  }

  /** Luminances in [0, 1] give a ratio of at most 21, reached only by black
      (luminance 0) against white (luminance 1). */
  lemma ContrastAtMost21(l1: real, l2: real)
    requires 0.0 <= l1 <= 1.0 && 0.0 <= l2 <= 1.0
    ensures ContrastRatio(l1, l2) <= 21.0
    ensures ContrastRatio(l1, l2) == 21.0 <==> Max(l1, l2) == 1.0 && Min(l1, l2) == 0.0
  {
    DivCompare(Max(l1, l2) + 0.05, Min(l1, l2) + 0.05, 21.0);
  }

  /** A brighter lighter colour never lowers the ratio against a fixed
      darker one. */
  lemma ContrastMonotone(darker: real, l1: real, l2: real)
    requires 0.0 <= darker <= l1 <= l2
    ensures ContrastRatio(l1, darker) <= ContrastRatio(l2, darker)
  {
    var d := darker + 0.05;
    DivCompare(l1 + 0.05, d, ContrastRatio(l2, darker));
    DivCompare(l2 + 0.05, d, ContrastRatio(l2, darker));
  }

  /** `getContrastRatio(rgb1, rgb2)`. */
  function GetContrastRatio(lum: Rgb -> real, c1: Rgb, c2: Rgb): (ratio: real)
    requires IsLuminance(lum) && ValidColor(c1) && ValidColor(c2)
    ensures 1.0 <= ratio <= 21.0
    ensures ratio == 1.0 <==> lum(c1) == lum(c2)
  {
    ContrastAtMost21(lum(c1), lum(c2));
    ContrastRatio(lum(c1), lum(c2))
  }

  /** The WCAG 2 minimum ratios `checkContrast` compares against. */
  const AaLargeMinimum: real := 3.0
  const AaNormalMinimum: real := 4.5
  const AaaLargeMinimum: real := 4.5
  const AaaNormalMinimum: real := 7.0

  datatype ContrastReport = ContrastReport(
    ratio: real,
    aaLargeText: bool,
    aaNormalText: bool,
    aaaLargeText: bool,
    aaaNormalText: bool)

  /** The four pass/fail levels of a ratio. They are nested: AAA normal text
      implies AA normal text and AAA large text, which are the same test, and
      each of those implies AA large text. */
  function Levels(ratio: real): (report: ContrastReport)
    ensures report.ratio == ratio
    ensures report.aaaNormalText ==> report.aaNormalText && report.aaaLargeText
    ensures report.aaaLargeText == report.aaNormalText
    ensures report.aaNormalText ==> report.aaLargeText
    ensures report.aaLargeText <==> ratio >= 3.0
    ensures report.aaNormalText <==> ratio >= 4.5
    ensures report.aaaNormalText <==> ratio >= 7.0
  {
    ContrastReport(
      ratio,
      ratio >= AaLargeMinimum,
      ratio >= AaNormalMinimum,
      ratio >= AaaLargeMinimum,
      ratio >= AaaNormalMinimum)
  }

  const InvalidHexMessage := "Please enter valid hex color codes (e.g., #000000)"

  /** `checkContrast`: both inputs must pass `isValidHex`, otherwise the
      check stops with the alert message; the report's ratio is the contrast
      of the two parsed colours. */
  function CheckContrast(lum: Rgb -> real, fgColor: string, bgColor: string): (result: Result<ContrastReport, string>)
    requires IsLuminance(lum)
    ensures result.Failure? <==> !IsValidHex(fgColor) || !IsValidHex(bgColor)
    ensures result.Failure? ==> result.error == InvalidHexMessage
    ensures result.Success? ==>
      HexToRgb(fgColor).Some? && HexToRgb(bgColor).Some? &&
      result.value == Levels(GetContrastRatio(lum, HexToRgb(fgColor).value, HexToRgb(bgColor).value))
    ensures result.Success? ==> 1.0 <= result.value.ratio <= 21.0
  {
    if !IsValidHex(fgColor) || !IsValidHex(bgColor) then
      Failure(InvalidHexMessage)
    else
      var fgRgb, bgRgb := HexToRgb(fgColor).value, HexToRgb(bgColor).value;
      Success(Levels(GetContrastRatio(lum, fgRgb, bgRgb)))
  }

  /** Swapping foreground and background gives the same report. */
  lemma CheckContrastSymmetric(lum: Rgb -> real, fgColor: string, bgColor: string)
    requires IsLuminance(lum)
    ensures CheckContrast(lum, fgColor, bgColor) == CheckContrast(lum, bgColor, fgColor)
  {
    if IsValidHex(fgColor) && IsValidHex(bgColor) {
      var fgRgb, bgRgb := HexToRgb(fgColor).value, HexToRgb(bgColor).value;
      ContrastSymmetric(lum(fgRgb), lum(bgRgb));
    }
  }

  /** A colour against itself has ratio 1 and fails every level. */
  lemma SameColorFailsAll(lum: Rgb -> real, color: string)
    requires IsLuminance(lum) && IsValidHex(color)
    ensures CheckContrast(lum, color, color) == Success(ContrastReport(1.0, false, false, false, false))
  {
  }

  /** Black on white, with the luminances WCAG assigns them, has the
      maximal ratio 21 and passes every level. */
  lemma BlackOnWhitePassesAll(lum: Rgb -> real)
    requires IsLuminance(lum)
    requires lum(Rgb(0, 0, 0)) == 0.0 && lum(Rgb(255, 255, 255)) == 1.0
    ensures CheckContrast(lum, "#000000", "#ffffff") == Success(ContrastReport(21.0, true, true, true, true))
  {
    assert IsValidHex("#000000") && IsValidHex("#ffffff");
    assert HexToRgb("#000000") == Some(Rgb(0, 0, 0));
    assert HexToRgb("#ffffff") == Some(Rgb(255, 255, 255));
  }
}
