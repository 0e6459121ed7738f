/** The state `ImageColorProfiler` keeps between user actions: the dominant
    colours of the last analysed image, which the gradient generator reads. */
module Profiler {
  import opened Wrappers
  import opened Colors
  import opened HexCodec
  import opened Palette
  import opened Clustering
  import opened Gradient
  import opened Contrast

  /** `kMeansClustering(colors, 8)`: the palette has eight colours. */
  const PaletteSize: nat := 8

  /** A valid hex code holds no comma, so it can stand in a CSS list. */
  lemma ValidHexHasNoComma(hex: string)
    requires IsValidHex(hex)
    ensures NoComma(hex)
  {
    forall j | 0 <= j < |hex|
      ensures hex[j] != ','
    {
      if j > 0 {
        assert hex[j] == hex[1..][j - 1];
      }
    }
  }

  class ImageColorProfiler {
    var dominantColors: seq<PaletteEntry>

    /** What a palette is: empty before the first analysis, otherwise eight
        entries brightest first, and every hex code one `isValidHex` accepts. */
    predicate Valid()
      reads this
    {
      && (|dominantColors| == 0 || |dominantColors| == PaletteSize)
      && Descending(dominantColors)
      && forall i :: 0 <= i < |dominantColors| ==> IsValidHex(dominantColors[i].hex)
    }

    /** Before any image is analysed the palette is empty. */
    constructor ()
      ensures dominantColors == [] && Valid()
    {
      dominantColors := [];
    }

    /** `extractDominantColors`: sample every tenth pixel, cluster them into
        eight colours, and keep those sorted brightest first. The RGBA bytes
        of the canvas, the seed indices that replace `Math.random` and the
        luminance function are parameters. */
    method ExtractDominantColors(pixels: seq<byte>, seeds: seq<nat>, lum: Rgb -> real)
      requires |pixels| % 4 == 0 && |pixels| > 0
      requires |seeds| == PaletteSize && forall i :: 0 <= i < |seeds| ==> seeds[i] < |Samples(pixels)|
      modifies this
      ensures AllValid(ClusterCentroids(Samples(pixels), seeds))
      ensures dominantColors == SortByLuminance(EnrichAll(ClusterCentroids(Samples(pixels), seeds), lum))
      ensures |dominantColors| == PaletteSize && Descending(dominantColors)
      ensures Valid()
    {
      var colors := SampleColors(pixels);
      var palette := KMeansClustering(colors, PaletteSize, seeds, lum);
      dominantColors := SortByLuminance(palette);
      forall i | 0 <= i < |dominantColors|
        ensures IsValidHex(dominantColors[i].hex)
      {
        assert dominantColors[i] in multiset(palette);
        var j :| 0 <= j < |palette| && palette[j] == dominantColors[i];
        EnrichedHexIsValid(ClusterCentroids(colors, seeds)[j], lum);
      }
    }

    /** `generateGradient`: the CSS text for the current palette, or the
        alert when fewer than two colours are known. Read back, its
        arguments are the first argument and the first five hex codes. */
    method GenerateGradient(gradientType: string, direction: string) returns (result: Result<string, string>)
      requires Valid()
      ensures result == ComposeGradient(Hexes(dominantColors), gradientType, direction)
      ensures result.Failure? <==> |dominantColors| < 2
      ensures result.Success? && NoComma(direction) ==> (
        |result.value| >= 17 &&
        SplitList(Arguments(result.value)) ==
          [if gradientType == "linear" then direction else "circle"] +
          Hexes(dominantColors)[..if |dominantColors| < 5 then |dominantColors| else 5])
    {
      var hexes := Hexes(dominantColors);
      result := ComposeGradient(hexes, gradientType, direction);
      if result.Success? && NoComma(direction) {
        forall i | 0 <= i < |hexes|
          ensures NoComma(hexes[i])
        {
          ValidHexHasNoComma(hexes[i]);
        }
        GradientArguments(hexes, gradientType, direction);
      }
    }
  }

  /** The contrast inputs `analyzeImage` presets from the palette: the
      brightest colour as foreground and the darkest as background, when
      there are at least two colours. */
  function DefaultContrastColors(palette: seq<PaletteEntry>): (colors: Option<(string, string)>)
    ensures colors.Some? <==> |palette| >= 2
    ensures colors.Some? ==> colors.value == (palette[0].hex, palette[|palette| - 1].hex)
  {
    if |palette| >= 2 then Some((palette[0].hex, palette[|palette| - 1].hex)) else None
  }

  /** After an analysis the preset contrast inputs always pass validation,
      and the foreground is at least as bright as the background. */
  lemma DefaultContrastIsChecked(profiler: ImageColorProfiler, lum: Rgb -> real)
    requires profiler.Valid() && IsLuminance(lum)
    requires |profiler.dominantColors| >= 2
    ensures var (fg, bg) := DefaultContrastColors(profiler.dominantColors).value;
      CheckContrast(lum, fg, bg).Success?
    ensures var palette := profiler.dominantColors;
      palette[0].luminance >= palette[|palette| - 1].luminance
  {
    DescendingPairwise(profiler.dominantColors, 0, |profiler.dominantColors| - 1);
  }

  /** A fresh profiler has nothing to build a gradient from. */
  lemma NoGradientBeforeAnalysis(gradientType: string, direction: string)
    ensures ComposeGradient(Hexes([]), gradientType, direction) == Failure(TooFewColorsMessage)
  {
  }
}
