# ImageColorProfiler colour engine, in Dafny

`script.js` is a browser tool that loads an image onto a canvas and reports on
its colours. This project models the colour-analysis engine inside it:

- the hex codec (`rgbToHex`, `hexToRgb`, `isValidHex`);
- the colour-space conversions (`rgbToHsv`, `rgbToHsl`);
- dominant-colour extraction: the pixel sampler, `colorDistance` and `kMeansClustering`, and the sort by luminance;
- the counting loops of the RGB and HSV histograms;
- the WCAG 2 contrast checker (`getContrastRatio` and the threshold logic of `checkContrast`);
- the CSS text of `generateGradient`;
- the `dominantColors` field that extraction writes and the gradient generator reads.

The project proves properties of that model. Modules, one per file:

| file | module | what it holds |
|---|---|---|
| wrappers.dfy | Wrappers | `Option` and `Result` |
| colors.dfy | Colors | `byte`, `Rgb`, channel bounds, the colour of a pixel |
| sums.dfy | Sums | sums of integer sequences |
| hex.dfy | HexCodec | hex encoding and the two hex patterns as character predicates |
| colorspace.dfy | ColorSpace | HSV and HSL over exact reals, histogram bin indices |
| palette.dfy | Palette | palette entries and the descending-luminance sort |
| clustering.dfy | Clustering | sampling, nearest centroid, Lloyd iterations |
| histogram.dfy | Histogram | the counting loops over fixed-size bin arrays |
| contrast.dfy | Contrast | contrast ratio, WCAG levels, `checkContrast` |
| gradient.dfy | Gradient | the gradient CSS and a parser that reads its arguments back |
| profiler.dfy | Profiler | class `ImageColorProfiler` with its `dominantColors` field |

How the source becomes Dafny:

- Arithmetic and randomness:
  - Distances are integer squared distances. The square root is strictly increasing, so the strict `dist < minDist` test picks the same index.
  - `Math.round(sum / n)` becomes `(2 * sum + n) / (2 * n)`, and a lemma proves this equals rounding the exact quotient.
  - `Math.random` becomes a sequence of seed indices supplied by the caller.
  - Relative luminance (`getLuminance`) is a function parameter `lum: Rgb -> real`. Where a bound needs it, `lum` must lie in [0, 1] on byte colours.
- Imperative parts stay imperative:
  - the sampling loop, the nearest-centroid loop, the cluster-assignment loop, the iteration loop and the histogram loops are methods with loop invariants;
  - each is proved equal to a specification function, or to counts over the pixels;
  - histogram bins are `array<int>` values updated in place.

Two behaviours of the code that a reader might not expect, both modelled as written:

- An empty cluster takes `centroids[0]`, the first centroid of the previous iteration (script.js:210). It does not keep its own previous centroid.
- The rounded HSL hue can be 360, for example for rgb(255, 0, 1), because `Math.round` is applied to a hue just below a full turn (script.js:546).

## Model

| member | source | states |
|---|---|---|
| HexCodec.ToBase16 | script.js:506 | `toString(16)` yields lower-case hex digits; a single digit exactly when the value is below 16 |
| HexCodec.ChannelHex | script.js:505-508 | a byte becomes exactly its high and low nibble as two lower-case digits (zero-padded) |
| HexCodec.RgbToHex | script.js:504-509 | for byte channels the result is `#` followed by six lower-case hex digits |
| HexCodec.IsValidHex | script.js:520-522 | every string `isValidHex` accepts also matches the `hexToRgb` pattern |
| HexCodec.HexPatternIsOptionalHash | script.js:512 | the `hexToRgb` pattern (`MatchesHexPattern`) accepts a string exactly when it, or it with a leading `#`, passes `isValidHex` |
| HexCodec.ParsePair | script.js:514-516 | `parseInt` of two hex digits is a byte |
| HexCodec.HexToRgb | script.js:511-518 | the result is `null` exactly when the input is not an optional `#` plus six hex digits of either case; parsed channels are bytes |
| HexCodec.HexRoundTrip | script.js:504-518 | `hexToRgb(rgbToHex(r, g, b))` returns `(r, g, b)` for all byte channels |
| HexCodec.ParseThenEncode | script.js:504-518 | the other round trip: encoding a parsed string gives its normalised form (`#`, lower-case) |
| HexCodec.PairRoundTrip | script.js:504-518 | parsing two digits and re-encoding them gives the same digits in lower case |
| HexCodec.ValidHexIsStricter | script.js:511-522 | `ff0000` parses (to the same colour as `#FF0000`) but `isValidHex` rejects it |
| HexCodec.RedExample | script.js:504-509 | `rgbToHex(255, 0, 0)` is `#ff0000` |
| ColorSpace.Hue | script.js:560-568 | the hue fraction of the three-way switch lies in [0, 1) |
| ColorSpace.RgbToHsv | script.js:549-576 | h in [0, 360), s and v in [0, 100]; s = 0 exactly for greys, v = 0 exactly for black; v is the largest channel scaled to 100 |
| ColorSpace.RgbToHsl | script.js:524-547 | rounded h in [0, 360], s and l in [0, 100]; greys get h = s = 0; l is the rounded mean of the extreme channels |
| ColorSpace.HslExamples | script.js:524-547 | red is (0, 100 %, 50 %); rgb(255, 0, 1) has rounded hue 360 |
| ColorSpace.HueBin | script.js:342 | `Math.floor(hsv.h)` always names one of the 360 hue bins |
| ColorSpace.SaturationBin | script.js:343 | `Math.floor(hsv.s)` lies in [0, 100] and is 100 exactly when the smallest channel is 0 and the largest is not |
| ColorSpace.SaturationReaches100 | script.js:553-574 | saturation is exactly 100 % exactly when min channel = 0 < max channel |
| ColorSpace.ValueBin | script.js:344 | `Math.floor(hsv.v)` lies in [0, 100] and is 100 exactly when some channel is 255 |
| ColorSpace.ClampedPercentBin | script.js:336-344 | corrected bin index: always one of the 100 bins, unchanged below 100 |
| ColorSpace.RoundBounds | script.js:546 | rounding a value in [0, hi] stays in [0, hi] |
| Colors.PixelColor | script.js:164-167 | the R, G, B bytes of one pixel form a byte colour |
| Clustering.Samples | script.js:158-168 | ceil(len / 40) colours |
| Clustering.SamplesAt | script.js:158-168 | colour j is the R, G, B bytes of the pixel at byte offset 40 j, and that pixel lies wholly inside the buffer |
| Clustering.SampleColors | script.js:158-168 | the sampling loop pushes exactly `Samples(pixels)` |
| Clustering.SquaredDistance | script.js:237-243 | distance is non-negative and zero exactly for equal colours |
| Clustering.NearestAmong | script.js:193-203 | the chosen index minimises the distance and no earlier index reaches that minimum |
| Clustering.Nearest | script.js:193-203 | the cluster of a colour is the lowest-index centroid at minimal distance |
| Clustering.NearestCentroid | script.js:193-203 | the `Infinity`/strict `<` loop returns the lowest-index centroid at minimal distance |
| Clustering.Members | script.js:191-205 | cluster i as the pushes build it has at most as many members as there are samples (its content: `MembershipIff`) |
| Clustering.Assign | script.js:191-205 | the `clusters` array has one cluster per centroid |
| Clustering.MembershipIff | script.js:191-205 | a colour is in cluster i exactly when it is a sample whose nearest centroid is i |
| Clustering.ClusterSizesSum | script.js:191-205 | the cluster sizes sum to the number of samples: every sample lands in exactly one cluster |
| Clustering.AssignClusters | script.js:191-205 | the assignment loop builds exactly the clusters `Assign` describes |
| Clustering.ChannelSums | script.js:212-216 | the channel sums of n byte colours lie in [0, 255 n] |
| Clustering.ChannelSumsOfCopies | script.js:212-216 | the sums over n copies of c are n times c's channels |
| Clustering.RoundedMean | script.js:219-221 | the integer formula `(2 sum + n) / (2 n)` equals `Math.round` of the exact quotient `sum / n` |
| Clustering.RoundedMeanBounds | script.js:219-221 | the rounded mean of n values in [0, hi] is in [0, hi] |
| Clustering.RoundedMeanOfCopies | script.js:219-221 | the rounded mean of n copies of v is v |
| Clustering.MeanColor | script.js:211-222 | the mean of byte colours is a byte colour; the mean of copies of c is c |
| Clustering.Recompute | script.js:209-223 | the update keeps one centroid per cluster |
| Clustering.Step | script.js:191-223 | one iteration keeps k centroids |
| Clustering.Lloyd | script.js:189-224 | any number of iterations keeps k centroids |
| Clustering.Seed | script.js:184-187 | one initial centroid per seed index |
| Clustering.ClusterCentroids | script.js:180-224 | the final centroids number exactly k |
| Clustering.MembersAreSamples | script.js:205 | every cluster member is a byte colour, since it is a sample |
| Clustering.StepKeepsBytes | script.js:209-223 | an iteration maps byte centroids to byte centroids |
| Clustering.LloydKeepsBytes | script.js:189-224 | every iteration keeps all channels in 0..255 |
| Clustering.CentroidsAreBytes | script.js:184-224 | the final centroids have byte channels for any seeds |
| Clustering.StepFixesUniform | script.js:209-223 | when all samples and centroids equal c, an iteration changes nothing |
| Clustering.LloydFixesUniform | script.js:189-224 | the same holds for any number of iterations |
| Clustering.UniformSamplesGiveUniformPalette | script.js:184-224 | if every sample equals c, every final centroid equals c, whatever the seeds |
| Clustering.EmptyClusterCopiesFirst | script.js:210 | a cluster left empty takes the previous `centroids[0]`, not its own centroid |
| Clustering.RunIterations | script.js:189-224 | the `for (iter ...)` loop ends with exactly the centroids of `rounds` steps from the initial ones |
| Clustering.InitialCentroids | script.js:184-187 | the initialisation loop pushes `colors[seed]` for each seed |
| Clustering.Iterate | script.js:191-223 | the loop body computes exactly one step |
| Clustering.KMeansClustering | script.js:180-235 | the result is the enriched final centroids of `maxIterations` steps: k entries, byte channels |
| Palette.Enrich | script.js:227-234 | an entry keeps its colour and luminance, and its hex code parses back to the colour |
| Palette.EnrichedHexIsValid | script.js:231 | every palette hex code passes `isValidHex` |
| Palette.EnrichAll | script.js:227-234 | one entry per centroid, in order |
| Palette.DescendingPairwise | script.js:174 | in the sorted palette every earlier entry is at least as bright as every later one |
| Palette.Insert | script.js:174 | inserting into a descending list keeps it descending and adds exactly that entry |
| Palette.SortByLuminance | script.js:174 | the sort yields a descending permutation of the palette |
| Palette.InsertWithLuminance | script.js:174 | insertion puts the new entry before the entries of equal luminance already placed and reorders nothing else |
| Palette.SortIsStable | script.js:174 | the sort is stable: for every luminance, the entries with that luminance keep their input order |
| Palette.Hexes | script.js:472 | `map(c => c.hex)` keeps order and length |
| Histogram.Column | script.js:290-294 | one value per pixel |
| Histogram.ColumnAt | script.js:290-294 | entry p is the value of the p-th pixel |
| Histogram.CountsSum | script.js:335-345 | a histogram of values in [0, bins] sums to the pixel count minus those equal to `bins` |
| Histogram.HistogramTotalInRange | script.js:285-294 | a histogram of a quantity that always names a bin counts every pixel once |
| Histogram.ZeroBins | script.js:285-287 | `new Array(size).fill(0)`: a fresh array of `size` bins that counts no value |
| Histogram.Increment | script.js:291-293 | `hist[bin]++` adds one to that bin and nothing else |
| Histogram.TallyPercent | script.js:343-344 | a percentage bin of 100 misses the array and is counted apart |
| Histogram.CountRgb | script.js:285-294 | bin v counts the pixels whose channel byte is v; each histogram sums to `pixels.length / 4` |
| Histogram.RgbHistogram | script.js:285-297 | the counting loop's histograms, and `maxCount` is the largest bin of all three: at most the pixel count, and positive when there is a pixel |
| Sums.MaxOf | script.js:297 | `Math.max` over a non-empty list: at least every element, and one of them |
| Histogram.MaxBinBounds | script.js:348 | the largest bin of a histogram summing to the pixel count lies in [0, count], and is positive when the count is |
| Histogram.MaxOfThreeBounds | script.js:297 | the same bounds for the largest bin of three such histograms together |
| Histogram.RgbTotals | script.js:285-294 | the three 256-bin histograms each sum to the pixel count |
| Histogram.CountHsv | script.js:335-345 | as written: bins count the pixels with that floor; writes at index 100 are counted apart; bins plus those writes total the pixel count |
| Histogram.HsvHistogram | script.js:335-350 | as written, with the maxima: `maxH` is the largest hue bin; `maxS` (`maxV`) is `NaN`, modelled as `None`, exactly when a saturation (value) write went past the end, and otherwise the largest bin, within [0, pixel count] |
| Histogram.HsvTotals | script.js:335-345 | the hue histogram sums to the pixel count; saturation and value lose exactly their index-100 writes |
| Histogram.CountHsvClamped | script.js:335-345 | corrected: every write lands in a bin and all three histograms sum to the pixel count |
| Histogram.HsvHistogramClamped | script.js:335-350 | corrected, with the maxima: each is the largest bin of its histogram, within [0, pixel count] and positive when there is a pixel |
| Histogram.ClampedHsvTotals | script.js:335-345 | with clamped bins all three histograms sum to the pixel count |
| Histogram.SaturationPastEndIff | script.js:336-343 | some saturation write misses the array exactly when some pixel has min channel 0 < max channel |
| Histogram.ValuePastEndIff | script.js:337-344 | some value write misses the array exactly when some pixel has a channel at 255 |
| Histogram.RedPixelWritesPastEnd | script.js:336-344 | one pure red pixel writes past the end of both 100-bin arrays |
| Contrast.ContrastRatio | script.js:586-592 | the ratio is at least 1, and exactly 1 when the luminances are equal |
| Contrast.ContrastSymmetric | script.js:586-592 | the ratio does not depend on argument order |
| Contrast.ContrastAtMost21 | script.js:586-592 | with luminances in [0, 1] the ratio is at most 21, reached only by 0 against 1 |
| Contrast.ContrastMonotone | script.js:586-592 | a brighter lighter colour never lowers the ratio |
| Contrast.GetContrastRatio | script.js:586-592 | for byte colours the ratio lies in [1, 21] and is 1 exactly for equal luminance |
| Contrast.Levels | script.js:406-409 | AAA normal implies AA normal and AAA large; AAA large equals AA normal; AA normal implies AA large; 3, 4.5 and 7 are the cut-offs |
| Contrast.CheckContrast | script.js:391-409 | fails with the alert exactly when either input fails `isValidHex`; otherwise reports the levels of the contrast of the two parsed colours |
| Contrast.CheckContrastSymmetric | script.js:391-409 | swapping foreground and background gives the same report |
| Contrast.SameColorFailsAll | script.js:391-409 | a colour against itself has ratio 1 and fails every level |
| Contrast.BlackOnWhitePassesAll | script.js:391-409 | black on white has ratio 21 and passes every level |
| Gradient.Join | script.js:472 | the joined text starts with the first item, and its length is the items' total length plus one separator per gap |
| Gradient.IndexOfSeparator | script.js:472 | helper of the inverse of `join` (not computed by the source): the position of the first `", "`, or the end |
| Gradient.SplitList | script.js:472 | the inverse of `join` with `", "`, like `split(", ")` (not computed by the source): it always yields at least one item |
| Gradient.CommaWithoutSpaceKept | script.js:472 | a comma not followed by a space does not separate: it stays inside the item it is in |
| Gradient.SplitJoin | script.js:472 | splitting a `", "`-joined list of comma-free items gives the items back |
| Gradient.ColorStops | script.js:472 | the stops read back as the first min(5, n) hex codes, in palette order |
| Gradient.ComposeGradient | script.js:460-478 | fails exactly with fewer than two colours; `linear` echoes the direction, other types use `circle` |
| Gradient.GradientArguments | script.js:472-478 | the CSS function's arguments read back as [direction or `circle`] followed by the first five hex codes |
| Gradient.AtMostFiveStops | script.js:472 | more than five colours still give exactly five stops |
| Profiler.ImageColorProfiler.constructor | script.js:9 | the palette starts empty |
| Profiler.ImageColorProfiler.ExtractDominantColors | script.js:157-175 | the field becomes the sorted, enriched k-means centroids of the samples: eight entries, descending, all with valid hex codes (the class invariant `Valid`) |
| Profiler.ImageColorProfiler.GenerateGradient | script.js:459-478 | the gradient for the current palette, for any direction text; fails exactly when fewer than two colours are known; when the direction holds no comma, its arguments read back as the first argument and the first five hex codes |
| Profiler.ValidHexHasNoComma | script.js:520-522 | helper of the inverse of `join` (not computed by the source): a string `isValidHex` accepts contains no comma, so it can be split back out of the stops |
| Profiler.DefaultContrastColors | script.js:112-119 | with at least two colours the presets are the first and last hex codes |
| Profiler.DefaultContrastIsChecked | script.js:112-119 | for any palette meeting the class invariant, the preset inputs always pass validation, foreground at least as bright as background |
| Profiler.NoGradientBeforeAnalysis | script.js:460-463 | an empty palette gives the "analyze an image first" alert |

## Left out

- The DOM and browser plumbing are not modelled: the constructor's element lookups, event listeners, file loading, section toggling, `detectColorProfile`, `displayPalette`, the canvas drawing of the histograms (their bar heights, scaled by the maxima that are modelled), the HTML of `checkContrast`, the gradient preview and copy code, and `copyToClipboard`. They are I/O.
- The canvas downscale is floating-point image resampling. The model starts from the RGBA bytes of `imageData.data`, which are a parameter.
- `getLuminance` is a double-precision power function. It is the parameter `lum`, and where used it must lie in [0, 1] on byte colours. `toFixed(2)` display formatting is not modelled.
- `Math.random` is replaced by caller-supplied seed indices.
- `rgbToHsv` and `rgbToHsl` are computed over exact reals, an idealisation of doubles. Double rounding could move a value across a bin boundary that exact arithmetic does not.
- ColorSpace.RgbToHsl: returns the three rounded integers rather than the formatted string `(h, s%, l%)` the source builds.
- Clustering.KMeansClustering: requires at least one sample and k ≥ 1. With no sample, `Math.floor(Math.random() * 0)` is 0, so every initial centroid is `colors[0]`, which is undefined; the source then fails at script.js:228 when it reads `color.r` of undefined.
- Contrast.ContrastRatio: the ratio `(lighter + 0.05) / (darker + 0.05)` and the comparisons with 3, 4.5 and 7 are computed over exact reals, an idealisation of the source's doubles. Near a threshold, or for luminances closer than the rounding of `+ 0.05`, the double result can differ (for example a ratio of exactly 1 for unequal luminances).
- Clustering.SquaredDistance: omits the square root. Only the comparison between distances is used, and the square root preserves it.
- Profiler.ImageColorProfiler.ExtractDominantColors: the in-place `Array.prototype.sort` is modelled by assigning a sorted copy to the field.
- Histogram.HsvHistogram: the out-of-range JavaScript writes grow the array with a `NaN` element; the model counts those writes in two integers instead of growing the array, and a maximum that would be `NaN` is `None`.

## Findings

| source | as written | input that shows it | evidently intended | confidence | as-written member | corrected member |
|---|---|---|---|---|---|---|
| script.js:336-344 | `sHist` and `vHist` have 100 bins, and are indexed by `Math.floor(s)` and `Math.floor(v)`, which reach 100 | one pixel rgb(255, 0, 0): saturation and value are both 100 %, so `sHist[100]++` and `vHist[100]++` write one past the end | 100 % counted in the last bin, so every histogram sums to the pixel count | not executed | Histogram.HsvHistogram, Histogram.RedPixelWritesPastEnd | Histogram.HsvHistogramClamped, ColorSpace.ClampedPercentBin |
