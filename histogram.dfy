/** The counting loops of `generateRGBHistogram` and `generateHSVHistogram`:
    one pass over every pixel, bins held in fixed-size arrays. */
module Histogram {
  import opened Wrappers
  import opened Colors
  import opened Sums
  import opened ColorSpace

  /** The value a counting loop derives from each pixel, in pixel order. */
  function Column(pixels: seq<byte>, f: (byte, byte, byte) -> int): (column: seq<int>)
    requires |pixels| % 4 == 0
    ensures |column| == |pixels| / 4
    decreases |pixels|
  {
    if |pixels| == 0 then []
    else
      var n := |pixels| - 4;
      Column(pixels[..n], f) + [f(pixels[n], pixels[n + 1], pixels[n + 2])]
  }

  /** Entry `p` of the column is `f` of the `p`-th pixel. */
  lemma {:induction false} ColumnAt(pixels: seq<byte>, f: (byte, byte, byte) -> int, p: nat)
    requires |pixels| % 4 == 0 && p < |pixels| / 4
    ensures 4 * p + 3 < |pixels|
    ensures Column(pixels, f)[p] == f(pixels[4 * p], pixels[4 * p + 1], pixels[4 * p + 2])
    decreases |pixels|
  {
    var n := |pixels| - 4;
    if p < n / 4 {
      ColumnAt(pixels[..n], f, p);
    }
  }

  /** A per-pixel quantity bounded on every pixel bounds the whole column. */
  lemma ColumnBounded(pixels: seq<byte>, f: (byte, byte, byte) -> int, hi: int)
    requires |pixels| % 4 == 0
    requires forall r: byte, g: byte, b: byte :: 0 <= f(r, g, b) <= hi
    ensures forall p :: 0 <= p < |Column(pixels, f)| ==> 0 <= Column(pixels, f)[p] <= hi
  {
    forall p | 0 <= p < |Column(pixels, f)| {
      ColumnAt(pixels, f, p);
    }
  }

  function Red(r: byte, g: byte, b: byte): int { r as int }

  function Green(r: byte, g: byte, b: byte): int { g as int }

  function Blue(r: byte, g: byte, b: byte): int { b as int }

  /** The colour of pixel number `p` (not a byte offset). */
  function PixelRgb(pixels: seq<byte>, p: nat): Rgb
    requires 4 * p + 2 < |pixels|
  {
    PixelColor(pixels, 4 * p)
  }

  /** Bin `v` holds the number of entries of `column` equal to `v`. */
  predicate Counts(hist: seq<int>, column: seq<int>) {
    forall v :: 0 <= v < |hist| ==> hist[v] == multiset(column)[v]
  }

  /** A histogram counting entries between 0 and one past its last bin adds
      up to the entries that landed in a bin: all of them but those equal to
      the bin count. */
  lemma {:induction false} CountsSum(hist: seq<int>, column: seq<int>)
    requires Counts(hist, column)
    requires forall p :: 0 <= p < |column| ==> 0 <= column[p] <= |hist|
    ensures Sum(hist) + multiset(column)[|hist|] == |column|
    decreases |column|
  {
    if |column| == 0 {
      SumZeros(hist);
    } else {
      var rest, x := column[..|column| - 1], column[|column| - 1];
      assert column == rest + [x];
      assert multiset(column) == multiset(rest) + multiset{x};
      if x == |hist| {
        CountsSum(hist, rest);
      } else {
        var h := hist[x := hist[x] - 1];
        assert Counts(h, rest);
        CountsSum(h, rest);
        SumIncrement(h, x);
        assert h[x := h[x] + 1] == hist;
      }
    }
  }

  /** The total of a histogram of a bounded per-pixel quantity: every pixel
      but those counted one past the last bin. */
  lemma HistogramTotal(hist: seq<int>, pixels: seq<byte>, f: (byte, byte, byte) -> int)
    requires |pixels| % 4 == 0
    requires forall r: byte, g: byte, b: byte :: 0 <= f(r, g, b) <= |hist|
    requires Counts(hist, Column(pixels, f))
    ensures Sum(hist) + multiset(Column(pixels, f))[|hist|] == |pixels| / 4
  {
    ColumnBounded(pixels, f, |hist|);
    CountsSum(hist, Column(pixels, f));
  }

  /** `hist[bin]++`, where `hist` so far counts the values of `column`:
      afterwards it counts `column + [bin]`. */
  method Increment(hist: array<int>, ghost column: seq<int>, bin: int)
    requires 0 <= bin < hist.Length
    requires Counts(hist[..], column)
    modifies hist
    ensures hist[..] == old(hist[..])[bin := old(hist[bin]) + 1]
    ensures Counts(hist[..], column + [bin])
  {
    hist[bin] := hist[bin] + 1;
    assert multiset(column + [bin]) == multiset(column) + multiset{bin};
  }

  /** `new Array(size).fill(0)`. */
  method ZeroBins(size: nat) returns (hist: array<int>)
    ensures fresh(hist) && hist.Length == size
    ensures Counts(hist[..], [])
  {
    hist := new int[size](_ => 0);
  }

  /** Whole pixels: a byte offset below the end leaves room for four more. */
  lemma NextPixel(i: int, length: int)
    requires i % 4 == 0 && length % 4 == 0 && 0 <= i < length
    ensures i + 4 <= length
  {
  }

  /** Reading four more bytes adds one entry to the column. */
  lemma ColumnStep(pixels: seq<byte>, i: nat, f: (byte, byte, byte) -> int)
    requires i % 4 == 0 && i + 4 <= |pixels|
    ensures Column(pixels[..i + 4], f) == Column(pixels[..i], f) + [f(pixels[i], pixels[i + 1], pixels[i + 2])]
  {
    assert pixels[..i + 4][..i] == pixels[..i];
  }

  /** `hist[bin]++` on a 100-bin percentage histogram, where a bin of 100
      misses the array and is counted in `pastEnd` instead. */
  method TallyPercent(hist: array<int>, ghost column: seq<int>, pastEnd: nat, bin: int) returns (pastEnd': nat)
    requires hist.Length == 100 && 0 <= bin <= 100
    requires Counts(hist[..], column) && pastEnd == multiset(column)[100]
    modifies hist
    ensures Counts(hist[..], column + [bin]) && pastEnd' == multiset(column + [bin])[100]
    ensures bin < 100 ==> hist[..] == old(hist[..])[bin := old(hist[bin]) + 1] && pastEnd' == pastEnd
    ensures bin == 100 ==> hist[..] == old(hist[..]) && pastEnd' == pastEnd + 1
  {
    assert multiset(column + [bin]) == multiset(column) + multiset{bin};
    if bin < 100 {
      Increment(hist, column, bin);
      pastEnd' := pastEnd;
    } else {
      pastEnd' := pastEnd + 1;
    }
  }

  /** A histogram of a per-pixel quantity that always names a bin counts
      every pixel exactly once. */
  lemma HistogramTotalInRange(hist: seq<int>, pixels: seq<byte>, f: (byte, byte, byte) -> int)
    requires |pixels| % 4 == 0
    requires forall r: byte, g: byte, b: byte :: 0 <= f(r, g, b) < |hist|
    requires Counts(hist, Column(pixels, f))
    ensures Sum(hist) == |pixels| / 4
  {
    HistogramTotal(hist, pixels, f);
    ColumnBounded(pixels, f, |hist| - 1);
    assert |hist| !in Column(pixels, f);
  }

  /** Each RGB histogram counts every pixel exactly once. */
  lemma RgbTotals(rHist: seq<int>, gHist: seq<int>, bHist: seq<int>, pixels: seq<byte>)
    requires |pixels| % 4 == 0 && |rHist| == 256 && |gHist| == 256 && |bHist| == 256
    requires Counts(rHist, Column(pixels, Red))
    requires Counts(gHist, Column(pixels, Green))
    requires Counts(bHist, Column(pixels, Blue))
    ensures Sum(rHist) == |pixels| / 4 && Sum(gHist) == |pixels| / 4 && Sum(bHist) == |pixels| / 4
  {
    HistogramTotalInRange(rHist, pixels, Red);
    HistogramTotalInRange(gHist, pixels, Green);
    HistogramTotalInRange(bHist, pixels, Blue);
  }

  /** The hue histogram counts every pixel; the 100-bin saturation and value
      histograms count every pixel but those whose bin is 100. */
  lemma HsvTotals(hHist: seq<int>, sHist: seq<int>, vHist: seq<int>, pixels: seq<byte>)
    requires |pixels| % 4 == 0 && |hHist| == 360 && |sHist| == 100 && |vHist| == 100
    requires Counts(hHist, Column(pixels, HueBin))
    requires Counts(sHist, Column(pixels, SaturationBin))
    requires Counts(vHist, Column(pixels, ValueBin))
    ensures Sum(hHist) == |pixels| / 4
    ensures Sum(sHist) + multiset(Column(pixels, SaturationBin))[100] == |pixels| / 4
    ensures Sum(vHist) + multiset(Column(pixels, ValueBin))[100] == |pixels| / 4
  {
    HistogramTotalInRange(hHist, pixels, HueBin);
    HistogramTotal(sHist, pixels, SaturationBin);
    HistogramTotal(vHist, pixels, ValueBin);
  }

  /** With clamped percentage bins every histogram counts every pixel. */
  lemma ClampedHsvTotals(hHist: seq<int>, sHist: seq<int>, vHist: seq<int>, pixels: seq<byte>)
    requires |pixels| % 4 == 0 && |hHist| == 360 && |sHist| == 100 && |vHist| == 100
    requires Counts(hHist, Column(pixels, HueBin))
    requires Counts(sHist, Column(pixels, ClampedSaturationBin))
    requires Counts(vHist, Column(pixels, ClampedValueBin))
    ensures Sum(hHist) == |pixels| / 4 && Sum(sHist) == |pixels| / 4 && Sum(vHist) == |pixels| / 4
  {
    HistogramTotalInRange(hHist, pixels, HueBin);
    HistogramTotalInRange(sHist, pixels, ClampedSaturationBin);
    HistogramTotalInRange(vHist, pixels, ClampedValueBin);
  }

  /** The largest bin of a histogram that counts `total` pixels lies in
      [0, total], and is positive when there is a pixel. */
  lemma MaxBinBounds(hist: seq<int>, total: int)
    requires |hist| > 0 && Sum(hist) == total
    requires forall i :: 0 <= i < |hist| ==> hist[i] >= 0
    ensures 0 <= MaxOf(hist) <= total
    ensures total > 0 ==> MaxOf(hist) > 0
  {
    var j :| 0 <= j < |hist| && hist[j] == MaxOf(hist);
    EntryAtMostSum(hist, j);
    if total > 0 {
      var i := PositiveEntry(hist);
    }
  }

  /** `Math.max(...rHist, ...gHist, ...bHist)` over three histograms that
      each count `total` pixels lies in [0, total], and is positive when
      there is a pixel. */
  lemma MaxOfThreeBounds(r: seq<int>, g: seq<int>, b: seq<int>, total: int)
    requires |r| > 0 && Sum(r) == total && Sum(g) == total && Sum(b) == total
    requires forall i :: 0 <= i < |r| ==> r[i] >= 0
    requires forall i :: 0 <= i < |g| ==> g[i] >= 0
    requires forall i :: 0 <= i < |b| ==> b[i] >= 0
    ensures 0 <= MaxOf(r + g + b) <= total
    ensures total > 0 ==> MaxOf(r + g + b) > 0
  {
    var all := r + g + b;
    var m := MaxOf(all);
    var j :| 0 <= j < |all| && all[j] == m;
    AppendEntryAtMostSum(r, g, b, total, j);
    if total > 0 {
      var i := PositiveEntry(r);
      assert all[i] == r[i];
    }
  }

  /** Every entry of three histograms that each sum to `total` is at most
      `total`. */
  lemma AppendEntryAtMostSum(r: seq<int>, g: seq<int>, b: seq<int>, total: int, j: nat)
    requires Sum(r) == total && Sum(g) == total && Sum(b) == total
    requires forall i :: 0 <= i < |r| ==> r[i] >= 0
    requires forall i :: 0 <= i < |g| ==> g[i] >= 0
    requires forall i :: 0 <= i < |b| ==> b[i] >= 0
    requires j < |r| + |g| + |b|
    ensures (r + g + b)[j] <= total
  {
    var all := r + g + b;
    if j < |r| {
      assert all[j] == r[j];
      EntryAtMostSum(r, j);
    } else if j < |r| + |g| {
      var k := j - |r|;
      assert all[j] == g[k];
      EntryAtMostSum(g, k);
    } else {
      var k := j - |r| - |g|;
      assert all[j] == b[k];
      EntryAtMostSum(b, k);
    }
  }

  /** The counting loop of `generateRGBHistogram`: 256 bins per channel,
      bin `v` counting the pixels whose channel byte is `v`; each histogram
      sums to the number of pixels. */
  method CountRgb(pixels: seq<byte>) returns (rHist: array<int>, gHist: array<int>, bHist: array<int>)
    requires |pixels| % 4 == 0
    ensures fresh(rHist) && fresh(gHist) && fresh(bHist)
    ensures rHist.Length == 256 && gHist.Length == 256 && bHist.Length == 256
    ensures Counts(rHist[..], Column(pixels, Red))
    ensures Counts(gHist[..], Column(pixels, Green))
    ensures Counts(bHist[..], Column(pixels, Blue))
    ensures Sum(rHist[..]) == |pixels| / 4 && Sum(gHist[..]) == |pixels| / 4 && Sum(bHist[..]) == |pixels| / 4
  {
    rHist := ZeroBins(256);
    gHist := ZeroBins(256);
    bHist := ZeroBins(256);
    var i := 0;
    while i < |pixels|
      invariant 0 <= i <= |pixels| && i % 4 == 0
      invariant rHist.Length == 256 && gHist.Length == 256 && bHist.Length == 256
      invariant rHist != gHist && gHist != bHist && rHist != bHist
      invariant Counts(rHist[..], Column(pixels[..i], Red))
      invariant Counts(gHist[..], Column(pixels[..i], Green))
      invariant Counts(bHist[..], Column(pixels[..i], Blue))
    {
      NextPixel(i, |pixels|);
      ColumnStep(pixels, i, Red);
      ColumnStep(pixels, i, Green);
      ColumnStep(pixels, i, Blue);
      Increment(rHist, Column(pixels[..i], Red), pixels[i] as int);
      Increment(gHist, Column(pixels[..i], Green), pixels[i + 1] as int);
      Increment(bHist, Column(pixels[..i], Blue), pixels[i + 2] as int);
      i := i + 4;
    }
    assert pixels[..i] == pixels;
    RgbTotals(rHist[..], gHist[..], bHist[..], pixels);
  }

  /** `generateRGBHistogram` up to its normalisation: the counting loop,
      then `maxCount = Math.max(...rHist, ...gHist, ...bHist)`, which is at
      most the number of pixels and positive when there is a pixel. */
  method RgbHistogram(pixels: seq<byte>) returns (rHist: array<int>, gHist: array<int>, bHist: array<int>, maxCount: int)
    requires |pixels| % 4 == 0
    ensures fresh(rHist) && fresh(gHist) && fresh(bHist)
    ensures rHist.Length == 256 && gHist.Length == 256 && bHist.Length == 256
    ensures Counts(rHist[..], Column(pixels, Red))
    ensures Counts(gHist[..], Column(pixels, Green))
    ensures Counts(bHist[..], Column(pixels, Blue))
    ensures Sum(rHist[..]) == |pixels| / 4 && Sum(gHist[..]) == |pixels| / 4 && Sum(bHist[..]) == |pixels| / 4
    ensures maxCount == MaxOf(rHist[..] + gHist[..] + bHist[..])
    ensures 0 <= maxCount <= |pixels| / 4 && (|pixels| > 0 ==> maxCount > 0)
  {
    rHist, gHist, bHist := CountRgb(pixels);
    maxCount := MaxOf(rHist[..] + gHist[..] + bHist[..]);
    MaxOfThreeBounds(rHist[..], gHist[..], bHist[..], |pixels| / 4);
  }

  /** The counting loop of `generateHSVHistogram`, as written: 360 hue bins
      and 100 bins each for saturation and value, indexed by `Math.floor` of
      the percentage. That index is 100 for fully saturated or full-value
      pixels, one past the last bin, and the source's increment then writes
      outside the histogram (a JavaScript array grows an element holding
      `NaN`). Those writes are counted here, explicitly, in `sPastEnd` and
      `vPastEnd`. */
  method CountHsv(pixels: seq<byte>)
    returns (hHist: array<int>, sHist: array<int>, vHist: array<int>, sPastEnd: nat, vPastEnd: nat)
    requires |pixels| % 4 == 0
    ensures fresh(hHist) && fresh(sHist) && fresh(vHist)
    ensures hHist.Length == 360 && sHist.Length == 100 && vHist.Length == 100
    ensures Counts(hHist[..], Column(pixels, HueBin))
    ensures Counts(sHist[..], Column(pixels, SaturationBin))
    ensures Counts(vHist[..], Column(pixels, ValueBin))
    ensures sPastEnd == multiset(Column(pixels, SaturationBin))[100]
    ensures vPastEnd == multiset(Column(pixels, ValueBin))[100]
    ensures Sum(hHist[..]) == |pixels| / 4
    ensures Sum(sHist[..]) + sPastEnd == |pixels| / 4
    ensures Sum(vHist[..]) + vPastEnd == |pixels| / 4
  {
    hHist := ZeroBins(360);
    sHist := ZeroBins(100);
    vHist := ZeroBins(100);
    sPastEnd, vPastEnd := 0, 0;
    var i := 0;
    while i < |pixels|
      invariant 0 <= i <= |pixels| && i % 4 == 0
      invariant hHist.Length == 360 && sHist.Length == 100 && vHist.Length == 100
      invariant hHist != sHist && sHist != vHist && hHist != vHist
      invariant Counts(hHist[..], Column(pixels[..i], HueBin))
      invariant Counts(sHist[..], Column(pixels[..i], SaturationBin))
      invariant Counts(vHist[..], Column(pixels[..i], ValueBin))
      invariant sPastEnd == multiset(Column(pixels[..i], SaturationBin))[100]
      invariant vPastEnd == multiset(Column(pixels[..i], ValueBin))[100]
    {
      NextPixel(i, |pixels|);
      ColumnStep(pixels, i, HueBin);
      ColumnStep(pixels, i, SaturationBin);
      ColumnStep(pixels, i, ValueBin);
      var h := HueBin(pixels[i], pixels[i + 1], pixels[i + 2]);
      var s := SaturationBin(pixels[i], pixels[i + 1], pixels[i + 2]);
      var v := ValueBin(pixels[i], pixels[i + 1], pixels[i + 2]);
      Increment(hHist, Column(pixels[..i], HueBin), h);
      sPastEnd := TallyPercent(sHist, Column(pixels[..i], SaturationBin), sPastEnd, s);
      vPastEnd := TallyPercent(vHist, Column(pixels[..i], ValueBin), vPastEnd, v);
      i := i + 4;
    }
    assert pixels[..i] == pixels;
    HsvTotals(hHist[..], sHist[..], vHist[..], pixels);
  }

  /** `generateHSVHistogram` up to its maxima, as written: the counting
      loop, then `Math.max` of each histogram. A write one past the end
      leaves `NaN` in the array, which makes that maximum `NaN`; `None`
      stands for it. */
  method HsvHistogram(pixels: seq<byte>)
    returns (hHist: array<int>, sHist: array<int>, vHist: array<int>, sPastEnd: nat, vPastEnd: nat,
             maxH: int, maxS: Option<int>, maxV: Option<int>)
    requires |pixels| % 4 == 0
    ensures fresh(hHist) && fresh(sHist) && fresh(vHist)
    ensures hHist.Length == 360 && sHist.Length == 100 && vHist.Length == 100
    ensures Counts(hHist[..], Column(pixels, HueBin))
    ensures Counts(sHist[..], Column(pixels, SaturationBin))
    ensures Counts(vHist[..], Column(pixels, ValueBin))
    ensures sPastEnd == multiset(Column(pixels, SaturationBin))[100]
    ensures vPastEnd == multiset(Column(pixels, ValueBin))[100]
    ensures maxH == MaxOf(hHist[..]) && 0 <= maxH <= |pixels| / 4 && (|pixels| > 0 ==> maxH > 0)
    ensures maxS.None? <==> sPastEnd > 0
    ensures maxS.Some? ==> maxS.value == MaxOf(sHist[..]) && 0 <= maxS.value <= |pixels| / 4
    ensures maxV.None? <==> vPastEnd > 0
    ensures maxV.Some? ==> maxV.value == MaxOf(vHist[..]) && 0 <= maxV.value <= |pixels| / 4
  {
    hHist, sHist, vHist, sPastEnd, vPastEnd := CountHsv(pixels);
    maxH := MaxOf(hHist[..]);
    MaxBinBounds(hHist[..], |pixels| / 4);
    maxS := if sPastEnd > 0 then None else Some(MaxOf(sHist[..]));
    maxV := if vPastEnd > 0 then None else Some(MaxOf(vHist[..]));
    if sPastEnd == 0 {
      MaxBinBounds(sHist[..], |pixels| / 4);
    }
    if vPastEnd == 0 {
      MaxBinBounds(vHist[..], |pixels| / 4);
    }
  }

  function ClampedSaturationBin(r: byte, g: byte, b: byte): int {
    ClampedPercentBin(SaturationBin(r, g, b))
  }

  function ClampedValueBin(r: byte, g: byte, b: byte): int {
    ClampedPercentBin(ValueBin(r, g, b))
  }

  /** The counting loop of `generateHSVHistogram` with the evident intent:
      100 % goes to the last of the 100 bins, so every write lands in a bin
      and all three histograms sum to the number of pixels. */
  method CountHsvClamped(pixels: seq<byte>) returns (hHist: array<int>, sHist: array<int>, vHist: array<int>)
    requires |pixels| % 4 == 0
    ensures fresh(hHist) && fresh(sHist) && fresh(vHist)
    ensures hHist.Length == 360 && sHist.Length == 100 && vHist.Length == 100
    ensures Counts(hHist[..], Column(pixels, HueBin))
    ensures Counts(sHist[..], Column(pixels, ClampedSaturationBin))
    ensures Counts(vHist[..], Column(pixels, ClampedValueBin))
    ensures Sum(hHist[..]) == |pixels| / 4 && Sum(sHist[..]) == |pixels| / 4 && Sum(vHist[..]) == |pixels| / 4
  {
    hHist := ZeroBins(360);
    sHist := ZeroBins(100);
    vHist := ZeroBins(100);
    var i := 0;
    while i < |pixels|
      invariant 0 <= i <= |pixels| && i % 4 == 0
      invariant hHist.Length == 360 && sHist.Length == 100 && vHist.Length == 100
      invariant hHist != sHist && sHist != vHist && hHist != vHist
      invariant Counts(hHist[..], Column(pixels[..i], HueBin))
      invariant Counts(sHist[..], Column(pixels[..i], ClampedSaturationBin))
      invariant Counts(vHist[..], Column(pixels[..i], ClampedValueBin))
    {
      NextPixel(i, |pixels|);
      ColumnStep(pixels, i, HueBin);
      ColumnStep(pixels, i, ClampedSaturationBin);
      ColumnStep(pixels, i, ClampedValueBin);
      Increment(hHist, Column(pixels[..i], HueBin), HueBin(pixels[i], pixels[i + 1], pixels[i + 2]));
      Increment(sHist, Column(pixels[..i], ClampedSaturationBin), ClampedSaturationBin(pixels[i], pixels[i + 1], pixels[i + 2]));
      Increment(vHist, Column(pixels[..i], ClampedValueBin), ClampedValueBin(pixels[i], pixels[i + 1], pixels[i + 2]));
      i := i + 4;
    }
    assert pixels[..i] == pixels;
    ClampedHsvTotals(hHist[..], sHist[..], vHist[..], pixels);
  }

  /** `generateHSVHistogram` up to its maxima with the evident intent:
      every write lands in a bin, so every maximum is a count, at most the
      number of pixels and positive when there is a pixel. */
  method HsvHistogramClamped(pixels: seq<byte>)
    returns (hHist: array<int>, sHist: array<int>, vHist: array<int>, maxH: int, maxS: int, maxV: int)
    requires |pixels| % 4 == 0
    ensures fresh(hHist) && fresh(sHist) && fresh(vHist)
    ensures hHist.Length == 360 && sHist.Length == 100 && vHist.Length == 100
    ensures Counts(hHist[..], Column(pixels, HueBin))
    ensures Counts(sHist[..], Column(pixels, ClampedSaturationBin))
    ensures Counts(vHist[..], Column(pixels, ClampedValueBin))
    ensures Sum(hHist[..]) == |pixels| / 4 && Sum(sHist[..]) == |pixels| / 4 && Sum(vHist[..]) == |pixels| / 4
    ensures maxH == MaxOf(hHist[..]) && maxS == MaxOf(sHist[..]) && maxV == MaxOf(vHist[..])
    ensures 0 <= maxH <= |pixels| / 4 && 0 <= maxS <= |pixels| / 4 && 0 <= maxV <= |pixels| / 4
    ensures |pixels| > 0 ==> maxH > 0 && maxS > 0 && maxV > 0
  {
    hHist, sHist, vHist := CountHsvClamped(pixels);
    maxH, maxS, maxV := MaxOf(hHist[..]), MaxOf(sHist[..]), MaxOf(vHist[..]);
    MaxBinBounds(hHist[..], |pixels| / 4);
    MaxBinBounds(sHist[..], |pixels| / 4);
    MaxBinBounds(vHist[..], |pixels| / 4);
  }

  /** Some saturation write lands past the end exactly when some pixel has
      a zero channel and a non-zero one. */
  lemma SaturationPastEndIff(pixels: seq<byte>)
    requires |pixels| % 4 == 0
    ensures multiset(Column(pixels, SaturationBin))[100] > 0 <==>
      exists p :: 0 <= p < |pixels| / 4 && MinChannel(PixelRgb(pixels, p)) == 0 < MaxChannel(PixelRgb(pixels, p))
  {
    var column := Column(pixels, SaturationBin);
    if multiset(column)[100] > 0 {
      var p :| 0 <= p < |column| && column[p] == 100;
      ColumnAt(pixels, SaturationBin, p);
      assert MinChannel(PixelRgb(pixels, p)) == 0 < MaxChannel(PixelRgb(pixels, p));
    }
    if exists p :: 0 <= p < |pixels| / 4 && MinChannel(PixelRgb(pixels, p)) == 0 < MaxChannel(PixelRgb(pixels, p)) {
      var p :| 0 <= p < |pixels| / 4 && MinChannel(PixelRgb(pixels, p)) == 0 < MaxChannel(PixelRgb(pixels, p));
      ColumnAt(pixels, SaturationBin, p);
      assert column[p] == 100;
      assert column[p] in multiset(column);
    }
  }

  /** Some value write lands past the end exactly when some pixel has a
      channel at 255. */
  lemma ValuePastEndIff(pixels: seq<byte>)
    requires |pixels| % 4 == 0
    ensures multiset(Column(pixels, ValueBin))[100] > 0 <==>
      exists p :: 0 <= p < |pixels| / 4 && MaxChannel(PixelRgb(pixels, p)) == 255
  {
    var column := Column(pixels, ValueBin);
    if multiset(column)[100] > 0 {
      var p :| 0 <= p < |column| && column[p] == 100;
      ColumnAt(pixels, ValueBin, p);
      assert MaxChannel(PixelRgb(pixels, p)) == 255;
    }
    if exists p :: 0 <= p < |pixels| / 4 && MaxChannel(PixelRgb(pixels, p)) == 255 {
      var p :| 0 <= p < |pixels| / 4 && MaxChannel(PixelRgb(pixels, p)) == 255;
      ColumnAt(pixels, ValueBin, p);
      assert column[p] == 100;
      assert column[p] in multiset(column);
    }
  }

  /** A single red pixel already writes past the end of both 100-bin arrays. */
  lemma RedPixelWritesPastEnd()
    ensures SaturationBin(255, 0, 0) == 100 && ValueBin(255, 0, 0) == 100
  {
  }
}
