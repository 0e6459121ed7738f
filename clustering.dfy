/** The palette extractor: the sampling loop of `extractDominantColors`,
    `colorDistance` and `kMeansClustering`. `Math.random` is replaced by a
    sequence of seed indices the caller supplies. */
module Clustering {
  import opened Colors
  import opened Sums
  import ColorSpace
  import opened Palette

  /** `sampleRate`: one pixel in ten, so the sampling loop steps 40 bytes. */
  const SampleRate: nat := 10

  /** `maxIterations`: the loop always runs this many rounds. */
  const MaxIterations: nat := 10

  /** The colours the sampling loop pushes: one for each byte offset
      0, 40, 80, ... below the buffer's length (see `SamplesAt`). */
  function Samples(pixels: seq<byte>): (colors: seq<Rgb>)
    requires |pixels| % 4 == 0
    ensures |colors| == (|pixels| + 39) / 40
    decreases |pixels|
  {
    if |pixels| == 0 then []
    else if |pixels| <= 40 then [PixelColor(pixels, 0)]
    else [PixelColor(pixels, 0)] + Samples(pixels[40..])
  }

  /** Sample `j` is made of the R, G, B bytes of the pixel at byte offset
      `40 * j`; its alpha byte is never read. */
  lemma {:induction false} SamplesAt(pixels: seq<byte>, j: nat)
    requires |pixels| % 4 == 0 && j < |Samples(pixels)|
    ensures 40 * j + 3 < |pixels|
    ensures Samples(pixels)[j] == PixelColor(pixels, 40 * j)
    decreases |pixels|
  {
    if j > 0 {
      assert |pixels| > 40;
      var rest := pixels[40..];
      assert Samples(pixels)[j] == Samples(rest)[j - 1];
      SamplesAt(rest, j - 1);
      var k := 40 * (j - 1);
      assert 40 * j == k + 40;
      assert rest[k] == pixels[k + 40] && rest[k + 1] == pixels[k + 41] && rest[k + 2] == pixels[k + 42];
    }
  }

  /** Every sample is a byte colour. */
  lemma SamplesValid(pixels: seq<byte>)
    requires |pixels| % 4 == 0
    ensures AllValid(Samples(pixels))
  {
    forall j | 0 <= j < |Samples(pixels)|
      ensures ValidColor(Samples(pixels)[j])
    {
      SamplesAt(pixels, j);
    }
  }

  /** The sampling loop `for (i = 0; i < pixels.length; i += 4 * sampleRate)`. */
  method SampleColors(pixels: seq<byte>) returns (colors: seq<Rgb>)
    requires |pixels| % 4 == 0
    ensures colors == Samples(pixels)
    ensures AllValid(colors)
  {
    colors := [];
    var i := 0;
    while i < |pixels|
      invariant i == 40 * |colors|
      invariant |colors| <= (|pixels| + 39) / 40
      invariant forall j :: 0 <= j < |colors| ==> colors[j] == Samples(pixels)[j]
    {
      SamplesAt(pixels, |colors|);
      colors := colors + [PixelColor(pixels, i)];
      i := i + 4 * SampleRate;
    }
    SamplesValid(pixels);
  }

  /** `colorDistance` squared. The square root is strictly increasing, so
      every `dist < minDist` comparison of the source has the same outcome
      on squared distances. */
  function SquaredDistance(a: Rgb, b: Rgb): (d: int)
    ensures d >= 0
    ensures d == 0 <==> a == b
  {
    var dr, dg, db := a.r - b.r, a.g - b.g, a.b - b.b;
    SquareSign(dr);
    SquareSign(dg);
    SquareSign(db);
    dr * dr + dg * dg + db * db
  }

  /** A square is non-negative and zero only at zero. */
  lemma SquareSign(x: int)
    ensures x * x >= 0 && (x * x == 0 <==> x == 0)
  {
    if x > 0 {
      assert x * x >= x;
    } else if x < 0 {
      assert x * x >= -x;
    }
  }

  /** The index the centroid scan holds after the first `n` centroids: one
      at minimal distance, and the lowest such one, because a centroid
      replaces the current choice only when it is strictly closer. */
  function NearestAmong(color: Rgb, centroids: seq<Rgb>, n: nat): (i: nat)
    requires 1 <= n <= |centroids|
    ensures i < n
    ensures forall j :: 0 <= j < n ==>
      SquaredDistance(color, centroids[i]) <= SquaredDistance(color, centroids[j])
    ensures forall j :: 0 <= j < i ==>
      SquaredDistance(color, centroids[i]) < SquaredDistance(color, centroids[j])
  {
    if n == 1 then 0
    else
      var i := NearestAmong(color, centroids, n - 1);
      if SquaredDistance(color, centroids[n - 1]) < SquaredDistance(color, centroids[i]) then n - 1 else i
  }

  /** The cluster a colour is assigned to: the lowest-index centroid at
      minimal distance. */
  function Nearest(color: Rgb, centroids: seq<Rgb>): (i: nat)
    requires |centroids| > 0
    ensures i < |centroids|
    ensures forall j :: 0 <= j < |centroids| ==>
      SquaredDistance(color, centroids[i]) <= SquaredDistance(color, centroids[j])
    ensures forall j :: 0 <= j < i ==>
      SquaredDistance(color, centroids[i]) < SquaredDistance(color, centroids[j])
  {
    NearestAmong(color, centroids, |centroids|)
  }

  /** `centroids.forEach(...)` for one colour: `minDist` starts at
      `Infinity` (here: `infinite`) and `clusterIndex` at 0. */
  method NearestCentroid(color: Rgb, centroids: seq<Rgb>) returns (clusterIndex: nat)
    requires |centroids| > 0
    ensures clusterIndex == Nearest(color, centroids)
    ensures clusterIndex < |centroids|
    ensures forall j :: 0 <= j < |centroids| ==>
      SquaredDistance(color, centroids[clusterIndex]) <= SquaredDistance(color, centroids[j])
    ensures forall j :: 0 <= j < clusterIndex ==>
      SquaredDistance(color, centroids[clusterIndex]) < SquaredDistance(color, centroids[j])
  {
    var infinite := true;
    var minDist := 0;
    clusterIndex := 0;
    var i := 0;
    while i < |centroids|
      invariant 0 <= i <= |centroids|
      invariant infinite <==> i == 0
      invariant i == 0 ==> clusterIndex == 0
      invariant i > 0 ==> clusterIndex == NearestAmong(color, centroids, i)
      invariant i > 0 ==> minDist == SquaredDistance(color, centroids[clusterIndex])
    {
      var dist := SquaredDistance(color, centroids[i]);
      if infinite || dist < minDist {
        minDist := dist;
        clusterIndex := i;
      }
      infinite := false;
      i := i + 1;
    }
  }

  /** Cluster `i` as the assignment loop fills it: the colours whose nearest
      centroid is `i`, in their original order. */
  function Members(colors: seq<Rgb>, centroids: seq<Rgb>, i: nat): (m: seq<Rgb>)
    requires |centroids| > 0
    ensures |m| <= |colors|
  {
    if colors == [] then []
    else
      var last := colors[|colors| - 1];
      Members(colors[..|colors| - 1], centroids, i) + (if Nearest(last, centroids) == i then [last] else [])
  }

  /** The `clusters` array of one iteration. */
  function Assign(colors: seq<Rgb>, centroids: seq<Rgb>): (clusters: seq<seq<Rgb>>)
    requires |centroids| > 0
    ensures |clusters| == |centroids|
  {
    seq(|centroids|, i requires 0 <= i < |centroids| => Members(colors, centroids, i))
  }

  function Sizes(clusters: seq<seq<Rgb>>): seq<int> {
    seq(|clusters|, i requires 0 <= i < |clusters| => |clusters[i]|)
  }

  /** A colour is in cluster `i` exactly when it is one of the samples and
      `i` is its nearest centroid: so each sample is in exactly one cluster. */
  lemma {:induction false} MembershipIff(colors: seq<Rgb>, centroids: seq<Rgb>, i: nat, x: Rgb)
    requires |centroids| > 0
    ensures x in Members(colors, centroids, i) <==> x in colors && Nearest(x, centroids) == i
  {
    if colors != [] {
      var prefix := colors[..|colors| - 1];
      MembershipIff(prefix, centroids, i, x);
      assert colors == prefix + [colors[|colors| - 1]];
    }
  }

  /** The cluster sizes add up to the number of samples. */
  lemma {:induction false} ClusterSizesSum(colors: seq<Rgb>, centroids: seq<Rgb>)
    requires |centroids| > 0
    ensures Sum(Sizes(Assign(colors, centroids))) == |colors|
  {
    var sizes := Sizes(Assign(colors, centroids));
    if colors == [] {
      SumZeros(sizes);
    } else {
      var prefix := colors[..|colors| - 1];
      ClusterSizesSum(prefix, centroids);
      var k := Nearest(colors[|colors| - 1], centroids);
      var before := Sizes(Assign(prefix, centroids));
      assert sizes == before[k := before[k] + 1];
      SumIncrement(before, k);
    }
  }

  /** The `cluster.reduce(...)` of one cluster: channel-wise sums, added
      from the first member to the last, starting from (0, 0, 0). The sums
      of `n` byte colours lie in [0, 255 * n]. */
  function ChannelSums(cluster: seq<Rgb>): (s: Rgb)
    ensures AllValid(cluster) ==>
      0 <= s.r <= 255 * |cluster| && 0 <= s.g <= 255 * |cluster| && 0 <= s.b <= 255 * |cluster|
  {
    if cluster == [] then Rgb(0, 0, 0)
    else
      var init := cluster[..|cluster| - 1];
      var acc := ChannelSums(init);
      var c := cluster[|cluster| - 1];
      assert AllValid(cluster) ==> AllValid(init) by {
        if AllValid(cluster) {
          forall i | 0 <= i < |init| ensures ValidColor(init[i]) {
            assert init[i] == cluster[i];
          }
        }
      }
      Rgb(acc.r + c.r, acc.g + c.g, acc.b + c.b)
  }

  /** The sums of `n` copies of `c` are `n` times its channels. */
  lemma {:induction false} ChannelSumsOfCopies(cluster: seq<Rgb>, c: Rgb)
    requires AllEqual(cluster, c)
    ensures ChannelSums(cluster) == Rgb(|cluster| * c.r, |cluster| * c.g, |cluster| * c.b)
  {
    if cluster != [] {
      var n := |cluster|;
      var init := cluster[..n - 1];
      assert AllEqual(init, c) by {
        forall i | 0 <= i < |init| ensures init[i] == c {
          assert init[i] == cluster[i];
        }
      }
      ChannelSumsOfCopies(init, c);
      assert cluster[n - 1] == c;
      MulSucc(n, c.r);
      MulSucc(n, c.g);
      MulSucc(n, c.b);
    }
  }

  lemma MulSucc(n: int, x: int)
    ensures (n - 1) * x + x == n * x
  {
  }


  /** `Math.round(sum / n)` for a positive count `n`, in integer
      arithmetic: the exact quotient rounded to the nearest integer, halves
      up. */
  function RoundedMean(sum: int, n: int): (q: int)
    requires n > 0
    ensures q == ColorSpace.Round(sum as real / n as real)
  {
    var q := (2 * sum + n) / (2 * n);
    DivBounds(2 * sum + n, 2 * n);
    QuotientBetween(2 * sum + n, 2 * n, q);
    HalfShift(sum, n);
    q
  }

  /** A positive multiple of `t` is at least the multiplier away from zero
      unless `t` is zero. */
  lemma {:induction false} MultipleSign(d: int, t: int)
    requires d > 0
    ensures t > 0 ==> d * t >= d
    ensures t == 0 ==> d * t == 0
    ensures t < 0 ==> d * t <= -d
    decreases if t < 0 then -t else t
  {
    if t > 1 {
      MultipleSign(d, t - 1);
      assert d * t == d * (t - 1) + d;
    } else if t < -1 {
      MultipleSign(d, t + 1);
      assert d * t == d * (t + 1) - d;
    }
  }

  /** Integer division recovers the quotient of any value between two
      consecutive multiples. */
  lemma DivBetween(a: int, d: int, q: int)
    requires d > 0 && d * q <= a < d * (q + 1)
    ensures a / d == q
  {
    var p, r := a / d, a % d;
    assert a == d * p + r && 0 <= r < d;
    var t := p - q;
    assert d * t == d * p - d * q;
    assert d * (q + 1) == d * q + d;
    MultipleSign(d, t);
  }

  lemma ScaleLe(a: real, u: real, v: real)
    requires a > 0.0 && a * u <= a * v
    ensures u <= v
  {
  }

  lemma ScaleLt(a: real, u: real, v: real)
    requires a > 0.0 && a * u < a * v
    ensures u < v
  {
  }

  /** Integer division lands between consecutive multiples. */
  lemma DivBounds(a: int, d: int)
    requires d > 0
    ensures d * (a / d) <= a < d * (a / d + 1)
  {
    var p, r := a / d, a % d;
    assert a == d * p + r && 0 <= r < d;
    assert d * (p + 1) == d * p + d;
  }

  /** Products of integers carry over to reals. */
  lemma MulCast(a: int, b: int)
    ensures (a * b) as real == a as real * b as real
  {
  }

  /** An integer between consecutive multiples of `m` has its exact
      quotient by `m` between the two multipliers. */
  lemma QuotientBetween(s: int, m: int, q: int)
    requires m > 0 && m * q <= s < m * (q + 1)
    ensures q as real <= s as real / m as real < (q + 1) as real
  {
    MulCast(m, q);
    MulCast(m, q + 1);
    var z := s as real / m as real;
    assert m as real * z == s as real;
    ScaleLe(m as real, q as real, z);
    ScaleLt(m as real, z, (q + 1) as real);
  }

  /** `(2 sum + n) / (2 n)` is the exact mean shifted by one half. */
  lemma HalfShift(sum: int, n: int)
    requires n > 0
    ensures (2 * sum + n) as real / (2 * n) as real == sum as real / n as real + 0.5
  {
    var d := (2 * n) as real;
    var x := sum as real / n as real;
    var y := (2 * sum + n) as real / d;
    assert x * n as real == sum as real;
    assert d == 2.0 * n as real;
    assert (x + 0.5) * d == 2.0 * (x * n as real) + n as real;
    assert (x + 0.5) * d == (2 * sum + n) as real;
    assert y * d == (2 * sum + n) as real;
    CancelFactor(d, x + 0.5, y);
  }

  lemma CancelFactor(d: real, u: real, v: real)
    requires d > 0.0 && u * d == v * d
    ensures u == v
  {
    assert (u - v) * d == 0.0;
  }

  /** The rounded mean of values in [0, hi] is in [0, hi]. */
  lemma RoundedMeanBounds(sum: int, n: int, hi: int)
    requires n > 0 && 0 <= sum <= hi * n
    ensures 0 <= RoundedMean(sum, n) <= hi
  {
    var q := RoundedMean(sum, n);
    DivBounds(2 * sum + n, 2 * n);
    assert 2 * sum + n < (2 * n) * (hi + 1);
    assert (2 * n) * (hi + 1) == (2 * n) * hi + 2 * n;
    MultipleSign(2 * n, q - hi - 1);
    MultipleSign(2 * n, q + 1);
    assert (2 * n) * (q - hi - 1) == (2 * n) * q - (2 * n) * (hi + 1);
  }

  /** The rounded mean of `n` copies of `v` is `v`. */
  lemma RoundedMeanOfCopies(v: int, n: int)
    requires n > 0
    ensures RoundedMean(n * v, n) == v
  {
    assert 2 * (n * v) + n == (2 * n) * v + n;
    DivBetween(2 * (n * v) + n, 2 * n, v);
  }

  /** The centroid `{r: Math.round(sum.r / n), ...}` of a non-empty cluster:
      a cluster of bytes has a byte mean, and a cluster of copies of one
      colour has that colour as its mean. */
  function MeanColor(cluster: seq<Rgb>): (m: Rgb)
    requires |cluster| > 0
    ensures AllValid(cluster) ==> ValidColor(m)
    ensures AllEqual(cluster, cluster[0]) ==> m == cluster[0]
  {
    var s := ChannelSums(cluster);
    var n := |cluster|;
    var m := Rgb(RoundedMean(s.r, n), RoundedMean(s.g, n), RoundedMean(s.b, n));
    assert AllValid(cluster) ==> ValidColor(m) by {
      if AllValid(cluster) {
        RoundedMeanBounds(s.r, n, 255);
        RoundedMeanBounds(s.g, n, 255);
        RoundedMeanBounds(s.b, n, 255);
      }
    }
    assert AllEqual(cluster, cluster[0]) ==> m == cluster[0] by {
      if AllEqual(cluster, cluster[0]) {
        ChannelSumsOfCopies(cluster, cluster[0]);
        RoundedMeanOfCopies(cluster[0].r, n);
        RoundedMeanOfCopies(cluster[0].g, n);
        RoundedMeanOfCopies(cluster[0].b, n);
      }
    }
    m
  }

  /** The `clusters.map(...)` that ends an iteration: a non-empty cluster
      moves to the rounded mean of its members; an empty one takes
      `centroids[0]`, the FIRST centroid of the iteration that is ending
      (not its own previous value). */
  function Recompute(clusters: seq<seq<Rgb>>, centroids: seq<Rgb>): (next: seq<Rgb>)
    requires |clusters| == |centroids| > 0
    ensures |next| == |centroids|
  {
    seq(|clusters|, i requires 0 <= i < |clusters| =>
      if |clusters[i]| == 0 then centroids[0] else MeanColor(clusters[i]))
  }

  /** One iteration of the k-means loop. */
  function Step(colors: seq<Rgb>, centroids: seq<Rgb>): (next: seq<Rgb>)
    requires |centroids| > 0
    ensures |next| == |centroids|
  {
    Recompute(Assign(colors, centroids), centroids)
  }

  /** `n` iterations from the given centroids. */
  function Lloyd(colors: seq<Rgb>, centroids: seq<Rgb>, n: nat): (last: seq<Rgb>)
    requires |centroids| > 0
    ensures |last| == |centroids|
    decreases n
  {
    if n == 0 then centroids else Lloyd(colors, Step(colors, centroids), n - 1)
  }

  /** The first of `n > 0` iterations, taken apart. */
  lemma LloydUnfold(colors: seq<Rgb>, centroids: seq<Rgb>, n: nat)
    requires |centroids| > 0 && n > 0
    ensures Lloyd(colors, centroids, n) == Lloyd(colors, Step(colors, centroids), n - 1)
  {
  }

  /** The initial centroids: `colors[seed]` for each injected seed index. */
  function Seed(colors: seq<Rgb>, seeds: seq<nat>): (centroids: seq<Rgb>)
    requires forall i :: 0 <= i < |seeds| ==> seeds[i] < |colors|
    ensures |centroids| == |seeds|
  {
    seq(|seeds|, i requires 0 <= i < |seeds| => colors[seeds[i]])
  }

  /** The centroids `kMeansClustering` ends with. */
  function ClusterCentroids(colors: seq<Rgb>, seeds: seq<nat>): (centroids: seq<Rgb>)
    requires |seeds| > 0 && forall i :: 0 <= i < |seeds| ==> seeds[i] < |colors|
    ensures |centroids| == |seeds|
  {
    Lloyd(colors, Seed(colors, seeds), MaxIterations)
  }

  /** Every member of a cluster is one of the samples. */
  lemma MembersAreSamples(colors: seq<Rgb>, centroids: seq<Rgb>, i: nat)
    requires |centroids| > 0 && AllValid(colors)
    ensures AllValid(Members(colors, centroids, i))
  {
    var m := Members(colors, centroids, i);
    forall j | 0 <= j < |m| ensures ValidColor(m[j]) {
      MembershipIff(colors, centroids, i, m[j]);
    }
  }

  /** An iteration over byte samples from byte centroids yields byte centroids. */
  lemma StepKeepsBytes(colors: seq<Rgb>, centroids: seq<Rgb>)
    requires |centroids| > 0 && AllValid(colors) && AllValid(centroids)
    ensures AllValid(Step(colors, centroids))
  {
    var clusters := Assign(colors, centroids);
    forall i | 0 <= i < |centroids| ensures ValidColor(Step(colors, centroids)[i]) {
      MembersAreSamples(colors, centroids, i);
    }
  }

  lemma {:induction false} LloydKeepsBytes(colors: seq<Rgb>, centroids: seq<Rgb>, n: nat)
    requires |centroids| > 0 && AllValid(colors) && AllValid(centroids)
    ensures AllValid(Lloyd(colors, centroids, n))
    decreases n
  {
    if n > 0 {
      var next := Step(colors, centroids);
      StepKeepsBytes(colors, centroids);
      LloydKeepsBytes(colors, next, n - 1);
      LloydUnfold(colors, centroids, n);
    }
  }

  /** Every final centroid has its channels in 0..255, for any seeds. */
  lemma CentroidsAreBytes(colors: seq<Rgb>, seeds: seq<nat>)
    requires AllValid(colors)
    requires |seeds| > 0 && forall i :: 0 <= i < |seeds| ==> seeds[i] < |colors|
    ensures AllValid(ClusterCentroids(colors, seeds))
  {
    LloydKeepsBytes(colors, Seed(colors, seeds), MaxIterations);
  }

  /** When every sample is `c` and every centroid is `c`, an iteration
      changes nothing. */
  lemma StepFixesUniform(colors: seq<Rgb>, centroids: seq<Rgb>, c: Rgb)
    requires |centroids| > 0 && AllEqual(colors, c) && AllEqual(centroids, c)
    ensures Step(colors, centroids) == centroids
  {
    var next := Step(colors, centroids);
    forall i | 0 <= i < |centroids| ensures next[i] == c {
      var m := Members(colors, centroids, i);
      forall j | 0 <= j < |m| ensures m[j] == c {
        MembershipIff(colors, centroids, i, m[j]);
      }
    }
  }

  lemma LloydFixesUniform(colors: seq<Rgb>, centroids: seq<Rgb>, c: Rgb, n: nat)
    requires |centroids| > 0 && AllEqual(colors, c) && AllEqual(centroids, c)
    ensures Lloyd(colors, centroids, n) == centroids
  {
    StepFixesUniform(colors, centroids, c);
    LloydAtFixedPoint(colors, centroids, n);
  }

  /** A fixed point of one iteration is a fixed point of any number of them. */
  lemma {:induction false} LloydAtFixedPoint(colors: seq<Rgb>, centroids: seq<Rgb>, n: nat)
    requires |centroids| > 0 && Step(colors, centroids) == centroids
    ensures Lloyd(colors, centroids, n) == centroids
  {
    if n > 0 {
      LloydAtFixedPoint(colors, centroids, n - 1);
    }
  }

  /** A single-colour image: whatever the seeds, every centroid is that colour. */
  lemma UniformSamplesGiveUniformPalette(colors: seq<Rgb>, seeds: seq<nat>, c: Rgb)
    requires AllEqual(colors, c)
    requires |seeds| > 0 && forall i :: 0 <= i < |seeds| ==> seeds[i] < |colors|
    ensures AllEqual(ClusterCentroids(colors, seeds), c)
  {
    LloydFixesUniform(colors, Seed(colors, seeds), c, MaxIterations);
  }

  /** An empty cluster does not keep its own centroid: with the single
      sample `a` and the centroids `a` and `b`, cluster 1 is empty and moves
      from `b` to `a`, a copy of centroid 0. */
  lemma EmptyClusterCopiesFirst(a: Rgb, b: Rgb)
    requires ValidColor(a) && a != b
    ensures Step([a], [a, b]) == [a, a]
  {
    var colors, centroids := [a], [a, b];
    assert Nearest(a, centroids) == 0;
    assert colors[..0] == [];
    assert Members(colors, centroids, 0) == [a];
    assert Members(colors, centroids, 1) == [];
    assert AllEqual([a], a);
    var next := Step(colors, centroids);
    assert next[0] == a && next[1] == a;
  }

  /** The assignment `colors.forEach(...)` of one iteration: each colour is
      pushed onto the cluster of its nearest centroid. */
  method AssignClusters(colors: seq<Rgb>, centroids: seq<Rgb>) returns (clusters: seq<seq<Rgb>>)
    requires |centroids| > 0
    ensures clusters == Assign(colors, centroids)
  {
    clusters := seq(|centroids|, _ => []);
    var n := 0;
    while n < |colors|
      invariant 0 <= n <= |colors|
      invariant |clusters| == |centroids|
      invariant forall j :: 0 <= j < |centroids| ==> clusters[j] == Members(colors[..n], centroids, j)
    {
      var clusterIndex := NearestCentroid(colors[n], centroids);
      assert colors[..n + 1][..n] == colors[..n];
      clusters := clusters[clusterIndex := clusters[clusterIndex] + [colors[n]]];
      n := n + 1;
    }
    assert colors[..n] == colors;
  }

  /** One round of the `for (iter ...)` loop: assign, then move the centroids. */
  method Iterate(colors: seq<Rgb>, centroids: seq<Rgb>) returns (next: seq<Rgb>)
    requires |centroids| > 0
    ensures next == Step(colors, centroids)
  {
    var clusters := AssignClusters(colors, centroids);
    next := Recompute(clusters, centroids);
  }

  /** The initialisation loop: centroid `i` is `colors[seeds[i]]`, where the
      source draws `Math.floor(Math.random() * colors.length)`. */
  method InitialCentroids(colors: seq<Rgb>, seeds: seq<nat>) returns (centroids: seq<Rgb>)
    requires forall i :: 0 <= i < |seeds| ==> seeds[i] < |colors|
    ensures centroids == Seed(colors, seeds)
  {
    centroids := [];
    var i := 0;
    while i < |seeds|
      invariant 0 <= i <= |seeds|
      invariant centroids == Seed(colors, seeds[..i])
    {
      assert Seed(colors, seeds[..i + 1]) == Seed(colors, seeds[..i]) + [colors[seeds[i]]];
      centroids := centroids + [colors[seeds[i]]];
      i := i + 1;
    }
    assert seeds[..i] == seeds;
  }

  /** The `for (iter = 0; iter < maxIterations; iter++)` loop, for a round
      count given as a parameter. */
  method RunIterations(colors: seq<Rgb>, initial: seq<Rgb>, rounds: nat) returns (centroids: seq<Rgb>)
    requires |initial| > 0
    ensures centroids == Lloyd(colors, initial, rounds)
  {
    centroids := initial;
    var iter := 0;
    while iter < rounds
      invariant 0 <= iter <= rounds
      invariant |centroids| > 0
      invariant Lloyd(colors, centroids, rounds - iter) == Lloyd(colors, initial, rounds)
    {
      LloydUnfold(colors, centroids, rounds - iter);
      centroids := Iterate(colors, centroids);
      iter := iter + 1;
    }
  }

  /** `kMeansClustering(colors, k)` with the random draws replaced by `seeds`. */
  method KMeansClustering(colors: seq<Rgb>, k: nat, seeds: seq<nat>, lum: Rgb -> real)
    returns (palette: seq<PaletteEntry>)
    requires |colors| > 0 && AllValid(colors)
    requires k > 0 && |seeds| == k && forall i :: 0 <= i < k ==> seeds[i] < |colors|
    ensures AllValid(ClusterCentroids(colors, seeds))
    ensures palette == EnrichAll(ClusterCentroids(colors, seeds), lum)
    ensures |palette| == k
  {
    var centroids := InitialCentroids(colors, seeds);
    centroids := RunIterations(colors, centroids, MaxIterations);
    CentroidsAreBytes(colors, seeds);
    palette := EnrichAll(centroids, lum);
  }
}
