/** Palette entries, the enrichment `kMeansClustering` applies to each final
    centroid, and the descending-luminance order of `extractDominantColors`. */
module Palette {
  import opened Colors
  import HexCodec
  import ColorSpace

  /** A dominant colour with its derived formats. `luminance` comes from a
      luminance function the caller supplies (`getLuminance` is not part of
      this model). */
  datatype PaletteEntry = PaletteEntry(color: Rgb, hex: string, hsl: ColorSpace.Hsl, luminance: real)

  /** The object `kMeansClustering` builds for one centroid. */
  function Enrich(c: Rgb, lum: Rgb -> real): (e: PaletteEntry)
    requires ValidColor(c)
    ensures e.color == c && e.luminance == lum(c)
    ensures HexCodec.HexToRgb(e.hex).Some? && HexCodec.HexToRgb(e.hex).value == c
  {
    HexCodec.HexRoundTrip(c.r, c.g, c.b);
    PaletteEntry(c, HexCodec.RgbToHex(c.r, c.g, c.b), ColorSpace.RgbToHsl(c), lum(c))
  }

  /** The hex code of an entry is one `isValidHex` accepts. */
  lemma EnrichedHexIsValid(c: Rgb, lum: Rgb -> real)
    requires ValidColor(c)
    ensures HexCodec.IsValidHex(Enrich(c, lum).hex)
  {
    var hex := Enrich(c, lum).hex;
    assert forall i :: 0 <= i < 6 ==> hex[1..][i] == hex[i + 1];
  }

  /** `centroids.map(...)` at the end of `kMeansClustering`. */
  function EnrichAll(centroids: seq<Rgb>, lum: Rgb -> real): (entries: seq<PaletteEntry>)
    requires AllValid(centroids)
    ensures |entries| == |centroids|
    ensures forall i :: 0 <= i < |entries| ==> entries[i] == Enrich(centroids[i], lum)
  {
    seq(|centroids|, i requires 0 <= i < |centroids| => Enrich(centroids[i], lum))
  }

  /** Each entry is at least as bright as the next one. */
  predicate Descending(s: seq<PaletteEntry>) {
    forall i :: 0 <= i < |s| - 1 ==> s[i].luminance >= s[i + 1].luminance
  }

  /** Any entry is at least as bright as every later one. */
  lemma {:induction false} DescendingPairwise(s: seq<PaletteEntry>, i: nat, j: nat)
    requires Descending(s) && i <= j < |s|
    ensures s[i].luminance >= s[j].luminance
    decreases j - i
  {
    if i < j {
      DescendingPairwise(s, i + 1, j);
    }
  }

  /** Inserts `e` before the first entry that is not brighter than it, so
      that among equal luminances the earlier entry stays first. */
  function Insert(e: PaletteEntry, sorted: seq<PaletteEntry>): (r: seq<PaletteEntry>)
    requires Descending(sorted)
    ensures Descending(r)
    ensures multiset(r) == multiset(sorted) + multiset{e}
    ensures |r| == |sorted| + 1
    ensures r[0] == e || (|sorted| > 0 && r[0] == sorted[0])
  {
    if sorted == [] || sorted[0].luminance <= e.luminance then
      [e] + sorted
    else
      assert sorted == [sorted[0]] + sorted[1..];
      [sorted[0]] + Insert(e, sorted[1..])
  }

  /** `dominantColors.sort((a, b) => b.luminance - a.luminance)`: the same
      entries, brightest first. */
  function SortByLuminance(entries: seq<PaletteEntry>): (sorted: seq<PaletteEntry>)
    ensures Descending(sorted)
    ensures multiset(sorted) == multiset(entries)
    ensures |sorted| == |entries|
  {
    if entries == [] then []
    else
      assert entries == [entries[0]] + entries[1..];
      Insert(entries[0], SortByLuminance(entries[1..]))
  }

  /** The entries of luminance `l`, in their order in `s`. */
  function WithLuminance(s: seq<PaletteEntry>, l: real): seq<PaletteEntry> {
    if s == [] then []
    else (if s[0].luminance == l then [s[0]] else []) + WithLuminance(s[1..], l)
  }

  /** Inserting `e` puts it before every entry of the same luminance that
      is already in the list, and moves no entry past another. */
  lemma {:induction false} InsertWithLuminance(e: PaletteEntry, sorted: seq<PaletteEntry>, l: real)
    requires Descending(sorted)
    ensures WithLuminance(Insert(e, sorted), l) ==
      (if e.luminance == l then [e] else []) + WithLuminance(sorted, l)
    decreases |sorted|
  {
    var r := Insert(e, sorted);
    var mine := if e.luminance == l then [e] else [];
    if sorted == [] || sorted[0].luminance <= e.luminance {
      assert r == [e] + sorted;
      assert r[1..] == sorted;
      assert WithLuminance(r, l) == mine + WithLuminance(sorted, l);
    } else {
      var head := if sorted[0].luminance == l then [sorted[0]] else [];
      var rest := Insert(e, sorted[1..]);
      assert r == [sorted[0]] + rest;
      assert r[1..] == rest;
      InsertWithLuminance(e, sorted[1..], l);
      assert WithLuminance(r, l) == head + (mine + WithLuminance(sorted[1..], l));
      assert WithLuminance(sorted, l) == head + WithLuminance(sorted[1..], l);
      // `e` is darker than `sorted[0]`, so at most one of them has luminance `l`.
      assert head == [] || mine == [];
    }
  }

  /** The sort is stable: entries of equal luminance keep their order. */
  lemma {:induction false} SortIsStable(entries: seq<PaletteEntry>, l: real)
    ensures WithLuminance(SortByLuminance(entries), l) == WithLuminance(entries, l)
    decreases |entries|
  {
    if entries != [] {
      SortIsStable(entries[1..], l);
      InsertWithLuminance(entries[0], SortByLuminance(entries[1..]), l);
    }
  }

  /** The hex strings of a palette, in order (`dominantColors.map(c => c.hex)`). */
  function Hexes(entries: seq<PaletteEntry>): (hexes: seq<string>)
    ensures |hexes| == |entries|
    ensures forall i :: 0 <= i < |entries| ==> hexes[i] == entries[i].hex
  {
    seq(|entries|, i requires 0 <= i < |entries| => entries[i].hex)
  }
}
