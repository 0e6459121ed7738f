/** The value types shared by every part of the engine: bytes of the
    RGBA pixel buffer and integer RGB triples. */
module Colors {

  /** One channel byte of the canvas pixel buffer (a Uint8ClampedArray). */
  newtype byte = x: int | 0 <= x < 256

  /** An RGB colour `{r, g, b}`; channels are meant to be bytes, which
      `ValidColor` states where it matters. */
  datatype Rgb = Rgb(r: int, g: int, b: int)

  predicate IsByte(x: int) {
    0 <= x < 256
  }

  predicate ValidColor(c: Rgb) {
    IsByte(c.r) && IsByte(c.g) && IsByte(c.b)
  }

  predicate AllValid(cs: seq<Rgb>) {
    forall i :: 0 <= i < |cs| ==> ValidColor(cs[i])
  }

  /** Every colour of `cs` is `c`. */
  predicate AllEqual(cs: seq<Rgb>, c: Rgb) {
    forall i :: 0 <= i < |cs| ==> cs[i] == c
  }

  /** The R, G and B bytes of the pixel whose first byte is at offset `i`
      of an RGBA buffer; the alpha byte at `i + 3` is not read. */
  function PixelColor(pixels: seq<byte>, i: nat): (c: Rgb)
    requires i + 2 < |pixels|
    ensures ValidColor(c)
  {
    Rgb(pixels[i] as int, pixels[i + 1] as int, pixels[i + 2] as int)
  }

  function MaxChannel(c: Rgb): int {
    if c.r >= c.g && c.r >= c.b then c.r else if c.g >= c.b then c.g else c.b
  }

  function MinChannel(c: Rgb): int {
    if c.r <= c.g && c.r <= c.b then c.r else if c.g <= c.b then c.g else c.b
  }
}
