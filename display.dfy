/** The 480x320 framebuffer: screen size, the palette, and the packing of
    24-bit RGB pixels into the panel's 16-bit RGB565 words. */
module Display {

  const WIDTH: int := 480
  const HEIGHT: int := 320

  /** An unsigned 8-bit channel value, as numpy's `uint8`. */
  newtype Byte = x: int | 0 <= x < 256

  /** One pixel of the PIL `RGB` image. */
  datatype Pixel = Pixel(r: Byte, g: Byte, b: Byte)

  const BG_COLOR := Pixel(0, 0, 0)
  const FG_MAIN := Pixel(0, 255, 0)
  const FG_DIM := Pixel(0, 160, 0)
  const FG_GRAY := Pixel(100, 100, 100)
  const FG_WARN := Pixel(255, 165, 0)

  /** `(r >> 3) << 11 | (g >> 2) << 5 | (b >> 3)` on non-negative values: a right
      shift by `k` is division by `2^k`, a left shift multiplication, and the
      three shifted fields occupy disjoint bits, so their `|` is their sum. */
  function Rgb565(p: Pixel): (w: int)
    ensures 0 <= w < 0x1_0000
  {
    (p.r as int / 8) * 2048 + (p.g as int / 4) * 32 + p.b as int / 8
  }

  /** Bits 11-15, 5-10 and 0-4 of the word give back `r >> 3`, `g >> 2` and `b >> 3`. */
  lemma Rgb565Fields(p: Pixel)
    ensures Rgb565(p) / 2048 == p.r as int / 8
    ensures (Rgb565(p) / 32) % 64 == p.g as int / 4
    ensures Rgb565(p) % 32 == p.b as int / 8
  {
    var r, g, b := p.r as int / 8, p.g as int / 4, p.b as int / 8;
    var w := Rgb565(p);
    assert 0 <= r < 32 && 0 <= g < 64 && 0 <= b < 32;
    assert w == r * 2048 + (g * 32 + b) && 0 <= g * 32 + b < 2048;
    assert w == (r * 64 + g) * 32 + b;
    assert w / 32 == r * 64 + g;
  }

  /** The pixel a 16-bit word stands for, each channel with its dropped low bits zero. */
  function Expand(w: int): (p: Pixel)
    requires 0 <= w < 0x1_0000
    ensures p.r as int % 8 == 0 && p.g as int % 4 == 0 && p.b as int % 8 == 0
  {
    Pixel((w / 2048 * 8) as Byte, ((w / 32) % 64 * 4) as Byte, (w % 32 * 8) as Byte)
  }

  /** Every 16-bit word is the packing of some pixel: packing loses nothing of the word. */
  lemma PackExpand(w: int)
    requires 0 <= w < 0x1_0000
    ensures Rgb565(Expand(w)) == w
  {
    var q, r, g, b := w / 32, w / 2048, (w / 32) % 64, w % 32;
    var p := Expand(w);
    assert p.r as int / 8 == r && p.g as int / 4 == g && p.b as int / 8 == b;
    assert w == q * 32 + b;
    assert q == q / 64 * 64 + g;
    assert q / 64 == r by {
      assert w == q / 64 * 2048 + (g * 32 + b);
      assert 0 <= g * 32 + b < 2048;
    }
  }

  /** Packing keeps exactly the top five, six and five bits of the three channels. */
  lemma ExpandPack(p: Pixel)
    ensures Expand(Rgb565(p)) == Pixel(p.r / 8 * 8, p.g / 4 * 4, p.b / 8 * 8)
  {
    Rgb565Fields(p);
  }

  /** Two pixels pack to the same word exactly when they agree on the kept bits. */
  lemma Rgb565SameIff(p: Pixel, q: Pixel)
    ensures Rgb565(p) == Rgb565(q) <==> p.r / 8 == q.r / 8 && p.g / 4 == q.g / 4 && p.b / 8 == q.b / 8
  {
    Rgb565Fields(p);
    Rgb565Fields(q);
  }

  /** The background packs to 0 and the main green to the full green field. */
  lemma PaletteWords()
    ensures Rgb565(BG_COLOR) == 0
    ensures Rgb565(FG_MAIN) == 0x07E0
  {
    var g: int := FG_MAIN.g as int;
    assert g == 255;
    assert g / 4 == 63;
    assert Rgb565(FG_MAIN) == 0 * 2048 + (g / 4) * 32 + 0;
  }

  /** `rgb888_to_rgb565(img)` for an image given as rows of pixels: an array of
      the same shape holding each pixel's packed word. */
  method Rgb888ToRgb565(img: array2<Pixel>) returns (out: array2<int>)
    ensures fresh(out)
    ensures out.Length0 == img.Length0 && out.Length1 == img.Length1
    ensures forall y, x :: 0 <= y < out.Length0 && 0 <= x < out.Length1 ==> out[y, x] == Rgb565(img[y, x])
  {
    out := new int[img.Length0, img.Length1];
    var y := 0;
    while y < img.Length0
      invariant 0 <= y <= img.Length0
      invariant forall i, j :: 0 <= i < y && 0 <= j < img.Length1 ==> out[i, j] == Rgb565(img[i, j])
    {
      var x := 0;
      while x < img.Length1
        invariant 0 <= x <= img.Length1
        invariant forall i, j :: 0 <= i < y && 0 <= j < img.Length1 ==> out[i, j] == Rgb565(img[i, j])
        invariant forall j :: 0 <= j < x ==> out[y, j] == Rgb565(img[y, j])
      {
        out[y, x] := Rgb565(img[y, x]);
        x := x + 1;
      }
      y := y + 1;
    }
  }

  /** The frame the dashboard converts is a full screen: `HEIGHT` rows of
      `WIDTH` pixels, one word per pixel. */
  method FrameToRgb565(img: array2<Pixel>) returns (out: array2<int>)
    requires img.Length0 == HEIGHT && img.Length1 == WIDTH
    ensures fresh(out) && out.Length0 == HEIGHT && out.Length1 == WIDTH
    ensures forall y, x :: 0 <= y < HEIGHT && 0 <= x < WIDTH ==> out[y, x] == Rgb565(img[y, x])
  {
    out := Rgb888ToRgb565(img);
  }
}
