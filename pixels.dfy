/** The byte layout of canvas image data: interleaved R, G, B, A bytes,
    four per pixel, and the in-place loop that rewrites the colour of every
    pixel and leaves its alpha byte alone. */
module Pixels {
  import opened Channel

  /** Image data as a canvas hands it out: four bytes per pixel. */
  type ImageData = s: seq<Byte> | |s| % 4 == 0

  datatype Rgb = Rgb(r: Byte, g: Byte, b: Byte) {
    predicate IsGrey() {
      r == g == b
    }
  }

  /** A buffer with every pixel's colour replaced by f of it and every
      alpha byte copied. Stated for any pixel map, so that the buffer's
      structure is reasoned about apart from the pixel arithmetic. Image data
      always holds whole pixels; bytes after the last whole pixel, were there
      any, would be copied. */
  function MapPixels(s: seq<Byte>, f: Rgb -> Rgb): (t: seq<Byte>)
    ensures |t| == |s|
    decreases |s|
  {
    if |s| < 4 then s
    else
      var q := f(Rgb(s[0], s[1], s[2]));
      [q.r, q.g, q.b, s[3]] + MapPixels(s[4..], f)
  }

  /** The colour of pixel p, stored at 4p, 4p+1 and 4p+2. */
  function Pixel(s: seq<Byte>, p: nat): Rgb
    requires 4 * p + 3 < |s|
  {
    Rgb(s[4 * p], s[4 * p + 1], s[4 * p + 2])
  }

  /** Pixel p of the mapped buffer is f of pixel p, and its alpha byte is
      the old one. */
  lemma {:induction false} MapPixelsAt(s: seq<Byte>, f: Rgb -> Rgb, p: nat)
    requires 4 * p + 3 < |s|
    ensures Pixel(MapPixels(s, f), p) == f(Pixel(s, p))
    ensures MapPixels(s, f)[4 * p + 3] == s[4 * p + 3]
  {
    if p > 0 {
      MapPixelsAt(s[4..], f, p - 1);
      assert Pixel(s, p) == Pixel(s[4..], p - 1);
      assert Pixel(MapPixels(s, f), p) == Pixel(MapPixels(s[4..], f), p - 1);
    }
  }

  /** t is s with the colour of every whole pixel replaced by f of it and
      every alpha byte kept. */
  ghost predicate PixelsMapped(s: seq<Byte>, t: seq<Byte>, f: Rgb -> Rgb) {
    |t| == |s| &&
    forall p :: 0 <= p && 4 * p + 3 < |s| ==> Pixel(t, p) == f(Pixel(s, p)) && t[4 * p + 3] == s[4 * p + 3]
  }

  /** On a buffer of n whole pixels, the pixel-by-pixel description
      determines the buffer: it is exactly MapPixels. */
  lemma {:induction false} PixelsMappedIsMapPixels(s: seq<Byte>, t: seq<Byte>, f: Rgb -> Rgb, n: nat)
    requires |s| == 4 * n && PixelsMapped(s, t, f)
    ensures t == MapPixels(s, f)
    decreases n
  {
    if n > 0 {
      forall p | 0 <= p && 4 * p + 3 < |s| - 4
        ensures Pixel(t[4..], p) == f(Pixel(s[4..], p)) && t[4..][4 * p + 3] == s[4..][4 * p + 3]
      {
        assert Pixel(t[4..], p) == Pixel(t, p + 1);
        assert Pixel(s[4..], p) == Pixel(s, p + 1);
      }
      PixelsMappedIsMapPixels(s[4..], t[4..], f, n - 1);
      assert Pixel(t, 0) == f(Pixel(s, 0));
      assert t == [t[0], t[1], t[2], t[3]] + t[4..];
    }
  }

  /** The enhancement loop: walks the buffer four bytes at a time and
      rewrites R, G and B of each pixel in place with f of the old colour;
      alpha and length stay. */
  method MapPixelsInPlace(data: array<Byte>, f: Rgb -> Rgb)
    requires data.Length % 4 == 0
    modifies data
    ensures PixelsMapped(old(data[..]), data[..], f)
  {
    ghost var before := data[..];
    ghost var pixels := data.Length / 4;
    assert data.Length == 4 * pixels;
    var i := 0;
    ghost var done := 0;
    while i < data.Length
      invariant 0 <= done <= pixels && i == 4 * done
      invariant forall p :: 0 <= p < done ==> Pixel(data[..], p) == f(Pixel(before, p)) && data[4 * p + 3] == before[4 * p + 3]
      invariant forall k :: i <= k < data.Length ==> data[k] == before[k]
    {
      var q := f(Rgb(data[i], data[i + 1], data[i + 2]));
      data[i], data[i + 1], data[i + 2] := q.r, q.g, q.b;
      i, done := i + 4, done + 1;
    }
  }
}
