/** The per-pixel colour enhancement: contrast and brightness on each of
    R, G and B, then saturation about the mean of the three adjusted values,
    applied to every pixel of an interleaved RGBA byte buffer in place. */
module Enhance {
  import opened Channel
  import opened Pixels

  const Brightness: real := 20.0
  const Contrast: real := 1.3
  const Saturation: real := 1.15

  /** Step one for a channel: scale the distance from mid-grey by the
      contrast, add the brightness offset, clamp. */
  function Contrasted(v: Byte): (c: real)
    ensures InRange(c)
  {
    Truncate((v as real - 128.0) * Contrast + 128.0 + Brightness)
  }

  /** Step two for a channel: scale the distance from the pixel's mean by
      the saturation, clamp. */
  function Saturated(c: real, avg: real): (s: real)
    ensures InRange(s)
  {
    Truncate(avg + (c - avg) * Saturation)
  }

  /** Both steps and the byte store, about the same mean, keep the order
      of two channel values. */
  lemma StepsKeepOrder(x: Byte, y: Byte, avg: real)
    ensures x <= y ==> ToUint8Clamp(Saturated(Contrasted(x), avg)) <= ToUint8Clamp(Saturated(Contrasted(y), avg))
  {
    if x <= y {
      ContrastedMonotone(x, y);
      var cx, cy := Contrasted(x), Contrasted(y);
      assert avg + (cx - avg) * Saturation <= avg + (cy - avg) * Saturation;
      TruncateMonotone(avg + (cx - avg) * Saturation, avg + (cy - avg) * Saturation);
      ToUint8ClampMonotone(Saturated(cx, avg), Saturated(cy, avg));
    }
  }

  /** The whole transform of one pixel, including the byte store. It never
      swaps the order of two channels: the hue's ordering of R, G and B is
      kept. */
  function EnhancePixel(p: Rgb): (q: Rgb)
    ensures p.r <= p.g ==> q.r <= q.g
    ensures p.g <= p.r ==> q.g <= q.r
    ensures p.g <= p.b ==> q.g <= q.b
    ensures p.b <= p.g ==> q.b <= q.g
    ensures p.r <= p.b ==> q.r <= q.b
    ensures p.b <= p.r ==> q.b <= q.r
  {
    var r, g, b := Contrasted(p.r), Contrasted(p.g), Contrasted(p.b);
    var avg := (r + g + b) / 3.0;
    StepsKeepOrder(p.r, p.g, avg); StepsKeepOrder(p.g, p.r, avg);
    StepsKeepOrder(p.g, p.b, avg); StepsKeepOrder(p.b, p.g, avg);
    StepsKeepOrder(p.r, p.b, avg); StepsKeepOrder(p.b, p.r, avg);
    Rgb(ToUint8Clamp(Saturated(r, avg)), ToUint8Clamp(Saturated(g, avg)), ToUint8Clamp(Saturated(b, avg)))
  }

  /** The enhanced buffer: every pixel through EnhancePixel. */
  function Enhanced(s: seq<Byte>): (t: seq<Byte>)
    ensures |t| == |s|
  {
    MapPixels(s, EnhancePixel)
  }

  /** The alpha byte of every pixel is left as it was. */
  lemma EnhancedKeepsAlpha(s: seq<Byte>, k: nat)
    requires k < |s| && k % 4 == 3
    ensures Enhanced(s)[k] == s[k]
  {
    assert k == 4 * (k / 4) + 3;
    MapPixelsAt(s, EnhancePixel, k / 4);
  }

  /** The enhanced colour of pixel p is EnhancePixel of its old colour. */
  lemma EnhancedPixelAt(s: seq<Byte>, p: nat)
    requires 4 * p + 3 < |s|
    ensures Pixel(Enhanced(s), p) == EnhancePixel(Pixel(s, p))
  {
    MapPixelsAt(s, EnhancePixel, p);
  }

  /** Pixels are transformed independently: two buffers whose pixel p has
      the same colour have the same enhanced colour at p, whatever the other
      pixels and the alpha bytes hold. */
  lemma EnhancedPixelwise(s: seq<Byte>, t: seq<Byte>, p: nat)
    requires 4 * p + 3 < |s| && 4 * p + 3 < |t|
    requires Pixel(s, p) == Pixel(t, p)
    ensures Pixel(Enhanced(s), p) == Pixel(Enhanced(t), p)
  {
    EnhancedPixelAt(s, p);
    EnhancedPixelAt(t, p);
  }

  /** A grey pixel stays grey: the mean equals each adjusted channel, so the
      saturation step changes nothing, and the result is the contrast step
      of the grey level. */
  lemma GreyStaysGrey(p: Rgb)
    requires p.IsGrey()
    ensures EnhancePixel(p).IsGrey()
    ensures EnhancePixel(p).r == ToUint8Clamp(Contrasted(p.r))
  {
    var c := Contrasted(p.r);
    assert (c + c + c) / 3.0 == c;
  }

  /** Black and white are fixed points of the enhancement. */
  lemma BlackAndWhiteFixed()
    ensures EnhancePixel(Rgb(0, 0, 0)) == Rgb(0, 0, 0)
    ensures EnhancePixel(Rgb(255, 255, 255)) == Rgb(255, 255, 255)
  {
    GreyStaysGrey(Rgb(0, 0, 0));
    GreyStaysGrey(Rgb(255, 255, 255));
  }

  /** Enhancing twice is not enhancing once: mid-grey 128 becomes 148, and
      148 becomes 174. */
  lemma EnhanceNotIdempotent()
    ensures EnhancePixel(Rgb(128, 128, 128)) == Rgb(148, 148, 148)
    ensures EnhancePixel(EnhancePixel(Rgb(128, 128, 128))) == Rgb(174, 174, 174)
  {
    GreyStaysGrey(Rgb(128, 128, 128));
    ToUint8ClampOfByte(148);
    GreyStaysGrey(Rgb(148, 148, 148));
    ToUint8ClampOfByte(174);
  }

  /** The contrast step keeps the order of channel values. */
  lemma ContrastedMonotone(u: Byte, v: Byte)
    requires u <= v
    ensures Contrasted(u) <= Contrasted(v)
  {
    TruncateMonotone((u as real - 128.0) * Contrast + 128.0 + Brightness,
                     (v as real - 128.0) * Contrast + 128.0 + Brightness);
  }

  /** The page's enhancement of one canvas's image data, in place. */
  method EnhanceInPlace(data: array<Byte>)
    requires data.Length % 4 == 0
    modifies data
    ensures data[..] == Enhanced(old(data[..]))
    ensures forall k :: 0 <= k < data.Length && k % 4 == 3 ==> data[k] == old(data[k])
  {
    ghost var before := data[..];
    MapPixelsInPlace(data, EnhancePixel);
    ghost var pixels := data.Length / 4;
    assert data.Length == 4 * pixels;
    PixelsMappedIsMapPixels(before, data[..], EnhancePixel, pixels);
    forall k | 0 <= k < data.Length && k % 4 == 3
      ensures data[k] == before[k]
    {
      EnhancedKeepsAlpha(before, k);
    }
  }
}
