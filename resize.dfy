/** The size of the canvas an image is drawn onto before it is enhanced:
    the image is scaled by min(1, 800 / width), both sides by the same
    ratio, and each side is rounded with Math.round. */
module Resize {
  import opened Channel

  const MaxWidth: nat := 800

  datatype Size = Size(width: int, height: int)

  /** The scale factor. An image of width 0 gives 800 / 0 = Infinity in
      JavaScript, and min(1, Infinity) = 1. */
  function Ratio(width: nat): (r: real)
    ensures 0.0 < r <= 1.0
    ensures width <= MaxWidth ==> r == 1.0
    ensures width > MaxWidth ==> r * width as real == MaxWidth as real
  {
    if width == 0 then 1.0
    else if MaxWidth as real / width as real < 1.0 then MaxWidth as real / width as real
    else 1.0
  }

  /** The canvas size for an image of the given natural size. */
  function CanvasSize(width: nat, height: nat): (s: Size)
    ensures -0.5 < s.width as real - width as real * Ratio(width) <= 0.5
    ensures -0.5 < s.height as real - height as real * Ratio(width) <= 0.5
  {
    var ratio := Ratio(width);
    Size(MathRound(width as real * ratio), MathRound(height as real * ratio))
  }

  /** An image no wider than 800 pixels keeps its size. */
  lemma NarrowUnchanged(width: nat, height: nat)
    requires width <= MaxWidth
    ensures CanvasSize(width, height) == Size(width, height)
  {
    MathRoundOfInt(width);
    MathRoundOfInt(height);
  }

  /** A wider image becomes exactly 800 wide, and its height is the rounded
      proportional height. */
  lemma WideBecomesMaxWidth(width: nat, height: nat)
    requires width > MaxWidth
    ensures CanvasSize(width, height).width == MaxWidth
    ensures CanvasSize(width, height).height == MathRound(height as real * MaxWidth as real / width as real)
  {
    var ratio := Ratio(width);
    assert width as real * ratio == MaxWidth as real;
    MathRoundOfInt(MaxWidth);
    assert height as real * ratio == height as real * MaxWidth as real / width as real;
  }

  /** Resizing never upscales: neither side grows, and the canvas is never
      wider than 800. */
  lemma NeverUpscales(width: nat, height: nat)
    ensures 0 <= CanvasSize(width, height).width <= width
    ensures 0 <= CanvasSize(width, height).height <= height
    ensures CanvasSize(width, height).width <= MaxWidth
  {
    var ratio := Ratio(width);
    assert width as real * ratio <= width as real;
    assert height as real * ratio <= height as real;
    MathRoundMonotone(width as real * ratio, width as real);
    MathRoundMonotone(height as real * ratio, height as real);
    MathRoundMonotone(0.0, width as real * ratio);
    MathRoundMonotone(0.0, height as real * ratio);
    MathRoundOfInt(width);
    MathRoundOfInt(height);
    MathRoundOfInt(0);
    if width > MaxWidth {
      WideBecomesMaxWidth(width, height);
    } else {
      NarrowUnchanged(width, height);
    }
  }

  /** The canvas has a zero side exactly when the image has one, or when
      the image is more than 1600 times as wide as it is high: its height
      is then scaled below 1/2 and rounds to 0. */
  lemma ZeroSide(width: nat, height: nat)
    ensures (CanvasSize(width, height).width == 0 || CanvasSize(width, height).height == 0)
        <==> (width == 0 || height == 0 || 1600 * height < width)
  {
    if width <= MaxWidth {
      NarrowUnchanged(width, height);
    } else {
      WideBecomesMaxWidth(width, height);
      var x := height as real * MaxWidth as real / width as real;
      assert x * width as real == 800.0 * height as real;
      assert 0.0 <= x;
      assert x < 0.5 <==> 1600 * height < width;
      assert MathRound(x) == 0 <==> x < 0.5;
    }
  }
}
