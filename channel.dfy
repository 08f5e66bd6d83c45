/** Arithmetic on one colour channel: the clamp the enhancer applies to
    intermediate values, the conversion a clamped byte buffer applies when a
    number is stored into it, and JavaScript's Math.round.

    JavaScript numbers are modelled as exact reals; every value the enhancer
    stores has been clamped first, so bounds carry over from doubles. */
module Channel {

  /** A value of a clamped 8-bit buffer cell. */
  type Byte = x: int | 0 <= x < 256

  /** Values lie in the closed channel range [0, 255]. */
  predicate InRange(v: real) {
    0.0 <= v <= 255.0
  }

  /** The page's `truncate` helper: values below 0 become 0, values above
      255 become 255, everything in between is left alone. */
  function Truncate(v: real): (r: real)
    ensures InRange(r)
    ensures InRange(v) ==> r == v
    ensures v < 0.0 ==> r == 0.0
    ensures v > 255.0 ==> r == 255.0
  {
    if v < 0.0 then 0.0 else if v > 255.0 then 255.0 else v
  }

  lemma TruncateIdempotent(v: real)
    ensures Truncate(Truncate(v)) == Truncate(v)
  {
  }

  lemma TruncateMonotone(u: real, v: real)
    requires u <= v
    ensures Truncate(u) <= Truncate(v)
  {
  }

  /** The conversion a Uint8ClampedArray applies to a number stored into it
      (ECMAScript's ToUint8Clamp): clamp to [0, 255], then round to the
      nearest integer, a tie going to the even neighbour. */
  function ToUint8Clamp(x: real): (b: Byte)
    ensures x <= 0.0 ==> b == 0
    ensures x >= 255.0 ==> b == 255
    ensures InRange(x) ==> -0.5 <= b as real - x <= 0.5
  {
    if x <= 0.0 then 0
    else if x >= 255.0 then 255
    else
      var f := x.Floor;
      if f as real + 0.5 < x then f + 1
      else if x < f as real + 0.5 then f
      else if f % 2 == 1 then f + 1
      else f
  }

  /** An exact tie between two integers is stored as the even one. */
  lemma ToUint8ClampTiesToEven(n: int)
    requires 0 <= n < 255
    ensures ToUint8Clamp(n as real + 0.5) % 2 == 0
    ensures ToUint8Clamp(n as real + 0.5) == n || ToUint8Clamp(n as real + 0.5) == n + 1
  {
    assert (n as real + 0.5).Floor == n;
  }

  /** A value that already is a byte is stored unchanged. */
  lemma ToUint8ClampOfByte(n: Byte)
    ensures ToUint8Clamp(n as real) == n
  {
    assert (n as real).Floor == n;
  }

  /** Storing respects order: a larger number never becomes a smaller byte. */
  lemma ToUint8ClampMonotone(x: real, y: real)
    requires x <= y
    ensures ToUint8Clamp(x) <= ToUint8Clamp(y)
  {
    if 0.0 < x && y < 255.0 {
      var fx, fy := x.Floor, y.Floor;
      assert fx <= fy;
      if fx == fy {
        assert ToUint8Clamp(x) <= ToUint8Clamp(y);
      } else {
        assert fx as real + 1.0 <= fy as real;
        assert ToUint8Clamp(x) <= fx + 1 <= fy <= ToUint8Clamp(y);
      }
    }
  }

  /** JavaScript's Math.round on the values the page feeds it:
      the integer at floor(x + 0.5), so halves round up. */
  function MathRound(x: real): (n: int)
    ensures -0.5 < n as real - x <= 0.5
  {
    (x + 0.5).Floor
  }

  /** Math.round leaves integers alone and never moves past a bound it is
      within half of. */
  lemma MathRoundOfInt(n: int)
    ensures MathRound(n as real) == n
  {
  }

  lemma MathRoundMonotone(x: real, y: real)
    requires x <= y
    ensures MathRound(x) <= MathRound(y)
  {
  }
}
