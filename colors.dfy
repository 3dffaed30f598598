/** RGB colours and their saturation. */
module Colors {

  /**
   * An RGB pixel as an integer triple on the 0..255 scale. The decoder moves
   * between this scale and floats in [0, 1]; the model keeps the triple.
   */
  datatype Color = RGB(r: int, g: int, b: int)

  function MaxChannel(c: Color): (m: int)
    ensures m >= c.r && m >= c.g && m >= c.b
    ensures m == c.r || m == c.g || m == c.b
  {
    if c.r >= c.g && c.r >= c.b then c.r else if c.g >= c.b then c.g else c.b
  }

  function MinChannel(c: Color): (m: int)
    ensures m <= c.r && m <= c.g && m <= c.b
    ensures m == c.r || m == c.g || m == c.b
  {
    if c.r <= c.g && c.r <= c.b then c.r else if c.g <= c.b then c.g else c.b
  }

  /**
   * `(max - min) / max` over the channels, or 0 when the largest channel is 0.
   * Dividing every channel by 255 first, as the decoder does, leaves the ratio unchanged.
   */
  function Saturation(c: Color): (s: real)
    ensures MinChannel(c) >= 0 ==> 0.0 <= s <= 1.0
    ensures MaxChannel(c) > 0 && MinChannel(c) == MaxChannel(c) ==> s == 0.0
  {
    var hi, lo := MaxChannel(c), MinChannel(c);
    if hi != 0 then
      var s := (hi - lo) as real / hi as real;
      assert lo >= 0 ==> 0.0 <= s <= 1.0 by {
        if lo >= 0 { FractionBounds((hi - lo) as real, hi as real); }
      }
      s
    else 0.0
  }

  /** A fraction whose numerator is between 0 and its positive denominator lies in [0, 1]. */
  lemma FractionBounds(a: real, b: real)
    requires 0.0 <= a <= b && b > 0.0
    ensures 0.0 <= a / b <= 1.0
  {
    var q := a / b;
    assert q * b == a;
    assert (1.0 - q) * b == b - a;
    FactorSign(q, b);
    FactorSign(1.0 - q, b);
  }

  /** A product with a positive factor is non-negative only when the other factor is. */
  lemma FactorSign(x: real, b: real)
    requires b > 0.0 && x * b >= 0.0
    ensures x >= 0.0
  {
  }
}
