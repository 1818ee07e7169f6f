/** Fixed-width arithmetic spelled out on unbounded integers. */
module Arithmetic {

  const I16_MIN := -32768
  const I16_MAX := 32767

  /** A result the i16 type can hold: every use is an obligation that nothing overflows. */
  function I16(v: int): int
    requires I16_MIN <= v <= I16_MAX
  {
    v
  }

  /** Division rounding toward zero. */
  function TruncDiv(a: int, b: int): int
    requires b > 0
  {
    if a >= 0 then a / b else -((-a) / b)
  }

  /** `i16::saturating_add`: the sum, or the end of the range that it is beyond. */
  function SatAdd(a: int, b: int): (r: int)
    ensures -32768 <= r <= 32767
    ensures r != a + b ==> (r == -32768 && a + b < r) || (r == 32767 && a + b > r)
  {
    var s := a + b;
    if s < I16_MIN then I16_MIN else if s > I16_MAX then I16_MAX else s
  }

  function Clamp255(v: int): (c: int)
    ensures 0 <= c <= 255
    ensures c != v ==> (c == 0 && v < c) || (c == 255 && v > c)
  {
    if v < 0 then 0 else if v > 255 then 255 else v
  }

  function Min(a: int, b: int): int {
    if a <= b then a else b
  }

  /** `as u8`. */
  function U8(v: int): int {
    v % 256
  }

  /** The nearest of so many evenly spaced levels to a byte; the cast to a byte is part of it. */
  function LevelOf(levels: int, v: int): int
    requires levels >= 2
  {
    U8(Min((v * (levels - 1) + 127) / 255, levels - 1))
  }

  // ---- Multiplication and division facts ----

  /** Rounding toward zero: the quotient has the sign of what is divided and never more than its share. */
  lemma {:induction false} TruncDivMeans(a: int, b: int)
    requires b > 0
    ensures a >= 0 ==> 0 <= b * TruncDiv(a, b) <= a < b * TruncDiv(a, b) + b
    ensures a <= 0 ==> b * TruncDiv(a, b) - b < a <= b * TruncDiv(a, b) <= 0
  {
    var n, q := if a >= 0 then a else -a, if a >= 0 then a / b else (-a) / b;
    DivBounds(n, b);
    assert b * (-q) == -(b * q);
    assert 0 <= b * q by {
      if q + 1 <= 0 {
        MulMonotone(q + 1, 0, b);
      }
      MulNonNegative(b, if q >= 0 then q else 0);
    }
  }

  lemma {:induction false} MulMonotone(a: int, b: int, w: int)
    requires a <= b && 0 <= w
    ensures a * w <= b * w
  {
    if a < b {
      MulNonNegative(b - a, w);
      assert (b - a) * w == b * w - a * w;
    }
  }

  lemma {:induction false} MulNonNegative(a: int, w: int)
    requires 0 <= a && 0 <= w
    ensures 0 <= a * w
  {
  }

  /** Division with remainder has one answer. */
  lemma {:induction false} DivModUnique(w: int, q: int, r: int)
    requires 0 <= r < w
    ensures (q * w + r) / w == q && (q * w + r) % w == r
  {
    var n := q * w + r;
    var d := n / w - q;
    assert (n / w) * w == d * w + q * w;
    assert d * w == r - n % w;
    if d >= 1 {
      MulMonotone(1, d, w);
      assert false;
    } else if d <= -1 {
      MulMonotone(d, -1, w);
      assert false;
    }
  }

  /** A positive factor cancels. */
  lemma {:induction false} CancelMul(a: int, b: int, l: int)
    requires l >= 1 && a * l <= b * l
    ensures a <= b
  {
    assert (b + 1) * l == b * l + l;
    if b + 1 <= a {
      MulMonotone(b + 1, a, l);
      assert false;
    }
  }

  lemma {:induction false} DivBelow(a: int, l: int, b: int)
    requires l >= 1 && a < b * l
    ensures a / l < b
  {
    DivBounds(a, l);
    if b <= a / l {
      MulMonotone(b, a / l, l);
      assert false;
    }
  }

  /** Quotients compare by cross-multiplying. */
  lemma {:induction false} DivAtMost(a: int, l: int, b: int)
    requires l >= 1 && a <= b * l
    ensures a / l <= b
  {
    DivBounds(a, l);
    CancelMul(a / l, b, l);
  }

  lemma {:induction false} DivBounds(a: int, n: int)
    requires n > 0
    ensures n * (a / n) <= a < n * (a / n) + n
  {
  }

  /** Up to 256 levels, the level is within half a step of the byte. */
  lemma {:induction false} LevelIsNearest(levels: int, c: int)
    requires 2 <= levels <= 256 && 0 <= c <= 255
    ensures 0 <= LevelOf(levels, c) < levels
    ensures -127 <= c * (levels - 1) - 255 * LevelOf(levels, c) <= 127
  {
    var l := levels - 1;
    MulMonotone(c, 255, l);
    MulNonNegative(c, l);
    assert LevelOf(levels, c) == (c * l + 127) / 255;
  }
}
