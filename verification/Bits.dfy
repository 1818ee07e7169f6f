/** Bitwise operations on naturals, and bytes read as most-significant-first digit strings.
    Shifts are repeated doubling and halving, so no proof multiplies two variables. */
module Bits {

  function Shl(a: nat, n: nat): nat {
    if n == 0 then a else 2 * Shl(a, n - 1)
  }

  function Shr(a: nat, n: nat): nat {
    if n == 0 then a else Shr(a / 2, n - 1)
  }

  /** Bytes in a row of w bits. */
  function BitStride(w: int): (s: int)
    ensures w >= 0 ==> s >= 0
  {
    (w + 7) / 8
  }

  function Pow2(n: nat): nat {
    Shl(1, n)
  }

  /** `a | b`, bit by bit. */
  function BitOr(a: nat, b: nat): nat
    decreases a + b
  {
    if a == 0 && b == 0 then 0
    else (if a % 2 == 1 || b % 2 == 1 then 1 else 0) + 2 * BitOr(a / 2, b / 2)
  }

  /** `a & b`, bit by bit. */
  function BitAnd(a: nat, b: nat): nat
    decreases a
  {
    if a == 0 then 0
    else (if a % 2 == 1 && b % 2 == 1 then 1 else 0) + 2 * BitAnd(a / 2, b / 2)
  }

  /** The low p bits of a. */
  function Low(a: nat, p: nat): nat {
    if p == 0 then 0 else 2 * Low(a / 2, p - 1) + a % 2
  }

  lemma {:induction false} BitOrZero(a: nat)
    ensures BitOr(a, 0) == a && BitOr(0, a) == a
  {
    if a > 0 {
      BitOrZero(a / 2);
    }
  }

  /** The low p bits and the rest can be combined separately. */
  lemma {:induction false} BitOrSplit(a: nat, b: nat, r: nat, s: nat, p: nat)
    requires r < Pow2(p) && s < Pow2(p)
    ensures BitOr(Shl(a, p) + r, Shl(b, p) + s) == Shl(BitOr(a, b), p) + BitOr(r, s)
  {
    if p > 0 {
      BitOrSplit(a, b, r / 2, s / 2, p - 1);
    }
  }

  /** A number is its high part and its low p bits. */
  lemma {:induction false} SplitBack(a: nat, r: nat, p: nat)
    requires r < Pow2(p)
    ensures Shr(Shl(a, p) + r, p) == a && Low(Shl(a, p) + r, p) == r
  {
    if p > 0 {
      assert (Shl(a, p) + r) / 2 == Shl(a, p - 1) + r / 2;
      SplitBack(a, r / 2, p - 1);
    }
  }

  lemma {:induction false} LowBound(a: nat, p: nat)
    ensures Low(a, p) < Pow2(p)
  {
    if p > 0 {
      LowBound(a / 2, p - 1);
    }
  }

  /** Masking with p ones keeps the low p bits. */
  lemma {:induction false} BitAndMask(a: nat, p: nat)
    ensures Pow2(p) >= 1 && BitAnd(a, Pow2(p) - 1) == Low(a, p)
    decreases p
  {
    if p == 0 {
      BitAndZero(a);
    } else {
      BitAndMask(a / 2, p - 1);
    }
  }

  lemma {:induction false} BitAndZero(a: nat)
    ensures BitAnd(a, 0) == 0
  {
    if a > 0 {
      BitAndZero(a / 2);
    }
  }

  /** A number already below 2^p is its own low p bits. */
  lemma {:induction false} LowOfSmall(a: nat, p: nat)
    requires a < Pow2(p)
    ensures Low(a, p) == a
  {
    if p > 0 {
      LowOfSmall(a / 2, p - 1);
    }
  }

  lemma {:induction false} ShlShl(v: nat, m: nat, n: nat)
    ensures Shl(v, m + n) == Shl(Shl(v, m), n)
  {
    if n > 0 {
      ShlShl(v, m, n - 1);
    }
  }

  lemma {:induction false} ShrShr(v: nat, m: nat, n: nat)
    ensures Shr(v, m + n) == Shr(Shr(v, m), n)
  {
    if m > 0 {
      ShrShr(v / 2, m - 1, n);
    }
  }

  lemma {:induction false} ShlBound(a: nat, r: nat, n: nat, p: nat)
    requires a < Pow2(n) && r < Pow2(p)
    ensures Shl(a, p) + r < Pow2(n + p)
  {
    if p > 0 {
      ShlBound(a, r / 2, n, p - 1);
    }
  }

  // ---- Digit strings ----

  /** Bits taken by n digits of p bits. */
  function Span(n: nat, p: nat): nat {
    if n == 0 then 0 else Span(n - 1, p) + p
  }

  lemma {:induction false} SpanIsProduct(n: nat, p: nat)
    ensures Span(n, p) == n * p
  {
    if n > 0 {
      SpanIsProduct(n - 1, p);
      assert n * p == (n - 1) * p + p;
    }
  }

  predicate AllBelow(ds: seq<nat>, p: nat) {
    forall i :: 0 <= i < |ds| ==> ds[i] < Pow2(p)
  }

  /** The number written by p-bit digits, most significant first. */
  function Number(ds: seq<nat>, p: nat): nat {
    if ds == [] then 0 else Shl(Number(ds[..|ds| - 1], p), p) + ds[|ds| - 1]
  }

  /** Digit i, counted from the most significant of m digits. */
  function DigitAt(n: nat, p: nat, m: nat, i: nat): nat
    requires i < m
  {
    Low(Shr(n, Span(m - 1 - i, p)), p)
  }

  lemma {:induction false} NumberBound(ds: seq<nat>, p: nat)
    requires AllBelow(ds, p)
    ensures Number(ds, p) < Pow2(Span(|ds|, p))
  {
    if ds != [] {
      NumberBound(ds[..|ds| - 1], p);
      ShlBound(Number(ds[..|ds| - 1], p), ds[|ds| - 1], Span(|ds| - 1, p), p);
    }
  }

  /** Or-ing a shifted digit into a zero position writes that digit and no other. */
  lemma {:induction false} OrWritesDigit(ds: seq<nat>, p: nat, i: nat, v: nat)
    requires AllBelow(ds, p) && i < |ds| && ds[i] == 0 && v < Pow2(p)
    ensures BitOr(Number(ds, p), Shl(v, Span(|ds| - 1 - i, p))) == Number(ds[i := v], p)
  {
    var m := |ds| - 1;
    if i == m {
      OrWritesLast(ds, p, v);
    } else {
      OrWritesDigit(ds[..m], p, i, v);
      OrWritesEarlier(ds, p, i, v, Span(m - 1 - i, p));
    }
  }

  lemma {:induction false} ShlZero(p: nat)
    ensures Shl(0, p) == 0
  {
    if p > 0 {
      ShlZero(p - 1);
    }
  }

  lemma {:induction false} OrWritesLast(ds: seq<nat>, p: nat, v: nat)
    requires ds != [] && ds[|ds| - 1] == 0 && v < Pow2(p)
    ensures BitOr(Number(ds, p), Shl(v, 0)) == Number(ds[|ds| - 1 := v], p)
  {
    var hi := Number(ds[..|ds| - 1], p);
    BitOrSplit(hi, 0, 0, v, p);
    BitOrZero(hi);
    BitOrZero(v);
    ShlZero(p);
    assert ds[|ds| - 1 := v][..|ds| - 1] == ds[..|ds| - 1];
  }

  lemma {:induction false} OrWritesEarlier(ds: seq<nat>, p: nat, i: nat, v: nat, low: nat)
    requires AllBelow(ds, p) && i < |ds| - 1
    requires BitOr(Number(ds[..|ds| - 1], p), Shl(v, low)) == Number(ds[..|ds| - 1][i := v], p)
    ensures BitOr(Number(ds, p), Shl(v, low + p)) == Number(ds[i := v], p)
  {
    var m := |ds| - 1;
    ShlShl(v, low, p);
    assert 0 < Pow2(p);
    BitOrSplit(Number(ds[..m], p), Shl(v, low), ds[m], 0, p);
    BitOrZero(ds[m]);
    assert ds[i := v][..m] == ds[..m][i := v];
  }

  /** Reading a digit back. */
  lemma {:induction false} DigitOfNumber(ds: seq<nat>, p: nat, i: nat)
    requires AllBelow(ds, p) && i < |ds|
    ensures DigitAt(Number(ds, p), p, |ds|, i) == ds[i]
  {
    var m := |ds| - 1;
    var hi := Number(ds[..m], p);
    SplitBack(hi, ds[m], p);
    if i < m {
      DigitOfNumber(ds[..m], p, i);
      ShrShr(Number(ds, p), p, Span(m - 1 - i, p));
    }
  }

  lemma {:induction false} NumberOfZeros(ds: seq<nat>, p: nat)
    requires forall i :: 0 <= i < |ds| ==> ds[i] == 0
    ensures Number(ds, p) == 0
  {
    if ds != [] {
      NumberOfZeros(ds[..|ds| - 1], p);
      ShlZero(p);
    }
  }
}
