/** Rows of palette indices as bytes: 8 / pixelSize indices to a byte, the first in the most
    significant bits, rows padded to whole 16-bit words. */
module PixelRows {
  import opened Wrappers
  import opened Arithmetic
  import opened Bits

  predicate ValidPixelSize(ps: int) {
    ps == 1 || ps == 2 || ps == 4 || ps == 8
  }

  function PerByte(ps: int): (n: nat)
    requires ValidPixelSize(ps)
    ensures n == 1 || n == 2 || n == 4 || n == 8
  {
    8 / ps
  }

  /** `pixmap_row_bytes`, cast to u16. */
  function RowBytes(w: nat, ps: int): nat
    requires ValidPixelSize(ps)
  {
    (w * ps + 15) / 16 * 2 % 0x1_0000
  }

  /** A row is the fewest whole words that hold its pixels. */
  lemma {:induction false} RowBytesHoldRow(w: nat, ps: int)
    requires ValidPixelSize(ps) && w <= 32767
    ensures w <= RowBytes(w, ps) * PerByte(ps)
    ensures RowBytes(w, ps) <= 0x8000
    ensures RowBytes(w, ps) < 0x8000 <==> !(ps == 8 && w == 32767)
    ensures RowBytes(w, ps) % 2 == 0 && w * ps <= 8 * RowBytes(w, ps) < w * ps + 16
  {
    if ps == 1 {
      assert w * ps == w;
    } else if ps == 2 {
      assert w * ps == w + w;
    } else if ps == 4 {
      assert w * ps == w + w + w + w;
    } else {
      assert w * ps == 8 * w;
    }
  }

  function Mask(ps: int): nat
    requires ValidPixelSize(ps)
  {
    if ps == 8 then 0xFF else Shl(1, ps) - 1
  }

  lemma {:induction false} MaskKeepsLow(a: nat, ps: int)
    requires ValidPixelSize(ps)
    ensures BitAnd(a, Mask(ps)) == Low(a, ps) < Pow2(ps) <= 256
  {
    assert Pow2(8) == 256 by {
      ShlShl(1, 4, 4);
      assert Shl(1, 4) == 16 && Shl(16, 4) == 256;
    }
    assert Pow2(4) == 16 && Pow2(2) == 4 && Pow2(1) == 2;
    BitAndMask(a, ps);
    LowBound(a, ps);
  }

  /** Digit j of byte b once the first n pixels of the row are in place. */
  function PixelDigit(row: seq<byte>, ps: int, b: nat, j: nat, n: nat): (d: nat)
    requires ValidPixelSize(ps) && n <= |row|
    ensures d < Pow2(ps)
  {
    var x := b * PerByte(ps) + j;
    LowBound(0, ps);
    if x < n then LowBound(row[x], ps); Low(row[x], ps) else 0
  }

  function ByteDigits(row: seq<byte>, ps: int, b: nat, n: nat): (ds: seq<nat>)
    requires ValidPixelSize(ps) && n <= |row|
    ensures |ds| == PerByte(ps) && AllBelow(ds, ps)
  {
    var ds := seq<nat>(PerByte(ps), j requires 0 <= j < PerByte(ps) => PixelDigit(row, ps, b, j, n));
    assert AllBelow(ds, ps) by {
      assert forall j :: 0 <= j < |ds| ==> ds[j] == PixelDigit(row, ps, b, j, n);
    }
    ds
  }

  function PackedByte(row: seq<byte>, ps: int, b: nat, n: nat): byte
    requires ValidPixelSize(ps) && n <= |row|
  {
    NumberBound(ByteDigits(row, ps, b, n), ps);
    WholeByte(ps);
    Number(ByteDigits(row, ps, b, n), ps)
  }

  lemma {:induction false} WholeByte(ps: int)
    requires ValidPixelSize(ps)
    ensures Pow2(Span(PerByte(ps), ps)) == 256
  {
    SpanIsProduct(PerByte(ps), ps);
    assert PerByte(ps) * ps == 8;
    MaskKeepsLow(0, 8);
    ShlShl(1, 4, 4);
    assert Shl(1, 4) == 16 && Shl(16, 4) == 256;
  }

  /** The padded bytes of a whole row. */
  function PackedRow(row: seq<byte>, ps: int, rb: nat): (bytes: seq<byte>)
    requires ValidPixelSize(ps)
    ensures |bytes| == rb
  {
    seq(rb, b requires 0 <= b < rb => PackedByte(row, ps, b, |row|))
  }

  // ---- Reading a row back ----

  function MaskedPixel(p: nat, ps: int): (m: byte)
    requires ValidPixelSize(ps)
    ensures m == Low(p, ps)
  {
    MaskKeepsLow(p, ps);
    Low(p, ps)
  }

  function PixelAt(bytes: seq<byte>, ps: int, x: nat): byte
    requires ValidPixelSize(ps) && x < |bytes| * PerByte(ps)
  {
    PixelByte(ps, |bytes|, x, |bytes| * PerByte(ps));
    MaskedPixel(Shr(bytes[x / PerByte(ps)], Span(PerByte(ps) - 1 - x % PerByte(ps), ps)), ps)
  }

  function UnpackedRow(bytes: seq<byte>, ps: int, w: nat): (row: seq<byte>)
    requires ValidPixelSize(ps) && w <= |bytes| * PerByte(ps)
    ensures |row| == w
  {
    seq(w, x requires 0 <= x < w => PixelAt(bytes, ps, x))
  }

  /** The pixels with only their low pixelSize bits, as the encoder masks them. */
  function MaskedRow(row: seq<byte>, ps: int): (m: seq<byte>)
    requires ValidPixelSize(ps)
    ensures |m| == |row|
  {
    seq(|row|, x requires 0 <= x < |row| => MaskedPixel(row[x], ps))
  }

  lemma {:induction false} PixelByte(ps: int, rb: nat, x: nat, w: nat)
    requires ValidPixelSize(ps) && x < w <= rb * PerByte(ps)
    ensures 0 <= x / PerByte(ps) < rb && 0 <= x % PerByte(ps) < PerByte(ps)
  {
    PixelSlot(ps, x, 0, 0);
  }

  /** Pixel x is digit x % n of byte x / n. */
  lemma {:induction false} PixelSlot(ps: int, x: nat, b: nat, j: nat)
    requires ValidPixelSize(ps) && j < PerByte(ps)
    ensures var n := PerByte(ps);
      && x == x / n * n + x % n && 0 <= x % n < n
      && (b * n + j == x <==> b == x / n && j == x % n)
  {
    if ps == 1 {
    } else if ps == 2 {
    } else if ps == 4 {
    } else {
    }
  }

  /** Packing then unpacking keeps the low pixelSize bits of every index, and all of an index
      that fits. */
  lemma {:induction false} RowRoundTrip(row: seq<byte>, ps: int, rb: nat)
    requires ValidPixelSize(ps) && |row| <= rb * PerByte(ps)
    ensures UnpackedRow(PackedRow(row, ps, rb), ps, |row|) == MaskedRow(row, ps)
    ensures (forall x :: 0 <= x < |row| ==> row[x] < Pow2(ps)) ==> MaskedRow(row, ps) == row
  {
    forall x | 0 <= x < |row|
      ensures UnpackedRow(PackedRow(row, ps, rb), ps, |row|)[x] == MaskedRow(row, ps)[x]
      ensures row[x] < Pow2(ps) ==> MaskedRow(row, ps)[x] == row[x]
    {
      PixelByte(ps, rb, x, |row|);
      PixelRoundTrip(row, ps, x);
      if row[x] < Pow2(ps) {
        LowOfSmall(row[x], ps);
      }
    }
  }

  lemma {:induction false} PixelRoundTrip(row: seq<byte>, ps: int, x: nat)
    requires ValidPixelSize(ps) && x < |row|
    ensures var n := PerByte(ps);
      0 <= x / n && 0 <= x % n < n && DigitAt(PackedByte(row, ps, x / n, |row|), ps, n, x % n) == Low(row[x], ps)
  {
    var n := PerByte(ps);
    PixelSlot(ps, x, 0, 0);
    DigitOfNumber(ByteDigits(row, ps, x / n, |row|), ps, x % n);
  }

  // ---- Packing in place ----

  /** The row buffer after the first n pixels. */
  ghost predicate PackedUpTo(row: seq<byte>, ps: int, buf: seq<int>, n: nat)
    requires ValidPixelSize(ps)
  {
    n <= |row| && forall b :: 0 <= b < |buf| ==> buf[b] == PackedByte(row, ps, b, n)
  }

  lemma {:induction false} NothingPacked(row: seq<byte>, ps: int, buf: seq<int>)
    requires ValidPixelSize(ps) && forall b :: 0 <= b < |buf| ==> buf[b] == 0
    ensures PackedUpTo(row, ps, buf, 0)
  {
    forall b | 0 <= b < |buf|
      ensures buf[b] == PackedByte(row, ps, b, 0)
    {
      NumberOfZeros(ByteDigits(row, ps, b, 0), ps);
    }
  }

  /** Or-ing pixel x into its byte turns the buffer for x pixels into the one for x + 1. */
  lemma {:induction false} PackedStep(row: seq<byte>, ps: int, buf: seq<int>, x: nat)
    requires ValidPixelSize(ps) && x < |row| <= |buf| * PerByte(ps) && PackedUpTo(row, ps, buf, x)
    ensures var n := PerByte(ps);
      var b := x / n;
      && 0 <= b < |buf| && 0 <= buf[b]
      && PackedUpTo(row, ps, buf[b := BitOr(buf[b], Shl(BitAnd(row[x], Mask(ps)), Span(n - 1 - x % n, ps)))], x + 1)
  {
    var n := PerByte(ps);
    PixelByte(ps, |buf|, x, |row|);
    forall b | 0 <= b < |buf|
      ensures PackedByte(row, ps, b, x + 1) ==
        if b == x / n then BitOr(buf[b], Shl(BitAnd(row[x], Mask(ps)), Span(n - 1 - x % n, ps))) else buf[b]
    {
      PackedByteStep(row, ps, b, x);
    }
  }

  lemma {:induction false} PackedByteStep(row: seq<byte>, ps: int, b: nat, x: nat)
    requires ValidPixelSize(ps) && x < |row|
    ensures var n := PerByte(ps);
      && 0 <= x % n < n
      && PackedByte(row, ps, b, x + 1) ==
           if b == x / n then BitOr(PackedByte(row, ps, b, x), Shl(BitAnd(row[x], Mask(ps)), Span(n - 1 - x % n, ps)))
           else PackedByte(row, ps, b, x)
  {
    var n := PerByte(ps);
    MaskKeepsLow(row[x], ps);
    ByteDigitsStep(row, ps, b, x);
    if b == x / n {
      OrWritesDigit(ByteDigits(row, ps, b, x), ps, x % n, Low(row[x], ps));
    }
  }

  lemma {:induction false} DigitStep(row: seq<byte>, ps: int, b: nat, x: nat, j: int)
    requires ValidPixelSize(ps) && x < |row| && 0 <= j < PerByte(ps)
    ensures var n, before := PerByte(ps), PixelDigit(row, ps, b, j, x);
      && (b == x / n && j == x % n ==> before == 0)
      && PixelDigit(row, ps, b, j, x + 1) == if b == x / n && j == x % n then Low(row[x], ps) else before
  {
    PixelSlot(ps, x, b, j);
  }

  lemma {:induction false} ByteDigitsStep(row: seq<byte>, ps: int, b: nat, x: nat)
    requires ValidPixelSize(ps) && x < |row|
    ensures var n := PerByte(ps);
      var before := ByteDigits(row, ps, b, x);
      && 0 <= x % n < n
      && (b == x / n ==> before[x % n] == 0)
      && ByteDigits(row, ps, b, x + 1) == if b == x / n then before[x % n := Low(row[x], ps)] else before
  {
    var n := PerByte(ps);
    PixelSlot(ps, x, b, 0);
    var before, after := ByteDigits(row, ps, b, x), ByteDigits(row, ps, b, x + 1);
    hide PixelDigit;
    forall j | 0 <= j < n
      ensures after[j] == if b == x / n && j == x % n then Low(row[x], ps) else before[j]
      ensures b == x / n && j == x % n ==> before[j] == 0
    {
      DigitStep(row, ps, b, x, j);
    }
  }

  /** Refill the row buffer with one row. */
  method PackRow(row: seq<byte>, ps: int, rowBuf: array<int>)
    requires ValidPixelSize(ps) && |row| <= rowBuf.Length * PerByte(ps)
    modifies rowBuf
    ensures rowBuf[..] == PackedRow(row, ps, rowBuf.Length)
  {
    var pixelsPerByte := PerByte(ps);
    var mask := Mask(ps);
    for b := 0 to rowBuf.Length
      invariant forall i :: 0 <= i < b ==> rowBuf[i] == 0
    {
      rowBuf[b] := 0;
    }
    NothingPacked(row, ps, rowBuf[..]);
    for x := 0 to |row|
      invariant PackedUpTo(row, ps, rowBuf[..], x)
    {
      PackPixel(row, ps, rowBuf, x, pixelsPerByte, mask);
    }
  }

  method PackPixel(row: seq<byte>, ps: int, rowBuf: array<int>, x: nat, pixelsPerByte: nat, mask: nat)
    requires ValidPixelSize(ps) && x < |row| <= rowBuf.Length * PerByte(ps)
    requires pixelsPerByte == PerByte(ps) && mask == Mask(ps)
    requires PackedUpTo(row, ps, rowBuf[..], x)
    modifies rowBuf
    ensures PackedUpTo(row, ps, rowBuf[..], x + 1)
  {
    PackedStep(row, ps, rowBuf[..], x);
    PixelSlot(ps, x, 0, 0);
    SpanIsProduct(pixelsPerByte - 1 - x % pixelsPerByte, ps);
    var idx := BitAnd(row[x], mask);
    var bytePos := x / pixelsPerByte;
    var bitShift := (pixelsPerByte - 1 - x % pixelsPerByte) * ps;
    rowBuf[bytePos] := BitOr(rowBuf[bytePos], Shl(idx, bitShift));
  }
}
