/** Atkinson dithering of a gray image to packed bits: six neighbours each get an eighth of the
    error, the rest is dropped, and nothing is clamped. */
module Atkinson {
  import opened Arithmetic
  import opened Bits
  import opened Grid
  import opened Diffusion
  import opened ErrorLedger

  const TAPS: seq<Tap> := [Tap(1, 0), Tap(2, 0), Tap(-1, 1), Tap(0, 1), Tap(1, 1), Tap(0, 2)]

  lemma {:induction false} TapsCausal()
    ensures Causal(TAPS)
  {
  }

  // ---- One pixel ----

  predicate Black(v: int) {
    v < 128
  }

  function Shown(v: int): int {
    if Black(v) then 0 else 255
  }

  function Eighth(v: int): int {
    TruncDiv(v - Shown(v), 8)
  }

  /** Every neighbour receives the same eighth. */
  const DIFFUSER: Diffuser<int> := Diffuser(TAPS, SatAdd, (k: int, v: int) => Eighth(v))

  const CAPS: seq<nat> := [15, 15, 15, 15, 15, 15]

  lemma {:induction false} AtkinsonTame()
    ensures Tame(DIFFUSER, CAPS) && Total(CAPS, 0) == 90
  {
    assert Total(CAPS, 0) == 90 by {
      assert Total(CAPS, 6) == 0 && Total(CAPS, 5) == 15 && Total(CAPS, 4) == 30;
      assert Total(CAPS, 3) == 45 && Total(CAPS, 2) == 60 && Total(CAPS, 1) == 75;
    }
  }

  /** An eighth goes to each of the next two pixels in scan direction, to the three below, and to the
      one two below. */
  lemma {:induction false} EighthsGo(x: int, y: int)
    ensures var ahead := if LeftToRight(y) then 1 else -1;
      && |TAPS| == 6
      && Target(DIFFUSER, 0, x, y) == (x + ahead, y) && Target(DIFFUSER, 1, x, y) == (x + 2 * ahead, y)
      && Target(DIFFUSER, 2, x, y) == (x - ahead, y + 1) && Target(DIFFUSER, 3, x, y) == (x, y + 1)
      && Target(DIFFUSER, 4, x, y) == (x + ahead, y + 1) && Target(DIFFUSER, 5, x, y) == (x, y + 2)
  {
  }

  // ---- Main results ----

  /** Although nothing is clamped, over the whole run every cell stays in [-90, 345] and every
      share in [-15, 15]. */
  lemma {:induction false} BufferBounded(img: Image<int>, x: int, y: int, ty: int, ti: int)
    requires img.Valid() && Bytes(img.px) && InBounds(img.w, img.h, x, y)
    ensures -90 <= Held(DIFFUSER, img, x, y, ty, ti, 0) - img.At(x, y) <= 90
    ensures -90 <= Held(DIFFUSER, img, x, y, ty, ti, 0) <= 345
    ensures -15 <= Eighth(Held(DIFFUSER, img, x, y, ty, ti, 0)) <= 15
  {
    AtkinsonTame();
    HeldBounded(DIFFUSER, CAPS, img, x, y, ty, ti, 0);
  }

  /** The part of the error at (x, y) that reaches no pixel of the image. */
  ghost function Leak(img: Image<int>, x: int, y: int): int
    requires img.Valid() && InBounds(img.w, img.h, x, y)
  {
    Settled(DIFFUSER, img, x, y) - Shown(Value(DIFFUSER, img, x, y))
  }

  /** At every moment: shown so far, plus leaked there, plus the buffer still to come, is the input. */
  lemma {:induction false} Conservation(img: Image<int>, ty: nat, ti: nat)
    requires img.Valid() && Bytes(img.px)
    requires ty <= img.h && ti <= img.w && (ty == img.h ==> ti == 0)
    ensures |Ledger(DIFFUSER, img, ty, ti)| == |img.px|
    ensures forall x, y :: InBounds(img.w, img.h, x, y) ==>
      0 <= Cell(img.w, x, y) < |img.px| &&
      Ledger(DIFFUSER, img, ty, ti)[Cell(img.w, x, y)] ==
        if Visited(img.w, x, y, ty, ti)
        then Shown(Value(DIFFUSER, img, x, y)) + Leak(img, x, y)
        else Held(DIFFUSER, img, x, y, ty, ti, 0)
    ensures Sum(Ledger(DIFFUSER, img, ty, ti)) == Sum(img.px)
  {
    AtkinsonTame();
    TapsCausal();
    LedgerConserved(DIFFUSER, CAPS, img, ty, ti);
    forall x, y | InBounds(img.w, img.h, x, y)
      ensures 0 <= Cell(img.w, x, y) < |img.px|
      ensures Ledger(DIFFUSER, img, ty, ti)[Cell(img.w, x, y)] == Entry(DIFFUSER, img, x, y, ty, ti)
    {
      LedgerAt(DIFFUSER, img, x, y, ty, ti);
    }
  }

  /** Away from the borders a pixel drops at most 37: a quarter of its error, and rounding. */
  lemma {:induction false} InteriorLeak(img: Image<int>, x: int, y: int)
    requires img.Valid() && Bytes(img.px) && 1 < x < img.w - 2 && 0 <= y < img.h - 2
    ensures -37 <= Leak(img, x, y) <= 37
  {
    var v := Value(DIFFUSER, img, x, y);
    PushedInterior(img.w, img.h, x, y, v);
    BufferBounded(img, x, y, y, Serpentine(img.w, y, x));
  }

  lemma {:induction false} PushedInterior(w: int, h: int, x: int, y: int, v: int)
    requires 1 < x < w - 2 && 0 <= y < h - 2
    ensures Pushed(DIFFUSER, w, h, x, y, v, 0) == 6 * Eighth(v)
  {
    assert Pushed(DIFFUSER, w, h, x, y, v, 6) == 0;
    assert Pushed(DIFFUSER, w, h, x, y, v, 5) == Eighth(v);
    assert Pushed(DIFFUSER, w, h, x, y, v, 4) == 2 * Eighth(v);
    assert Pushed(DIFFUSER, w, h, x, y, v, 3) == 3 * Eighth(v);
    assert Pushed(DIFFUSER, w, h, x, y, v, 2) == 4 * Eighth(v);
    assert Pushed(DIFFUSER, w, h, x, y, v, 1) == 5 * Eighth(v);
  }

  // ---- Packed output ----

  /** Bit x of row y: set once the pixel is visited and not black; never set beyond the width. */
  ghost function WhiteBit(img: Image<int>, x: int, y: int, ty: int, ti: int): (bit: nat)
    requires img.Valid() && 0 <= x && 0 <= y < img.h
    ensures bit <= 1
  {
    if x < img.w && Visited(img.w, x, y, ty, ti) && !Black(Value(DIFFUSER, img, x, y)) then 1 else 0
  }

  /** The eight bits of byte j of row y. */
  ghost function ByteBits(img: Image<int>, j: int, y: int, ty: int, ti: int): (bits: seq<nat>)
    requires img.Valid() && 0 <= j && 0 <= y < img.h
    ensures |bits| == 8 && AllBelow(bits, 1)
    ensures forall b :: 0 <= b < 8 ==> bits[b] == WhiteBit(img, 8 * j + b, y, ty, ti)
  {
    var bits := seq<nat>(8, b requires 0 <= b < 8 => WhiteBit(img, 8 * j + b, y, ty, ti));
    assert AllBelow(bits, 1) by {
      assert Pow2(1) == 2;
      assert forall b :: 0 <= b < 8 ==> bits[b] == WhiteBit(img, 8 * j + b, y, ty, ti);
    }
    bits
  }

  /** Byte c of the packed output at time (ty, ti). */
  ghost function PackedByte(img: Image<int>, c: int, ty: int, ti: int): nat
    requires img.Valid() && 0 <= c < Area(BitStride(img.w), img.h)
  {
    GridOfCell(BitStride(img.w), img.h, c);
    Number(ByteBits(img, Col(BitStride(img.w), c), Row(BitStride(img.w), c), ty, ti), 1)
  }

  /** The packed output at time (ty, ti): most significant bit first, rows padded with zeros. */
  ghost predicate Packed(img: Image<int>, out: seq<int>, ty: int, ti: int)
    requires img.Valid()
  {
    var stride := BitStride(img.w);
    && |out| == Area(stride, img.h)
    && forall c :: 0 <= c < |out| ==> out[c] == PackedByte(img, c, ty, ti)
  }

  lemma {:induction false} ShiftedTopBit(b: nat)
    requires b < 8
    ensures Shr(0x80, b) == Shl(1, Span(7 - b, 1))
  {
    SpanIsProduct(7 - b, 1);
    ShlShl(1, 7 - b, b);
    assert Shl(1, 7) == 0x80 by {
      ShlShl(1, 3, 4);
      assert Shl(1, 3) == 8 && Shl(8, 4) == 128;
    }
    if b > 0 {
      SplitBack(Shl(1, 7 - b), 0, b);
    }
  }

  lemma {:induction false} PackedStep(img: Image<int>, out: seq<int>, x: int, y: int)
    requires img.Valid() && InBounds(img.w, img.h, x, y)
    requires Packed(img, out, y, Serpentine(img.w, y, x))
    ensures var stride := BitStride(img.w);
      var c := Cell(stride, x / 8, y);
      && 0 <= c < |out| && 0 <= out[c]
      && Packed(img, out[c := ByteAfter(img, out[c], x, y)], y, Serpentine(img.w, y, x) + 1)
  {
    var i := Serpentine(img.w, y, x);
    var stride := BitStride(img.w);
    var c := Cell(stride, x / 8, y);
    CellInGrid(stride, img.h, x / 8, y);
    var after := ByteAfter(img, out[c], x, y);
    assert out[c] == PackedByte(img, c, y, i);
    var out1 := out[c := after];
    forall m | 0 <= m < |out1|
      ensures out1[m] == PackedByte(img, m, y, i + 1)
    {
      GridOfCell(stride, img.h, m);
      ByteBitsStep(img, x, y, Col(stride, m), Row(stride, m));
      if m == c {
        ByteStep(img, x, y);
      }
    }
  }

  /** What the byte holding (x, y) becomes when that pixel is visited. */
  ghost function ByteAfter(img: Image<int>, byte: nat, x: int, y: int): nat
    requires img.Valid() && InBounds(img.w, img.h, x, y)
  {
    if Black(Value(DIFFUSER, img, x, y)) then byte else BitOr(byte, Shr(0x80, x % 8))
  }

  lemma {:induction false} ByteStep(img: Image<int>, x: int, y: int)
    requires img.Valid() && InBounds(img.w, img.h, x, y)
    ensures var i := Serpentine(img.w, y, x);
      ByteAfter(img, Number(ByteBits(img, x / 8, y, y, i), 1), x, y) == Number(ByteBits(img, x / 8, y, y, i + 1), 1)
  {
    var before := ByteBits(img, x / 8, y, y, Serpentine(img.w, y, x));
    ByteBitsStep(img, x, y, x / 8, y);
    ShiftedTopBit(x % 8);
    assert Pow2(1) == 2;
    OrWritesDigit(before, 1, x % 8, 1);
  }

  lemma {:induction false} ByteBitsStep(img: Image<int>, x: int, y: int, j: int, q: int)
    requires img.Valid() && InBounds(img.w, img.h, x, y) && 0 <= j && 0 <= q < img.h
    ensures var i := Serpentine(img.w, y, x);
      var before := ByteBits(img, j, q, y, i);
      && ((j, q) == (x / 8, y) ==> before[x % 8] == 0)
      && ByteBits(img, j, q, y, i + 1) ==
           if (j, q) == (x / 8, y) && !Black(Value(DIFFUSER, img, x, y)) then before[x % 8 := 1] else before
  {
    var i := Serpentine(img.w, y, x);
    var before, after := ByteBits(img, j, q, y, i), ByteBits(img, j, q, y, i + 1);
    forall b | 0 <= b < 8
      ensures after[b] ==
        if (j, q, b) == (x / 8, y, x % 8) && !Black(Value(DIFFUSER, img, x, y)) then 1 else before[b]
      ensures (j, q, b) == (x / 8, y, x % 8) ==> before[b] == 0
    {
      WhiteBitStep(img, x, y, 8 * j + b, q);
      assert after[b] == WhiteBit(img, 8 * j + b, q, y, i + 1);
      assert before[b] == WhiteBit(img, 8 * j + b, q, y, i);
      assert 8 * j + b == x <==> j == x / 8 && b == x % 8;
    }
  }

  lemma {:induction false} WhiteBitStep(img: Image<int>, x: int, y: int, p: int, q: int)
    requires img.Valid() && InBounds(img.w, img.h, x, y) && 0 <= p && 0 <= q < img.h
    ensures var i := Serpentine(img.w, y, x);
      && WhiteBit(img, x, y, y, i) == 0
      && WhiteBit(img, p, q, y, i + 1) ==
           if (p, q) == (x, y) && !Black(Value(DIFFUSER, img, x, y)) then 1 else WhiteBit(img, p, q, y, i)
  {
  }

  lemma {:induction false} PackedRowEnd(img: Image<int>, out: seq<int>, y: int)
    requires img.Valid() && Packed(img, out, y, img.w)
    ensures Packed(img, out, y + 1, 0)
  {
    var stride := BitStride(img.w);
    forall c | 0 <= c < |out|
      ensures PackedByte(img, c, y, img.w) == PackedByte(img, c, y + 1, 0)
    {
      GridOfCell(stride, img.h, c);
      var j, q := Col(stride, c), Row(stride, c);
      assert ByteBits(img, j, q, y, img.w) == ByteBits(img, j, q, y + 1, 0);
    }
  }

  lemma {:induction false} PackedStart(img: Image<int>, out: seq<int>)
    requires img.Valid() && |out| == Area(BitStride(img.w), img.h)
    requires forall c :: 0 <= c < |out| ==> out[c] == 0
    ensures Packed(img, out, 0, 0)
  {
    var stride := BitStride(img.w);
    forall c | 0 <= c < |out|
      ensures out[c] == PackedByte(img, c, 0, 0)
    {
      GridOfCell(stride, img.h, c);
      NumberOfZeros(ByteBits(img, Col(stride, c), Row(stride, c), 0, 0), 1);
    }
  }

  /** The finished bit of every pixel, read from its byte; bits beyond the width are zero. */
  lemma {:induction false} PackedMeaning(img: Image<int>, out: seq<int>, j: int, y: int, b: nat)
    requires img.Valid() && Packed(img, out, img.h, 0)
    requires InBounds(BitStride(img.w), img.h, j, y) && b < 8
    ensures var c := Cell(BitStride(img.w), j, y);
      && 0 <= c < |out| && 0 <= out[c] < 256
      && DigitAt(out[c], 1, 8, b) ==
           if 8 * j + b < img.w && !Black(Value(DIFFUSER, img, 8 * j + b, y)) then 1 else 0
  {
    var bits := ByteBits(img, j, y, img.h, 0);
    CellInGrid(BitStride(img.w), img.h, j, y);
    DigitOfNumber(bits, 1, b);
    NumberBound(bits, 1);
    SpanIsProduct(8, 1);
    assert Pow2(8) == 256 by {
      ShlShl(1, 4, 4);
      assert Shl(1, 4) == 16 && Shl(16, 4) == 256;
    }
  }

  // ---- The in-place algorithm ----

  method ScatterTo(buf: array<int>, w: int, h: int, nx: int, ny: int, e: int)
    requires 0 <= w && 0 <= h && buf.Length == Area(w, h) && 0 <= ny
    modifies buf
    ensures buf[..] == Put(DIFFUSER, w, h, old(buf[..]), nx, ny, e)
  {
    if nx < 0 || nx >= w || ny >= h {
      return;
    }
    CellInGrid(w, h, nx, ny);
    var ni := Cell(w, nx, ny);
    buf[ni] := SatAdd(buf[ni], e);
  }

  /** Six scatters in code order are one. */
  lemma {:induction false} ScatterUnrolled(w: int, h: int, x: int, y: int, v: int, m: int, e: int, b0: seq<int>, b1: seq<int>,
                        b2: seq<int>, b3: seq<int>, b4: seq<int>, b5: seq<int>, b6: seq<int>)
    requires 0 <= w && 0 <= h && |b0| == Area(w, h)
    requires m == (if LeftToRight(y) then 1 else -1) && e == Eighth(v)
    requires b1 == Put(DIFFUSER, w, h, b0, x + m, y, e)
    requires b2 == Put(DIFFUSER, w, h, b1, x + 2 * m, y, e)
    requires b3 == Put(DIFFUSER, w, h, b2, x - m, y + 1, e)
    requires b4 == Put(DIFFUSER, w, h, b3, x, y + 1, e)
    requires b5 == Put(DIFFUSER, w, h, b4, x + m, y + 1, e)
    requires b6 == Put(DIFFUSER, w, h, b5, x, y + 2, e)
    ensures Scatter(DIFFUSER, w, h, b0, x, y, v, 0) == b6
  {
    hide Put, Scatter, Eighth;
    var bs := [b0, b1, b2, b3, b4, b5, b6];
    assert PutOneByOne(DIFFUSER, w, h, bs, x, y, v) by {
      forall k | 0 <= k < 6
        ensures var t := Target(DIFFUSER, k, x, y);
          bs[k + 1] == Put(DIFFUSER, w, h, bs[k], t.0, t.1, DIFFUSER.share(k, v))
      {
        assert k == 0 || k == 1 || k == 2 || k == 3 || k == 4 || k == 5;
      }
    }
    ScatterOneByOne(DIFFUSER, w, h, bs, x, y, v, 0);
  }

  method ScatterSix(w: int, h: int, x: int, y: int, ghost v: int, e: int, buf: array<int>)
    requires InBounds(w, h, x, y) && buf.Length == Area(w, h) && e == Eighth(v)
    modifies buf
    ensures buf[..] == Scatter(DIFFUSER, w, h, old(buf[..]), x, y, v, 0)
  {
    LeftToRightIsEven(y);
    var mirror := if y % 2 == 0 then 1 else -1;
    hide Put, Scatter;
    ghost var b0 := buf[..];
    ScatterTo(buf, w, h, x + mirror, y, e);
    ghost var b1 := buf[..];
    ScatterTo(buf, w, h, x + 2 * mirror, y, e);
    ghost var b2 := buf[..];
    ghost var b3, b4, b5 := ScatterBelow(w, h, x, y, mirror, e, buf);
    ScatterTo(buf, w, h, x, y + 2, e);
    ScatterUnrolled(w, h, x, y, v, mirror, e, b0, b1, b2, b3, b4, b5, buf[..]);
  }

  /** The three neighbours in the next row. */
  method ScatterBelow(w: int, h: int, x: int, y: int, mirror: int, e: int, buf: array<int>)
    returns (ghost b3: seq<int>, ghost b4: seq<int>, ghost b5: seq<int>)
    requires 0 <= w && 0 <= h && buf.Length == Area(w, h) && 0 <= y
    modifies buf
    ensures |old(buf[..])| == |b3| == |b4| == |b5| == Area(w, h) && b5 == buf[..]
    ensures b3 == Put(DIFFUSER, w, h, old(buf[..]), x - mirror, y + 1, e)
    ensures b4 == Put(DIFFUSER, w, h, b3, x, y + 1, e)
    ensures b5 == Put(DIFFUSER, w, h, b4, x + mirror, y + 1, e)
  {
    hide Put;
    ScatterTo(buf, w, h, x - mirror, y + 1, e);
    b3 := buf[..];
    ScatterTo(buf, w, h, x, y + 1, e);
    b4 := buf[..];
    ScatterTo(buf, w, h, x + mirror, y + 1, e);
    b5 := buf[..];
  }

  /** Set the bit of column x in byte c unless v is black. */
  function MarkBit(out: seq<int>, c: int, v: int, x: nat): seq<int>
    requires 0 <= c < |out| && 0 <= out[c]
  {
    if Black(v) then out else out[c := BitOr(out[c], Shr(0x80, x % 8))]
  }

  /** One visit: set the pixel's bit unless it is black, scatter an eighth to six neighbours. */
  method VisitBit(w: int, h: int, x: int, y: int, buf: array<int>, out: array<int>)
    requires InBounds(w, h, x, y) && buf != out
    requires buf.Length == Area(w, h) && 0 <= Cell(w, x, y) < Area(w, h) && -90 <= buf[Cell(w, x, y)] <= 345
    requires 0 <= Cell(BitStride(w), x / 8, y) < out.Length && out[Cell(BitStride(w), x / 8, y)] >= 0
    modifies buf, out
    ensures var v := old(buf[Cell(w, x, y)]);
      var c := Cell(BitStride(w), x / 8, y);
      && out[..] == MarkBit(old(out[..]), c, v, x)
      && buf[..] == Scatter(DIFFUSER, w, h, old(buf[..]), x, y, v, 0)
  {
    var v := buf[Cell(w, x, y)];
    var black := v < 128;
    if !black {
      var byteI := Cell(BitStride(w), x / 8, y);
      out[byteI] := BitOr(out[byteI], Shr(0x80, x % 8));
    }
    var outputV := if black then 0 else 255;
    var e := TruncDiv(I16(v - outputV), 8);
    ScatterSix(w, h, x, y, v, e, buf);
  }

  /** The effect of `VisitBit` on the buffer is the next moment of the gathered run ... */
  lemma {:induction false} VisitMeans(img: Image<int>, b: seq<int>, x: int, y: int, i: int)
    requires img.Valid() && Bytes(img.px) && InBounds(img.w, img.h, x, y) && i == Serpentine(img.w, y, x)
    requires b == Buffer(DIFFUSER, img, y, i)
    ensures 0 <= Cell(img.w, x, y) < |b|
    ensures b[Cell(img.w, x, y)] == Value(DIFFUSER, img, x, y) && -90 <= Value(DIFFUSER, img, x, y) <= 345
    ensures Scatter(DIFFUSER, img.w, img.h, b, x, y, Value(DIFFUSER, img, x, y), 0) == Buffer(DIFFUSER, img, y, i + 1)
  {
    TapsCausal();
    ScatterIsGather(DIFFUSER, img, x, y);
    BufferBounded(img, x, y, y, i);
  }

  /** ... and so is its effect on the packed bits. */
  lemma {:induction false} MarkMeans(img: Image<int>, out: seq<int>, x: int, y: int, i: int)
    requires img.Valid() && InBounds(img.w, img.h, x, y) && i == Serpentine(img.w, y, x)
    requires Packed(img, out, y, i)
    ensures var c := Cell(BitStride(img.w), x / 8, y);
      && 0 <= c < |out| && 0 <= out[c]
      && Packed(img, MarkBit(out, c, Value(DIFFUSER, img, x, y), x), y, i + 1)
  {
    PackedStep(img, out, x, y);
    var c := Cell(BitStride(img.w), x / 8, y);
    assert out[c := out[c]] == out;
  }

  method VisitInOrder(w: int, h: int, x: int, y: int, ghost i: int, ghost img: Image<int>,
                      buf: array<int>, out: array<int>)
    requires img.Valid() && img.w == w && img.h == h && Bytes(img.px) && InBounds(w, h, x, y) && buf != out
    requires i == Serpentine(w, y, x)
    requires buf[..] == Buffer(DIFFUSER, img, y, i) && Packed(img, out[..], y, i)
    modifies buf, out
    ensures buf[..] == Buffer(DIFFUSER, img, y, i + 1) && Packed(img, out[..], y, i + 1)
  {
    VisitMeans(img, buf[..], x, y, i);
    MarkMeans(img, out[..], x, y, i);
    VisitBit(w, h, x, y, buf, out);
  }

  method DitherRow(w: int, h: int, y: int, ghost img: Image<int>, buf: array<int>, out: array<int>)
    requires img.Valid() && img.w == w && img.h == h && Bytes(img.px) && 0 <= y < h && buf != out
    requires buf[..] == Buffer(DIFFUSER, img, y, 0) && Packed(img, out[..], y, 0)
    modifies buf, out
    ensures buf[..] == Buffer(DIFFUSER, img, y + 1, 0) && Packed(img, out[..], y + 1, 0)
  {
    var ltr := y % 2 == 0;
    LeftToRightIsEven(y);
    for i := 0 to w
      invariant buf[..] == Buffer(DIFFUSER, img, y, i)
      invariant Packed(img, out[..], y, i)
    {
      VisitInOrder(w, h, if ltr then i else w - 1 - i, y, i, img, buf, out);
    }
    HeldRowEnd(DIFFUSER, img, y);
    PackedRowEnd(img, out[..], y);
  }

  /** The packed bits show exactly the pixels whose gathered value is not black. */
  method Atkinson1Bit(w: int, h: int, gray: seq<int>) returns (bits: seq<int>)
    requires 0 <= w && 0 <= h && |gray| == Area(w, h) && Bytes(gray)
    ensures Packed(Image(w, h, gray), bits, h, 0)
  {
    ghost var img := Image(w, h, gray);
    AreaNonNegative(w, h);
    AreaNonNegative(BitStride(w), h);
    BufferStart(DIFFUSER, img);
    var buf := new int[Area(w, h)](i requires 0 <= i < |gray| => gray[i]);
    assert buf[..] == gray;
    var out := new int[Area(BitStride(w), h)](_ => 0);
    PackedStart(img, out[..]);
    for y := 0 to h
      invariant buf[..] == Buffer(DIFFUSER, img, y, 0)
      invariant Packed(img, out[..], y, 0)
    {
      DitherRow(w, h, y, img, buf, out);
    }
    bits := out[..];
  }
}
