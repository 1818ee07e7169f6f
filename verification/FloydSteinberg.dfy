/** Floyd-Steinberg dithering of a gray image to evenly spaced levels. */
module FloydSteinberg {
  import opened Arithmetic
  import opened Grid
  import opened Diffusion
  import opened ErrorLedger
  import opened FloydSteinbergTaps

  // ---- One pixel ----

  /** The gray a level index stands for. */
  function GrayOf(levels: int, idx: int): int
    requires levels >= 2
  {
    idx * 255 / (levels - 1)
  }

  function PickGray(levels: int, v: int): int
    requires levels >= 2
  {
    LevelOf(levels, Clamp255(v))
  }

  function GrayError(levels: int, v: int): int
    requires levels >= 2
  {
    Clamp255(v) - GrayOf(levels, PickGray(levels, v))
  }

  function GrayShare(levels: int, k: int, v: int): int
    requires levels >= 2
  {
    if 0 <= k < |WEIGHTS| then TruncDiv(GrayError(levels, v) * WEIGHTS[k], 16) else 0
  }

  function FsGray(levels: int): Diffuser<int>
    requires levels >= 2
  {
    Diffuser(TAPS, SatAdd, (k: int, v: int) => GrayShare(levels, k, v))
  }

  lemma {:induction false} PickGrayInRange(levels: int, v: int)
    requires levels >= 2
    ensures 0 <= PickGray(levels, v) < levels && PickGray(levels, v) <= 255
    ensures 0 <= GrayOf(levels, PickGray(levels, v)) <= 255
  {
    var l := levels - 1;
    MulNonNegative(Clamp255(v), l);
    GrayOfInRange(levels, PickGray(levels, v));
  }

  lemma {:induction false} GrayOfInRange(levels: int, idx: int)
    requires levels >= 2 && 0 <= idx < levels
    ensures 0 <= GrayOf(levels, idx) <= 255
  {
    DivAtMost(idx * 255, levels - 1, 255);
  }

  /** The picked gray is within 127 of the value for every value exactly when the levels fit the
      byte the index is stored in. */
  lemma {:induction false} ErrorWithinHalfRange(levels: int)
    requires levels >= 2
    ensures (forall v :: -127 <= GrayError(levels, v) <= 127) <==> levels <= 256
  {
    if levels <= 256 {
      forall v
        ensures -127 <= GrayError(levels, v) <= 127
      {
        ErrorBound(levels, v);
      }
    } else {
      IndexWrapsAround(levels);
    }
  }

  lemma {:induction false} ErrorBound(levels: int, v: int)
    requires 2 <= levels <= 256
    ensures -127 <= GrayError(levels, v) <= 127
  {
    var c, l := Clamp255(v), levels - 1;
    PickIsNearest(levels, v);
    NearestLevel(c, l, PickGray(levels, v));
  }

  /** Level idx of so many is within half a step of the byte c, the upper end of a step excluded. */
  predicate NearestTo(levels: int, c: int, idx: int) {
    -127 <= c * (levels - 1) - 255 * idx <= 127
  }

  /** The picked level is the nearest one ... */
  lemma {:induction false} PickIsNearest(levels: int, v: int)
    requires 2 <= levels <= 256
    ensures NearestTo(levels, Clamp255(v), PickGray(levels, v))
  {
    LevelIsNearest(levels, Clamp255(v));
  }

  /** ... and no other is as near. */
  lemma {:induction false} OneNearest(levels: int, c: int, i: int, j: int)
    requires NearestTo(levels, c, i)
    ensures NearestTo(levels, c, j) <==> i == j
    ensures j != i ==> Gap(c * (levels - 1), 255 * i) < Gap(c * (levels - 1), 255 * j)
  {
  }

  function Gap(a: int, b: int): int {
    if a < b then b - a else a - b
  }

  /** So the more levels there are the smaller the error: half a step, and less than one for rounding
      the gray down. */
  lemma {:induction false} ErrorWithinHalfStep(levels: int, v: int)
    requires 2 <= levels <= 256
    ensures -127 <= (levels - 1) * GrayError(levels, v) <= 127 + levels - 2
  {
    var l, c, m := levels - 1, Clamp255(v), PickGray(levels, v);
    PickIsNearest(levels, v);
    DivBounds(m * 255, l);
    assert l * (c - GrayOf(levels, m)) == c * l - l * GrayOf(levels, m);
  }

  /** m is the nearest of l steps to c of 255; the gray it stands for is within 127 of c. */
  lemma {:induction false} NearestLevel(c: int, l: int, m: int)
    requires l >= 1 && c * l - 127 <= 255 * m <= c * l + 127
    ensures -127 <= m * 255 / l - c <= 127
  {
    var q := m * 255 / l;
    DivBounds(m * 255, l);
    assert q * l <= (c + 127) * l by {
      assert (c + 127) * l == c * l + 127 * l;
    }
    CancelMul(q, c + 127, l);
    assert c * l <= (q + 127) * l by {
      assert (q + 127) * l == q * l + 127 * l;
    }
    CancelMul(c, q + 127, l);
  }

  /** White wraps to the low byte of its index, which stands for less than half of white. */
  lemma {:induction false} IndexWrapsAround(levels: int)
    requires levels > 256
    ensures GrayError(levels, 255) > 127
  {
    var l := levels - 1;
    WhiteIndex(l);
    var idx := l % 256;
    assert PickGray(levels, 255) == idx;
    assert l >= 256 + idx;
    DivBelow(idx * 255, l, 128);
  }

  lemma {:induction false} WhiteIndex(l: int)
    requires l >= 0
    ensures (255 * l + 127) / 255 == l
  {
    DivModUnique(255, l, 127);
  }

  /** The most a share can be: 127/16 of each weight, rounded toward zero. */
  const CAPS: seq<nat> := [55, 23, 39, 7]

  /** The same for errors up to a whole byte. */
  const WIDE_CAPS: seq<nat> := [111, 47, 79, 15]

  lemma {:induction false} CapTotals()
    ensures Total(CAPS, 0) == 124 && Total(WIDE_CAPS, 0) == 252
  {
    assert Total(CAPS, 4) == 0 && Total(CAPS, 3) == 7 && Total(CAPS, 2) == 46 && Total(CAPS, 1) == 69;
    assert Total(WIDE_CAPS, 4) == 0 && Total(WIDE_CAPS, 3) == 15 && Total(WIDE_CAPS, 2) == 94
        && Total(WIDE_CAPS, 1) == 141;
  }

  lemma {:induction false} ShareBounds(levels: int, k: int, v: int)
    requires levels >= 2 && 0 <= k < 4
    ensures -WIDE_CAPS[k] <= GrayShare(levels, k, v) <= WIDE_CAPS[k]
    ensures levels <= 256 ==> -CAPS[k] <= GrayShare(levels, k, v) <= CAPS[k]
    ensures -15 <= 16 * GrayShare(levels, k, v) - WEIGHTS[k] * GrayError(levels, v) <= 15
  {
    PickGrayInRange(levels, v);
    if levels <= 256 {
      ErrorBound(levels, v);
    }
    SixteenthsBound(GrayError(levels, v), k);
  }

  lemma {:induction false} SixteenthsBound(e: int, k: int)
    requires -255 <= e <= 255 && 0 <= k < 4
    ensures -WIDE_CAPS[k] <= TruncDiv(e * WEIGHTS[k], 16) <= WIDE_CAPS[k]
    ensures -127 <= e <= 127 ==> -CAPS[k] <= TruncDiv(e * WEIGHTS[k], 16) <= CAPS[k]
    ensures -15 <= 16 * TruncDiv(e * WEIGHTS[k], 16) - WEIGHTS[k] * e <= 15
  {
    assert k == 0 || k == 1 || k == 2 || k == 3;
  }

  /** Total weight reaching a cell is at most 16/16, so its drift is at most a full error. */
  lemma {:induction false} FsGrayTame(levels: int)
    requires levels >= 2
    ensures Tame(FsGray(levels), WIDE_CAPS) && Total(WIDE_CAPS, 0) == 252
    ensures levels <= 256 ==> Tame(FsGray(levels), CAPS) && Total(CAPS, 0) == 124
  {
    CapTotals();
    forall k: int, v: int | 0 <= k < 4
      ensures -WIDE_CAPS[k] <= FsGray(levels).share(k, v) <= WIDE_CAPS[k]
      ensures levels <= 256 ==> -CAPS[k] <= FsGray(levels).share(k, v) <= CAPS[k]
    {
      ShareBounds(levels, k, v);
    }
  }

  // ---- Main results ----

  /** Over the whole run no cell drifts more than 124 from its input byte. */
  lemma {:induction false} BufferBounded(levels: int, img: Image<int>, x: int, y: int, ty: int, ti: int)
    requires 2 <= levels <= 256 && img.Valid() && Bytes(img.px) && InBounds(img.w, img.h, x, y)
    ensures -124 <= Held(FsGray(levels), img, x, y, ty, ti, 0) - img.At(x, y) <= 124
  {
    FsGrayTame(levels);
    HeldBounded(FsGray(levels), CAPS, img, x, y, ty, ti, 0);
  }

  /** Error that pixel (x, y) neither shows nor passes on: clamping, rounding and image borders. */
  ghost function Leak(levels: int, img: Image<int>, x: int, y: int): int
    requires levels >= 2 && img.Valid() && InBounds(img.w, img.h, x, y)
  {
    Settled(FsGray(levels), img, x, y) - GrayOf(levels, PickGray(levels, Value(FsGray(levels), img, x, y)))
  }

  /** At every moment: grays shown so far, plus what leaked there, plus the buffer of the pixels
      still to come, is the input. */
  lemma {:induction false} Conservation(levels: int, img: Image<int>, ty: nat, ti: nat)
    requires levels >= 2 && img.Valid() && Bytes(img.px)
    requires ty <= img.h && ti <= img.w && (ty == img.h ==> ti == 0)
    ensures |Ledger(FsGray(levels), img, ty, ti)| == |img.px|
    ensures forall x, y :: InBounds(img.w, img.h, x, y) ==>
      var d := FsGray(levels);
      0 <= Cell(img.w, x, y) < |img.px| &&
      Ledger(d, img, ty, ti)[Cell(img.w, x, y)] ==
        if Visited(img.w, x, y, ty, ti)
        then GrayOf(levels, PickGray(levels, Value(d, img, x, y))) + Leak(levels, img, x, y)
        else Held(d, img, x, y, ty, ti, 0)
    ensures Sum(Ledger(FsGray(levels), img, ty, ti)) == Sum(img.px)
  {
    FsGrayTame(levels);
    TapsCausal();
    LedgerConserved(FsGray(levels), WIDE_CAPS, img, ty, ti);
    forall x, y | InBounds(img.w, img.h, x, y)
      ensures 0 <= Cell(img.w, x, y) < |img.px|
      ensures Ledger(FsGray(levels), img, ty, ti)[Cell(img.w, x, y)] == Entry(FsGray(levels), img, x, y, ty, ti)
    {
      LedgerAt(FsGray(levels), img, x, y, ty, ti);
    }
  }

  /** Away from the borders, and where nothing was clamped, only rounding leaks: at most 3. */
  lemma {:induction false} InteriorLeak(levels: int, img: Image<int>, x: int, y: int)
    requires levels >= 2 && img.Valid() && 0 < x < img.w - 1 && 0 <= y < img.h - 1
    requires 0 <= Value(FsGray(levels), img, x, y) <= 255
    ensures -3 <= Leak(levels, img, x, y) <= 3
  {
    var d := FsGray(levels);
    var v := Value(d, img, x, y);
    var e := GrayError(levels, v);
    PushedInterior(levels, img.w, img.h, x, y, v);
    assert Leak(levels, img, x, y) ==
      e - TruncDiv(e * 7, 16) - TruncDiv(e * 3, 16) - TruncDiv(e * 5, 16) - TruncDiv(e * 1, 16);
  }

  lemma {:induction false} PushedInterior(levels: int, w: int, h: int, x: int, y: int, v: int)
    requires levels >= 2 && 0 < x < w - 1 && 0 <= y < h - 1
    ensures var e := GrayError(levels, v);
      Pushed(FsGray(levels), w, h, x, y, v, 0) ==
        TruncDiv(e * 7, 16) + TruncDiv(e * 3, 16) + TruncDiv(e * 5, 16) + TruncDiv(e * 1, 16)
  {
    var d := FsGray(levels);
    assert Pushed(d, w, h, x, y, v, 4) == 0;
    assert Pushed(d, w, h, x, y, v, 3) == d.share(3, v);
    assert Pushed(d, w, h, x, y, v, 2) == d.share(2, v) + d.share(3, v);
    assert Pushed(d, w, h, x, y, v, 1) == d.share(1, v) + d.share(2, v) + d.share(3, v);
  }

  // ---- The in-place algorithm ----

  method Spread(ghost d: Diffuser<int>, buf: array<int>, w: int, h: int, nx: int, ny: int, err: int, num: int)
    requires 0 <= w && 0 <= h && buf.Length == Area(w, h) && 0 <= ny
    requires -255 <= err <= 255 && 0 <= num <= 7
    requires forall a, b :: d.add(a, b) == SatAdd(a, b)
    modifies buf
    ensures buf[..] == Put(d, w, h, old(buf[..]), nx, ny, TruncDiv(err * num, 16))
  {
    if nx < 0 || nx >= w || ny >= h {
      return;
    }
    CellInGrid(w, h, nx, ny);
    var ni := Cell(w, nx, ny);
    var amount := TruncDiv(I16(err * num), 16);
    buf[ni] := SatAdd(buf[ni], amount);
  }

  /** Four spreads in code order are one scatter. */
  lemma {:induction false} ScatterUnrolled(levels: int, w: int, h: int, x: int, y: int, v: int, m: int, e: int,
                        b0: seq<int>, b1: seq<int>, b2: seq<int>, b3: seq<int>, b4: seq<int>)
    requires levels >= 2 && 0 <= w && 0 <= h && |b0| == Area(w, h)
    requires m == (if LeftToRight(y) then 1 else -1) && e == GrayError(levels, v)
    requires b1 == Put(FsGray(levels), w, h, b0, x + m, y, TruncDiv(e * 7, 16))
    requires b2 == Put(FsGray(levels), w, h, b1, x - m, y + 1, TruncDiv(e * 3, 16))
    requires b3 == Put(FsGray(levels), w, h, b2, x, y + 1, TruncDiv(e * 5, 16))
    requires b4 == Put(FsGray(levels), w, h, b3, x + m, y + 1, TruncDiv(e * 1, 16))
    ensures Scatter(FsGray(levels), w, h, b0, x, y, v, 0) == b4
  {
    hide Put, Scatter, GrayError;
    var bs := [b0, b1, b2, b3, b4];
    assert PutOneByOne(FsGray(levels), w, h, bs, x, y, v) by {
      forall k | 0 <= k < 4
        ensures var t := Target(FsGray(levels), k, x, y);
          bs[k + 1] == Put(FsGray(levels), w, h, bs[k], t.0, t.1, FsGray(levels).share(k, v))
      {
        assert k == 0 || k == 1 || k == 2 || k == 3;
      }
    }
    ScatterOneByOne(FsGray(levels), w, h, bs, x, y, v, 0);
  }

  method SpreadFour(levels: int, w: int, h: int, x: int, y: int, ghost v: int, err: int,
                    buf: array<int>)
    requires levels >= 2 && 0 <= w && 0 <= h && buf.Length == Area(w, h) && 0 <= y
    requires -255 <= err <= 255 && err == GrayError(levels, v)
    modifies buf
    ensures buf[..] == Scatter(FsGray(levels), w, h, old(buf[..]), x, y, v, 0)
  {
    LeftToRightIsEven(y);
    var mirror := if y % 2 == 0 then 1 else -1;
    hide Put, Scatter, Area;
    ghost var d := FsGray(levels);
    ghost var b0 := buf[..];
    Spread(d, buf, w, h, x + mirror, y, err, 7);
    ghost var b1 := buf[..];
    Spread(d, buf, w, h, x - mirror, y + 1, err, 3);
    ghost var b2 := buf[..];
    Spread(d, buf, w, h, x, y + 1, err, 5);
    ghost var b3 := buf[..];
    Spread(d, buf, w, h, x + mirror, y + 1, err, 1);
    ScatterUnrolled(levels, w, h, x, y, v, mirror, err, b0, b1, b2, b3, buf[..]);
  }

  /** One visit: store the level index, spread the error to the four neighbours. */
  method VisitGray(w: int, h: int, levels: int, x: int, y: int, buf: array<int>, idx: array<int>)
    requires levels >= 2 && InBounds(w, h, x, y) && buf != idx
    requires buf.Length == idx.Length == Area(w, h) && 0 <= Cell(w, x, y) < Area(w, h)
    modifies buf, idx
    ensures idx[..] == old(idx[..])[Cell(w, x, y) := PickGray(levels, old(buf[Cell(w, x, y)]))]
    ensures buf[..] == Scatter(FsGray(levels), w, h, old(buf[..]), x, y, old(buf[Cell(w, x, y)]), 0)
  {
    var here := Cell(w, x, y);
    var v := Clamp255(buf[here]);
    PickGrayInRange(levels, buf[here]);
    var level := U8(Min((v * (levels - 1) + 127) / 255, levels - 1));
    idx[here] := level;
    var quantized := I16(level * 255 / (levels - 1));
    var err := I16(v - quantized);
    SpreadFour(levels, w, h, x, y, buf[here], err, buf);
  }

  ghost function GrayPicker(levels: int, img: Image<int>): (int, int) -> int
    requires levels >= 2 && img.Valid()
  {
    (x: int, y: int) =>
      if InBounds(img.w, img.h, x, y) then PickGray(levels, Value(FsGray(levels), img, x, y)) else 0
  }

  /** What the c-th pixel holds when it is visited: its own gray and all error it was handed. */
  ghost function GatheredAt(levels: int, img: Image<int>, c: int): int
    requires levels >= 2 && img.Valid() && 0 <= c < |img.px|
  {
    GridOfCell(img.w, img.h, c);
    Value(FsGray(levels), img, Col(img.w, c), Row(img.w, c))
  }

  /** Every pixel shows the level nearest to what it holds. */
  ghost predicate AllNearest(levels: int, img: Image<int>, out: seq<int>)
    requires levels >= 2 && img.Valid()
  {
    |out| == |img.px| && forall c :: 0 <= c < |out| ==> NearestTo(levels, Clamp255(GatheredAt(levels, img, c)), out[c])
  }

  /** The effect of one visit on the buffer is the next moment of the gathered run ... */
  lemma {:induction false} VisitMeans(levels: int, img: Image<int>, b: seq<int>, x: int, y: int, i: int)
    requires levels >= 2 && img.Valid() && InBounds(img.w, img.h, x, y) && i == Serpentine(img.w, y, x)
    requires b == Buffer(FsGray(levels), img, y, i)
    ensures 0 <= Cell(img.w, x, y) < |b| && b[Cell(img.w, x, y)] == Value(FsGray(levels), img, x, y)
    ensures Scatter(FsGray(levels), img.w, img.h, b, x, y, Value(FsGray(levels), img, x, y), 0)
         == Buffer(FsGray(levels), img, y, i + 1)
  {
    TapsCausal();
    ScatterIsGather(FsGray(levels), img, x, y);
  }

  /** ... and the index it stores is the one the finished picture shows. */
  lemma {:induction false} PickMeans(levels: int, img: Image<int>, idx: seq<int>, x: int, y: int, i: int)
    requires levels >= 2 && img.Valid() && InBounds(img.w, img.h, x, y) && i == Serpentine(img.w, y, x)
    requires Drawn(img.w, img.h, GrayPicker(levels, img), idx, y, i)
    ensures 0 <= Cell(img.w, x, y) < |idx|
    ensures Drawn(img.w, img.h, GrayPicker(levels, img),
                  idx[Cell(img.w, x, y) := PickGray(levels, Value(FsGray(levels), img, x, y))], y, i + 1)
  {
    DrawnStep(img.w, img.h, GrayPicker(levels, img), idx, x, y);
  }

  method VisitInOrder(w: int, h: int, levels: int, x: int, y: int, ghost i: int, ghost img: Image<int>,
                      buf: array<int>, idx: array<int>)
    requires img.Valid() && img.w == w && img.h == h && levels >= 2 && InBounds(w, h, x, y) && buf != idx
    requires i == Serpentine(w, y, x)
    requires buf[..] == Buffer(FsGray(levels), img, y, i)
    requires Drawn(w, h, GrayPicker(levels, img), idx[..], y, i)
    modifies buf, idx
    ensures buf[..] == Buffer(FsGray(levels), img, y, i + 1)
    ensures Drawn(w, h, GrayPicker(levels, img), idx[..], y, i + 1)
  {
    VisitMeans(levels, img, buf[..], x, y, i);
    PickMeans(levels, img, idx[..], x, y, i);
    VisitGray(w, h, levels, x, y, buf, idx);
  }

  method DitherRow(w: int, h: int, levels: int, y: int, ghost img: Image<int>, buf: array<int>, idx: array<int>)
    requires img.Valid() && img.w == w && img.h == h && levels >= 2 && 0 <= y < h && buf != idx
    requires buf[..] == Buffer(FsGray(levels), img, y, 0)
    requires Drawn(w, h, GrayPicker(levels, img), idx[..], y, 0)
    modifies buf, idx
    ensures buf[..] == Buffer(FsGray(levels), img, y + 1, 0)
    ensures Drawn(w, h, GrayPicker(levels, img), idx[..], y + 1, 0)
  {
    var ltr := y % 2 == 0;
    LeftToRightIsEven(y);
    for i := 0 to w
      invariant buf[..] == Buffer(FsGray(levels), img, y, i)
      invariant Drawn(w, h, GrayPicker(levels, img), idx[..], y, i)
    {
      VisitInOrder(w, h, levels, if ltr then i else w - 1 - i, y, i, img, buf, idx);
    }
    HeldRowEnd(FsGray(levels), img, y);
    DrawnRowEnd(w, h, GrayPicker(levels, img), idx[..], y);
  }

  /** The serpentine in-place dither picks, at every pixel, the level nearest to the gathered value. */
  method FloydSteinbergGray(w: int, h: int, gray: seq<int>, levels: int) returns (out: seq<int>)
    requires 0 <= w && 0 <= h && |gray| == Area(w, h) && Bytes(gray)
    requires 2 <= levels && 255 * (levels - 1) + 127 < 0x1_0000_0000
    ensures |out| == Area(w, h)
    ensures forall c :: 0 <= c < |out| ==>
      out[c] == GrayPicker(levels, Image(w, h, gray))(Col(w, c), Row(w, c))
    ensures forall c :: 0 <= c < |out| ==> 0 <= out[c] < levels && out[c] <= 255
    ensures levels <= 256 ==> AllNearest(levels, Image(w, h, gray), out)
  {
    out := DitherImage(w, h, gray, levels);
    AllDrawn(levels, Image(w, h, gray), out);
  }

  method DitherImage(w: int, h: int, gray: seq<int>, levels: int) returns (out: seq<int>)
    requires 0 <= w && 0 <= h && |gray| == Area(w, h) && levels >= 2
    ensures Drawn(w, h, GrayPicker(levels, Image(w, h, gray)), out, h, 0)
  {
    ghost var img := Image(w, h, gray);
    BufferStart(FsGray(levels), img);
    var buf := new int[|gray|](i requires 0 <= i < |gray| => gray[i]);
    var idx := new int[|gray|](_ => 0);
    assert buf[..] == gray;
    for y := 0 to h
      invariant buf[..] == Buffer(FsGray(levels), img, y, 0)
      invariant Drawn(w, h, GrayPicker(levels, img), idx[..], y, 0)
    {
      DitherRow(w, h, levels, y, img, buf, idx);
    }
    out := idx[..];
  }

  lemma {:induction false} AllDrawn(levels: int, img: Image<int>, out: seq<int>)
    requires levels >= 2 && img.Valid()
    requires Drawn(img.w, img.h, GrayPicker(levels, img), out, img.h, 0)
    ensures forall c :: 0 <= c < |out| ==> out[c] == GrayPicker(levels, img)(Col(img.w, c), Row(img.w, c))
    ensures forall c :: 0 <= c < |out| ==> 0 <= out[c] < levels && out[c] <= 255
    ensures levels <= 256 ==> AllNearest(levels, img, out)
  {
    hide PickGray, Value;
    forall c | 0 <= c < |out|
      ensures out[c] == GrayPicker(levels, img)(Col(img.w, c), Row(img.w, c))
      ensures 0 <= out[c] < levels && out[c] <= 255
      ensures levels <= 256 ==> NearestTo(levels, Clamp255(GatheredAt(levels, img, c)), out[c])
    {
      GridOfCell(img.w, img.h, c);
      PickGrayInRange(levels, Value(FsGray(levels), img, Col(img.w, c), Row(img.w, c)));
      if levels <= 256 {
        PickIsNearest(levels, GatheredAt(levels, img, c));
      }
    }
  }
}
