/** Floyd-Steinberg dithering of a colour image against any palette; above 256 entries the index of the
    nearest is truncated to a byte.

    The error is taken from the unclamped value, so for a palette that cannot reach the image's
    colours it grows from row to row; the i16 products then wrap, as they do in a release build. */
module PaletteDither {
  import opened Arithmetic
  import opened Grid
  import opened Diffusion
  import opened FloydSteinbergTaps
  import opened Palette

  /** Two's-complement wrap-around to i16. */
  function WrapI16(v: int): int {
    (v + 32768) % 65536 - 32768
  }

  /** It fits 16 bits, and is off by a multiple of 2^16. */
  lemma {:induction false} WrapMeans(v: int)
    ensures -32768 <= WrapI16(v) <= 32767 && (WrapI16(v) - v) % 65536 == 0
  {
    var q := (v + 32768) / 65536;
    assert WrapI16(v) - v == 65536 * (-q);
  }

  /** The palette index shown for a cell holding v. */
  function Pick(palette: seq<Rgb>, v: Rgb): int
    requires palette != []
  {
    U8(Nearest(palette, Rgb(Clamp255(v.r), Clamp255(v.g), Clamp255(v.b))))
  }

  lemma {:induction false} PickInRange(palette: seq<Rgb>, v: Rgb)
    requires palette != []
    ensures 0 <= Pick(palette, v) < |palette|
    ensures |palette| <= 256 ==>
      FirstNearest(palette, Rgb(Clamp255(v.r), Clamp255(v.g), Clamp255(v.b)), Pick(palette, v))
  {
    NearestIsFirst(palette, Rgb(Clamp255(v.r), Clamp255(v.g), Clamp255(v.b)));
  }

  /** num sixteenths of an error, channel by channel. */
  function SharedOut(err: Rgb, num: int): Rgb {
    Rgb(TruncDiv(WrapI16(err.r * num), 16), TruncDiv(WrapI16(err.g * num), 16), TruncDiv(WrapI16(err.b * num), 16))
  }

  function ColourError(v: Rgb, picked: Rgb): Rgb {
    Rgb(WrapI16(v.r - picked.r), WrapI16(v.g - picked.g), WrapI16(v.b - picked.b))
  }

  function ColourShare(palette: seq<Rgb>, k: int, v: Rgb): Rgb
    requires palette != []
  {
    if 0 <= k < |WEIGHTS| then
      PickInRange(palette, v);
      SharedOut(ColourError(v, palette[Pick(palette, v)]), WEIGHTS[k])
    else Rgb(0, 0, 0)
  }

  /** As long as the largest product fits 16 bits. */
  predicate ProductsFit16(e: int) {
    I16_MIN <= e * 7 <= I16_MAX
  }

  /** Every channel is handed on by itself: each share is its weight's sixteenths of the channel's
      error, rounded toward zero, and together they are the error to within 3. */
  lemma {:induction false} SharesMean(palette: seq<Rgb>, v: Rgb)
    requires palette != [] && 0 <= Pick(palette, v) < |palette|
    requires var e := palette[Pick(palette, v)]; ProductsFit16(v.r - e.r) && ProductsFit16(v.g - e.g) && ProductsFit16(v.b - e.b)
    ensures var e, s := palette[Pick(palette, v)], (k: int) => ColourShare(palette, k, v);
      && (forall k :: 0 <= k < 4 ==>
            && -15 <= 16 * s(k).r - WEIGHTS[k] * (v.r - e.r) <= 15
            && -15 <= 16 * s(k).g - WEIGHTS[k] * (v.g - e.g) <= 15
            && -15 <= 16 * s(k).b - WEIGHTS[k] * (v.b - e.b) <= 15)
      && -3 <= v.r - e.r - (s(0).r + s(1).r + s(2).r + s(3).r) <= 3
      && -3 <= v.g - e.g - (s(0).g + s(1).g + s(2).g + s(3).g) <= 3
      && -3 <= v.b - e.b - (s(0).b + s(1).b + s(2).b + s(3).b) <= 3
  {
    hide Pick, ColourShare, Sixteenths;
    var e := palette[Pick(palette, v)];
    ChannelShares(v.r - e.r);
    ChannelShares(v.g - e.g);
    ChannelShares(v.b - e.b);
    ShareIs(palette, v, 0);
    ShareIs(palette, v, 1);
    ShareIs(palette, v, 2);
    ShareIs(palette, v, 3);
  }

  lemma {:induction false} ShareIs(palette: seq<Rgb>, v: Rgb, k: int)
    requires palette != [] && 0 <= Pick(palette, v) < |palette| && 0 <= k < 4
    requires var e := palette[Pick(palette, v)]; ProductsFit16(v.r - e.r) && ProductsFit16(v.g - e.g) && ProductsFit16(v.b - e.b)
    ensures var e := palette[Pick(palette, v)];
      ColourShare(palette, k, v) == Rgb(Sixteenths(v.r - e.r, k), Sixteenths(v.g - e.g, k), Sixteenths(v.b - e.b, k))
  {
    hide Pick;
    var e := palette[Pick(palette, v)];
    assert ColourError(v, e) == Rgb(v.r - e.r, v.g - e.g, v.b - e.b);
  }

  function Sixteenths(e: int, k: int): int
    requires 0 <= k < 4
  {
    TruncDiv(WrapI16(e * WEIGHTS[k]), 16)
  }

  lemma {:induction false} ChannelShares(e: int)
    requires ProductsFit16(e)
    ensures forall k {:trigger Sixteenths(e, k)} :: 0 <= k < 4 ==> -15 <= 16 * Sixteenths(e, k) - WEIGHTS[k] * e <= 15
    ensures -3 <= e - (Sixteenths(e, 0) + Sixteenths(e, 1) + Sixteenths(e, 2) + Sixteenths(e, 3)) <= 3
  {
    hide Sixteenths;
    forall k | 0 <= k < 4
      ensures -15 <= 16 * Sixteenths(e, k) - WEIGHTS[k] * e <= 15
    {
      OneChannelShare(e, k);
    }
    OneChannelShare(e, 0);
    OneChannelShare(e, 1);
    OneChannelShare(e, 2);
    OneChannelShare(e, 3);
  }

  lemma {:induction false} OneChannelShare(e: int, k: int)
    requires ProductsFit16(e) && 0 <= k < 4
    ensures -15 <= 16 * Sixteenths(e, k) - WEIGHTS[k] * e <= 15
    ensures 0 <= e ==> 0 <= 16 * Sixteenths(e, k) <= WEIGHTS[k] * e
    ensures e <= 0 ==> WEIGHTS[k] * e <= 16 * Sixteenths(e, k) <= 0
  {
    var p := e * WEIGHTS[k];
    assert I16_MIN <= p <= I16_MAX by {
      assert k == 0 || k == 1 || k == 2 || k == 3;
    }
    assert (p >= 0 <== e >= 0) && (p <= 0 <== e <= 0) by {
      assert k == 0 || k == 1 || k == 2 || k == 3;
    }
    assert WrapI16(p) == p;
    TruncDivMeans(p, 16);
    hide TruncDiv, WrapI16;
  }

  function AddColours(a: Rgb, b: Rgb): Rgb {
    Rgb(SatAdd(a.r, b.r), SatAdd(a.g, b.g), SatAdd(a.b, b.b))
  }

  function FsColour(palette: seq<Rgb>): Diffuser<Rgb>
    requires palette != []
  {
    Diffuser(TAPS, AddColours, (k: int, v: Rgb) => ColourShare(palette, k, v))
  }

  // ---- Images already in the palette ----

  predicate DrawnFrom(px: seq<Rgb>, palette: seq<Rgb>) {
    forall i :: 0 <= i < |px| ==> px[i] in palette
  }

  /** A palette colour is shown as itself and leaves no error. */
  lemma {:induction false} ExactColour(palette: seq<Rgb>, v: Rgb, k: int)
    requires 0 < |palette| <= 256 && Colours(palette) && v in palette
    ensures 0 <= Pick(palette, v) < |palette| && palette[Pick(palette, v)] == v
    ensures ColourShare(palette, k, v) == Rgb(0, 0, 0)
  {
    var i :| 0 <= i < |palette| && palette[i] == v;
    PickInRange(palette, v);
    assert Rgb(Clamp255(v.r), Clamp255(v.g), Clamp255(v.b)) == v;
    assert Distance(v, palette[Pick(palette, v)]) <= Distance(v, palette[i]) == 0;
  }

  /** If every pixel is a palette colour, no cell ever changes. */
  lemma {:induction false} PaletteImageFixed(palette: seq<Rgb>, img: Image<Rgb>, x: int, y: int, ty: int, ti: int, k: nat)
    requires 0 < |palette| <= 256 && Colours(palette)
    requires img.Valid() && DrawnFrom(img.px, palette) && InBounds(img.w, img.h, x, y) && k <= 4
    ensures Held(FsColour(palette), img, x, y, ty, ti, k) == img.At(x, y) && img.At(x, y) in palette
    decreases ty, ti, 4 - k
  {
    var d := FsColour(palette);
    CellInGrid(img.w, img.h, x, y);
    assert img.At(x, y).IsByteColour() by {
      var i :| 0 <= i < |palette| && palette[i] == img.At(x, y);
    }
    if k < 4 {
      PaletteImageFixed(palette, img, x, y, ty, ti, k + 1);
      var (sx, sy) := Source(d, k, x, y);
      if InBounds(img.w, img.h, sx, sy) && Visited(img.w, sx, sy, ty, ti) {
        PaletteImageFixed(palette, img, sx, sy, sy, Serpentine(img.w, sy, sx), 0);
        ExactColour(palette, img.At(sx, sy), k);
        assert d.share(k, Value(d, img, sx, sy)) == Rgb(0, 0, 0);
      }
    }
  }

  // ---- The in-place algorithm ----

  method Spread(palette: seq<Rgb>, buf: array<Rgb>, w: int, h: int, nx: int, ny: int, err: Rgb, num: int)
    requires palette != [] && 0 <= w && 0 <= h && buf.Length == Area(w, h) && 0 <= ny
    modifies buf
    ensures buf[..] == Put(FsColour(palette), w, h, old(buf[..]), nx, ny, SharedOut(err, num))
  {
    if nx < 0 || nx >= w || ny >= h {
      return;
    }
    CellInGrid(w, h, nx, ny);
    var ni := Cell(w, nx, ny);
    var dr := TruncDiv(WrapI16(err.r * num), 16);
    var dg := TruncDiv(WrapI16(err.g * num), 16);
    var db := TruncDiv(WrapI16(err.b * num), 16);
    buf[ni] := Rgb(SatAdd(buf[ni].r, dr), SatAdd(buf[ni].g, dg), SatAdd(buf[ni].b, db));
  }

  lemma {:induction false} ScatterUnrolled(palette: seq<Rgb>, w: int, h: int, x: int, y: int, v: Rgb, m: int,
                                           b0: seq<Rgb>, b1: seq<Rgb>, b2: seq<Rgb>, b3: seq<Rgb>, b4: seq<Rgb>)
    requires palette != [] && 0 <= w && 0 <= h && |b0| == Area(w, h)
    requires m == (if LeftToRight(y) then 1 else -1)
    requires b1 == Put(FsColour(palette), w, h, b0, x + m, y, ColourShare(palette, 0, v))
    requires b2 == Put(FsColour(palette), w, h, b1, x - m, y + 1, ColourShare(palette, 1, v))
    requires b3 == Put(FsColour(palette), w, h, b2, x, y + 1, ColourShare(palette, 2, v))
    requires b4 == Put(FsColour(palette), w, h, b3, x + m, y + 1, ColourShare(palette, 3, v))
    ensures Scatter(FsColour(palette), w, h, b0, x, y, v, 0) == b4
  {
    hide Put, Scatter, ColourShare;
    var bs := [b0, b1, b2, b3, b4];
    assert PutOneByOne(FsColour(palette), w, h, bs, x, y, v) by {
      forall k | 0 <= k < 4
        ensures var t := Target(FsColour(palette), k, x, y);
          bs[k + 1] == Put(FsColour(palette), w, h, bs[k], t.0, t.1, FsColour(palette).share(k, v))
      {
        assert k == 0 || k == 1 || k == 2 || k == 3;
      }
    }
    ScatterOneByOne(FsColour(palette), w, h, bs, x, y, v, 0);
  }

  method SpreadFour(palette: seq<Rgb>, w: int, h: int, x: int, y: int, ghost v: Rgb, err: Rgb, buf: array<Rgb>)
    requires palette != [] && 0 <= w && 0 <= h && buf.Length == Area(w, h) && 0 <= y
    requires forall k :: 0 <= k < 4 ==> ColourShare(palette, k, v) == SharedOut(err, WEIGHTS[k])
    modifies buf
    ensures buf[..] == Scatter(FsColour(palette), w, h, old(buf[..]), x, y, v, 0)
  {
    LeftToRightIsEven(y);
    var mirror := if y % 2 == 0 then 1 else -1;
    hide Put, Scatter, Area, TruncDiv;
    ghost var b0 := buf[..];
    Spread(palette, buf, w, h, x + mirror, y, err, 7);
    ghost var b1 := buf[..];
    Spread(palette, buf, w, h, x - mirror, y + 1, err, 3);
    ghost var b2 := buf[..];
    Spread(palette, buf, w, h, x, y + 1, err, 5);
    ghost var b3 := buf[..];
    Spread(palette, buf, w, h, x + mirror, y + 1, err, 1);
    ScatterUnrolled(palette, w, h, x, y, v, mirror, b0, b1, b2, b3, buf[..]);
  }

  /** One visit: store the nearest palette index, spread the unclamped error channel by channel. */
  method VisitColour(w: int, h: int, palette: seq<Rgb>, x: int, y: int, buf: array<Rgb>, idx: array<int>)
    requires palette != [] && Colours(palette) && InBounds(w, h, x, y)
    requires buf.Length == idx.Length == Area(w, h) && 0 <= Cell(w, x, y) < Area(w, h)
    modifies buf, idx
    ensures idx[..] == old(idx[..])[Cell(w, x, y) := Pick(palette, old(buf[Cell(w, x, y)]))]
    ensures buf[..] == Scatter(FsColour(palette), w, h, old(buf[..]), x, y, old(buf[Cell(w, x, y)]), 0)
  {
    var here := Cell(w, x, y);
    var p := buf[here];
    PickInRange(palette, p);
    var pi := NearestIndex(palette, Rgb(Clamp255(p.r), Clamp255(p.g), Clamp255(p.b)));
    idx[here] := pi;
    var picked := palette[pi];
    var err := Rgb(WrapI16(p.r - picked.r), WrapI16(p.g - picked.g), WrapI16(p.b - picked.b));
    SpreadFour(palette, w, h, x, y, p, err, buf);
  }

  ghost function Picker(palette: seq<Rgb>, img: Image<Rgb>): (int, int) -> int
    requires palette != [] && img.Valid()
  {
    (x: int, y: int) =>
      if InBounds(img.w, img.h, x, y) then Pick(palette, Value(FsColour(palette), img, x, y)) else 0
  }

  /** The effect of one visit on the buffer is the next moment of the gathered run ... */
  lemma {:induction false} VisitMeans(palette: seq<Rgb>, img: Image<Rgb>, b: seq<Rgb>, x: int, y: int, i: int)
    requires palette != [] && img.Valid() && InBounds(img.w, img.h, x, y) && i == Serpentine(img.w, y, x)
    requires b == Buffer(FsColour(palette), img, y, i)
    ensures 0 <= Cell(img.w, x, y) < |b| && b[Cell(img.w, x, y)] == Value(FsColour(palette), img, x, y)
    ensures Scatter(FsColour(palette), img.w, img.h, b, x, y, Value(FsColour(palette), img, x, y), 0)
         == Buffer(FsColour(palette), img, y, i + 1)
  {
    hide ColourShare, Scatter, Held, Area;
    TapsCausal();
    ScatterIsGather(FsColour(palette), img, x, y);
  }

  /** ... and the index it stores is the one the finished picture shows. */
  lemma {:induction false} PickMeans(palette: seq<Rgb>, img: Image<Rgb>, idx: seq<int>, x: int, y: int, i: int)
    requires palette != [] && img.Valid() && InBounds(img.w, img.h, x, y) && i == Serpentine(img.w, y, x)
    requires Drawn(img.w, img.h, Picker(palette, img), idx, y, i)
    ensures 0 <= Cell(img.w, x, y) < |idx|
    ensures Drawn(img.w, img.h, Picker(palette, img),
                  idx[Cell(img.w, x, y) := Pick(palette, Value(FsColour(palette), img, x, y))], y, i + 1)
  {
    DrawnStep(img.w, img.h, Picker(palette, img), idx, x, y);
  }

  method VisitInOrder(w: int, h: int, palette: seq<Rgb>, x: int, y: int, ghost i: int, ghost img: Image<Rgb>,
                      buf: array<Rgb>, idx: array<int>)
    requires palette != [] && Colours(palette)
    requires img.Valid() && img.w == w && img.h == h && InBounds(w, h, x, y) && i == Serpentine(w, y, x)
    requires buf[..] == Buffer(FsColour(palette), img, y, i)
    requires Drawn(w, h, Picker(palette, img), idx[..], y, i)
    modifies buf, idx
    ensures buf[..] == Buffer(FsColour(palette), img, y, i + 1)
    ensures Drawn(w, h, Picker(palette, img), idx[..], y, i + 1)
  {
    VisitMeans(palette, img, buf[..], x, y, i);
    PickMeans(palette, img, idx[..], x, y, i);
    VisitColour(w, h, palette, x, y, buf, idx);
  }

  method DitherRow(w: int, h: int, palette: seq<Rgb>, y: int, ghost img: Image<Rgb>, buf: array<Rgb>, idx: array<int>)
    requires palette != [] && Colours(palette)
    requires img.Valid() && img.w == w && img.h == h && 0 <= y < h
    requires buf[..] == Buffer(FsColour(palette), img, y, 0)
    requires Drawn(w, h, Picker(palette, img), idx[..], y, 0)
    modifies buf, idx
    ensures buf[..] == Buffer(FsColour(palette), img, y + 1, 0)
    ensures Drawn(w, h, Picker(palette, img), idx[..], y + 1, 0)
  {
    var ltr := y % 2 == 0;
    LeftToRightIsEven(y);
    for i := 0 to w
      invariant buf[..] == Buffer(FsColour(palette), img, y, i)
      invariant Drawn(w, h, Picker(palette, img), idx[..], y, i)
    {
      VisitInOrder(w, h, palette, if ltr then i else w - 1 - i, y, i, img, buf, idx);
    }
    HeldRowEnd(FsColour(palette), img, y);
    DrawnRowEnd(w, h, Picker(palette, img), idx[..], y);
  }

  /** Every pixel shows the palette entry picked for its gathered value, the nearest one for up to 256
      entries; an image drawn from such a palette comes out as it went in. */
  method FloydSteinbergPalette(w: int, h: int, rgb: seq<Rgb>, palette: seq<Rgb>) returns (out: seq<int>)
    requires 0 <= w && 0 <= h && |rgb| == Area(w, h) && Colours(rgb)
    requires palette != [] && Colours(palette)
    ensures |out| == Area(w, h)
    ensures forall c :: 0 <= c < |out| ==>
      out[c] == Picker(palette, Image(w, h, rgb))(Col(w, c), Row(w, c)) && 0 <= out[c] < |palette|
    ensures |palette| <= 256 && DrawnFrom(rgb, palette) ==> forall c :: 0 <= c < |out| ==> palette[out[c]] == rgb[c]
  {
    out := DitherImage(w, h, rgb, palette);
    AllDrawn(palette, Image(w, h, rgb), out);
  }

  method DitherImage(w: int, h: int, rgb: seq<Rgb>, palette: seq<Rgb>) returns (out: seq<int>)
    requires 0 <= w && 0 <= h && |rgb| == Area(w, h)
    requires palette != [] && Colours(palette)
    ensures Drawn(w, h, Picker(palette, Image(w, h, rgb)), out, h, 0)
  {
    ghost var img := Image(w, h, rgb);
    BufferStart(FsColour(palette), img);
    var buf := new Rgb[|rgb|](i requires 0 <= i < |rgb| => rgb[i]);
    var idx := new int[|rgb|](_ => 0);
    assert buf[..] == rgb;
    for y := 0 to h
      invariant buf[..] == Buffer(FsColour(palette), img, y, 0)
      invariant Drawn(w, h, Picker(palette, img), idx[..], y, 0)
    {
      DitherRow(w, h, palette, y, img, buf, idx);
    }
    out := idx[..];
  }

  lemma {:induction false} AllDrawn(palette: seq<Rgb>, img: Image<Rgb>, out: seq<int>)
    requires palette != [] && Colours(palette) && img.Valid()
    requires Drawn(img.w, img.h, Picker(palette, img), out, img.h, 0)
    ensures forall c :: 0 <= c < |out| ==>
      out[c] == Picker(palette, img)(Col(img.w, c), Row(img.w, c)) && 0 <= out[c] < |palette|
    ensures |palette| <= 256 && DrawnFrom(img.px, palette) ==> forall c :: 0 <= c < |out| ==> palette[out[c]] == img.px[c]
  {
    forall c | 0 <= c < |out|
      ensures out[c] == Picker(palette, img)(Col(img.w, c), Row(img.w, c)) && 0 <= out[c] < |palette|
      ensures |palette| <= 256 && DrawnFrom(img.px, palette) ==> palette[out[c]] == img.px[c]
    {
      GridOfCell(img.w, img.h, c);
      var x, y := Col(img.w, c), Row(img.w, c);
      PickInRange(palette, Value(FsColour(palette), img, x, y));
      if |palette| <= 256 && DrawnFrom(img.px, palette) {
        PaletteImageFixed(palette, img, x, y, y, Serpentine(img.w, y, x), 0);
        ExactColour(palette, img.At(x, y), 0);
      }
    }
  }
}
