/** The palette dither takes its error from the unclamped value and multiplies it in 16 bits. How far
    an error can grow depends on the row: for every palette and picture the first ten rows are safe,
    and from a modest width on the eleventh is not, since solid red drawn with nothing but black
    gains more than 430 a row. */
module PaletteOverflow {
  import opened Arithmetic
  import opened Grid
  import opened Diffusion
  import opened FloydSteinbergTaps
  import opened Palette
  import opened PaletteDither

  /** The largest weight times the error of a value against the colour picked for it fits 16 bits in
      every channel. */
  predicate ErrorFits(palette: seq<Rgb>, v: Rgb)
    requires palette != []
  {
    PickInRange(palette, v);
    var picked := palette[Pick(palette, v)];
    && I16_MIN <= (v.r - picked.r) * 7 <= I16_MAX
    && I16_MIN <= (v.g - picked.g) * 7 <= I16_MAX
    && I16_MIN <= (v.b - picked.b) * 7 <= I16_MAX
  }

  ghost predicate FitsAt(palette: seq<Rgb>, img: Image<Rgb>, x: int, y: int)
    requires palette != [] && img.Valid()
  {
    InBounds(img.w, img.h, x, y) ==> ErrorFits(palette, Value(FsColour(palette), img, x, y))
  }

  /** No product of an error and a weight overflows anywhere in the run. */
  ghost predicate ProductsFit(palette: seq<Rgb>, img: Image<Rgb>)
    requires palette != [] && img.Valid()
  {
    forall x, y {:trigger FitsAt(palette, img, x, y)} :: FitsAt(palette, img, x, y)
  }

  // ---- The first rows are safe, whatever the palette and the picture ----

  /** Each channel of a is within m sixteenths of the same channel of b. */
  predicate Near(a: Rgb, b: Rgb, m: int) {
    -m <= 16 * (a.r - b.r) <= m && -m <= 16 * (a.g - b.g) <= m && -m <= 16 * (a.b - b.b) <= m
  }

  /** Sixteenths that a cell of row y can have gained from taps k and later, when the errors of row
      y grow by c a row, from c on. */
  function Gain(c: nat, y: int, k: int): int {
    if k == 4 then 0
    else if k == 3 then c * y
    else if k == 2 then 6 * (c * y)
    else if k == 1 then 9 * (c * y)
    else 9 * (c * y) + 7 * (c * y + c)
  }

  lemma {:induction false} GainStep(c: nat, y: int, k: int, sy: int)
    requires 0 <= k < 4 && sy == y - TAPS[k].dy && 0 <= y && c * y + c <= 4681
    ensures Gain(c, y, k) == Gain(c, y, k + 1) + WEIGHTS[k] * (c * sy + c)
    ensures 0 <= Gain(c, y, k + 1) <= 74896 && 0 <= WEIGHTS[k] * (c * sy + c) <= 32767
  {
    MulNonNegative(c, y);
    assert c * (y - 1) == c * y - c;
    assert 0 <= c * sy + c <= 4681;
    assert k == 0 || k == 1 || k == 2 || k == 3;
  }

  /** Errors that fit hand out their weight in sixteenths and no more. */
  lemma {:induction false} ShareSmall(e: int, k: int, m: int)
    requires 0 <= k < 4 && -m <= e <= m && 7 * m <= I16_MAX
    ensures -(WEIGHTS[k] * m) <= 16 * TruncDiv(WrapI16(e * WEIGHTS[k]), 16) <= WEIGHTS[k] * m
  {
    assert k == 0 || k == 1 || k == 2 || k == 3;
    var p := e * WEIGHTS[k];
    assert -(WEIGHTS[k] * m) <= p <= WEIGHTS[k] * m <= I16_MAX;
    assert WrapI16(p) == p;
    TruncDivMeans(p, 16);
    hide TruncDiv, WrapI16;
  }

  lemma {:induction false} GainInAll(c: nat, y: int)
    ensures Gain(c, y, 0) == 16 * (c * y + c) - 9 * c
  {
  }

  /** A value that started within d of the colour it is shown as, and gained no more than its row
      allows, hands out no more than its row's error m, and fits. */
  lemma {:induction false} Handed(palette: seq<Rgb>, k: int, v: Rgb, px: Rgb, c: nat, d: nat, m: nat)
    requires palette != [] && 0 <= k < 4
    requires Near(v, px, 16 * m - 9 * c) && 9 * c >= 16 * d && m <= 4681
    requires 0 <= Pick(palette, v) < |palette| && Near(px, palette[Pick(palette, v)], 16 * d)
    ensures ErrorFits(palette, v) && Near(v, palette[Pick(palette, v)], 16 * m)
    ensures Near(ColourShare(palette, k, v), Rgb(0, 0, 0), WEIGHTS[k] * m)
  {
    hide Pick, TruncDiv;
    var picked := palette[Pick(palette, v)];
    assert ColourError(v, picked) == Rgb(v.r - picked.r, v.g - picked.g, v.b - picked.b);
    ShareSmall(v.r - picked.r, k, m);
    ShareSmall(v.g - picked.g, k, m);
    ShareSmall(v.b - picked.b, k, m);
  }

  /** One more share, or none, and the cell is within the gain of one more tap. */
  lemma {:induction false} GainOneMore(a: Rgb, px: Rgb, s: Rgb, c: nat, y: int, k: int, sy: int)
    requires 0 <= k < 4 && sy == y - TAPS[k].dy && 0 <= y && 0 <= c * y + c <= 4681 && px.IsByteColour()
    requires Near(a, px, Gain(c, y, k + 1))
    requires sy >= 0 ==> Near(s, Rgb(0, 0, 0), WEIGHTS[k] * (c * sy + c))
    ensures Near(a, px, Gain(c, y, k))
    ensures sy >= 0 ==> Near(AddColours(a, s), px, Gain(c, y, k))
  {
    hide Near, Gain, AddColours;
    GainStep(c, y, k, sy);
    NearAdd(a, px, s, Gain(c, y, k + 1), WEIGHTS[k] * (c * sy + c), sy >= 0);
  }

  lemma {:induction false} NearAdd(a: Rgb, px: Rgb, s: Rgb, m: nat, n: nat, adds: bool)
    requires Near(a, px, m) && px.IsByteColour() && m <= 74896 && n <= 32767
    requires adds ==> Near(s, Rgb(0, 0, 0), n)
    ensures Near(a, px, m + n) && (adds ==> Near(AddColours(a, s), px, m + n))
  {
  }

  /** A cell of the first ten rows is off by at most its row's gain, whatever the palette and the
      picture. */
  lemma {:induction false} GainsAtMost(palette: seq<Rgb>, img: Image<Rgb>, x: int, y: int, ty: int, ti: int, k: nat)
    requires palette != [] && Colours(palette) && img.Valid() && Colours(img.px)
    requires InBounds(img.w, img.h, x, y) && y <= 9 && k <= 4
    ensures Near(Held(FsColour(palette), img, x, y, ty, ti, k), img.At(x, y), Gain(454, y, k))
    decreases ty, ti, 4 - k
  {
    hide ColourShare, Near, Gain, AddColours, Pick, ErrorFits, Held;
    var d := FsColour(palette);
    CellInGrid(img.w, img.h, x, y);
    if k == 4 {
      HeldOneTap(d, img, x, y, ty, ti, 3, Source(d, 3, x, y).0, Source(d, 3, x, y).1);
      NearItself(img.At(x, y), 454, y);
    } else {
      GainsAtMost(palette, img, x, y, ty, ti, k + 1);
      var (sx, sy) := Source(d, k, x, y);
      HeldOneTap(d, img, x, y, ty, ti, k, sx, sy);
      var s := Rgb(0, 0, 0);
      if InBounds(img.w, img.h, sx, sy) && Visited(img.w, sx, sy, ty, ti) {
        GainsAtMost(palette, img, sx, sy, sy, Serpentine(img.w, sy, sx), 0);
        s := ColourShare(palette, k, Value(d, img, sx, sy));
        HandedByAny(palette, img, sx, sy, k);
      } else if sy >= 0 {
        NothingIsNear(WEIGHTS[k] * (454 * sy + 454));
      }
      GainOneMore(Held(d, img, x, y, ty, ti, k + 1), img.At(x, y), s, 454, y, k, sy);
    }
  }

  lemma {:induction false} NearItself(a: Rgb, c: nat, y: int)
    ensures Near(a, a, Gain(c, y, 4))
  {
  }

  lemma {:induction false} NothingIsNear(m: nat)
    ensures Near(Rgb(0, 0, 0), Rgb(0, 0, 0), m)
  {
  }

  /** Two byte colours differ by at most 255. */
  lemma {:induction false} HandedByAny(palette: seq<Rgb>, img: Image<Rgb>, x: int, y: int, k: int)
    requires palette != [] && Colours(palette) && img.Valid() && Colours(img.px)
    requires InBounds(img.w, img.h, x, y) && y <= 9 && 0 <= k < 4
    requires Near(Value(FsColour(palette), img, x, y), img.At(x, y), Gain(454, y, 0))
    ensures var v := Value(FsColour(palette), img, x, y);
      && ErrorFits(palette, v)
      && 0 <= Pick(palette, v) < |palette| && Near(v, palette[Pick(palette, v)], 16 * (454 * y + 454))
      && Near(ColourShare(palette, k, v), Rgb(0, 0, 0), WEIGHTS[k] * (454 * y + 454))
  {
    hide Gain, Pick, Value, ErrorFits, ColourShare;
    var v := Value(FsColour(palette), img, x, y);
    CellInGrid(img.w, img.h, x, y);
    PickInRange(palette, v);
    assert palette[Pick(palette, v)].IsByteColour() && img.At(x, y).IsByteColour();
    GainInAll(454, y);
    Handed(palette, k, v, img.At(x, y), 454, 255, 454 * y + 454);
  }

  /** Up to ten rows nothing overflows, and an error is at most 454 for its row and each above. */
  lemma {:induction false} TenRowsFit(palette: seq<Rgb>, img: Image<Rgb>)
    requires palette != [] && Colours(palette) && img.Valid() && Colours(img.px) && img.h <= 10
    ensures ProductsFit(palette, img)
    ensures forall x, y :: InBounds(img.w, img.h, x, y) ==>
      var v := Value(FsColour(palette), img, x, y);
      0 <= Pick(palette, v) < |palette| && Near(v, palette[Pick(palette, v)], 16 * (454 * y + 454))
  {
    hide Value, Held, ErrorFits, Near;
    forall x, y | InBounds(img.w, img.h, x, y)
      ensures FitsAt(palette, img, x, y)
      ensures var v := Value(FsColour(palette), img, x, y);
        0 <= Pick(palette, v) < |palette| && Near(v, palette[Pick(palette, v)], 16 * (454 * y + 454))
    {
      ValueGains(palette, img, x, y);
      HandedByAny(palette, img, x, y, 0);
    }
  }

  lemma {:induction false} ValueGains(palette: seq<Rgb>, img: Image<Rgb>, x: int, y: int)
    requires palette != [] && Colours(palette) && img.Valid() && Colours(img.px)
    requires InBounds(img.w, img.h, x, y) && y <= 9
    ensures Near(Value(FsColour(palette), img, x, y), img.At(x, y), Gain(454, y, 0))
  {
    hide Near, Gain, ColourShare;
    GainsAtMost(palette, img, x, y, y, Serpentine(img.w, y, x), 0);
  }

  // ---- Solid red and the grays ----

  const RED: Rgb := Rgb(255, 0, 0)

  function AllRed(w: nat, h: nat): (img: Image<Rgb>)
    ensures img.Valid() && img.w == w && img.h == h && Colours(img.px)
    ensures forall x, y :: InBounds(w, h, x, y) ==> img.At(x, y) == RED
  {
    AreaNonNegative(w, h);
    var img := Image(w, h, seq(Area(w, h), _ => RED));
    assert forall x, y :: InBounds(w, h, x, y) ==> img.At(x, y) == RED by {
      forall x, y | InBounds(w, h, x, y)
        ensures img.At(x, y) == RED
      {
        CellInGrid(w, h, x, y);
      }
    }
    img
  }

  /** At least full red, at most no green and blue. */
  predicate Reddish(v: Rgb) {
    v.r >= 255 && v.g <= 0 && v.b <= 0
  }

  /** Whatever is redder than red is shown as the gray q. */
  ghost predicate ShowsRedAs(palette: seq<Rgb>, q: int) {
    palette != [] && 0 <= q <= 128 && forall v {:trigger Reddish(v)} :: Reddish(v) ==> ShownAs(palette, v, q)
  }

  ghost predicate ShownAs(palette: seq<Rgb>, v: Rgb, q: int)
    requires palette != []
  {
    0 <= Pick(palette, v) < |palette| && palette[Pick(palette, v)] == Rgb(q, q, q)
  }

  function AllBlack(n: nat): (palette: seq<Rgb>)
    ensures |palette| == n && Colours(palette)
    ensures forall i :: 0 <= i < n ==> palette[i] == Rgb(0, 0, 0)
  {
    seq(n, _ => Rgb(0, 0, 0))
  }

  lemma {:induction false} BlackShowsRed(n: nat)
    requires n > 0
    ensures ShowsRedAs(AllBlack(n), 0)
  {
    forall v | Reddish(v)
      ensures ShownAs(AllBlack(n), v, 0)
    {
      PickInRange(AllBlack(n), v);
    }
  }

  lemma {:induction false} SquaresUsed()
    ensures Square(0) == 0 && Square(255) == 65025 && Square(-255) == 65025
    ensures Square(64) == 4096 && Square(-191) == 36481
    ensures Square(127) == 16129 && Square(-128) == 16384
  {
  }

  lemma {:induction false} GrayDistances()
    ensures Distance(RED, Rgb(255, 255, 255)) == 130050 && Distance(RED, Rgb(191, 191, 191)) == 77058
    ensures Distance(RED, Rgb(128, 128, 128)) == 48897 && Distance(RED, Rgb(0, 0, 0)) == 65025
  {
    hide Square;
    SquaresUsed();
  }

  /** Of the four grays the darker one is nearest to red. */
  lemma {:induction false} GraysShowRed()
    ensures ShowsRedAs(MAC_4_COLOR, 128)
  {
    hide Nearest, Distance;
    NearestIsFirst(MAC_4_COLOR, RED);
    GrayDistances();
    var i := Nearest(MAC_4_COLOR, RED);
    assert MAC_4_COLOR[0] == Rgb(255, 255, 255) && MAC_4_COLOR[1] == Rgb(191, 191, 191);
    assert MAC_4_COLOR[2] == Rgb(128, 128, 128) && MAC_4_COLOR[3] == Rgb(0, 0, 0);
    assert Distance(RED, MAC_4_COLOR[i]) <= Distance(RED, MAC_4_COLOR[2]);
    assert i == 2;
    forall v | Reddish(v)
      ensures ShownAs(MAC_4_COLOR, v, 128)
    {
      assert Rgb(Clamp255(v.r), Clamp255(v.g), Clamp255(v.b)) == RED;
    }
  }

  ghost function Shown(palette: seq<Rgb>, w: nat, h: nat, x: int, y: int): Rgb
    requires palette != [] && InBounds(w, h, x, y)
  {
    Value(FsColour(palette), AllRed(w, h), x, y)
  }

  /** What a reddish value that fits hands to tap k. */
  lemma {:induction false} ShareOfFit(palette: seq<Rgb>, q: int, v: Rgb, k: int)
    requires palette != [] && ShowsRedAs(palette, q) && 0 <= k < 4 && Reddish(v) && ErrorFits(palette, v)
    ensures ColourShare(palette, k, v).r == (v.r - q) * WEIGHTS[k] / 16 >= 0
    ensures ColourShare(palette, k, v).g <= 0 && ColourShare(palette, k, v).b <= 0
  {
    hide Pick;
    assert ShownAs(palette, v, q);
    var err := ColourError(v, Rgb(q, q, q));
    ScaledFits(v.r - q, k);
    ScaledFits(v.g - q, k);
    ScaledFits(v.b - q, k);
    assert err == Rgb(v.r - q, v.g - q, v.b - q);
    hide TruncDiv, WrapI16;
  }

  lemma {:induction false} ScaledFits(e: int, k: int)
    requires 0 <= k < 4 && I16_MIN <= e * 7 <= I16_MAX
    ensures WrapI16(e * WEIGHTS[k]) == e * WEIGHTS[k]
    ensures e >= 0 ==> TruncDiv(e * WEIGHTS[k], 16) == e * WEIGHTS[k] / 16 >= 0
    ensures e <= 0 ==> TruncDiv(e * WEIGHTS[k], 16) <= 0
  {
    assert k == 0 || k == 1 || k == 2 || k == 3;
  }

  lemma {:induction false} StaysReddish(palette: seq<Rgb>, q: int, w: nat, h: nat, x: int, y: int,
                                        ty: int, ti: int, k: nat)
    requires palette != [] && ShowsRedAs(palette, q) && ProductsFit(palette, AllRed(w, h)) && InBounds(w, h, x, y) && k <= 4
    ensures Reddish(Held(FsColour(palette), AllRed(w, h), x, y, ty, ti, k))
    decreases ty, ti, 4 - k
  {
    hide ColourShare, ErrorFits, ShowsRedAs;
    var d, img := FsColour(palette), AllRed(w, h);
    if k < 4 {
      StaysReddish(palette, q, w, h, x, y, ty, ti, k + 1);
      var (sx, sy) := Source(d, k, x, y);
      if InBounds(w, h, sx, sy) && Visited(w, sx, sy, ty, ti) {
        StaysReddish(palette, q, w, h, sx, sy, sy, Serpentine(w, sy, sx), 0);
        assert FitsAt(palette, img, sx, sy);
        ShareOfFit(palette, q, Value(d, img, sx, sy), k);
      }
    }
  }

  // ---- How fast red grows ----

  /** Error of red shown as q: the pixel's own, and the shares of three pixels above with errors
      of a each ... */
  function FromAbove(q: int, a: int): int {
    255 - q + a / 16 + a * 5 / 16 + a * 3 / 16
  }

  /** ... and with the shares carried along the row, k steps on. */
  function Climb(q: int, a: int, k: nat): int {
    if k == 0 then 255 - q else FromAbove(q, a) + Climb(q, a, k - 1) * 7 / 16
  }

  /** How far an error that began no more than SHORT[0] short of its limit can be k steps later. */
  const SHORT: seq<int> := [4802, 2101, 919, 402, 176, 77, 34, 15, 7, 3, 1, 0]

  lemma {:induction false} ShortHalves(k: nat)
    requires k < 11
    ensures (SHORT[k] * 7 + 8) / 16 == SHORT[k + 1]
  {
    assert k == 0 || k == 1 || k == 2 || k == 3 || k == 4 || k == 5 || k == 6 || k == 7 || k == 8 || k == 9 || k == 10;
  }

  /** A row climbs towards any limit that its steps do not fall below. */
  lemma {:induction false} ClimbsTo(q: int, a: int, k: nat, m: int)
    requires k <= 11 && 16 * m + 1 - (255 - q) <= SHORT[0] && FromAbove(q, a) + 7 * m >= 16 * m + 1
    ensures Climb(q, a, k) >= 16 * m + 1 - SHORT[k]
  {
    hide FromAbove;
    if k > 0 {
      ClimbsTo(q, a, k - 1, m);
      ShortHalves(k - 1);
    }
  }

  /** A shade red is shown as, the steps to climb a row, and errors every row reaches: the first
      row's, and how many more each row below. */
  datatype Family = Family(q: int, k: nat, first: int, gain: int)

  const ON_BLACK := Family(0, 7, 433, 432)
  const ON_GRAY := Family(128, 11, 225, 224)

  function Level(f: Family, y: int): int
    decreases y
  {
    if y < 0 then 0 else if y == 0 then f.first else Level(f, y - 1) + f.gain
  }

  /** Each row climbs from the level of the row above to its own. */
  ghost predicate Climbs(f: Family, rows: nat) {
    0 <= f.q <= 128 && forall y {:trigger Level(f, y)} :: 0 <= y < rows ==> Climb(f.q, Level(f, y - 1), f.k) >= Level(f, y)
  }

  /** Columns lost at the left and the right down to row y: k where the scan enters and one where
      it leaves. */
  function LostLeft(k: nat, y: nat): nat {
    if y == 0 then k else LostLeft(k, y - 1) + if LeftToRight(y) then k else 1
  }

  function LostRight(k: nat, y: nat): nat {
    if y == 0 then 0 else LostRight(k, y - 1) + if LeftToRight(y) then 1 else k
  }

  lemma {:induction false} LostInAll(k: nat, y: nat)
    ensures LostLeft(k, y) + LostRight(k, y) == (k + 1) * (y + 1) - 1
  {
    if y > 0 {
      LostInAll(k, y - 1);
      assert (k + 1) * (y + 1) == (k + 1) * y + (k + 1);
    }
  }

  /** In row y the columns from lo up to hi hold at least a of red. */
  ghost predicate RowAtLeast(palette: seq<Rgb>, w: nat, h: nat, y: int, lo: int, hi: int, a: int)
    requires palette != []
  {
    0 <= y < h && 0 <= lo && hi <= w && forall x :: lo <= x < hi ==> Shown(palette, w, h, x, y).r >= a
  }

  /** The red a cell holds when it is visited, counting only taps k and later. */
  ghost function HeldRed(palette: seq<Rgb>, w: nat, h: nat, x: int, y: int, k: nat): int
    requires palette != [] && InBounds(w, h, x, y) && k <= 4
  {
    Held(FsColour(palette), AllRed(w, h), x, y, y, Serpentine(w, y, x), k).r
  }

  /** Each source inside the image adds its share. */
  lemma {:induction false} OneShare(palette: seq<Rgb>, q: int, w: nat, h: nat, x: int, y: int, k: nat, sx: int, sy: int)
    requires palette != [] && ShowsRedAs(palette, q) && ProductsFit(palette, AllRed(w, h)) && InBounds(w, h, x, y)
    requires k < 4 && (sx, sy) == Source(FsColour(palette), k, x, y)
    ensures !InBounds(w, h, sx, sy) ==> HeldRed(palette, w, h, x, y, k) == HeldRed(palette, w, h, x, y, k + 1)
    ensures InBounds(w, h, sx, sy) ==>
      && Shown(palette, w, h, sx, sy).r >= 255
      && HeldRed(palette, w, h, x, y, k) ==
           SatAdd(HeldRed(palette, w, h, x, y, k + 1), (Shown(palette, w, h, sx, sy).r - q) * WEIGHTS[k] / 16)
  {
    hide ColourShare, AllRed, ErrorFits, ShowsRedAs;
    var d, img, t := FsColour(palette), AllRed(w, h), Serpentine(w, y, x);
    if InBounds(w, h, sx, sy) {
      assert Visited(w, sx, sy, y, t);
      StaysReddish(palette, q, w, h, sx, sy, sy, Serpentine(w, sy, sx), 0);
      assert FitsAt(palette, img, sx, sy);
      ShareOfFit(palette, q, Value(d, img, sx, sy), k);
    }
  }

  /** What fits is far from saturated. */
  lemma {:induction false} NotSaturated(palette: seq<Rgb>, q: int, w: nat, h: nat, x: int, y: int)
    requires palette != [] && ShowsRedAs(palette, q) && ProductsFit(palette, AllRed(w, h)) && InBounds(w, h, x, y)
    ensures 255 <= Shown(palette, w, h, x, y).r <= 4681 + q
  {
    hide AllRed, Pick, Held;
    ValueReddish(palette, q, w, h, x, y);
    assert FitsAt(palette, AllRed(w, h), x, y);
    assert ShownAs(palette, Shown(palette, w, h, x, y), q);
  }

  lemma {:induction false} ValueReddish(palette: seq<Rgb>, q: int, w: nat, h: nat, x: int, y: int)
    requires palette != [] && ShowsRedAs(palette, q) && ProductsFit(palette, AllRed(w, h)) && InBounds(w, h, x, y)
    ensures Reddish(Shown(palette, w, h, x, y))
  {
    hide ShowsRedAs, AllRed, ColourShare;
    StaysReddish(palette, q, w, h, x, y, y, Serpentine(w, y, x), 0);
  }

  lemma {:induction false} HeldEnds(palette: seq<Rgb>, q: int, w: nat, h: nat, x: int, y: int)
    requires palette != [] && ShowsRedAs(palette, q) && ProductsFit(palette, AllRed(w, h)) && InBounds(w, h, x, y)
    ensures HeldRed(palette, w, h, x, y, 4) == 255
    ensures HeldRed(palette, w, h, x, y, 0) == Shown(palette, w, h, x, y).r <= 4809
  {
    hide AllRed, ColourShare, ProductsFit;
    NotSaturated(palette, q, w, h, x, y);
  }

  /** Four saturating additions of what is not negative, ending well below the limit. */
  lemma {:induction false} PlainSum(h4: int, h3: int, h2: int, h1: int, h0: int, s3: nat, s2: nat, s1: nat, s0: nat)
    requires h4 == 255 && h3 == SatAdd(h4, s3) && h2 == SatAdd(h3, s2) && h1 == SatAdd(h2, s1)
    requires h0 == SatAdd(h1, s0) <= 4809
    ensures h0 == 255 + s3 + s2 + s1 + s0
  {
  }

  lemma {:induction false} SourcesOf(palette: seq<Rgb>, x: int, y: int)
    requires palette != []
    ensures Source(FsColour(palette), 3, x, y) == (Ahead(x, y - 1, -1), y - 1)
    ensures Source(FsColour(palette), 2, x, y) == (x, y - 1)
    ensures Source(FsColour(palette), 1, x, y) == (Ahead(x, y - 1, 1), y - 1)
    ensures Source(FsColour(palette), 0, x, y) == (Ahead(x, y, -1), y)
  {
  }

  /** In the first row a pixel holds its own red and a share from behind ... */
  lemma {:induction false} BehindAdds(palette: seq<Rgb>, q: int, w: nat, h: nat, x: int)
    requires palette != [] && 0 <= q <= 128 && ShowsRedAs(palette, q) && ProductsFit(palette, AllRed(w, h))
    requires 0 < x < w && 0 < h
    ensures Shown(palette, w, h, x, 0).r == 255 + (Shown(palette, w, h, x - 1, 0).r - q) * 7 / 16
  {
    hide Source, HeldRed, ProductsFit, ShowsRedAs, Shown, AllRed;
    SourcesOf(palette, x, 0);
    OneShare(palette, q, w, h, x, 0, 3, Ahead(x, -1, -1), -1);
    OneShare(palette, q, w, h, x, 0, 2, x, -1);
    OneShare(palette, q, w, h, x, 0, 1, Ahead(x, -1, 1), -1);
    OneShare(palette, q, w, h, x, 0, 0, x - 1, 0);
    HeldEnds(palette, q, w, h, x, 0);
  }

  /** ... and in a later row, away from the border, a share from each of three pixels above too. */
  lemma {:induction false} FourAdd(palette: seq<Rgb>, q: int, w: nat, h: nat, x: int, y: int)
    requires palette != [] && 0 <= q <= 128 && ShowsRedAs(palette, q) && ProductsFit(palette, AllRed(w, h))
    requires 0 < x < w - 1 && 0 < y < h
    ensures InBounds(w, h, Ahead(x, y, -1), y)
    ensures Shown(palette, w, h, x, y).r == 255
      + (Shown(palette, w, h, Ahead(x, y - 1, -1), y - 1).r - q) / 16
      + (Shown(palette, w, h, x, y - 1).r - q) * 5 / 16
      + (Shown(palette, w, h, Ahead(x, y - 1, 1), y - 1).r - q) * 3 / 16
      + (Shown(palette, w, h, Ahead(x, y, -1), y).r - q) * 7 / 16
  {
    hide Source, HeldRed, ProductsFit, ShowsRedAs, Shown, AllRed, SatAdd;
    SourcesOf(palette, x, y);
    var above, behind := y - 1, Ahead(x, y, -1);
    OneShare(palette, q, w, h, x, y, 3, Ahead(x, above, -1), above);
    OneShare(palette, q, w, h, x, y, 2, x, above);
    OneShare(palette, q, w, h, x, y, 1, Ahead(x, above, 1), above);
    OneShare(palette, q, w, h, x, y, 0, behind, y);
    HeldEnds(palette, q, w, h, x, y);
    PlainSum(HeldRed(palette, w, h, x, y, 4), HeldRed(palette, w, h, x, y, 3), HeldRed(palette, w, h, x, y, 2),
             HeldRed(palette, w, h, x, y, 1), HeldRed(palette, w, h, x, y, 0),
             (Shown(palette, w, h, Ahead(x, above, -1), above).r - q) / 16,
             (Shown(palette, w, h, x, above).r - q) * 5 / 16,
             (Shown(palette, w, h, Ahead(x, above, 1), above).r - q) * 3 / 16,
             (Shown(palette, w, h, behind, y).r - q) * 7 / 16);
  }

  lemma {:induction false} ClimbsFirst(palette: seq<Rgb>, q: int, w: nat, h: nat, x: int, k: nat)
    requires palette != [] && 0 <= q <= 128 && ShowsRedAs(palette, q) && ProductsFit(palette, AllRed(w, h))
    requires k <= x < w && 0 < h
    ensures Shown(palette, w, h, x, 0).r - q >= Climb(q, 0, k)
    decreases k
  {
    hide ProductsFit, ShowsRedAs, Shown, AllRed;
    if k == 0 {
      NotSaturated(palette, q, w, h, x, 0);
    } else {
      BehindAdds(palette, q, w, h, x);
      ClimbsFirst(palette, q, w, h, x - 1, k - 1);
    }
  }

  lemma {:induction false} ClimbsOn(palette: seq<Rgb>, q: int, w: nat, h: nat, x: int, y: int,
                                    lo: int, hi: int, a: int, k: nat)
    requires palette != [] && 0 <= q <= 128 && ShowsRedAs(palette, q) && ProductsFit(palette, AllRed(w, h))
    requires 0 < y < h && RowAtLeast(palette, w, h, y - 1, lo, hi, q + a)
    requires if LeftToRight(y) then lo + k <= x < hi - 1 else lo + 1 <= x < hi - k
    ensures InBounds(w, h, x, y) && Shown(palette, w, h, x, y).r - q >= Climb(q, a, k)
    decreases k
  {
    hide ProductsFit, ShowsRedAs, Shown, AllRed, FromAbove;
    if k == 0 {
      NotSaturated(palette, q, w, h, x, y);
    } else {
      FourAdd(palette, q, w, h, x, y);
      ClimbsOn(palette, q, w, h, Ahead(x, y, -1), y, lo, hi, a, k - 1);
      AboveAtLeast(q, a, Shown(palette, w, h, Ahead(x, y - 1, -1), y - 1).r - q, Shown(palette, w, h, x, y - 1).r - q,
                   Shown(palette, w, h, Ahead(x, y - 1, 1), y - 1).r - q);
    }
  }

  lemma {:induction false} AboveAtLeast(q: int, a: int, a1: int, a5: int, a3: int)
    requires a1 >= a && a5 >= a && a3 >= a
    ensures 255 - q + a1 / 16 + a5 * 5 / 16 + a3 * 3 / 16 >= FromAbove(q, a)
  {
  }

  lemma {:induction false} FirstRowClimbs(palette: seq<Rgb>, q: int, w: nat, h: nat, k: nat, b: int)
    requires palette != [] && 0 <= q <= 128 && ShowsRedAs(palette, q) && ProductsFit(palette, AllRed(w, h))
    requires 0 < h && Climb(q, 0, k) >= b
    ensures RowAtLeast(palette, w, h, 0, k, w, q + b)
  {
    hide ProductsFit, ShowsRedAs, Shown, AllRed, Climb;
    forall x | k <= x < w
      ensures Shown(palette, w, h, x, 0).r >= q + b
    {
      ClimbsFirst(palette, q, w, h, x, k);
    }
  }

  lemma {:induction false} NextRowClimbs(palette: seq<Rgb>, q: int, w: nat, h: nat, y: int,
                                         lo: int, hi: int, a: int, k: nat, b: int)
    requires palette != [] && 0 <= q <= 128 && ShowsRedAs(palette, q) && ProductsFit(palette, AllRed(w, h))
    requires 0 < y < h && RowAtLeast(palette, w, h, y - 1, lo, hi, q + a) && Climb(q, a, k) >= b
    ensures var left := LeftToRight(y);
      RowAtLeast(palette, w, h, y, lo + (if left then k else 1), hi - (if left then 1 else k), q + b)
  {
    hide ProductsFit, ShowsRedAs, Shown, AllRed, Climb;
    var left := LeftToRight(y);
    forall x | lo + (if left then k else 1) <= x < hi - (if left then 1 else k)
      ensures InBounds(w, h, x, y) && Shown(palette, w, h, x, y).r >= q + b
    {
      ClimbsOn(palette, q, w, h, x, y, lo, hi, a, k);
    }
  }

  lemma {:induction false} ClimbsAt(f: Family, rows: nat, y: nat)
    requires y < rows && Climbs(f, rows)
    ensures 0 <= f.q <= 128 && Climb(f.q, Level(f, y - 1), f.k) >= Level(f, y)
  {
    assert Level(f, y) == Level(f, y);
  }

  /** While everything fits, each row reaches its level. */
  lemma {:induction false} RowsClimb(palette: seq<Rgb>, f: Family, w: nat, h: nat, rows: nat, y: nat)
    requires palette != [] && y < rows && Climbs(f, rows) && ShowsRedAs(palette, f.q) && ProductsFit(palette, AllRed(w, h))
    requires y < h
    ensures RowAtLeast(palette, w, h, y, LostLeft(f.k, y), w - LostRight(f.k, y), f.q + Level(f, y))
  {
    hide ProductsFit, ShowsRedAs, Shown, AllRed, Climb, Climbs, RowAtLeast, LeftToRight;
    ClimbsAt(f, rows, y);
    if y == 0 {
      assert Level(f, -1) == 0;
      FirstRowClimbs(palette, f.q, w, h, f.k, Level(f, y));
    } else {
      RowsClimb(palette, f, w, h, rows, y - 1);
      NextRowClimbs(palette, f.q, w, h, y, LostLeft(f.k, y - 1), w - LostRight(f.k, y - 1), Level(f, y - 1), f.k, Level(f, y));
    }
  }

  lemma {:induction false} RedOverflows(palette: seq<Rgb>, f: Family, w: nat, h: nat, y: nat)
    requires palette != [] && Climbs(f, y + 1) && ShowsRedAs(palette, f.q)
    requires y < h && w >= (f.k + 1) * (y + 1) && Level(f, y) > 4681
    ensures !ProductsFit(palette, AllRed(w, h))
  {
    hide ProductsFit, ShowsRedAs, Shown, AllRed, Level;
    if ProductsFit(palette, AllRed(w, h)) {
      RowsClimb(palette, f, w, h, y + 1, y);
      LostInAll(f.k, y);
      NotSaturated(palette, f.q, w, h, LostLeft(f.k, y), y);
      assert false;
    }
  }

  lemma {:induction false} AboveOfSixteenths(q: int, j: int)
    ensures FromAbove(q, 16 * j + 1) == 255 - q + 9 * j
  {
    DivModUnique(16, j, 1);
    DivModUnique(16, 5 * j, 5);
    DivModUnique(16, 3 * j, 3);
  }

  /** Red shown as black is over the limit in the eleventh row ... */
  lemma {:induction false} BlackClimbs()
    ensures Climbs(ON_BLACK, 11) && Level(ON_BLACK, 10) > 4681
  {
    hide Level, Climb, FromAbove;
    BlackLevel(10);
    forall y | 0 <= y < 11
      ensures Climb(0, Level(ON_BLACK, y - 1), 7) >= Level(ON_BLACK, y)
    {
      BlackLevel(y);
      BlackAbove(y);
      ClimbsTo(0, Level(ON_BLACK, y - 1), 7, 27 * y + 28);
    }
  }

  lemma {:induction false} BlackLevel(y: nat)
    ensures Level(ON_BLACK, y) == 433 + 432 * y
  {
    if y > 0 {
      BlackLevel(y - 1);
    }
  }

  lemma {:induction false} BlackAbove(y: nat)
    ensures FromAbove(0, Level(ON_BLACK, y - 1)) + 7 * (27 * y + 28) >= 16 * (27 * y + 28) + 1
  {
    if y > 0 {
      BlackLevel(y - 1);
      AboveOfSixteenths(0, 27 * y);
    }
  }

  /** ... and shown as the darker gray in the twenty-first. */
  lemma {:induction false} GrayClimbs()
    ensures Climbs(ON_GRAY, 21) && Level(ON_GRAY, 20) > 4681
  {
    hide Level, Climb, FromAbove;
    GrayLevelOf(20);
    forall y | 0 <= y < 21
      ensures Climb(128, Level(ON_GRAY, y - 1), 11) >= Level(ON_GRAY, y)
    {
      GrayLevelOf(y);
      GrayAbove(y);
      ClimbsTo(128, Level(ON_GRAY, y - 1), 11, 14 * y + 14);
    }
  }

  lemma {:induction false} GrayLevelOf(y: nat)
    ensures Level(ON_GRAY, y) == 225 + 224 * y
  {
    if y > 0 {
      GrayLevelOf(y - 1);
    }
  }

  lemma {:induction false} GrayAbove(y: nat)
    ensures FromAbove(128, Level(ON_GRAY, y - 1)) + 7 * (14 * y + 14) >= 16 * (14 * y + 14) + 1
  {
    if y > 0 {
      GrayLevelOf(y - 1);
      AboveOfSixteenths(128, 14 * y);
    }
  }

  // ---- Red against the four grays is safe for twenty rows ----

  lemma {:induction false} RedHandedOn(w: nat, h: nat, x: int, y: int, k: int)
    requires InBounds(w, h, x, y) && y <= 19 && 0 <= k < 4
    requires Reddish(Shown(MAC_4_COLOR, w, h, x, y)) && Near(Shown(MAC_4_COLOR, w, h, x, y), RED, Gain(228, y, 0))
    ensures ErrorFits(MAC_4_COLOR, Shown(MAC_4_COLOR, w, h, x, y))
    ensures var s := ColourShare(MAC_4_COLOR, k, Shown(MAC_4_COLOR, w, h, x, y));
      s.r >= 0 && s.g <= 0 && s.b <= 0 && Near(s, Rgb(0, 0, 0), WEIGHTS[k] * (228 * y + 228))
  {
    hide Gain, Pick, Shown, ErrorFits, ColourShare;
    GraysShowRed();
    var v := Shown(MAC_4_COLOR, w, h, x, y);
    assert ShownAs(MAC_4_COLOR, v, 128);
    GainInAll(228, y);
    Handed(MAC_4_COLOR, k, v, RED, 228, 128, 228 * y + 228);
    ShareOfFit(MAC_4_COLOR, 128, v, k);
  }

  lemma {:induction false} RedGainsAtMost(w: nat, h: nat, x: int, y: int, ty: int, ti: int, k: nat)
    requires InBounds(w, h, x, y) && y <= 19 && k <= 4
    ensures var held := Held(FsColour(MAC_4_COLOR), AllRed(w, h), x, y, ty, ti, k);
      Reddish(held) && Near(held, RED, Gain(228, y, k))
    decreases ty, ti, 4 - k
  {
    hide ColourShare, Near, Gain, ErrorFits, AllRed, Held;
    var d, img := FsColour(MAC_4_COLOR), AllRed(w, h);
    if k == 4 {
      HeldOneTap(d, img, x, y, ty, ti, 3, Source(d, 3, x, y).0, Source(d, 3, x, y).1);
      NearItself(RED, 228, y);
    } else {
      RedGainsAtMost(w, h, x, y, ty, ti, k + 1);
      var (sx, sy) := Source(d, k, x, y);
      HeldOneTap(d, img, x, y, ty, ti, k, sx, sy);
      var s := Rgb(0, 0, 0);
      if InBounds(w, h, sx, sy) && Visited(w, sx, sy, ty, ti) {
        RedGainsAtMost(w, h, sx, sy, sy, Serpentine(w, sy, sx), 0);
        s := ColourShare(MAC_4_COLOR, k, Value(d, img, sx, sy));
        RedHandedOn(w, h, sx, sy, k);
      } else if sy >= 0 {
        NothingIsNear(WEIGHTS[k] * (228 * sy + 228));
      }
      GainOneMore(Held(d, img, x, y, ty, ti, k + 1), RED, s, 228, y, k, sy);
    }
  }

  lemma {:induction false} TwentyRedRowsFit(w: nat, h: nat)
    requires h <= 20
    ensures ProductsFit(MAC_4_COLOR, AllRed(w, h))
  {
    hide Held, ErrorFits, Near, Gain, AllRed;
    forall x, y | InBounds(w, h, x, y)
      ensures FitsAt(MAC_4_COLOR, AllRed(w, h), x, y)
    {
      RedGainsAtMost(w, h, x, y, y, Serpentine(w, y, x), 0);
      RedHandedOn(w, h, x, y, 0);
    }
  }

  // ---- Main results ----

  ghost predicate Dithers(n: nat, w: nat, h: nat, palette: seq<Rgb>, img: Image<Rgb>) {
    && |palette| == n && Colours(palette)
    && img.Valid() && img.w == w && img.h == h && Colours(img.px)
  }

  /** The height decides: from 88 columns on, and for any size of palette, the products of every
      picture and palette stay within 16 bits exactly up to ten rows. */
  lemma {:induction false} FitsIffTenRows(n: nat, w: nat, h: nat)
    requires n > 0 && w >= 88
    ensures (forall palette, img {:trigger ProductsFit(palette, img)} ::
               Dithers(n, w, h, palette, img) ==> ProductsFit(palette, img))
       <==> h <= 10
  {
    hide ProductsFit, AllRed, AllBlack, Level, Climbs;
    if h <= 10 {
      forall palette, img | Dithers(n, w, h, palette, img)
        ensures ProductsFit(palette, img)
      {
        TenRowsFit(palette, img);
      }
    } else {
      BlackClimbs();
      BlackShowsRed(n);
      RedOverflows(AllBlack(n), ON_BLACK, w, h, 10);
      assert Dithers(n, w, h, AllBlack(n), AllRed(w, h));
    }
  }

  /** With the palette of four grays, solid red lasts twice as long. */
  lemma {:induction false} RedOnGraysFitsIff(w: nat, h: nat)
    requires w >= 252
    ensures ProductsFit(MAC_4_COLOR, AllRed(w, h)) <==> h <= 20
  {
    hide ProductsFit, AllRed, Level, Climbs;
    if h <= 20 {
      TwentyRedRowsFit(w, h);
    } else {
      GrayClimbs();
      GraysShowRed();
      RedOverflows(MAC_4_COLOR, ON_GRAY, w, h, 20);
    }
  }
}
