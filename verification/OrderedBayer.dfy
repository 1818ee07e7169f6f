/** Ordered dithering of a gray image with a 4x4 threshold matrix. */
module OrderedBayer {
  import opened Arithmetic
  import opened Grid
  import ErrorLedger

  const BAYER4: seq<seq<int>> := [[0, 8, 2, 10], [12, 4, 14, 6], [3, 11, 1, 9], [15, 7, 13, 5]]

  /** The signed offset added at (x, y). */
  function Threshold(levels: int, x: int, y: int): int
    requires levels >= 1
  {
    TruncDiv((BAYER4[y % 4][x % 4] - 8) * (128 / levels), 8)
  }

  function BayerIndex(levels: int, x: int, y: int, v: int): int
    requires levels >= 2
  {
    LevelOf(levels, Clamp255(v + Threshold(levels, x, y)))
  }

  /** The 2x2 matrix the 4x4 one is built from: quarters of it, each refined by it again. */
  const BAYER2: seq<seq<int>> := [[0, 2], [3, 1]]

  /** Neighbouring pixels get offsets far apart: the finer position counts for more. */
  lemma {:induction false} MatrixRefines(x: int, y: int)
    requires 0 <= x < 4 && 0 <= y < 4
    ensures BAYER4[y][x] == 4 * BAYER2[y % 2][x % 2] + BAYER2[y / 2][x / 2]
    ensures 0 <= BAYER4[y][x] < 16
  {
    assert x == 0 || x == 1 || x == 2 || x == 3;
    assert y == 0 || y == 1 || y == 2 || y == 3;
  }

  /** Where in a tile each of the sixteen offsets is used. */
  function PlaceOf(m: int): (p: (int, int))
    requires 0 <= m < 16
    ensures 0 <= p.0 < 4 && 0 <= p.1 < 4 && BAYER4[p.1][p.0] == m
  {
    [(0, 0), (2, 2), (2, 0), (0, 2), (1, 1), (3, 3), (3, 1), (1, 3), (1, 0), (3, 2), (3, 0), (1, 2), (0, 1), (2, 3), (2, 1), (0, 3)][m]
  }

  /** Each of them exactly once. */
  lemma {:induction false} EveryOffsetOnce(x: int, y: int)
    requires 0 <= x < 4 && 0 <= y < 4
    ensures 0 <= BAYER4[y][x] < 16 && PlaceOf(BAYER4[y][x]) == (x, y)
  {
    MatrixRefines(x, y);
  }

  /** The offset is its place in the matrix, in sixteenths of the step from -8 on, rounded toward
      zero. */
  lemma {:induction false} OffsetMeans(levels: int, x: int, y: int)
    requires levels >= 2
    ensures var exact, t := (BAYER4[y % 4][x % 4] - 8) * (128 / levels), Threshold(levels, x, y);
      && -7 <= 8 * t - exact <= 7
      && (exact >= 0 ==> 0 <= 8 * t <= exact) && (exact <= 0 ==> exact <= 8 * t <= 0)
  {
    var exact := (BAYER4[y % 4][x % 4] - 8) * (128 / levels);
    EighthOf(exact);
  }

  lemma {:induction false} EighthOf(exact: int)
    ensures var t := TruncDiv(exact, 8);
      && -7 <= 8 * t - exact <= 7
      && (exact >= 0 ==> 0 <= 8 * t <= exact) && (exact <= 0 ==> exact <= 8 * t <= 0)
  {
  }

  // ---- A flat gray in four levels ----

  /** The level shown with the m-th offset. */
  function LevelWith(v: int, m: int): int {
    LevelOf(4, Clamp255(v + 4 * (m - 8)))
  }

  function LevelsWith(v: int, n: nat): int {
    if n == 0 then 0 else LevelsWith(v, n - 1) + LevelWith(v, n - 1)
  }

  /** How many of the first n offsets lift v to t. */
  function Lifted(v: int, t: int, n: nat): int {
    if n == 0 then 0 else Lifted(v, t, n - 1) + if v + 4 * (n - 1 - 8) >= t then 1 else 0
  }

  lemma {:induction false} LiftedIs(v: int, t: int, n: nat)
    ensures var all := (v - t + 4 * n - 32) / 4; Lifted(v, t, n) == if all < 0 then 0 else if all > n then n else all
  {
    if n > 0 {
      LiftedIs(v, t, n - 1);
    }
  }

  lemma {:induction false} LevelSteps(u: int)
    ensures LevelOf(4, Clamp255(u)) == (if u >= 43 then 1 else 0) + (if u >= 128 then 1 else 0) + (if u >= 213 then 1 else 0)
  {
  }

  lemma {:induction false} LevelsAreLifts(v: int, n: nat)
    ensures LevelsWith(v, n) == Lifted(v, 43, n) + Lifted(v, 128, n) + Lifted(v, 213, n)
  {
    hide LevelOf, Clamp255;
    if n > 0 {
      LevelsAreLifts(v, n - 1);
      LevelSteps(v + 4 * (n - 1 - 8));
    }
  }

  /** The levels shown in four columns of a row, and in the four rows of a tile. */
  function RowLevels(x: int, y: int, v: int): int {
    BayerIndex(4, x, y, v) + BayerIndex(4, x + 1, y, v) + BayerIndex(4, x + 2, y, v) + BayerIndex(4, x + 3, y, v)
  }

  function TileLevels(x: int, y: int, v: int): int {
    RowLevels(x, y, v) + RowLevels(x, y + 1, v) + RowLevels(x, y + 2, v) + RowLevels(x, y + 3, v)
  }

  lemma {:induction false} IndexIs(x: int, y: int, v: int, i: int, j: int)
    requires x % 4 == 0 && y % 4 == 0 && 0 <= i < 4 && 0 <= j < 4
    ensures BayerIndex(4, x + i, y + j, v) == LevelWith(v, BAYER4[j][i])
  {
    assert (x + i) % 4 == i && (y + j) % 4 == j;
    MatrixRefines(i, j);
  }

  lemma {:induction false} RowIs(x: int, y: int, v: int, j: int)
    requires x % 4 == 0 && y % 4 == 0 && 0 <= j < 4
    ensures RowLevels(x, y + j, v) ==
      LevelWith(v, BAYER4[j][0]) + LevelWith(v, BAYER4[j][1]) + LevelWith(v, BAYER4[j][2]) + LevelWith(v, BAYER4[j][3])
  {
    hide BayerIndex, LevelWith;
    IndexIs(x, y, v, 0, j);
    IndexIs(x, y, v, 1, j);
    IndexIs(x, y, v, 2, j);
    IndexIs(x, y, v, 3, j);
  }

  lemma {:induction false} TileIs(x: int, y: int, v: int)
    requires x % 4 == 0 && y % 4 == 0
    ensures TileLevels(x, y, v) == LevelsWith(v, 16)
  {
    hide LevelWith, RowLevels;
    RowIs(x, y, v, 0);
    RowIs(x, y, v, 1);
    RowIs(x, y, v, 2);
    RowIs(x, y, v, 3);
    FourMore(v, 0);
    FourMore(v, 4);
    FourMore(v, 8);
    FourMore(v, 12);
    assert LevelsWith(v, 0) == 0;
  }

  lemma {:induction false} FourMore(v: int, n: nat)
    ensures LevelsWith(v, n + 4) ==
      LevelsWith(v, n) + LevelWith(v, n) + LevelWith(v, n + 1) + LevelWith(v, n + 2) + LevelWith(v, n + 3)
  {
    hide LevelWith;
    assert LevelsWith(v, n + 2) == LevelsWith(v, n) + LevelWith(v, n) + LevelWith(v, n + 1);
  }

  lemma {:induction false} SumOfLifts(v: int, a: int, b: int, c: int)
    requires 0 <= v <= 255
    requires a == if v < 11 then 0 else if (v - 11) / 4 > 16 then 16 else (v - 11) / 4
    requires b == if v < 96 then 0 else if (v - 96) / 4 > 16 then 16 else (v - 96) / 4
    requires c == if v < 181 then 0 else if (v - 181) / 4 > 16 then 16 else (v - 181) / 4
    ensures -672 <= 255 * (a + b + c) - 48 * v <= 480
  {
    if v < 96 {
    } else if v < 181 {
    } else {
    }
  }

  /** Over every tile of a flat gray the four levels average to it: the sum of the sixteen is off by at
      most 672 where one level counts 255. */
  lemma {:induction false} TileAverages(x: int, y: int, v: int)
    requires x % 4 == 0 && y % 4 == 0 && 0 <= v <= 255
    ensures -672 <= 255 * TileLevels(x, y, v) - 16 * 3 * v <= 480
  {
    TileIs(x, y, v);
    LevelsAreLifts(v, 16);
    LiftedIs(v, 43, 16);
    LiftedIs(v, 128, 16);
    LiftedIs(v, 213, 16);
    hide *;
    SumOfLifts(v, Lifted(v, 43, 16), Lifted(v, 128, 16), Lifted(v, 213, 16));
  }

  lemma {:induction false} ThresholdBound(levels: int, x: int, y: int)
    requires levels >= 2
    ensures var half := 128 / levels;
      && -half <= Threshold(levels, x, y) <= half
      && 0 <= half && half * (levels - 1) <= 127
  {
    var half, m := 128 / levels, BAYER4[y % 4][x % 4] - 8;
    DivBounds(128, levels);
    assert half * (levels - 1) == half * levels - half;
    assert half >= 0 by {
      if half + 1 <= 0 {
        MulMonotone(half + 1, 0, levels);
      }
    }
    MatrixBound(x, y);
    EighthBound(m, half);
  }

  lemma {:induction false} MatrixBound(x: int, y: int)
    ensures -8 <= BAYER4[y % 4][x % 4] - 8 <= 8
  {
  }

  lemma {:induction false} EighthBound(m: int, half: int)
    requires -8 <= m <= 8 && 0 <= half
    ensures -half <= TruncDiv(m * half, 8) <= half
  {
    MulMonotone(-8, m, half);
    MulMonotone(m, 8, half);
  }

  /** However the matrix falls, the level is within one of the undithered level, and black and
      white stay exactly black and white. */
  lemma {:induction false} BayerWithinOneLevel(levels: int, x: int, y: int, v: int)
    requires 2 <= levels <= 256 && 0 <= v <= 255
    ensures 0 <= BayerIndex(levels, x, y, v) < levels
    ensures -1 <= BayerIndex(levels, x, y, v) - LevelOf(levels, v) <= 1
    ensures BayerIndex(levels, x, y, 0) == 0
    ensures BayerIndex(levels, x, y, 255) == levels - 1
  {
    var half := 128 / levels;
    ThresholdBound(levels, x, y);
    LevelsNear(levels, v, Clamp255(v + Threshold(levels, x, y)), half);
    LevelsNear(levels, 0, Clamp255(0 + Threshold(levels, x, y)), half);
    LevelsNear(levels, 255, Clamp255(255 + Threshold(levels, x, y)), half);
  }

  /** Two values at most half apart, with half * (levels - 1) <= 127, are at most a level apart;
      one that near an end of the scale shares its level. */
  lemma {:induction false} LevelsNear(levels: int, v: int, u: int, half: int)
    requires 2 <= levels <= 256 && 0 <= v <= 255 && 0 <= u <= 255
    requires -half <= u - v <= half && half * (levels - 1) <= 127
    ensures 0 <= LevelOf(levels, u) < levels
    ensures -1 <= LevelOf(levels, u) - LevelOf(levels, v) <= 1
    ensures v == 0 ==> LevelOf(levels, u) == 0
    ensures v == 255 ==> LevelOf(levels, u) == levels - 1
  {
    var l := levels - 1;
    var a, b := v * l, u * l;
    ProductGap(u, v, half, l);
    InScale(v, l);
    InScale(u, l);
    StepsNear(a, b, l);
    LevelIs(levels, v, a);
    LevelIs(levels, u, b);
  }

  lemma {:induction false} LevelIs(levels: int, v: int, a: int)
    requires 2 <= levels <= 256 && a == v * (levels - 1) && 0 <= (a + 127) / 255 <= levels - 1
    ensures LevelOf(levels, v) == (a + 127) / 255
  {
  }

  lemma {:induction false} ProductGap(u: int, v: int, half: int, l: int)
    requires -half <= u - v <= half && 0 <= l && half * l <= 127
    ensures -127 <= u * l - v * l <= 127
  {
    MulMonotone(u - v, half, l);
    MulMonotone(-half, u - v, l);
    assert (u - v) * l == u * l - v * l;
    assert (-half) * l == -(half * l);
  }

  lemma {:induction false} InScale(v: int, l: int)
    requires 0 <= v <= 255 && 0 <= l
    ensures 0 <= v * l <= 255 * l && (v == 0 ==> v * l == 0) && (v == 255 ==> v * l == 255 * l)
  {
    MulMonotone(0, v, l);
    MulMonotone(v, 255, l);
  }

  lemma {:induction false} StepsNear(a: int, b: int, l: int)
    requires 1 <= l <= 255 && 0 <= a <= 255 * l && 0 <= b <= 255 * l && -127 <= b - a <= 127
    ensures 0 <= (b + 127) / 255 <= l
    ensures -1 <= (b + 127) / 255 - (a + 127) / 255 <= 1
    ensures a == 0 ==> (b + 127) / 255 == 0
    ensures a == 255 * l ==> (b + 127) / 255 == l
    ensures 0 <= (a + 127) / 255 <= l
  {
  }

  method BayerPixel(levels: int, x: int, y: int, v: int) returns (idx: int)
    requires levels >= 2
    ensures idx == BayerIndex(levels, x, y, v)
  {
    var bayer := BAYER4[y % 4][x % 4];
    var halfStep := 128 / levels;
    var threshold := TruncDiv((bayer - 8) * halfStep, 8);
    var adjusted := Clamp255(v + threshold);
    idx := U8(Min((adjusted * (levels - 1) + 127) / 255, levels - 1));
  }

  ghost predicate DrawnUpTo(levels: int, w: int, gray: seq<int>, idx: seq<int>, n: int)
    requires levels >= 2
  {
    |idx| == |gray| && forall c :: 0 <= c < n && c < |idx| ==> idx[c] == BayerIndex(levels, Col(w, c), Row(w, c), gray[c])
  }

  method OrderedBayerGray(w: int, h: int, gray: seq<int>, levels: int) returns (out: seq<int>)
    requires 0 <= w && 0 <= h && |gray| == Area(w, h) && ErrorLedger.Bytes(gray)
    requires 2 <= levels && 255 * (levels - 1) + 127 < 0x1_0000_0000
    ensures |out| == Area(w, h)
    ensures forall c :: 0 <= c < |out| ==> out[c] == BayerIndex(levels, Col(w, c), Row(w, c), gray[c])
    ensures levels <= 256 ==> forall c :: 0 <= c < |out| ==> 0 <= out[c] < levels
    ensures levels <= 256 ==> forall c :: 0 <= c < |out| ==>
      -127 <= Clamp255(gray[c] + Threshold(levels, Col(w, c), Row(w, c))) * (levels - 1) - 255 * out[c] <= 127
  {
    var idx := new int[|gray|](_ => 0);
    for y := 0 to h
      invariant DrawnUpTo(levels, w, gray, idx[..], Area(w, y))
    {
      for x := 0 to w
        invariant DrawnUpTo(levels, w, gray, idx[..], Cell(w, x, y))
      {
        CellInGrid(w, h, x, y);
        var pixel := BayerPixel(levels, x, y, gray[Cell(w, x, y)]);
        idx[Cell(w, x, y)] := pixel;
      }
      AreaShift(w, y);
    }
    out := idx[..];
    if levels <= 256 {
      AllInRange(levels, w, gray, out);
    }
  }

  lemma {:induction false} AllInRange(levels: int, w: int, gray: seq<int>, out: seq<int>)
    requires 2 <= levels <= 256 && ErrorLedger.Bytes(gray) && DrawnUpTo(levels, w, gray, out, |out|)
    ensures forall c :: 0 <= c < |out| ==> 0 <= out[c] < levels
    ensures forall c :: 0 <= c < |out| ==>
      -127 <= Clamp255(gray[c] + Threshold(levels, Col(w, c), Row(w, c))) * (levels - 1) - 255 * out[c] <= 127
  {
    hide LevelOf, Threshold, Clamp255;
    forall c | 0 <= c < |out|
      ensures 0 <= out[c] < levels
      ensures -127 <= Clamp255(gray[c] + Threshold(levels, Col(w, c), Row(w, c))) * (levels - 1) - 255 * out[c] <= 127
    {
      IndexIsNearest(levels, Col(w, c), Row(w, c), gray[c]);
    }
  }

  /** The level nearest to the offset gray. */
  lemma {:induction false} IndexIsNearest(levels: int, x: int, y: int, v: int)
    requires 2 <= levels <= 256
    ensures 0 <= BayerIndex(levels, x, y, v) < levels
    ensures -127 <= Clamp255(v + Threshold(levels, x, y)) * (levels - 1) - 255 * BayerIndex(levels, x, y, v) <= 127
  {
    LevelIsNearest(levels, Clamp255(v + Threshold(levels, x, y)));
  }
}
