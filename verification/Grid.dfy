/** Row-major addressing of a width x height grid and the serpentine visiting order. */
module Grid {
  import opened Arithmetic

  predicate InBounds(w: int, h: int, x: int, y: int) {
    0 <= x < w && 0 <= y < h
  }

  /** Cells in h rows of w. Written as a sum so that no proof about the scan multiplies. */
  function Area(w: int, h: int): int
    decreases h
  {
    if h <= 0 then 0 else Area(w, h - 1) + w
  }

  lemma {:induction false} AreaIsProduct(w: int, h: nat)
    ensures Area(w, h) == w * h
  {
    if h > 0 {
      AreaIsProduct(w, h - 1);
      assert w * (h - 1) + w == w * h;
    }
  }

  lemma {:induction false} AreaNonNegative(w: nat, h: int)
    ensures 0 <= Area(w, h)
    decreases h
  {
    if h > 0 {
      AreaNonNegative(w, h - 1);
    }
  }

  /** Index of pixel (x, y) in a row-major buffer: y * w + x. */
  function Cell(w: int, x: int, y: int): int {
    Area(w, y) + x
  }

  /** The row and column of a buffer index. */
  function Row(w: int, c: int): int
    decreases c
  {
    if w <= 0 || c < w then 0 else Row(w, c - w) + 1
  }

  function Col(w: int, c: int): int
    decreases c
  {
    if w <= 0 || c < w then c else Col(w, c - w)
  }

  lemma {:induction false} AreaShift(w: int, y: nat)
    ensures Area(w, y + 1) == Area(w, y) + w
  {
  }

  lemma {:induction false} CellInGrid(w: int, h: int, x: int, y: int)
    requires InBounds(w, h, x, y)
    ensures 0 <= Cell(w, x, y) < Area(w, h)
    ensures Col(w, Cell(w, x, y)) == x && Row(w, Cell(w, x, y)) == y
    decreases h, y
  {
    AreaNonNegative(w, y);
    AreaMonotone(w, y + 1, h);
    RowColOfCell(w, x, y);
  }

  lemma {:induction false} AreaMonotone(w: int, y: nat, h: int)
    requires 0 <= w && y <= h
    ensures Area(w, y) <= Area(w, h)
    decreases h
  {
    if y < h {
      AreaMonotone(w, y, h - 1);
    }
  }

  lemma {:induction false} RowColOfCell(w: int, x: int, y: nat)
    requires 0 <= x < w
    ensures Col(w, Cell(w, x, y)) == x && Row(w, Cell(w, x, y)) == y
    decreases y
  {
    if y > 0 {
      RowColOfCell(w, x, y - 1);
      AreaNonNegative(w, y - 1);
      assert Cell(w, x, y) - w == Cell(w, x, y - 1);
    }
  }

  /** Every buffer index is the index of exactly one pixel. */
  lemma {:induction false} GridOfCell(w: int, h: int, c: int)
    requires 0 <= w && 0 <= c < Area(w, h)
    ensures w > 0
    ensures InBounds(w, h, Col(w, c), Row(w, c))
    ensures Cell(w, Col(w, c), Row(w, c)) == c
    decreases h
  {
    if w == 0 {
      AreaIsProduct(0, h);
    }
    if c >= w {
      GridOfCell(w, h - 1, c - w);
      assert Cell(w, Col(w, c), Row(w, c)) == Cell(w, Col(w, c - w), Row(w, c - w)) + w;
    }
  }

  // ---- Serpentine scan: even rows left to right, odd rows right to left ----

  /** Rows alternate, starting left to right. */
  predicate LeftToRight(y: int)
    decreases y
  {
    y <= 0 || !LeftToRight(y - 1)
  }

  lemma {:induction false} LeftToRightIsEven(y: nat)
    ensures LeftToRight(y) <==> y % 2 == 0
  {
    if y > 0 {
      LeftToRightIsEven(y - 1);
    }
  }

  /** The column visited i-th in row y; also the position at which column i is visited. */
  function Serpentine(w: int, y: int, i: int): int {
    if LeftToRight(y) then i else w - 1 - i
  }

  /** x moved dx steps in the scan direction of row y. */
  function Ahead(x: int, y: int, dx: int): int {
    if LeftToRight(y) then x + dx else x - dx
  }

  /** Whether (x, y) has been visited when the scan is about to visit the ti-th pixel of row ty. */
  predicate Visited(w: int, x: int, y: int, ty: int, ti: int) {
    y < ty || (y == ty && Serpentine(w, y, x) < ti)
  }

  /** Every pixel is visited exactly once: two visits at the same time are the same pixel,
      and each pixel has a visiting time within the scan. */
  lemma {:induction false} SerpentineVisitsOnce(w: int, h: int, x: int, y: int, i: int)
    requires 0 <= i < w && 0 <= y < h
    ensures InBounds(w, h, Serpentine(w, y, i), y)
    ensures Serpentine(w, y, Serpentine(w, y, i)) == i
    ensures InBounds(w, h, x, y) && x != Serpentine(w, y, i) ==> Serpentine(w, y, x) != i
    ensures InBounds(w, h, x, y) ==> !Visited(w, x, y, 0, 0) && Visited(w, x, y, h, 0)
  {
  }

  // ---- Output written one visited pixel at a time ----

  /** Every pixel visited so far shows what pick says. */
  ghost predicate Drawn(w: int, h: int, pick: (int, int) -> int, out: seq<int>, ty: int, ti: int) {
    && |out| == Area(w, h)
    && forall c :: 0 <= c < |out| && Visited(w, Col(w, c), Row(w, c), ty, ti) ==>
         out[c] == pick(Col(w, c), Row(w, c))
  }

  lemma {:induction false} DrawnStep(w: int, h: int, pick: (int, int) -> int, out: seq<int>, x: int, y: int)
    requires InBounds(w, h, x, y) && Drawn(w, h, pick, out, y, Serpentine(w, y, x))
    ensures 0 <= Cell(w, x, y) < Area(w, h)
    ensures Drawn(w, h, pick, out[Cell(w, x, y) := pick(x, y)], y, Serpentine(w, y, x) + 1)
  {
    CellInGrid(w, h, x, y);
    var out1 := out[Cell(w, x, y) := pick(x, y)];
    forall c | 0 <= c < |out| && Visited(w, Col(w, c), Row(w, c), y, Serpentine(w, y, x) + 1)
      ensures out1[c] == pick(Col(w, c), Row(w, c))
    {
      GridOfCell(w, h, c);
      if c != Cell(w, x, y) {
        assert Visited(w, Col(w, c), Row(w, c), y, Serpentine(w, y, x));
      }
    }
  }

  lemma {:induction false} DrawnRowEnd(w: int, h: int, pick: (int, int) -> int, out: seq<int>, y: int)
    requires 0 <= w && Drawn(w, h, pick, out, y, w)
    ensures Drawn(w, h, pick, out, y + 1, 0)
  {
    forall c | 0 <= c < |out| && Visited(w, Col(w, c), Row(w, c), y + 1, 0)
      ensures out[c] == pick(Col(w, c), Row(w, c))
    {
      GridOfCell(w, h, c);
    }
  }
}
