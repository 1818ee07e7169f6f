/** Whole-run numeric facts about integer diffusers: how far a cell can drift from its input,
    and where every unit of error goes. */
module ErrorLedger {
  import opened Grid
  import opened Diffusion
  import opened Arithmetic


  function Total(caps: seq<nat>, k: nat): (r: int)
    requires k <= |caps|
    ensures 0 <= r
    decreases |caps| - k
  {
    if k == |caps| then 0 else caps[k] + Total(caps, k + 1)
  }

  /** The share of tap k never exceeds caps[k], as long as the pushing pixel itself stays within
      the sum of all caps of a byte, and adding in i16 range is exact. */
  ghost predicate Tame(d: Diffuser<int>, caps: seq<nat>) {
    && |caps| == |d.taps|
    && 255 + 2 * Total(caps, 0) <= I16_MAX
    && (forall k: int, v: int :: 0 <= k < |d.taps| && -Total(caps, 0) <= v <= 255 + Total(caps, 0) ==>
          -caps[k] <= d.share(k, v) <= caps[k])
    && (forall a, b :: I16_MIN <= a + b <= I16_MAX ==> d.add(a, b) == a + b)
  }

  predicate Bytes(px: seq<int>) {
    forall i :: 0 <= i < |px| ==> 0 <= px[i] <= 255
  }

  lemma {:induction false} TotalShrinks(caps: seq<nat>, k: nat)
    requires k <= |caps|
    ensures Total(caps, k) <= Total(caps, 0)
  {
    if k > 0 {
      TotalShrinks(caps, k - 1);
    }
  }

  /** At every moment, every cell is within the caps of its input: nothing is ever clamped by the
      buffer's own width. */
  lemma {:induction false} HeldBounded(d: Diffuser<int>, caps: seq<nat>, img: Image<int>, x: int, y: int,
                                       ty: int, ti: int, k: nat)
    requires img.Valid() && Bytes(img.px) && Tame(d, caps)
    requires InBounds(img.w, img.h, x, y) && k <= |d.taps|
    ensures img.At(x, y) - Total(caps, k) <= Held(d, img, x, y, ty, ti, k) <= img.At(x, y) + Total(caps, k)
    ensures 0 <= img.At(x, y) <= 255
    decreases ty, ti, |d.taps| - k
  {
    CellInGrid(img.w, img.h, x, y);
    if k < |d.taps| {
      HeldBounded(d, caps, img, x, y, ty, ti, k + 1);
      TotalShrinks(caps, k);
      var (sx, sy) := Source(d, k, x, y);
      if InBounds(img.w, img.h, sx, sy) && Visited(img.w, sx, sy, ty, ti) {
        HeldBounded(d, caps, img, sx, sy, sy, Serpentine(img.w, sy, sx), 0);
        var v := Value(d, img, sx, sy);
        assert -caps[k] <= d.share(k, v) <= caps[k];
      }
    }
  }

  // ---- Conservation ----

  function Sum(s: seq<int>): int {
    if s == [] then 0 else s[0] + Sum(s[1..])
  }

  lemma {:induction false} SumUpdate(s: seq<int>, i: nat, v: int)
    requires i < |s|
    ensures Sum(s[i := v]) == Sum(s) - s[i] + v
  {
    if i == 0 {
      assert s[0 := v][1..] == s[1..];
    } else {
      assert s[i := v][1..] == s[1..][i - 1 := v];
      SumUpdate(s[1..], i - 1, v);
    }
  }

  /** What a pixel at (x, y) holding v pushes to pixels inside the image through taps k and later. */
  function Pushed(d: Diffuser<int>, w: int, h: int, x: int, y: int, v: int, k: nat): int
    requires k <= |d.taps|
    decreases |d.taps| - k
  {
    if k == |d.taps| then 0
    else
      var t := Target(d, k, x, y);
      (if InBounds(w, h, t.0, t.1) then d.share(k, v) else 0) + Pushed(d, w, h, x, y, v, k + 1)
  }

  /** What a visited pixel keeps: its value less what it pushed on. */
  ghost function Settled(d: Diffuser<int>, img: Image<int>, x: int, y: int): int
    requires img.Valid() && InBounds(img.w, img.h, x, y)
  {
    var v := Value(d, img, x, y);
    v - Pushed(d, img.w, img.h, x, y, v, 0)
  }

  /** One entry per pixel: what a visited pixel keeps, what an unvisited cell holds. */
  ghost function Entry(d: Diffuser<int>, img: Image<int>, x: int, y: int, ty: int, ti: int): int
    requires img.Valid() && InBounds(img.w, img.h, x, y)
  {
    if Visited(img.w, x, y, ty, ti) then Settled(d, img, x, y) else Held(d, img, x, y, ty, ti, 0)
  }

  ghost function Ledger(d: Diffuser<int>, img: Image<int>, ty: int, ti: int): (b: seq<int>)
    requires img.Valid()
    ensures |b| == |img.px|
  {
    seq(Area(img.w, img.h), c requires 0 <= c < Area(img.w, img.h) =>
      GridOfCell(img.w, img.h, c);
      Entry(d, img, Col(img.w, c), Row(img.w, c), ty, ti))
  }

  lemma {:induction false} LedgerAt(d: Diffuser<int>, img: Image<int>, x: int, y: int, ty: int, ti: int)
    requires img.Valid() && InBounds(img.w, img.h, x, y)
    ensures 0 <= Cell(img.w, x, y) < Area(img.w, img.h)
    ensures Ledger(d, img, ty, ti)[Cell(img.w, x, y)] == Entry(d, img, x, y, ty, ti)
  {
    CellInGrid(img.w, img.h, x, y);
  }

  /** Adding to every cell that tap j and later reach is exact. */
  ghost predicate ExactOn(d: Diffuser<int>, w: int, h: int, b: seq<int>, x: int, y: int, v: int, k: nat)
    requires |b| == Area(w, h)
  {
    forall j :: k <= j < |d.taps| ==>
      var t := Target(d, j, x, y);
      InBounds(w, h, t.0, t.1) ==>
        0 <= Cell(w, t.0, t.1) < |b| &&
        d.add(b[Cell(w, t.0, t.1)], d.share(j, v)) == b[Cell(w, t.0, t.1)] + d.share(j, v)
  }

  lemma {:induction false} ScatterSum(d: Diffuser<int>, w: int, h: int, b: seq<int>, x: int, y: int, v: int, k: nat)
    requires 0 <= w && 0 <= h && |b| == Area(w, h) && k <= |d.taps| && Causal(d.taps)
    requires ExactOn(d, w, h, b, x, y, v, k)
    ensures Sum(Scatter(d, w, h, b, x, y, v, k)) == Sum(b) + Pushed(d, w, h, x, y, v, k)
    decreases |d.taps| - k
  {
    if k < |d.taps| {
      var t := Target(d, k, x, y);
      var b1 := Put(d, w, h, b, t.0, t.1, d.share(k, v));
      if InBounds(w, h, t.0, t.1) {
        CellInGrid(w, h, t.0, t.1);
        SumUpdate(b, Cell(w, t.0, t.1), b1[Cell(w, t.0, t.1)]);
      }
      forall j | k < j < |d.taps|
        ensures var u := Target(d, j, x, y);
          InBounds(w, h, u.0, u.1) ==> 0 <= Cell(w, u.0, u.1) < |b| && b1[Cell(w, u.0, u.1)] == b[Cell(w, u.0, u.1)]
      {
        TargetsDistinct(d, k, j, x, y);
        var u := Target(d, j, x, y);
        if InBounds(w, h, u.0, u.1) {
          CellInGrid(w, h, u.0, u.1);
          if InBounds(w, h, t.0, t.1) {
            CellInGrid(w, h, t.0, t.1);
          }
        }
      }
      ScatterSum(d, w, h, b1, x, y, v, k + 1);
    }
  }

  /** The ledger after visiting (p, q): that entry settles, and its taps are credited. */
  lemma {:induction false} LedgerIsScatter(d: Diffuser<int>, img: Image<int>, p: int, q: int)
    requires img.Valid() && Causal(d.taps) && InBounds(img.w, img.h, p, q)
    ensures var i := Serpentine(img.w, q, p);
      0 <= Cell(img.w, p, q) < Area(img.w, img.h) &&
      Ledger(d, img, q, i + 1) ==
        Scatter(d, img.w, img.h, Ledger(d, img, q, i)[Cell(img.w, p, q) := Settled(d, img, p, q)],
                p, q, Value(d, img, p, q), 0)
  {
    var i := Serpentine(img.w, q, p);
    CellInGrid(img.w, img.h, p, q);
    var l := Ledger(d, img, q, i)[Cell(img.w, p, q) := Settled(d, img, p, q)];
    var after, next := Scatter(d, img.w, img.h, l, p, q, Value(d, img, p, q), 0), Ledger(d, img, q, i + 1);
    forall c | 0 <= c < |next|
      ensures after[c] == next[c]
    {
      GridOfCell(img.w, img.h, c);
      LedgerIsScatterAt(d, img, p, q, Col(img.w, c), Row(img.w, c));
    }
    SameSeq(after, next);
  }

  lemma {:induction false} SameSeq(a: seq<int>, b: seq<int>)
    requires |a| == |b| && forall c :: 0 <= c < |a| ==> a[c] == b[c]
    ensures a == b
  {
  }

  lemma {:induction false} LedgerIsScatterAt(d: Diffuser<int>, img: Image<int>, p: int, q: int, x: int, y: int)
    requires img.Valid() && Causal(d.taps) && InBounds(img.w, img.h, p, q) && InBounds(img.w, img.h, x, y)
    requires 0 <= Cell(img.w, p, q) < Area(img.w, img.h) && 0 <= Cell(img.w, x, y) < Area(img.w, img.h)
    ensures var i := Serpentine(img.w, q, p);
      Ledger(d, img, q, i + 1)[Cell(img.w, x, y)] ==
        Scatter(d, img.w, img.h, Ledger(d, img, q, i)[Cell(img.w, p, q) := Settled(d, img, p, q)],
                p, q, Value(d, img, p, q), 0)[Cell(img.w, x, y)]
  {
    var i := Serpentine(img.w, q, p);
    var l := Ledger(d, img, q, i)[Cell(img.w, p, q) := Settled(d, img, p, q)];
    ScatterAt(d, img.w, img.h, l, p, q, Value(d, img, p, q), 0, x, y);
    LedgerAt(d, img, x, y, q, i);
    LedgerAt(d, img, x, y, q, i + 1);
    CellInGrid(img.w, img.h, p, q);
    CellInGrid(img.w, img.h, x, y);
    if k :| 0 <= k < |d.taps| && Target(d, k, p, q) == (x, y) {
      TargetUnvisited(d, img.w, img.h, k, p, q);
      HeldHit(d, img, p, q, x, y, k);
    } else {
      HeldMiss(d, img, p, q, x, y);
      EntryKept(d, img, p, q, x, y);
    }
  }

  /** A cell that is neither visited now nor pushed onto keeps its entry. */
  lemma {:induction false} EntryKept(d: Diffuser<int>, img: Image<int>, p: int, q: int, x: int, y: int)
    requires img.Valid() && InBounds(img.w, img.h, p, q) && InBounds(img.w, img.h, x, y)
    requires var i := Serpentine(img.w, q, p);
      Held(d, img, x, y, q, i + 1, 0) == Held(d, img, x, y, q, i, 0)
    ensures var i := Serpentine(img.w, q, p);
      Entry(d, img, x, y, q, i + 1) == if (x, y) == (p, q) then Settled(d, img, p, q) else Entry(d, img, x, y, q, i)
  {
  }

  lemma {:induction false} LedgerStep(d: Diffuser<int>, caps: seq<nat>, img: Image<int>, p: int, q: int)
    requires img.Valid() && Bytes(img.px) && Causal(d.taps) && Tame(d, caps) && InBounds(img.w, img.h, p, q)
    ensures var i := Serpentine(img.w, q, p);
      Sum(Ledger(d, img, q, i + 1)) == Sum(Ledger(d, img, q, i))
  {
    var i := Serpentine(img.w, q, p);
    var v := Value(d, img, p, q);
    var b := Ledger(d, img, q, i);
    LedgerIsScatter(d, img, p, q);
    LedgerAt(d, img, p, q, q, i);
    var l := b[Cell(img.w, p, q) := Settled(d, img, p, q)];
    SumUpdate(b, Cell(img.w, p, q), Settled(d, img, p, q));
    forall j | 0 <= j < |d.taps|
      ensures var t := Target(d, j, p, q);
        InBounds(img.w, img.h, t.0, t.1) ==>
          0 <= Cell(img.w, t.0, t.1) < |b| &&
          d.add(l[Cell(img.w, t.0, t.1)], d.share(j, v)) == l[Cell(img.w, t.0, t.1)] + d.share(j, v)
    {
      var t := Target(d, j, p, q);
      if InBounds(img.w, img.h, t.0, t.1) {
        ShareExact(d, caps, img, p, q, j);
        LedgerAt(d, img, t.0, t.1, q, i);
        CellInGrid(img.w, img.h, t.0, t.1);
        CellInGrid(img.w, img.h, p, q);
        TargetUnvisited(d, img.w, img.h, j, p, q);
      }
    }
    ScatterSum(d, img.w, img.h, l, p, q, v, 0);
  }

  /** The addition that credits a tap never leaves i16, so a saturating add never saturates. */
  lemma {:induction false} ShareExact(d: Diffuser<int>, caps: seq<nat>, img: Image<int>, p: int, q: int, j: nat)
    requires img.Valid() && Bytes(img.px) && Causal(d.taps) && Tame(d, caps) && InBounds(img.w, img.h, p, q)
    requires j < |d.taps|
    requires var t := Target(d, j, p, q); InBounds(img.w, img.h, t.0, t.1)
    ensures var t := Target(d, j, p, q);
      var held := Held(d, img, t.0, t.1, q, Serpentine(img.w, q, p), 0);
      var share := d.share(j, Value(d, img, p, q));
      && I16_MIN <= held + share <= I16_MAX
      && d.add(held, share) == held + share
  {
    var t := Target(d, j, p, q);
    var i := Serpentine(img.w, q, p);
    HeldBounded(d, caps, img, p, q, q, i, 0);
    HeldBounded(d, caps, img, t.0, t.1, q, i, 0);
    assert -caps[j] <= d.share(j, Value(d, img, p, q)) <= caps[j];
    CapInTotal(caps, j);
  }

  lemma {:induction false} CapInTotal(caps: seq<nat>, j: nat)
    requires j < |caps|
    ensures caps[j] <= Total(caps, 0)
  {
    TotalShrinks(caps, j);
  }

  /** Nothing is lost or made at any step of the scan: kept parts of visited pixels plus the
      buffer of unvisited ones always add up to the input. */
  lemma {:induction false} LedgerConserved(d: Diffuser<int>, caps: seq<nat>, img: Image<int>, ty: nat, ti: nat)
    requires img.Valid() && Bytes(img.px) && Causal(d.taps) && Tame(d, caps)
    requires ty <= img.h && ti <= img.w && (ty == img.h ==> ti == 0)
    ensures Sum(Ledger(d, img, ty, ti)) == Sum(img.px)
    decreases ty, ti
  {
    if ti > 0 {
      LedgerConserved(d, caps, img, ty, ti - 1);
      LedgerStep(d, caps, img, Serpentine(img.w, ty, ti - 1), ty);
    } else if ty > 0 {
      LedgerConserved(d, caps, img, ty - 1, img.w);
      LedgerRowEnd(d, img, ty - 1);
    } else {
      LedgerStart(d, img);
    }
  }

  lemma {:induction false} LedgerRowEnd(d: Diffuser<int>, img: Image<int>, y: nat)
    requires img.Valid()
    ensures Ledger(d, img, y, img.w) == Ledger(d, img, y + 1, 0)
  {
    forall c | 0 <= c < Area(img.w, img.h)
      ensures Ledger(d, img, y, img.w)[c] == Ledger(d, img, y + 1, 0)[c]
    {
      GridOfCell(img.w, img.h, c);
      EntryRowEnd(d, img, Col(img.w, c), Row(img.w, c), y);
    }
  }

  lemma {:induction false} EntryRowEnd(d: Diffuser<int>, img: Image<int>, x: int, y: int, ty: nat)
    requires img.Valid() && InBounds(img.w, img.h, x, y)
    ensures Entry(d, img, x, y, ty, img.w) == Entry(d, img, x, y, ty + 1, 0)
  {
    HeldSameSources(d, img, x, y, ty, img.w, ty + 1, 0, 0);
  }

  lemma {:induction false} LedgerStart(d: Diffuser<int>, img: Image<int>)
    requires img.Valid()
    ensures Ledger(d, img, 0, 0) == img.px
  {
    BufferStart(d, img);
    forall c | 0 <= c < Area(img.w, img.h)
      ensures Ledger(d, img, 0, 0)[c] == img.px[c]
    {
      GridOfCell(img.w, img.h, c);
      BufferAt(d, img, Col(img.w, c), Row(img.w, c), 0, 0);
    }
  }
}
