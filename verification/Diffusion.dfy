/** Error diffusion in general: what every cell of the working buffer holds at every moment of a
    serpentine scan, given as a gather recurrence that never mentions a buffer.

    A diffuser pushes a share of each visited pixel's error onto later pixels, in place. Here the
    value of a cell is instead defined by looking back at the pixels that push onto it. The two
    agree at every step (`ScatterIsGather`), for any value type and any way of adding a share. */
module Diffusion {
  import opened Grid

  /** A neighbour, dx pixels ahead in scan direction and dy rows below. */
  datatype Tap = Tap(dx: int, dy: int)

  /** Taps in the order the code pushes to them, how a share is added to a cell, and the share
      that a pixel holding value v pushes through tap k. */
  datatype Diffuser<!T> = Diffuser(taps: seq<Tap>, add: (T, T) -> T, share: (int, T) -> T)

  datatype Image<T> = Image(w: int, h: int, px: seq<T>) {
    predicate Valid() {
      0 <= w && 0 <= h && |px| == Area(w, h)
    }

    function At(x: int, y: int): T
      requires Valid() && InBounds(w, h, x, y)
    {
      CellInGrid(w, h, x, y);
      px[Cell(w, x, y)]
    }
  }

  /** Shares reach a pixel only from pixels visited earlier, and the last tap's share arrives
      first: each tap points forward, and later taps point strictly further ahead. */
  predicate Causal(taps: seq<Tap>) {
    && (forall k :: 0 <= k < |taps| ==> Forward(taps[k]))
    && (forall j, k :: 0 <= j < k < |taps| ==> Nearer(taps[j], taps[k]))
  }

  predicate Forward(t: Tap) {
    t.dy > 0 || (t.dy == 0 && t.dx > 0)
  }

  /** Every row below is scanned back, so "further ahead" is by row, then against dx. */
  predicate Nearer(a: Tap, b: Tap) {
    a.dy < b.dy || (a.dy == b.dy && a.dx < b.dx)
  }

  /** The pixel whose k-th tap is (x, y). */
  function Source(d: Diffuser, k: int, x: int, y: int): (int, int)
    requires 0 <= k < |d.taps|
  {
    var sy := y - d.taps[k].dy;
    (Ahead(x, sy, -d.taps[k].dx), sy)
  }

  function Target(d: Diffuser, k: int, x: int, y: int): (int, int)
    requires 0 <= k < |d.taps|
  {
    (Ahead(x, y, d.taps[k].dx), y + d.taps[k].dy)
  }

  /** What cell (x, y) holds at time (ty, ti) counting only taps k and later: the input value,
      plus one share from each pixel visited so far that pushes onto this cell. */
  ghost function Held<T>(d: Diffuser<T>, img: Image<T>, x: int, y: int, ty: int, ti: int, k: nat): T
    requires img.Valid() && InBounds(img.w, img.h, x, y) && k <= |d.taps|
    decreases ty, ti, |d.taps| - k
  {
    if k == |d.taps| then img.At(x, y)
    else
      var rest := Held(d, img, x, y, ty, ti, k + 1);
      var (sx, sy) := Source(d, k, x, y);
      if InBounds(img.w, img.h, sx, sy) && Visited(img.w, sx, sy, ty, ti)
      then d.add(rest, d.share(k, Value(d, img, sx, sy)))
      else rest
  }

  /** What (x, y) holds when it is visited. */
  ghost function Value<T>(d: Diffuser<T>, img: Image<T>, x: int, y: int): T
    requires img.Valid() && InBounds(img.w, img.h, x, y)
    decreases y, Serpentine(img.w, y, x), |d.taps| + 1
  {
    Held(d, img, x, y, y, Serpentine(img.w, y, x), 0)
  }

  /** The whole working buffer at time (ty, ti). */
  ghost function Buffer<T>(d: Diffuser<T>, img: Image<T>, ty: int, ti: int): (b: seq<T>)
    requires img.Valid()
    ensures |b| == |img.px|
  {
    seq(Area(img.w, img.h), c requires 0 <= c < Area(img.w, img.h) =>
      GridOfCell(img.w, img.h, c);
      Held(d, img, Col(img.w, c), Row(img.w, c), ty, ti, 0))
  }

  lemma {:induction false} BufferAt<T>(d: Diffuser<T>, img: Image<T>, x: int, y: int, ty: int, ti: int)
    requires img.Valid() && InBounds(img.w, img.h, x, y)
    ensures 0 <= Cell(img.w, x, y) < |img.px|
    ensures Buffer(d, img, ty, ti)[Cell(img.w, x, y)] == Held(d, img, x, y, ty, ti, 0)
  {
    CellInGrid(img.w, img.h, x, y);
  }

  // ---- The in-place step ----

  /** Add a share to one cell, or do nothing when it lies outside the image. */
  function Put<T>(d: Diffuser<T>, w: int, h: int, b: seq<T>, x: int, y: int, amount: T): (r: seq<T>)
    requires 0 <= w && 0 <= h && |b| == Area(w, h)
    ensures |r| == |b|
  {
    if InBounds(w, h, x, y) then
      CellInGrid(w, h, x, y);
      b[Cell(w, x, y) := d.add(b[Cell(w, x, y)], amount)]
    else b
  }

  /** Visit (x, y), holding v: push its shares through taps k, k + 1, ... in code order. */
  function Scatter<T>(d: Diffuser<T>, w: int, h: int, b: seq<T>, x: int, y: int, v: T, k: nat): (r: seq<T>)
    requires 0 <= w && 0 <= h && |b| == Area(w, h) && k <= |d.taps|
    ensures |r| == |b|
    decreases |d.taps| - k
  {
    if k == |d.taps| then b
    else
      var t := Target(d, k, x, y);
      Scatter(d, w, h, Put(d, w, h, b, t.0, t.1, d.share(k, v)), x, y, v, k + 1)
  }

  /** The buffers bs[k] met along the way: each is the one before with tap k's share put in. */
  ghost predicate PutOneByOne<T(!new)>(d: Diffuser<T>, w: int, h: int, bs: seq<seq<T>>, x: int, y: int, v: T)
    requires 0 <= w && 0 <= h
  {
    && |bs| == |d.taps| + 1
    && (forall k :: 0 <= k < |bs| ==> |bs[k]| == Area(w, h))
    && (forall k :: 0 <= k < |d.taps| ==>
          bs[k + 1] == Put(d, w, h, bs[k], Target(d, k, x, y).0, Target(d, k, x, y).1, d.share(k, v)))
  }

  lemma {:induction false} ScatterOneByOne<T(!new)>(d: Diffuser<T>, w: int, h: int, bs: seq<seq<T>>,
                                                    x: int, y: int, v: T, k: nat)
    requires 0 <= w && 0 <= h && k <= |d.taps| && PutOneByOne(d, w, h, bs, x, y, v)
    ensures Scatter(d, w, h, bs[k], x, y, v, k) == bs[|d.taps|]
    decreases |d.taps| - k
  {
    if k < |d.taps| {
      ScatterOneByOne(d, w, h, bs, x, y, v, k + 1);
    }
  }

  lemma {:induction false} TargetSource(d: Diffuser, k: int, x: int, y: int, p: int, q: int)
    requires 0 <= k < |d.taps|
    ensures Target(d, k, p, q) == (x, y) <==> Source(d, k, x, y) == (p, q)
  {
  }

  lemma {:induction false} TargetsDistinct(d: Diffuser, j: int, k: int, x: int, y: int)
    requires Causal(d.taps) && 0 <= j < k < |d.taps|
    ensures Target(d, j, x, y) != Target(d, k, x, y)
  {
    assert Nearer(d.taps[j], d.taps[k]);
  }

  /** A tap lands on a pixel not yet visited, and not on the pixel being visited. */
  lemma {:induction false} TargetUnvisited(d: Diffuser, w: int, h: int, k: int, x: int, y: int)
    requires Causal(d.taps) && 0 <= k < |d.taps| && InBounds(w, h, x, y)
    ensures var t := Target(d, k, x, y);
      InBounds(w, h, t.0, t.1) ==> t != (x, y) && !Visited(w, t.0, t.1, y, Serpentine(w, y, x) + 1)
  {
    assert Forward(d.taps[k]);
  }

  /** Pixels pushing onto one cell are visited in reverse tap order. */
  lemma {:induction false} SourceOrder(d: Diffuser, w: int, h: int, j: int, k: int, x: int, y: int)
    requires Causal(d.taps) && 0 <= j < k < |d.taps|
    ensures var (jx, jy) := Source(d, j, x, y); var (kx, ky) := Source(d, k, x, y);
      InBounds(w, h, jx, jy) && InBounds(w, h, kx, ky) ==>
        !Visited(w, jx, jy, ky, Serpentine(w, ky, kx) + 1)
  {
    assert Nearer(d.taps[j], d.taps[k]);
  }

  // ---- How Held changes with time ----

  /** Held depends on time only through which of the cell's sources have been visited. */
  lemma {:induction false} HeldSameSources<T>(d: Diffuser<T>, img: Image<T>, x: int, y: int,
                                              ty: int, ti: int, uy: int, ui: int, k: nat)
    requires img.Valid() && InBounds(img.w, img.h, x, y) && k <= |d.taps|
    requires forall j :: k <= j < |d.taps| ==>
      var (sx, sy) := Source(d, j, x, y);
      InBounds(img.w, img.h, sx, sy) ==> (Visited(img.w, sx, sy, ty, ti) <==> Visited(img.w, sx, sy, uy, ui))
    ensures Held(d, img, x, y, ty, ti, k) == Held(d, img, x, y, uy, ui, k)
    decreases |d.taps| - k
  {
    if k < |d.taps| {
      HeldSameSources(d, img, x, y, ty, ti, uy, ui, k + 1);
    }
  }

  /** One tap looked back through. */
  lemma {:induction false} HeldOneTap<T>(d: Diffuser<T>, img: Image<T>, x: int, y: int, ty: int, ti: int, k: nat,
                                         sx: int, sy: int)
    requires img.Valid() && InBounds(img.w, img.h, x, y) && k < |d.taps| && (sx, sy) == Source(d, k, x, y)
    ensures Held(d, img, x, y, ty, ti, k) ==
      var rest := Held(d, img, x, y, ty, ti, k + 1);
      if InBounds(img.w, img.h, sx, sy) && Visited(img.w, sx, sy, ty, ti)
      then d.add(rest, d.share(k, Value(d, img, sx, sy)))
      else rest
    ensures Held(d, img, x, y, ty, ti, |d.taps|) == img.At(x, y)
  {
  }

  /** None of taps k .. m contributes yet. */
  lemma {:induction false} HeldSkip<T>(d: Diffuser<T>, img: Image<T>, x: int, y: int, ty: int, ti: int,
                                       k: nat, m: nat)
    requires img.Valid() && InBounds(img.w, img.h, x, y) && k <= m <= |d.taps|
    requires forall j :: k <= j < m ==>
      var (sx, sy) := Source(d, j, x, y);
      !(InBounds(img.w, img.h, sx, sy) && Visited(img.w, sx, sy, ty, ti))
    ensures Held(d, img, x, y, ty, ti, k) == Held(d, img, x, y, ty, ti, m)
    decreases m - k
  {
    if k < m {
      HeldSkip(d, img, x, y, ty, ti, k + 1, m);
    }
  }

  /** Once visited, a pixel is never pushed onto again. */
  lemma {:induction false} HeldFrozen<T>(d: Diffuser<T>, img: Image<T>, x: int, y: int, ty: int, ti: int)
    requires img.Valid() && InBounds(img.w, img.h, x, y) && Causal(d.taps)
    requires ty > y || (ty == y && ti >= Serpentine(img.w, y, x))
    ensures Held(d, img, x, y, ty, ti, 0) == Value(d, img, x, y)
  {
    forall j | 0 <= j < |d.taps|
      ensures var (sx, sy) := Source(d, j, x, y);
        InBounds(img.w, img.h, sx, sy) ==>
          Visited(img.w, sx, sy, ty, ti) && Visited(img.w, sx, sy, y, Serpentine(img.w, y, x))
    {
      assert Forward(d.taps[j]);
    }
    HeldSameSources(d, img, x, y, ty, ti, y, Serpentine(img.w, y, x), 0);
  }

  /** Visiting (p, q) adds its share to the cell each tap names ... */
  lemma {:induction false} HeldHit<T>(d: Diffuser<T>, img: Image<T>, p: int, q: int, x: int, y: int, k: nat)
    requires img.Valid() && Causal(d.taps) && k < |d.taps|
    requires InBounds(img.w, img.h, p, q) && InBounds(img.w, img.h, x, y)
    requires Target(d, k, p, q) == (x, y)
    ensures var i := Serpentine(img.w, q, p);
      Held(d, img, x, y, q, i + 1, 0)
      == d.add(Held(d, img, x, y, q, i, 0), d.share(k, Value(d, img, p, q)))
  {
    var i := Serpentine(img.w, q, p);
    TargetSource(d, k, x, y, p, q);
    forall j | 0 <= j < |d.taps| && j != k
      ensures var (sx, sy) := Source(d, j, x, y);
        InBounds(img.w, img.h, sx, sy) ==>
          if j < k then !Visited(img.w, sx, sy, q, i + 1)
          else Visited(img.w, sx, sy, q, i)
    {
      var (sx, sy) := Source(d, j, x, y);
      if InBounds(img.w, img.h, sx, sy) {
        SourceOrder(d, img.w, img.h, if j < k then j else k, if j < k then k else j, x, y);
      }
    }
    HeldSkip(d, img, x, y, q, i + 1, 0, k);
    HeldSkip(d, img, x, y, q, i, 0, k + 1);
    HeldSameSources(d, img, x, y, q, i + 1, q, i, k + 1);
  }

  /** ... and changes no other cell. */
  lemma {:induction false} HeldMiss<T>(d: Diffuser<T>, img: Image<T>, p: int, q: int, x: int, y: int)
    requires img.Valid() && InBounds(img.w, img.h, p, q) && InBounds(img.w, img.h, x, y)
    requires forall k :: 0 <= k < |d.taps| ==> Target(d, k, p, q) != (x, y)
    ensures var i := Serpentine(img.w, q, p);
      Held(d, img, x, y, q, i + 1, 0) == Held(d, img, x, y, q, i, 0)
  {
    var i := Serpentine(img.w, q, p);
    assert Held(d, img, x, y, q, i + 1, 0) == Held(d, img, x, y, q, i, 0) by {
      forall j | 0 <= j < |d.taps|
        ensures var (sx, sy) := Source(d, j, x, y);
          InBounds(img.w, img.h, sx, sy) ==>
            (Visited(img.w, sx, sy, q, i + 1) <==> Visited(img.w, sx, sy, q, i))
      {
        assert Target(d, j, p, q) != (x, y);
        TargetSource(d, j, x, y, p, q);
      }
      HeldSameSources(d, img, x, y, q, i + 1, q, i, 0);
    }
  }

  lemma {:induction false} HeldRowEnd<T>(d: Diffuser<T>, img: Image<T>, y: int)
    requires img.Valid()
    ensures Buffer(d, img, y, img.w) == Buffer(d, img, y + 1, 0)
  {
    forall c | 0 <= c < Area(img.w, img.h)
      ensures Buffer(d, img, y, img.w)[c] == Buffer(d, img, y + 1, 0)[c]
    {
      GridOfCell(img.w, img.h, c);
      var cx, cy := Col(img.w, c), Row(img.w, c);
      HeldSameSources(d, img, cx, cy, y, img.w, y + 1, 0, 0);
      BufferAt(d, img, cx, cy, y, img.w);
      BufferAt(d, img, cx, cy, y + 1, 0);
    }
  }

  /** Before the scan the buffer is the input. */
  lemma {:induction false} BufferStart<T>(d: Diffuser<T>, img: Image<T>)
    requires img.Valid()
    ensures Buffer(d, img, 0, 0) == img.px
  {
    forall c | 0 <= c < Area(img.w, img.h)
      ensures Buffer(d, img, 0, 0)[c] == img.px[c]
    {
      GridOfCell(img.w, img.h, c);
      HeldSkip(d, img, Col(img.w, c), Row(img.w, c), 0, 0, 0, |d.taps|);
      BufferAt(d, img, Col(img.w, c), Row(img.w, c), 0, 0);
    }
  }

  // ---- Scattering in place computes the gather recurrence ----

  lemma {:induction false} ScatterAt<T>(d: Diffuser<T>, w: int, h: int, b: seq<T>, p: int, q: int, v: T, k: nat,
                                        x: int, y: int)
    requires 0 <= w && 0 <= h && |b| == Area(w, h) && k <= |d.taps| && Causal(d.taps)
    requires InBounds(w, h, x, y) && 0 <= Cell(w, x, y) < Area(w, h)
    ensures forall j :: k <= j < |d.taps| && Target(d, j, p, q) == (x, y) ==>
      Scatter(d, w, h, b, p, q, v, k)[Cell(w, x, y)] == d.add(b[Cell(w, x, y)], d.share(j, v))
    ensures (forall j :: k <= j < |d.taps| ==> Target(d, j, p, q) != (x, y)) ==>
      Scatter(d, w, h, b, p, q, v, k)[Cell(w, x, y)] == b[Cell(w, x, y)]
    decreases |d.taps| - k
  {
    if k < |d.taps| {
      var t := Target(d, k, p, q);
      var b1 := Put(d, w, h, b, t.0, t.1, d.share(k, v));
      ScatterAt(d, w, h, b1, p, q, v, k + 1, x, y);
      if InBounds(w, h, t.0, t.1) {
        CellInGrid(w, h, t.0, t.1);
        CellInGrid(w, h, x, y);
      }
      forall j | k < j < |d.taps|
        ensures Target(d, j, p, q) != t
      {
        TargetsDistinct(d, k, j, p, q);
      }
    }
  }

  /** One in-place visit, started from the buffer of that moment, gives the buffer of the next
      moment, and the visited cell holds its gathered value. */
  lemma {:induction false} ScatterIsGather<T>(d: Diffuser<T>, img: Image<T>, p: int, q: int)
    requires img.Valid() && Causal(d.taps) && InBounds(img.w, img.h, p, q)
    ensures var i := Serpentine(img.w, q, p);
      var b := Buffer(d, img, q, i);
      && 0 <= Cell(img.w, p, q) < |b| && b[Cell(img.w, p, q)] == Value(d, img, p, q)
      && Scatter(d, img.w, img.h, b, p, q, Value(d, img, p, q), 0) == Buffer(d, img, q, i + 1)
  {
    var i := Serpentine(img.w, q, p);
    var b := Buffer(d, img, q, i);
    BufferAt(d, img, p, q, q, i);
    forall c | 0 <= c < |b|
      ensures Scatter(d, img.w, img.h, b, p, q, Value(d, img, p, q), 0)[c] == Buffer(d, img, q, i + 1)[c]
    {
      GridOfCell(img.w, img.h, c);
      ScatterIsGatherAt(d, img, p, q, Col(img.w, c), Row(img.w, c));
    }
  }

  lemma {:induction false} ScatterIsGatherAt<T>(d: Diffuser<T>, img: Image<T>, p: int, q: int, x: int, y: int)
    requires img.Valid() && Causal(d.taps) && InBounds(img.w, img.h, p, q) && InBounds(img.w, img.h, x, y)
    ensures var i := Serpentine(img.w, q, p);
      0 <= Cell(img.w, x, y) < |img.px| &&
      Scatter(d, img.w, img.h, Buffer(d, img, q, i), p, q, Value(d, img, p, q), 0)[Cell(img.w, x, y)]
      == Buffer(d, img, q, i + 1)[Cell(img.w, x, y)]
  {
    hide Scatter, Buffer, Held;
    var i := Serpentine(img.w, q, p);
    BufferAt(d, img, x, y, q, i);
    BufferAt(d, img, x, y, q, i + 1);
    ScatterAt(d, img.w, img.h, Buffer(d, img, q, i), p, q, Value(d, img, p, q), 0, x, y);
    if k :| 0 <= k < |d.taps| && Target(d, k, p, q) == (x, y) {
      HeldHit(d, img, p, q, x, y, k);
    } else {
      HeldMiss(d, img, p, q, x, y);
    }
  }
}
