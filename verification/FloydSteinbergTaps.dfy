/** Where Floyd-Steinberg dithering sends the error of a pixel. */
module FloydSteinbergTaps {
  import opened Grid
  import opened Diffusion

  /** Ahead, and the three pixels below, in the order the code spreads to them. */
  const TAPS: seq<Tap> := [Tap(1, 0), Tap(-1, 1), Tap(0, 1), Tap(1, 1)]

  /** Sixteenths of the error each tap receives. */
  const WEIGHTS: seq<int> := [7, 3, 5, 1]

  lemma {:induction false} TapsCausal()
    ensures Causal(TAPS)
  {
  }

  /** Seven sixteenths go to the pixel that is scanned next, five straight below, three below the pixel
      scanned before and one below the next, in either scan direction. */
  lemma {:induction false} SharesGo<T>(d: Diffuser<T>, x: int, y: int)
    requires d.taps == TAPS
    ensures var next, last := if LeftToRight(y) then x + 1 else x - 1, if LeftToRight(y) then x - 1 else x + 1;
      && Target(d, 0, x, y) == (next, y) && WEIGHTS[0] == 7
      && Target(d, 1, x, y) == (last, y + 1) && WEIGHTS[1] == 3
      && Target(d, 2, x, y) == (x, y + 1) && WEIGHTS[2] == 5
      && Target(d, 3, x, y) == (next, y + 1) && WEIGHTS[3] == 1
  {
  }
}
