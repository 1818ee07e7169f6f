/** Apple PackBits run-length encoding: the greedy encoder, the standard decoder, and what they
    promise each other. */
module PackBits {
  import opened Wrappers

  // ---- The encoding as a function of the bytes still to be packed ----

  /** How far the run of s[0] reaches, at most 128, when its first n bytes are known equal. */
  function RunFrom(s: seq<byte>, n: nat): (r: nat)
    requires 1 <= n <= |s| && n <= 128
    ensures n <= r <= |s| && r <= 128
    decreases 128 - n
  {
    if n < |s| && s[n] == s[0] && n < 128 then RunFrom(s, n + 1) else n
  }

  predicate LooksLikeRun(s: seq<byte>, i: nat) {
    i + 2 < |s| && s[i] == s[i + 1] == s[i + 2]
  }

  /** How far a literal reaches, at most 128, when its first n bytes are taken. */
  function LiteralFrom(s: seq<byte>, n: nat): (r: nat)
    requires 1 <= n <= |s| && n <= 128
    ensures n <= r <= |s| && r <= 128
    decreases 128 - n
  {
    if n < |s| && n < 128 && !LooksLikeRun(s, n) then LiteralFrom(s, n + 1) else n
  }

  lemma {:induction false} RunIsEqual(s: seq<byte>, n: nat)
    requires 1 <= n <= |s| && n <= 128
    ensures forall i :: n <= i < RunFrom(s, n) ==> s[i] == s[0]
    decreases 128 - n
  {
    if n < |s| && s[n] == s[0] && n < 128 {
      RunIsEqual(s, n + 1);
    }
  }

  lemma {:induction false} LiteralStops(s: seq<byte>, n: nat)
    requires 1 <= n <= |s| && n <= 128
    ensures var r := LiteralFrom(s, n);
      && (forall i :: n <= i < r ==> !LooksLikeRun(s, i))
      && (r == 128 || r == |s| || LooksLikeRun(s, r))
    decreases 128 - n
  {
    if n < |s| && n < 128 && !LooksLikeRun(s, n) {
      LiteralStops(s, n + 1);
    }
  }

  /** Count byte of a run of k: the two's complement of 1 - k. */
  function RunHeader(k: nat): byte
    requires 1 <= k <= 128
  {
    (0x101 - k) % 256
  }

  function RunBlock(k: nat, b: byte): (block: seq<byte>)
    requires 1 <= k <= 128
    ensures |block| == 2
  {
    [RunHeader(k), b]
  }

  function LiteralBlock(lit: seq<byte>): (block: seq<byte>)
    requires 1 <= |lit| <= 128
    ensures |block| == 1 + |lit|
  {
    [|lit| - 1] + lit
  }

  function Packed(s: seq<byte>): seq<byte> {
    if s == [] then []
    else
      var run := RunFrom(s, 1);
      if run >= 3 then RunBlock(run, s[0]) + Packed(s[run..])
      else
        var lit := LiteralFrom(s, 1);
        LiteralBlock(s[..lit]) + Packed(s[lit..])
  }

  // ---- The decoder ----

  function Repeat(b: byte, n: nat): (r: seq<byte>)
    ensures |r| == n && forall i :: 0 <= i < n ==> r[i] == b
  {
    seq(n, i => b)
  }

  /** The standard unpacker; None where it would read past the end. */
  function Unpack(p: seq<byte>): Option<seq<byte>> {
    if p == [] then Some([])
    else if p[0] == 0x80 then Unpack(p[1..])
    else if p[0] < 0x80 then
      var len := p[0] + 1;
      if |p| < 1 + len then None
      else
        var rest := Unpack(p[1 + len..]);
        if rest == None then None else Some(p[1..1 + len] + rest.value)
    else if |p| < 2 then None
    else
      var rest := Unpack(p[2..]);
      if rest == None then None else Some(Repeat(p[1], 257 - p[0]) + rest.value)
  }

  // ---- Main results ----

  lemma {:induction false} UnpackRun(b: byte, k: nat, rest: seq<byte>)
    requires 3 <= k <= 128
    ensures Unpack(RunBlock(k, b) + rest) ==
      var u := Unpack(rest); if u == None then None else Some(Repeat(b, k) + u.value)
  {
    assert (RunBlock(k, b) + rest)[2..] == rest;
  }

  lemma {:induction false} UnpackLiteral(lit: seq<byte>, rest: seq<byte>)
    requires 1 <= |lit| <= 128
    ensures Unpack(LiteralBlock(lit) + rest) ==
      var u := Unpack(rest); if u == None then None else Some(lit + u.value)
  {
    var p := LiteralBlock(lit) + rest;
    assert p[1 + |lit|..] == rest && p[1..1 + |lit|] == lit;
  }

  /** A run is seen exactly where the next three bytes are equal. */
  lemma {:induction false} RunIffThreeEqual(s: seq<byte>)
    requires s != []
    ensures RunFrom(s, 1) >= 3 <==> LooksLikeRun(s, 0)
  {
    if LooksLikeRun(s, 0) {
      assert RunFrom(s, 1) == RunFrom(s, 2);
      assert RunFrom(s, 2) == RunFrom(s, 3);
    }
  }

  lemma {:induction false} RunComesBack(s: seq<byte>, rest: seq<byte>)
    requires s != [] && RunFrom(s, 1) >= 3 && Unpack(rest) == Some(s[RunFrom(s, 1)..])
    ensures Unpack(RunBlock(RunFrom(s, 1), s[0]) + rest) == Some(s)
  {
    var run := RunFrom(s, 1);
    UnpackRun(s[0], run, rest);
    RunIsRepeat(s);
  }

  lemma {:induction false} RunIsRepeat(s: seq<byte>)
    requires s != []
    ensures s == Repeat(s[0], RunFrom(s, 1)) + s[RunFrom(s, 1)..]
  {
    RunIsEqual(s, 1);
  }

  lemma {:induction false} LiteralComesBack(s: seq<byte>, lit: nat, rest: seq<byte>)
    requires 1 <= lit <= |s| && lit <= 128 && Unpack(rest) == Some(s[lit..])
    ensures Unpack(LiteralBlock(s[..lit]) + rest) == Some(s)
  {
    UnpackLiteral(s[..lit], rest);
    assert s == s[..lit] + s[lit..];
  }

  /** Every byte string survives packing and unpacking. */
  lemma {:induction false} RoundTrip(s: seq<byte>)
    ensures Unpack(Packed(s)) == Some(s)
    decreases |s|
  {
    if s != [] {
      var run := RunFrom(s, 1);
      if run >= 3 {
        RoundTrip(s[run..]);
        RunComesBack(s, Packed(s[run..]));
      } else {
        var lit := LiteralFrom(s, 1);
        RoundTrip(s[lit..]);
        LiteralComesBack(s, lit, Packed(s[lit..]));
      }
    }
  }

  function Ceil128(n: nat): nat {
    (n + 127) / 128
  }

  /** The worst-case growth is one byte for each 128 begun: a shorter literal is always followed
      by a run, which saves what the literal's header cost, or by the end. */
  lemma {:induction false} ExpansionBound(s: seq<byte>)
    ensures |Packed(s)| <= |s| + Ceil128(|s|)
    decreases |s|
  {
    if s != [] {
      var run := RunFrom(s, 1);
      if run >= 3 {
        ExpansionBound(s[run..]);
      } else {
        var lit := LiteralFrom(s, 1);
        if lit < 128 && lit < |s| {
          RunAfterLiteral(s, lit);
        } else {
          ExpansionBound(s[lit..]);
        }
      }
    }
  }

  /** A literal cut short by a coming run: together they cost no more than their bytes. */
  lemma {:induction false} RunAfterLiteral(s: seq<byte>, lit: nat)
    requires s != [] && RunFrom(s, 1) < 3 && lit == LiteralFrom(s, 1) < |s| && lit < 128
    ensures |Packed(s)| <= |s| + Ceil128(|s|)
    decreases |s|, 0
  {
    var t := s[lit..];
    LiteralStops(s, 1);
    assert LooksLikeRun(t, 0);
    RunIffThreeEqual(t);
    ExpansionBound(t[RunFrom(t, 1)..]);
    assert |Packed(s)| == 1 + lit + |Packed(t)|;
  }

  /** The bound is attained by every input without three equal bytes in a row. */
  lemma {:induction false} BoundAttained(s: seq<byte>)
    requires NoRun(s)
    ensures |Packed(s)| == |s| + Ceil128(|s|)
    decreases |s|
  {
    if s != [] {
      RunIffThreeEqual(s);
      var lit := LiteralFrom(s, 1);
      LiteralStops(s, 1);
      var t := s[lit..];
      assert lit == 128 || lit == |s|;
      forall i: nat | i < |t|
        ensures !LooksLikeRun(t, i)
      {
        assert !LooksLikeRun(s, lit + i);
      }
      BoundAttained(t);
    }
  }

  predicate NoRun(s: seq<byte>) {
    forall i: nat :: i < |s| ==> !LooksLikeRun(s, i)
  }

  /** What the encoder writes, block by block: no no-op header, runs of 3 to 128, literals of 1 to
      128 bytes without three equal in a row, and a literal short of 128 only before a run or the
      end. */
  predicate Tidy(p: seq<byte>) {
    p == [] ||
    if p[0] == 0x80 then false
    else if p[0] < 0x80 then
      var len := p[0] + 1;
      && |p| >= 1 + len
      && NoRun(p[1..1 + len])
      && (len < 128 && |p| > 1 + len ==> p[1 + len] > 0x80)
      && Tidy(p[1 + len..])
    else |p| >= 2 && p[0] <= 0xFE && Tidy(p[2..])
  }

  lemma {:induction false} TidyRun(b: byte, k: nat, rest: seq<byte>)
    requires 3 <= k <= 128 && Tidy(rest)
    ensures Tidy(RunBlock(k, b) + rest)
  {
    assert (RunBlock(k, b) + rest)[2..] == rest;
  }

  lemma {:induction false} TidyLiteral(lit: seq<byte>, rest: seq<byte>)
    requires 1 <= |lit| <= 128 && NoRun(lit) && Tidy(rest)
    requires |lit| < 128 && rest != [] ==> rest[0] > 0x80
    ensures Tidy(LiteralBlock(lit) + rest)
  {
    var p := LiteralBlock(lit) + rest;
    assert p[1 + |lit|..] == rest && p[1..1 + |lit|] == lit;
  }

  lemma {:induction false} PackedTidy(s: seq<byte>)
    ensures Tidy(Packed(s))
    decreases |s|
  {
    if s != [] {
      var run := RunFrom(s, 1);
      if run >= 3 {
        PackedTidy(s[run..]);
        TidyRun(s[0], run, Packed(s[run..]));
      } else {
        var lit := LiteralFrom(s, 1);
        PackedTidy(s[lit..]);
        LiteralHasNoRun(s, lit);
        LiteralStops(s, 1);
        if lit < 128 && lit < |s| {
          assert LooksLikeRun(s[lit..], 0);
          RunIffThreeEqual(s[lit..]);
        }
        TidyLiteral(s[..lit], Packed(s[lit..]));
      }
    }
  }

  lemma {:induction false} LiteralHasNoRun(s: seq<byte>, lit: nat)
    requires s != [] && RunFrom(s, 1) < 3 && lit == LiteralFrom(s, 1)
    ensures NoRun(s[..lit])
  {
    RunIffThreeEqual(s);
    LiteralStops(s, 1);
    forall i: nat | i < lit
      ensures !LooksLikeRun(s[..lit], i)
    {
      assert !LooksLikeRun(s, i);
    }
  }

  /** The one-byte and two-byte row prefixes are wide enough for any row they are used for. */
  lemma {:induction false} PrefixWideEnough(row: seq<byte>)
    ensures |row| <= 250 ==> |Packed(row)| < 0x100
    ensures |row| <= 0x8000 ==> |Packed(row)| < 0x1_0000
    ensures row != [] ==> |Packed(row)| >= 2
  {
    ExpansionBound(row);
  }

  // ---- The encoder ----

  /** Length of the run, and of the literal, that starts at i. */
  function RunLength(s: seq<byte>, i: nat): (r: nat)
    requires i < |s|
    ensures 1 <= r <= 128 && i + r <= |s|
  {
    RunFrom(s[i..], 1)
  }

  function LiteralLength(s: seq<byte>, i: nat): (r: nat)
    requires i < |s|
    ensures 1 <= r <= 128 && i + r <= |s|
  {
    LiteralFrom(s[i..], 1)
  }

  /** out is what packing the first i bytes of input has emitted. */
  ghost predicate PackedSoFar(input: seq<byte>, i: nat, out: seq<byte>)
    requires i <= |input|
  {
    Packed(input) == out + Packed(input[i..])
  }

  lemma {:induction false} PackedEnds(input: seq<byte>, out: seq<byte>)
    ensures PackedSoFar(input, 0, [])
    ensures PackedSoFar(input, |input|, out) ==> out == Packed(input)
  {
    assert input[0..] == input && input[|input|..] == [];
    assert [] + Packed(input) == Packed(input) && out + [] == out;
  }

  lemma {:induction false} EmitRun(input: seq<byte>, i: nat, out: seq<byte>, run: nat)
    requires i < |input| && run == RunLength(input, i) >= 3 && PackedSoFar(input, i, out)
    ensures PackedSoFar(input, i + run, out + RunBlock(run, input[i]))
  {
    assert input[i..][run..] == input[i + run..];
    Assoc(out, RunBlock(run, input[i]), Packed(input[i + run..]));
  }

  lemma {:induction false} EmitLiteral(input: seq<byte>, i: nat, out: seq<byte>, lit: nat)
    requires i < |input| && RunLength(input, i) < 3 && lit == LiteralLength(input, i)
    requires PackedSoFar(input, i, out)
    ensures PackedSoFar(input, i + lit, out + LiteralBlock(input[i..i + lit]))
  {
    assert input[i..][lit..] == input[i + lit..] && input[i..][..lit] == input[i..i + lit];
    Assoc(out, LiteralBlock(input[i..i + lit]), Packed(input[i + lit..]));
  }

  method Pack(input: seq<byte>) returns (out: seq<byte>)
    ensures out == Packed(input)
    ensures Unpack(out) == Some(input)
  {
    out := [];
    var i := 0;
    PackedEnds(input, out);
    while i < |input|
      invariant 0 <= i <= |input|
      invariant PackedSoFar(input, i, out)
    {
      out, i := PackBlock(input, i, out);
    }
    PackedEnds(input, out);
    RoundTrip(input);
  }

  /** One turn of the outer loop: a run of three or more, or a literal. */
  method PackBlock(input: seq<byte>, i: nat, out: seq<byte>) returns (out': seq<byte>, i': nat)
    requires i < |input| && PackedSoFar(input, i, out)
    ensures i < i' <= |input| && PackedSoFar(input, i', out')
  {
    hide *;
    var runLen := TakeRun(input, i);
    if runLen >= 3 {
      out', i' := AppendRun(input, i, out, runLen), i + runLen;
    } else {
      var litLen := TakeLiteral(input, i);
      out', i' := AppendLiteral(input, i, out, litLen), i + litLen;
    }
  }

  function AppendRun(input: seq<byte>, i: nat, out: seq<byte>, run: nat): (out': seq<byte>)
    requires i < |input| && run == RunLength(input, i) >= 3 && PackedSoFar(input, i, out)
    ensures PackedSoFar(input, i + run, out')
  {
    EmitRun(input, i, out, run);
    out + RunBlock(run, input[i])
  }

  function AppendLiteral(input: seq<byte>, i: nat, out: seq<byte>, lit: nat): (out': seq<byte>)
    requires i < |input| && RunLength(input, i) < 3 && lit == LiteralLength(input, i)
    requires PackedSoFar(input, i, out)
    ensures PackedSoFar(input, i + lit, out')
  {
    EmitLiteral(input, i, out, lit);
    out + LiteralBlock(input[i..i + lit])
  }

  method TakeRun(input: seq<byte>, i: nat) returns (runLen: nat)
    requires i < |input|
    ensures runLen == RunLength(input, i)
  {
    ghost var rest := input[i..];
    runLen := 1;
    while i + runLen < |input| && input[i + runLen] == input[i] && runLen < 128
      invariant 1 <= runLen <= 128 && i + runLen <= |input|
      invariant RunFrom(rest, runLen) == RunFrom(rest, 1)
      decreases 128 - runLen
    {
      assert rest[runLen] == input[i + runLen];
      runLen := runLen + 1;
    }
  }

  method TakeLiteral(input: seq<byte>, start: nat) returns (litLen: nat)
    requires start < |input|
    ensures litLen == LiteralLength(input, start)
  {
    ghost var rest := input[start..];
    litLen := 1;
    var i := start + 1;
    while i < |input| && litLen < 128
      invariant i == start + litLen <= |input| && 1 <= litLen <= 128
      invariant LiteralFrom(rest, litLen) == LiteralFrom(rest, 1)
      decreases |input| - i
    {
      var looksLikeRun := i + 2 < |input| && input[i] == input[i + 1] && input[i] == input[i + 2];
      assert looksLikeRun == LooksLikeRun(rest, litLen);
      if looksLikeRun {
        break;
      }
      litLen := litLen + 1;
      i := i + 1;
    }
  }
}
