/** Big-endian 16-bit words, and reading them back. */
module BigEndian {
  import opened Wrappers

  type word = w: int | 0 <= w < 0x1_0000

  function Word(v: word): (s: seq<byte>)
    ensures |s| == 2
  {
    [v / 256, v % 256]
  }

  function Words(ws: seq<word>): (s: seq<byte>)
    ensures |s| == 2 * |ws|
  {
    if ws == [] then [] else Word(ws[0]) + Words(ws[1..])
  }

  /** The two words of a 32-bit value. */
  function Long(v: int): seq<word>
    requires 0 <= v < 0x1_0000_0000
  {
    [v / 0x1_0000, v % 0x1_0000]
  }

  lemma {:induction false} WordsAppend(a: seq<word>, b: seq<word>)
    ensures Words(a + b) == Words(a) + Words(b)
  {
    if a == [] {
      assert a + b == b;
    } else {
      WordsAppend(a[1..], b);
      assert (a + b)[1..] == a[1..] + b;
      Assoc(Word(a[0]), Words(a[1..]), Words(b));
    }
  }

  lemma {:induction false} WordsOne(v: word)
    ensures Words([v]) == Word(v)
  {
    assert Words([v][1..]) == [];
  }

  /** What a parser made of some bytes, and the bytes it left. */
  datatype Parsed<+T> = Fail | Got(value: T, rest: seq<byte>)

  function TakeWords(s: seq<byte>, n: nat): (p: Parsed<seq<word>>)
    ensures p.Got? ==> |p.value| == n && |p.rest| == |s| - 2 * n
  {
    if n == 0 then Got([], s)
    else if |s| < 2 then Fail
    else
      match TakeWords(s[2..], n - 1)
      case Fail => Fail
      case Got(ws, rest) =>
        var hi: int, lo: int := s[0], s[1];
        var w: word := hi * 256 + lo;
        Got([w] + ws, rest)
  }

  /** Reading back exactly the words that were written. */
  lemma {:induction false} TakeWordsBack(ws: seq<word>, rest: seq<byte>)
    ensures TakeWords(Words(ws) + rest, |ws|) == Got(ws, rest)
  {
    var s := Words(ws) + rest;
    if ws == [] {
      assert s == rest;
    } else {
      TakeWordsBack(ws[1..], rest);
      assert s[2..] == Words(ws[1..]) + rest;
      assert s[0] == ws[0] / 256 && s[1] == ws[0] % 256;
      assert ws == [ws[0]] + ws[1..];
    }
  }

  function TakeBytes(s: seq<byte>, n: nat): (p: Parsed<seq<byte>>)
    ensures p.Got? ==> |p.value| == n && |p.rest| == |s| - n
  {
    if |s| < n then Fail else Got(s[..n], s[n..])
  }

  lemma {:induction false} TakeBytesBack(bytes: seq<byte>, rest: seq<byte>)
    ensures TakeBytes(bytes + rest, |bytes|) == Got(bytes, rest)
  {
  }

  // ---- 32-bit values ----

  const U32: int := 0x1_0000_0000

  /** A value cast to u32, as four bytes. */
  function Be32(v: nat): (s: seq<byte>)
    ensures |s| == 4
  {
    Words(Long(v % U32))
  }

  function ReadBe32(s: seq<byte>): (v: nat)
    requires |s| == 4
    ensures v < U32
  {
    var a: int, b: int, c: int, d: int := s[0], s[1], s[2], s[3];
    ((a * 256 + b) * 256 + c) * 256 + d
  }

  lemma {:induction false} Be32Bytes(hi: word, lo: word)
    ensures Be32(hi as int * 0x1_0000 + lo) == [hi / 256, hi % 256, lo / 256, lo % 256]
  {
    var v := hi as int * 0x1_0000 + lo;
    DivMod16(hi, lo);
    assert Long(v) == [hi, lo];
    hide Words;
    WordsAppend([hi], [lo]);
    assert [hi] + [lo] == [hi, lo];
    WordsOne(hi);
    WordsOne(lo);
  }

  lemma {:induction false} DivMod16(hi: int, lo: int)
    requires 0 <= hi < 0x1_0000 && 0 <= lo < 0x1_0000
    ensures var v := hi * 0x1_0000 + lo; 0 <= v < U32 && v / 0x1_0000 == hi && v % 0x1_0000 == lo
  {
  }

  lemma {:induction false} Be32Back(v: nat)
    requires v < U32
    ensures ReadBe32(Be32(v)) == v
  {
    hide Be32;
    Be32Bytes(v / 0x1_0000, v % 0x1_0000);
  }

  lemma {:induction false} BytesBack(s: seq<byte>)
    requires |s| == 4
    ensures Be32(ReadBe32(s)) == s
  {
    hide Be32;
    var a: int, b: int, c: int, d: int := s[0], s[1], s[2], s[3];
    Be32Bytes(a * 256 + b, c * 256 + d);
  }

  lemma {:induction false} SameLength(n: nat)
    ensures Be32(n % U32) == Be32(n)
  {
  }
}
