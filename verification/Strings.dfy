/** Finding and splitting in strings. */
module Strings {
  import opened Wrappers

  predicate OccursAt(s: string, part: string, i: int) {
    0 <= i <= |s| - |part| && s[i..i + |part|] == part
  }

  predicate Contains(s: string, part: string) {
    exists i :: 0 <= i <= |s| && OccursAt(s, part, i)
  }

  /** Some text, the part, some text. */
  ghost predicate Around(s: string, part: string, before: string, after: string) {
    s == before + part + after
  }

  lemma {:induction false} ContainsIffAround(s: string, part: string)
    ensures Contains(s, part) <==> exists before, after :: Around(s, part, before, after)
  {
    if i :| 0 <= i <= |s| && OccursAt(s, part, i) {
      assert Around(s, part, s[..i], s[i + |part|..]);
    }
    if before, after :| Around(s, part, before, after) {
      assert OccursAt(s, part, |before|);
    }
  }

  /** The parts before and after the first occurrence of a character. */
  function SplitOnce(s: string, c: char): (r: Option<(string, string)>)
    ensures r.Some? ==> s == r.value.0 + [c] + r.value.1 && c !in r.value.0
  {
    if s == "" then None
    else if s[0] == c then Some(("", s[1..]))
    else
      match SplitOnce(s[1..], c)
      case None => None
      case Some((a, b)) => Some(([s[0]] + a, b))
  }

  lemma {:induction false} SplitIffFound(s: string, c: char)
    ensures SplitOnce(s, c).Some? <==> c in s
  {
    if s != "" && s[0] != c {
      SplitIffFound(s[1..], c);
    }
  }

  lemma {:induction false} SplitAtFirst(a: string, c: char, b: string)
    requires c !in a
    ensures SplitOnce(a + [c] + b, c) == Some((a, b))
  {
    var s := a + [c] + b;
    if a == "" {
      assert s == [c] + b && s[1..] == b;
    } else {
      assert s[1..] == a[1..] + [c] + b;
      SplitAtFirst(a[1..], c, b);
      assert [a[0]] + a[1..] == a;
    }
  }
}
