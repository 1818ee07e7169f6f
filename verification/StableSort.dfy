/** Stable sorting by a comparison that is a total preorder: what it promises, that this pins the
    result down, and when the order of the input stops mattering. */
module StableSort {
  datatype Ordering = Less | Equal | Greater

  function Reverse(o: Ordering): Ordering {
    match o case Less => Greater case Equal => Equal case Greater => Less
  }

  function Then(first: Ordering, second: Ordering): Ordering {
    if first == Equal then second else first
  }

  /** What comparing a with b, b with c and a with c may yield in a total preorder. */
  predicate Consistent(ab: Ordering, bc: Ordering, ac: Ordering) {
    && (ab == Equal ==> ac == bc)
    && (bc == Equal ==> ac == ab)
    && (ab == bc ==> ac == ab)
  }

  lemma {:induction false} ConsistentThen(ab: Ordering, bc: Ordering, ac: Ordering, ab': Ordering, bc': Ordering, ac': Ordering)
    requires Consistent(ab, bc, ac) && Consistent(ab', bc', ac')
    ensures Consistent(Then(ab, ab'), Then(bc, bc'), Then(ac, ac'))
  {
    match ab {
      case Equal => assert ac == bc;
      case _ =>
        match bc {
          case Equal => assert ac == ab;
          case _ => assert ab == bc ==> ac == ab;
        }
    }
  }

  type Comparison<!T> = (T, T) -> Ordering

  ghost predicate TotalPreorder<T(!new)>(cmp: Comparison<T>) {
    && (forall a, b :: cmp(b, a) == Reverse(cmp(a, b)))
    && (forall a, b, c :: Consistent(cmp(a, b), cmp(b, c), cmp(a, c)))
  }

  /** No element after a greater one. */
  ghost predicate Ordered<T(!new)>(cmp: Comparison<T>, s: seq<T>) {
    forall i, j :: 0 <= i < j < |s| ==> cmp(s[i], s[j]) != Greater
  }

  /** The elements that tie with x, in their order. */
  function Class<T(!new)>(cmp: Comparison<T>, s: seq<T>, x: T): seq<T> {
    if s == [] then [] else (if cmp(s[0], x) == Equal then [s[0]] else []) + Class(cmp, s[1..], x)
  }

  ghost predicate SameClasses<T(!new)>(cmp: Comparison<T>, s: seq<T>, t: seq<T>) {
    forall x :: Class(cmp, s, x) == Class(cmp, t, x)
  }

  /** What the standard library promises of a stable sort. */
  ghost predicate StablySorted<T(!new)>(cmp: Comparison<T>, input: seq<T>, output: seq<T>) {
    Ordered(cmp, output) && SameClasses(cmp, input, output)
  }

  // ---- A stable sort ----

  /** x goes before the first element it is not greater than. */
  function Insert<T(!new)>(cmp: Comparison<T>, x: T, s: seq<T>): seq<T> {
    if s == [] || cmp(x, s[0]) != Greater then [x] + s else [s[0]] + Insert(cmp, x, s[1..])
  }

  function Sort<T(!new)>(cmp: Comparison<T>, s: seq<T>): seq<T> {
    if s == [] then [] else Insert(cmp, s[0], Sort(cmp, s[1..]))
  }

  lemma {:induction false} TwoWays<T(!new)>(cmp: Comparison<T>, a: T, b: T)
    requires TotalPreorder(cmp)
    ensures cmp(b, a) == Reverse(cmp(a, b))
  {
  }

  lemma {:induction false} ThreeWays<T(!new)>(cmp: Comparison<T>, a: T, b: T, c: T)
    requires TotalPreorder(cmp)
    ensures Consistent(cmp(a, b), cmp(b, c), cmp(a, c))
  {
  }

  lemma {:induction false} TailOrdered<T(!new)>(cmp: Comparison<T>, s: seq<T>)
    requires Ordered(cmp, s) && s != []
    ensures Ordered(cmp, s[1..])
  {
  }

  lemma {:induction false} InsertOrdered<T(!new)>(cmp: Comparison<T>, x: T, s: seq<T>)
    requires TotalPreorder(cmp) && Ordered(cmp, s)
    ensures Ordered(cmp, Insert(cmp, x, s))
    ensures multiset(Insert(cmp, x, s)) == multiset{x} + multiset(s)
  {
    hide TotalPreorder, Ordered;
    if s == [] || cmp(x, s[0]) != Greater {
      InsertFront(cmp, x, s);
    } else {
      TailOrdered(cmp, s);
      InsertOrdered(cmp, x, s[1..]);
      assert s == [s[0]] + s[1..];
      InsertLater(cmp, x, s, Insert(cmp, x, s[1..]));
    }
  }

  lemma {:induction false} InsertLater<T(!new)>(cmp: Comparison<T>, x: T, s: seq<T>, t: seq<T>)
    requires TotalPreorder(cmp) && Ordered(cmp, s) && Ordered(cmp, t) && s != [] && cmp(x, s[0]) == Greater
    requires multiset(t) == multiset{x} + multiset(s[1..])
    ensures Ordered(cmp, [s[0]] + t)
  {
    forall j | 0 <= j < |t|
      ensures cmp(s[0], t[j]) != Greater
    {
      assert t[j] in multiset(t);
      MemberOf(cmp, x, s, t[j]);
    }
  }

  lemma {:induction false} MemberOf<T(!new)>(cmp: Comparison<T>, x: T, s: seq<T>, y: T)
    requires TotalPreorder(cmp) && Ordered(cmp, s) && s != [] && cmp(x, s[0]) == Greater
    requires y == x || y in s[1..]
    ensures cmp(s[0], y) != Greater
  {
    hide TotalPreorder;
    TwoWays(cmp, x, s[0]);
  }

  lemma {:induction false} InsertFront<T(!new)>(cmp: Comparison<T>, x: T, s: seq<T>)
    requires TotalPreorder(cmp) && Ordered(cmp, s) && (s == [] || cmp(x, s[0]) != Greater)
    ensures Ordered(cmp, [x] + s)
  {
    hide TotalPreorder;
    var r := [x] + s;
    forall i, j | 0 <= i < j < |r|
      ensures cmp(r[i], r[j]) != Greater
    {
      if i > 0 {
        assert cmp(s[i - 1], s[j - 1]) != Greater;
      } else if j > 1 {
        assert cmp(s[0], s[j - 1]) != Greater;
        ThreeWays(cmp, x, s[0], s[j - 1]);
      }
    }
  }

  /** x goes in front of its own class: an element it passes is less, so ties with nothing x ties
      with. */
  lemma {:induction false} InsertClass<T(!new)>(cmp: Comparison<T>, x: T, s: seq<T>, z: T)
    requires TotalPreorder(cmp)
    ensures Class(cmp, Insert(cmp, x, s), z) == (if cmp(x, z) == Equal then [x] else []) + Class(cmp, s, z)
  {
    hide TotalPreorder, Class;
    if s == [] || cmp(x, s[0]) != Greater {
      ClassOfFront(cmp, x, s, z);
    } else {
      InsertClass(cmp, x, s[1..], z);
      ThreeWays(cmp, x, s[0], z);
      ClassOfFront(cmp, s[0], s[1..], z);
      ClassOfFront(cmp, s[0], Insert(cmp, x, s[1..]), z);
      assert [s[0]] + s[1..] == s;
    }
  }

  lemma {:induction false} ClassOfFront<T(!new)>(cmp: Comparison<T>, y: T, s: seq<T>, z: T)
    ensures Class(cmp, [y] + s, z) == (if cmp(y, z) == Equal then [y] else []) + Class(cmp, s, z)
  {
    assert ([y] + s)[1..] == s;
  }

  lemma {:induction false} SortIsStable<T(!new)>(cmp: Comparison<T>, s: seq<T>)
    requires TotalPreorder(cmp)
    ensures StablySorted(cmp, s, Sort(cmp, s))
    ensures multiset(Sort(cmp, s)) == multiset(s)
  {
    hide TotalPreorder, Ordered, Insert, Class;
    if s != [] {
      SortIsStable(cmp, s[1..]);
      var rest := Sort(cmp, s[1..]);
      InsertOrdered(cmp, s[0], rest);
      assert s == [s[0]] + s[1..];
      forall z
        ensures Class(cmp, s, z) == Class(cmp, Insert(cmp, s[0], rest), z)
      {
        InsertClass(cmp, s[0], rest, z);
        ClassOfFront(cmp, s[0], s[1..], z);
      }
    } else {
      assert Ordered(cmp, s) by {
        NothingToOrder(cmp);
      }
    }
  }

  lemma {:induction false} NothingToOrder<T(!new)>(cmp: Comparison<T>)
    ensures Ordered(cmp, [])
  {
  }

  // ---- The result is pinned down ----

  lemma {:induction false} ClassMember<T(!new)>(cmp: Comparison<T>, s: seq<T>, x: T, y: T)
    ensures y in Class(cmp, s, x) <==> y in s && cmp(y, x) == Equal
  {
    if s != [] {
      ClassMember(cmp, s[1..], x, y);
    }
  }

  lemma {:induction false} Reflexive<T(!new)>(cmp: Comparison<T>, x: T)
    requires TotalPreorder(cmp)
    ensures cmp(x, x) == Equal
  {
    hide TotalPreorder;
    TwoWays(cmp, x, x);
  }

  /** Two ordered sequences whose elements are the same start with elements that tie. */
  lemma {:induction false} FirstsTie<T(!new)>(cmp: Comparison<T>, s: seq<T>, t: seq<T>)
    requires TotalPreorder(cmp) && Ordered(cmp, s) && Ordered(cmp, t) && s != [] && t != []
    requires s[0] in t && t[0] in s
    ensures cmp(s[0], t[0]) == Equal
  {
    hide TotalPreorder;
    Reflexive(cmp, s[0]);
    Reflexive(cmp, t[0]);
    assert cmp(s[0], t[0]) != Greater;
    assert cmp(t[0], s[0]) != Greater;
    TwoWays(cmp, s[0], t[0]);
  }

  /** There is one stable order: any two ordered sequences with the same classes are equal, so
      every stable sort of an input gives the same result. */
  lemma {:induction false} OneStableOrder<T(!new)>(cmp: Comparison<T>, s: seq<T>, t: seq<T>)
    requires TotalPreorder(cmp) && Ordered(cmp, s) && Ordered(cmp, t) && SameClasses(cmp, s, t)
    ensures s == t
    decreases |s|
  {
    hide TotalPreorder, Ordered, SameClasses, Class;
    if s == [] || t == [] {
      NoElements(cmp, s, t);
    } else {
      SameFirst(cmp, s, t);
      TailClasses(cmp, s, t);
      TailOrdered(cmp, s);
      TailOrdered(cmp, t);
      OneStableOrder(cmp, s[1..], t[1..]);
      assert s == [s[0]] + s[1..] && t == [t[0]] + t[1..];
    }
  }

  lemma {:induction false} NoElements<T(!new)>(cmp: Comparison<T>, s: seq<T>, t: seq<T>)
    requires TotalPreorder(cmp) && SameClasses(cmp, s, t) && (s == [] || t == [])
    ensures s == [] && t == []
  {
    hide TotalPreorder;
    if s != [] {
      ClassHead(cmp, s);
    }
    if t != [] {
      ClassHead(cmp, t);
    }
  }

  lemma {:induction false} SameFirst<T(!new)>(cmp: Comparison<T>, s: seq<T>, t: seq<T>)
    requires TotalPreorder(cmp) && Ordered(cmp, s) && Ordered(cmp, t) && SameClasses(cmp, s, t) && s != [] && t != []
    ensures s[0] == t[0]
  {
    hide TotalPreorder, Ordered, Class;
    var x, y := s[0], t[0];
    ClassHead(cmp, s);
    ClassHead(cmp, t);
    assert Class(cmp, s, x) == Class(cmp, t, x) && Class(cmp, s, y) == Class(cmp, t, y);
    ClassMember(cmp, t, x, x);
    ClassMember(cmp, s, y, y);
    FirstsTie(cmp, s, t);
    TwoWays(cmp, x, y);
    HeadOfClass(cmp, t, x);
  }

  lemma {:induction false} HeadOfClass<T(!new)>(cmp: Comparison<T>, s: seq<T>, x: T)
    requires s != [] && cmp(s[0], x) == Equal
    ensures Class(cmp, s, x) != [] && Class(cmp, s, x)[0] == s[0]
  {
  }

  lemma {:induction false} ClassHead<T(!new)>(cmp: Comparison<T>, s: seq<T>)
    requires TotalPreorder(cmp) && s != []
    ensures Class(cmp, s, s[0]) != [] && Class(cmp, s, s[0])[0] == s[0]
  {
    hide TotalPreorder;
    Reflexive(cmp, s[0]);
  }

  lemma {:induction false} TailClasses<T(!new)>(cmp: Comparison<T>, s: seq<T>, t: seq<T>)
    requires SameClasses(cmp, s, t) && s != [] && t != [] && s[0] == t[0]
    ensures SameClasses(cmp, s[1..], t[1..])
  {
    forall z
      ensures Class(cmp, s[1..], z) == Class(cmp, t[1..], z)
    {
      var first := if cmp(s[0], z) == Equal then [s[0]] else [];
      assert Class(cmp, s, z) == first + Class(cmp, s[1..], z);
      assert Class(cmp, t, z) == first + Class(cmp, t[1..], z);
      assert Class(cmp, s[1..], z) == Class(cmp, s, z)[|first|..];
    }
  }

  lemma {:induction false} AnyStableSort<T(!new)>(cmp: Comparison<T>, input: seq<T>, output: seq<T>)
    requires TotalPreorder(cmp) && StablySorted(cmp, input, output)
    ensures output == Sort(cmp, input)
  {
    SortIsStable(cmp, input);
    OneStableOrder(cmp, output, Sort(cmp, input));
  }

  // ---- When the input order matters ----

  /** Members that tie are equal. */
  ghost predicate NoTies<T(!new)>(cmp: Comparison<T>, s: seq<T>) {
    forall x, y :: x in s && y in s && cmp(x, y) == Equal ==> x == y
  }

  lemma {:induction false} WithoutFirst<T>(s: seq<T>)
    requires s != []
    ensures multiset(s[1..]) == multiset(s) - multiset{s[0]}
  {
    assert s == [s[0]] + s[1..];
  }

  lemma {:induction false} OneOrder<T(!new)>(cmp: Comparison<T>, s: seq<T>, t: seq<T>)
    requires TotalPreorder(cmp) && Ordered(cmp, s) && Ordered(cmp, t) && NoTies(cmp, s) && multiset(s) == multiset(t)
    ensures s == t
    decreases |s|
  {
    hide TotalPreorder, Ordered;
    assert |multiset(s)| == |s| && |multiset(t)| == |t|;
    if s != [] {
      assert s[0] in multiset(t) && t[0] in multiset(s);
      FirstsTie(cmp, s, t);
      WithoutFirst(s);
      WithoutFirst(t);
      TailOrdered(cmp, s);
      TailOrdered(cmp, t);
      OneOrder(cmp, s[1..], t[1..]);
      assert s == [s[0]] + s[1..] && t == [t[0]] + t[1..];
    }
  }

  /** Without ties between different members, every arrangement of the input sorts alike. */
  lemma {:induction false} OrderIndependent<T(!new)>(cmp: Comparison<T>, s: seq<T>, t: seq<T>)
    requires TotalPreorder(cmp) && NoTies(cmp, s) && multiset(s) == multiset(t)
    ensures Sort(cmp, s) == Sort(cmp, t)
  {
    hide TotalPreorder, Ordered, SameClasses, Sort;
    SortIsStable(cmp, s);
    SortIsStable(cmp, t);
    forall x | x in Sort(cmp, s)
      ensures x in s
    {
      assert x in multiset(Sort(cmp, s));
    }
    OneOrder(cmp, Sort(cmp, s), Sort(cmp, t));
  }

  lemma {:induction false} ClassAppend<T(!new)>(cmp: Comparison<T>, s: seq<T>, t: seq<T>, z: T)
    ensures Class(cmp, s + t, z) == Class(cmp, s, z) + Class(cmp, t, z)
  {
    if s == [] {
      assert s + t == t;
    } else {
      ClassAppend(cmp, s[1..], t, z);
      assert (s + t)[1..] == s[1..] + t && (s + t)[0] == s[0];
      hide Class;
      ClassOfFront(cmp, s[0], s[1..], z);
      ClassOfFront(cmp, s[0], s[1..] + t, z);
      assert [s[0]] + s[1..] == s && [s[0]] + (s[1..] + t) == s + t;
    }
  }

  lemma {:induction false} SwapPermutes<T>(s: seq<T>, i: nat, j: nat)
    requires i < j < |s|
    ensures multiset(s[i := s[j]][j := s[i]]) == multiset(s)
  {
  }

  /** The first member of class z from position i on. */
  lemma {:induction false} ClassAt<T(!new)>(cmp: Comparison<T>, s: seq<T>, i: nat, z: T)
    requires i < |s| && cmp(s[i], z) == Equal
    ensures var k := |Class(cmp, s[..i], z)|; k < |Class(cmp, s, z)| && Class(cmp, s, z)[k] == s[i]
  {
    ClassAppend(cmp, s[..i], s[i..], z);
    assert s[..i] + s[i..] == s;
  }

  /** With two different members that tie, exchanging them shows in the result. */
  lemma {:induction false} TiesShow<T(!new)>(cmp: Comparison<T>, s: seq<T>, i: nat, j: nat)
    requires TotalPreorder(cmp) && i < j < |s| && s[i] != s[j] && cmp(s[i], s[j]) == Equal
    ensures multiset(s[i := s[j]][j := s[i]]) == multiset(s)
    ensures Sort(cmp, s[i := s[j]][j := s[i]]) != Sort(cmp, s)
  {
    var t, x := s[i := s[j]][j := s[i]], s[i];
    SwapPermutes(s, i, j);
    SortIsStable(cmp, s);
    SortIsStable(cmp, t);
    assert cmp(t[i], x) == Reverse(cmp(x, t[i]));
    Reflexive(cmp, x);
    assert s[..i] == t[..i];
    hide Sort, TotalPreorder, Ordered, Class;
    ClassAt(cmp, s, i, x);
    ClassAt(cmp, t, i, x);
  }
}
