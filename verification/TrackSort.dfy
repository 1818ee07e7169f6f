/** The order of `sort=`: a list of keys, absent values last, the track number last of all. */
module TrackSort {
  import opened Wrappers
  import opened StableSort

  datatype AudioFormat = Mp3 | Aac | Alac | Flac | Wav | Aiff | Ogg | OtherFormat

  datatype Track = Track(id: nat, title: string, artist: Option<string>, album: Option<string>, albumArtist: Option<string>,
    genre: Option<string>, trackNumber: Option<nat>, discNumber: Option<nat>, year: Option<nat>, durationMs: Option<nat>,
    bitrateKbps: Option<nat>, sampleRate: Option<nat>, sizeBytes: Option<nat>, format: AudioFormat)

  datatype Field = Id | Title | Artist | Album | AlbumArtist | Genre | TrackNumber | DiscNumber | Year | Duration | Bitrate
    | SampleRate | Size

  datatype SortKey = SortKey(field: Field, desc: bool)

  /** Characters of a string, lower-cased one by one; what a character becomes is left open. */
  type Folding = char -> string

  function Folded(fold: Folding, s: string): string {
    if s == "" then "" else fold(s[0]) + Folded(fold, s[1..])
  }

  // ---- Comparisons ----

  function CmpInt(a: int, b: int): Ordering {
    if a < b then Less else if a == b then Equal else Greater
  }

  /** Character by character, a proper prefix first. */
  function CmpString(a: string, b: string): Ordering
    decreases |a|
  {
    if a == "" then (if b == "" then Equal else Less)
    else if b == "" then Greater
    else Then(CmpInt(a[0] as int, b[0] as int), CmpString(a[1..], b[1..]))
  }

  function Directed(o: Ordering, desc: bool): Ordering {
    if desc then Reverse(o) else o
  }

  function CmpOpt(a: Option<nat>, b: Option<nat>, desc: bool): Ordering {
    match (a, b)
    case (Some(x), Some(y)) => if desc then CmpInt(y, x) else CmpInt(x, y)
    case (Some(_), None) => Less
    case (None, Some(_)) => Greater
    case (None, None) => Equal
  }

  function CmpStrCi(fold: Folding, a: Option<string>, b: Option<string>, desc: bool): Ordering {
    match (a, b)
    case (Some(x), Some(y)) => Directed(CmpString(Folded(fold, x), Folded(fold, y)), desc)
    case (Some(_), None) => Less
    case (None, Some(_)) => Greater
    case (None, None) => Equal
  }

  /** A text field, or None for a numeric one. */
  function TextOf(t: Track, f: Field): Option<string> {
    match f
    case Title => Some(t.title)
    case Artist => t.artist
    case Album => t.album
    case AlbumArtist => t.albumArtist
    case Genre => t.genre
    case _ => None
  }

  function NumberOf(t: Track, f: Field): Option<nat> {
    match f
    case Id => Some(t.id)
    case TrackNumber => t.trackNumber
    case DiscNumber => t.discNumber
    case Year => t.year
    case Duration => t.durationMs
    case Bitrate => t.bitrateKbps
    case SampleRate => t.sampleRate
    case Size => t.sizeBytes
    case _ => None
  }

  predicate IsText(f: Field) {
    f.Title? || f.Artist? || f.Album? || f.AlbumArtist? || f.Genre?
  }

  /** The track has no value for the field. */
  predicate Missing(t: Track, f: Field) {
    if IsText(f) then TextOf(t, f) == None else NumberOf(t, f) == None
  }

  function CmpField(fold: Folding, a: Track, b: Track, f: Field, desc: bool): Ordering {
    if f == Id then Directed(CmpInt(a.id, b.id), desc)
    else if IsText(f) then CmpStrCi(fold, TextOf(a, f), TextOf(b, f), desc)
    else CmpOpt(NumberOf(a, f), NumberOf(b, f), desc)
  }

  /** The first key that tells the tracks apart, else their numbers. */
  function CompareKeys(fold: Folding, a: Track, b: Track, keys: seq<SortKey>): Ordering {
    if keys == [] then CmpInt(a.id, b.id)
    else Then(CmpField(fold, a, b, keys[0].field, keys[0].desc), CompareKeys(fold, a, b, keys[1..]))
  }

  /** `compare`, as the loop it is. */
  method Compare(fold: Folding, a: Track, b: Track, keys: seq<SortKey>) returns (o: Ordering)
    ensures o == CompareKeys(fold, a, b, keys)
  {
    for i := 0 to |keys|
      invariant CompareKeys(fold, a, b, keys) == CompareKeys(fold, a, b, keys[i..])
    {
      assert keys[i..][1..] == keys[i + 1..];
      o := CmpField(fold, a, b, keys[i].field, keys[i].desc);
      if o != Equal {
        return;
      }
    }
    assert keys[|keys|..] == [];
    o := CmpInt(a.id, b.id);
  }

  // ---- A total preorder ----

  lemma {:induction false} StringAntisymmetric(a: string, b: string)
    ensures CmpString(b, a) == Reverse(CmpString(a, b))
    decreases |a|
  {
    if a != "" && b != "" {
      StringAntisymmetric(a[1..], b[1..]);
    }
  }

  lemma {:induction false} StringConsistent(a: string, b: string, c: string)
    ensures Consistent(CmpString(a, b), CmpString(b, c), CmpString(a, c))
    decreases |a|
  {
    if a != "" && b != "" && c != "" {
      StringConsistent(a[1..], b[1..], c[1..]);
      IntConsistent(a[0] as int, b[0] as int, c[0] as int);
      ConsistentThen(CmpInt(a[0] as int, b[0] as int), CmpInt(b[0] as int, c[0] as int), CmpInt(a[0] as int, c[0] as int),
                     CmpString(a[1..], b[1..]), CmpString(b[1..], c[1..]), CmpString(a[1..], c[1..]));
    }
  }

  lemma {:induction false} IntConsistent(a: int, b: int, c: int)
    ensures Consistent(CmpInt(a, b), CmpInt(b, c), CmpInt(a, c))
  {
  }

  lemma {:induction false} DirectedConsistent(ab: Ordering, bc: Ordering, ac: Ordering, desc: bool)
    requires Consistent(ab, bc, ac)
    ensures Consistent(Directed(ab, desc), Directed(bc, desc), Directed(ac, desc))
  {
  }

  lemma {:induction false} FieldConsistent(fold: Folding, a: Track, b: Track, c: Track, f: Field, desc: bool)
    ensures Consistent(CmpField(fold, a, b, f, desc), CmpField(fold, b, c, f, desc), CmpField(fold, a, c, f, desc))
    ensures CmpField(fold, b, a, f, desc) == Reverse(CmpField(fold, a, b, f, desc))
  {
    hide CmpString, Folded;
    if IsText(f) {
      TextConsistent(fold, TextOf(a, f), TextOf(b, f), TextOf(c, f), desc);
    }
  }

  lemma {:induction false} TextConsistent(fold: Folding, a: Option<string>, b: Option<string>, c: Option<string>, desc: bool)
    ensures Consistent(CmpStrCi(fold, a, b, desc), CmpStrCi(fold, b, c, desc), CmpStrCi(fold, a, c, desc))
    ensures CmpStrCi(fold, b, a, desc) == Reverse(CmpStrCi(fold, a, b, desc))
  {
    hide CmpString, Folded;
    if a.Some? && b.Some? {
      var x, y := Folded(fold, a.value), Folded(fold, b.value);
      StringAntisymmetric(x, y);
      if c.Some? {
        var z := Folded(fold, c.value);
        StringConsistent(x, y, z);
        DirectedConsistent(CmpString(x, y), CmpString(y, z), CmpString(x, z), desc);
      }
    }
  }

  lemma {:induction false} KeysConsistent(fold: Folding, a: Track, b: Track, c: Track, keys: seq<SortKey>)
    ensures Consistent(CompareKeys(fold, a, b, keys), CompareKeys(fold, b, c, keys), CompareKeys(fold, a, c, keys))
    ensures CompareKeys(fold, b, a, keys) == Reverse(CompareKeys(fold, a, b, keys))
  {
    hide CmpField;
    if keys != [] {
      var f, desc, rest := keys[0].field, keys[0].desc, keys[1..];
      FieldConsistent(fold, a, b, c, f, desc);
      KeysConsistent(fold, a, b, c, rest);
      ConsistentThen(CmpField(fold, a, b, f, desc), CmpField(fold, b, c, f, desc), CmpField(fold, a, c, f, desc),
                     CompareKeys(fold, a, b, rest), CompareKeys(fold, b, c, rest), CompareKeys(fold, a, c, rest));
    }
  }

  function ByKeys(fold: Folding, keys: seq<SortKey>): Comparison<Track> {
    (a, b) => CompareKeys(fold, a, b, keys)
  }

  /** Any list of keys compares as a total preorder. */
  lemma {:induction false} KeysTotalPreorder(fold: Folding, keys: seq<SortKey>)
    ensures TotalPreorder(ByKeys(fold, keys))
  {
    var cmp := ByKeys(fold, keys);
    forall a, b
      ensures cmp(b, a) == Reverse(cmp(a, b))
    {
      KeysConsistent(fold, a, b, a, keys);
    }
    forall a, b, c
      ensures Consistent(cmp(a, b), cmp(b, c), cmp(a, c))
    {
      KeysConsistent(fold, a, b, c, keys);
    }
  }

  /** Only tracks of the same number tie, whatever the keys. */
  lemma {:induction false} TiesOnlyById(fold: Folding, a: Track, b: Track, keys: seq<SortKey>)
    ensures CompareKeys(fold, a, b, keys) == Equal ==> a.id == b.id
  {
    hide CmpField;
    if keys != [] {
      TiesOnlyById(fold, a, b, keys[1..]);
    }
  }

  /** A track without a value for the first key comes after one that has it, in either direction. */
  lemma {:induction false} MissingLast(fold: Folding, a: Track, b: Track, keys: seq<SortKey>)
    requires keys != [] && !Missing(a, keys[0].field) && Missing(b, keys[0].field)
    ensures CompareKeys(fold, a, b, keys) == Less
  {
  }

  /** Tracks that have a value are in opposite orders in the two directions of a key. */
  lemma {:induction false} DirectionReverses(fold: Folding, a: Track, b: Track, f: Field)
    requires !Missing(a, f) && !Missing(b, f)
    ensures CmpField(fold, a, b, f, true) == Reverse(CmpField(fold, a, b, f, false))
  {
  }

  /** The tracks agree on one field. */
  predicate Agree(f: Field, a: Track, b: Track) {
    && (f == Id ==> a.id == b.id)
    && (f == Title ==> a.title == b.title)
    && (f == Artist ==> a.artist == b.artist)
    && (f == Album ==> a.album == b.album)
    && (f == AlbumArtist ==> a.albumArtist == b.albumArtist)
    && (f == Genre ==> a.genre == b.genre)
    && (f == TrackNumber ==> a.trackNumber == b.trackNumber)
    && (f == DiscNumber ==> a.discNumber == b.discNumber)
    && (f == Year ==> a.year == b.year)
    && (f == Duration ==> a.durationMs == b.durationMs)
    && (f == Bitrate ==> a.bitrateKbps == b.bitrateKbps)
    && (f == SampleRate ==> a.sampleRate == b.sampleRate)
    && (f == Size ==> a.sizeBytes == b.sizeBytes)
  }

  /** A key compares by its own field and nothing else. */
  lemma {:induction false} ReadsOnlyItsField(fold: Folding, a: Track, b: Track, a': Track, b': Track, f: Field, desc: bool)
    requires Agree(f, a, a') && Agree(f, b, b')
    ensures CmpField(fold, a, b, f, desc) == CmpField(fold, a', b', f, desc)
    ensures Agree(f, a, b) ==> CmpField(fold, a, b, f, desc) == Equal
  {
    hide CmpString, Folded;
    if Agree(f, a, b) && TextOf(a, f).Some? {
      StringReflexive(Folded(fold, TextOf(a, f).value));
    }
  }

  lemma {:induction false} StringReflexive(s: string)
    ensures CmpString(s, s) == Equal
  {
    if s != "" {
      StringReflexive(s[1..]);
    }
  }

  // ---- The order, stated on its own ----

  /** x comes before y in a dictionary of characters: it is a proper beginning of y, or smaller at the
      first place where they differ. */
  ghost predicate TextBelow(x: string, y: string) {
    exists k :: DiffersAt(x, y, k)
  }

  predicate DiffersAt(x: string, y: string, k: nat) {
    && k <= |x| && k < |y| && x[..k] == y[..k]
    && (k < |x| ==> x[k] < y[k])
  }

  /** A track's value for a key: nothing, a number, or a text with case folded away. */
  datatype Value = Absent | Number(n: nat) | Text(s: string)

  function NumberValue(n: Option<nat>): Value {
    match n case None => Absent case Some(v) => Number(v)
  }

  function TextValue(fold: Folding, s: Option<string>): Value {
    match s case None => Absent case Some(v) => Text(Folded(fold, v))
  }

  function ValueOf(fold: Folding, t: Track, f: Field): Value {
    match f
    case Id => Number(t.id)
    case Title => Text(Folded(fold, t.title))
    case Artist => TextValue(fold, t.artist)
    case Album => TextValue(fold, t.album)
    case AlbumArtist => TextValue(fold, t.albumArtist)
    case Genre => TextValue(fold, t.genre)
    case TrackNumber => NumberValue(t.trackNumber)
    case DiscNumber => NumberValue(t.discNumber)
    case Year => NumberValue(t.year)
    case Duration => NumberValue(t.durationMs)
    case Bitrate => NumberValue(t.bitrateKbps)
    case SampleRate => NumberValue(t.sampleRate)
    case Size => NumberValue(t.sizeBytes)
  }

  /** Folding a text folds its characters, in order. */
  lemma {:induction false} FoldedAppend(fold: Folding, a: string, b: string)
    ensures Folded(fold, a + b) == Folded(fold, a) + Folded(fold, b)
    ensures forall c :: Folded(fold, [c]) == fold(c)
  {
    forall c
      ensures Folded(fold, [c]) == fold(c)
    {
      assert Folded(fold, [c]) == fold(c) + Folded(fold, [c][1..]);
    }
    if a == "" {
      assert a + b == b;
    } else {
      FoldedAppend(fold, a[1..], b);
      assert (a + b)[1..] == a[1..] + b;
    }
  }

  /** What is missing is what has no value. */
  lemma {:induction false} MissingIsAbsent(fold: Folding, t: Track, f: Field)
    ensures Missing(t, f) <==> ValueOf(fold, t, f) == Absent
  {
    hide Folded;
  }

  /** The smaller of two values of a kind. */
  ghost predicate Below(u: Value, v: Value) {
    match (u, v)
    case (Number(m), Number(n)) => m < n
    case (Text(x), Text(y)) => TextBelow(x, y)
    case _ => false
  }

  /** By one key: a value before none, a smaller before a greater, in descending order a greater
      before a smaller. */
  ghost predicate KeyBefore(u: Value, v: Value, desc: bool) {
    if v == Absent then u != Absent else u != Absent && if desc then Below(v, u) else Below(u, v)
  }

  /** a comes before b: by the first key on which their values differ, else by number. */
  ghost predicate Before(fold: Folding, keys: seq<SortKey>, a: Track, b: Track) {
    if keys == [] then a.id < b.id
    else
      var u, v := ValueOf(fold, a, keys[0].field), ValueOf(fold, b, keys[0].field);
      if u == v then Before(fold, keys[1..], a, b) else KeyBefore(u, v, keys[0].desc)
  }

  lemma {:induction false} StringOrder(x: string, y: string)
    ensures CmpString(x, y) == Less <==> TextBelow(x, y)
    ensures CmpString(x, y) == Equal <==> x == y
    decreases |x|
  {
    if x != "" && y != "" && x[0] == y[0] {
      StringOrder(x[1..], y[1..]);
      assert x == [x[0]] + x[1..] && y == [y[0]] + y[1..];
      if k: nat :| DiffersAt(x[1..], y[1..], k) {
        assert DiffersAt(x, y, k + 1) by {
          assert x[..k + 1] == [x[0]] + x[1..][..k] && y[..k + 1] == [y[0]] + y[1..][..k];
        }
      }
      if k: nat :| DiffersAt(x, y, k) {
        assert k > 0;
        assert DiffersAt(x[1..], y[1..], k - 1) by {
          assert x[1..][..k - 1] == x[..k][1..] && y[1..][..k - 1] == y[..k][1..];
        }
      }
    } else if y != "" {
      FirstDecides(x, y);
    }
  }

  lemma {:induction false} FirstDecides(x: string, y: string)
    requires y != "" && (x == "" || x[0] != y[0])
    ensures TextBelow(x, y) <==> x == "" || x[0] < y[0]
  {
    if x == "" || x[0] < y[0] {
      assert DiffersAt(x, y, 0);
    } else {
      forall k: nat
        ensures !DiffersAt(x, y, k)
      {
        if 0 < k <= |x| && k <= |y| {
          assert x[..k][0] == x[0] && y[..k][0] == y[0];
        }
      }
    }
  }

  lemma {:induction false} FieldOrder(fold: Folding, a: Track, b: Track, f: Field, desc: bool)
    ensures var u, v := ValueOf(fold, a, f), ValueOf(fold, b, f);
      && (CmpField(fold, a, b, f, desc) == Equal <==> u == v)
      && (CmpField(fold, a, b, f, desc) == Less <==> u != v && KeyBefore(u, v, desc))
  {
    hide Folded, CmpString, TextBelow;
    if IsText(f) && TextOf(a, f).Some? && TextOf(b, f).Some? {
      var x, y := Folded(fold, TextOf(a, f).value), Folded(fold, TextOf(b, f).value);
      StringOrder(x, y);
      StringOrder(y, x);
      StringAntisymmetric(x, y);
    }
  }

  /** The comparison is that order. */
  lemma {:induction false} CompareIsBefore(fold: Folding, a: Track, b: Track, keys: seq<SortKey>)
    ensures CompareKeys(fold, a, b, keys) == Less <==> Before(fold, keys, a, b)
    ensures CompareKeys(fold, a, b, keys) == Greater <==> Before(fold, keys, b, a)
  {
    hide CmpField, ValueOf, KeyBefore;
    if keys != [] {
      var f, desc := keys[0].field, keys[0].desc;
      CompareIsBefore(fold, a, b, keys[1..]);
      FieldOrder(fold, a, b, f, desc);
      FieldOrder(fold, b, a, f, desc);
      FieldConsistent(fold, a, b, a, f, desc);
    }
  }

  /** In a sorted list nothing comes before what precedes it. */
  lemma {:induction false} SortedInOrder(fold: Folding, tracks: seq<Track>, keys: seq<SortKey>)
    ensures var r := Sort(ByKeys(fold, keys), tracks);
      multiset(r) == multiset(tracks) && forall i, j :: 0 <= i < j < |r| ==> !Before(fold, keys, r[j], r[i])
  {
    hide Before, CompareKeys, TotalPreorder, Sort;
    var cmp := ByKeys(fold, keys);
    KeysTotalPreorder(fold, keys);
    SortIsStable(cmp, tracks);
    var r := Sort(cmp, tracks);
    forall i, j | 0 <= i < j < |r|
      ensures !Before(fold, keys, r[j], r[i])
    {
      assert cmp(r[i], r[j]) != Greater;
      CompareIsBefore(fold, r[i], r[j], keys);
    }
  }

  /** So its present values of the first key ascend, or with a descending key descend, and texts do so
      as a dictionary orders them. */
  lemma {:induction false} SortedByFirstKey(fold: Folding, tracks: seq<Track>, keys: seq<SortKey>, i: nat, j: nat)
    requires keys != [] && i < j < |Sort(ByKeys(fold, keys), tracks)|
    ensures var r, f := Sort(ByKeys(fold, keys), tracks), keys[0].field;
      var u, v := ValueOf(fold, r[i], f), ValueOf(fold, r[j], f);
      && (u.Number? && v.Number? ==> if keys[0].desc then u.n >= v.n else u.n <= v.n)
      && (u.Text? && v.Text? ==> u == v || if keys[0].desc then TextBelow(v.s, u.s) else TextBelow(u.s, v.s))
      && (u == Absent ==> v == Absent)
  {
    hide TextBelow, Sort, ValueOf, CmpString;
    var r, f := Sort(ByKeys(fold, keys), tracks), keys[0].field;
    var u, v := ValueOf(fold, r[i], f), ValueOf(fold, r[j], f);
    SortedInOrder(fold, tracks, keys);
    assert !Before(fold, keys, r[j], r[i]);
    if u.Text? && v.Text? {
      StringOrder(u.s, v.s);
      StringOrder(v.s, u.s);
      StringAntisymmetric(u.s, v.s);
    }
    SameKind(fold, r[i], r[j], f);
  }

  lemma {:induction false} SameKind(fold: Folding, a: Track, b: Track, f: Field)
    ensures var u, v := ValueOf(fold, a, f), ValueOf(fold, b, f); !(u.Number? && v.Text?) && !(u.Text? && v.Number?)
  {
  }

  predicate DistinctIds(tracks: seq<Track>) {
    forall i, j :: 0 <= i < |tracks| && 0 <= j < |tracks| && tracks[i].id == tracks[j].id ==> i == j
  }

  lemma {:induction false} DistinctNoTies(fold: Folding, tracks: seq<Track>, keys: seq<SortKey>)
    requires DistinctIds(tracks)
    ensures NoTies(ByKeys(fold, keys), tracks)
  {
    var cmp := ByKeys(fold, keys);
    forall a, b | a in tracks && b in tracks && cmp(a, b) == Equal
      ensures a == b
    {
      TiesOnlyById(fold, a, b, keys);
    }
  }

  /** The same tracks from two source orders sort to the same list. */
  lemma {:induction false} SourceOrderIrrelevant(fold: Folding, s: seq<Track>, t: seq<Track>, keys: seq<SortKey>)
    requires DistinctIds(s) && multiset(s) == multiset(t)
    ensures Sort(ByKeys(fold, keys), s) == Sort(ByKeys(fold, keys), t)
  {
    KeysTotalPreorder(fold, keys);
    DistinctNoTies(fold, s, keys);
    OrderIndependent(ByKeys(fold, keys), s, t);
  }

  /** A sorted list never has a track without the first key's value before one that has it. */
  lemma {:induction false} SortedMissingLast(fold: Folding, tracks: seq<Track>, keys: seq<SortKey>, i: nat, j: nat)
    requires keys != [] && i < j < |Sort(ByKeys(fold, keys), tracks)|
    requires Missing(Sort(ByKeys(fold, keys), tracks)[i], keys[0].field)
    ensures Missing(Sort(ByKeys(fold, keys), tracks)[j], keys[0].field)
  {
    hide Missing, Sort;
    var cmp := ByKeys(fold, keys);
    var r := Sort(cmp, tracks);
    KeysTotalPreorder(fold, keys);
    SortIsStable(cmp, tracks);
    assert cmp(r[j], r[i]) == Reverse(cmp(r[i], r[j]));
    if !Missing(r[j], keys[0].field) {
      MissingLast(fold, r[j], r[i], keys);
    }
  }

  /** `apply` leaves the array stably sorted. The library's own algorithm is not modelled: any
      stable sort leaves the same array. */
  method Apply(fold: Folding, tracks: array<Track>, keys: seq<SortKey>)
    modifies tracks
    ensures tracks[..] == Sort(ByKeys(fold, keys), old(tracks[..]))
    ensures StablySorted(ByKeys(fold, keys), old(tracks[..]), tracks[..])
  {
    KeysTotalPreorder(fold, keys);
    SortIsStable(ByKeys(fold, keys), tracks[..]);
    var sorted := Sort(ByKeys(fold, keys), tracks[..]);
    assert |sorted| == |multiset(sorted)| == tracks.Length;
    forall i | 0 <= i < tracks.Length {
      tracks[i] := sorted[i];
    }
    assert tracks[..] == sorted;
  }
}
