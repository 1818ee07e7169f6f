/** Listing responses: filtering, ordering and paging, where each page is computed from its own
    fetch of the source. */
module Listing {
  import opened Wrappers
  import opened Arithmetic
  import opened StableSort
  import opened Strings
  import opened TrackSort

  // ---- Ranges ----

  /** An `index=` range, both ends inclusive. */
  datatype Range = Whole | Span(start: nat, end: Option<nat>)

  predicate WellOrdered(r: Range) {
    r.Span? && r.end.Some? ==> r.start <= r.end.value
  }

  /** Library functions on strings. */
  datatype Lexer = Lexer(trim: string -> string, number: string -> Option<nat>)

  /** `A-B` or `A-`; anything else, and B below A, is no range at all. */
  function ParseIndexRange(lex: Lexer, raw: Option<string>): (r: Range)
    ensures WellOrdered(r)
  {
    if raw == None then Whole
    else
      match SplitOnce(lex.trim(raw.value), '-')
      case None => Whole
      case Some((a, b)) =>
        var start, end := lex.number(lex.trim(a)), lex.trim(b);
        if start == None then Whole
        else if end == "" then Span(start.value, None)
        else
          match lex.number(end)
          case None => Whole
          case Some(e) => if e < start.value then Whole else Span(start.value, Some(e))
  }

  /** Written out, `A-B` with A not above B means that range, `A-` the rest from A, `A-B` with B
      below A nothing, and blanks around the text and around A and B do not matter. */
  lemma {:induction false} RangeTextMeans(lex: Lexer, raw: string, a: string, b: string)
    requires lex.trim(raw) == a + "-" + b && '-' !in a
    ensures var range, start, end := ParseIndexRange(lex, Some(raw)), lex.number(lex.trim(a)), lex.number(lex.trim(b));
      && (start == None ==> range == Whole)
      && (start.Some? && lex.trim(b) == "" ==> range == Span(start.value, None))
      && (start.Some? && lex.trim(b) != "" && end == None ==> range == Whole)
      && (start.Some? && lex.trim(b) != "" && end.Some? ==>
            range == if start.value <= end.value then Span(start.value, end) else Whole)
  {
    hide SplitOnce;
    SplitAtFirst(a, '-', b);
  }

  /** Text without a dash is no range. */
  lemma {:induction false} DashlessTextIsWhole(lex: Lexer, raw: string)
    requires '-' !in lex.trim(raw)
    ensures ParseIndexRange(lex, Some(raw)) == Whole
  {
    SplitIffFound(lex.trim(raw), '-');
  }

  function ApplyIndexRange<T>(all: seq<T>, r: Range): seq<T>
    requires WellOrdered(r)
  {
    match r
    case Whole => all
    case Span(start, end) =>
      if start >= |all| then []
      else
        var last := |all| - 1;
        all[start..(if end.Some? then Min(end.value, last) else last) + 1]
  }

  /** The elements at positions lo up to hi, as far as there are any. */
  function Window<T>(all: seq<T>, lo: nat, hi: nat): seq<T>
    requires lo <= hi
  {
    all[Min(lo, |all|)..Min(hi, |all|)]
  }

  lemma {:induction false} RangeIsWindow<T>(all: seq<T>, start: nat, end: nat)
    ensures start <= end ==> ApplyIndexRange(all, Span(start, Some(end))) == Window(all, start, end + 1)
    ensures start <= |all| ==> ApplyIndexRange(all, Span(start, None)) == Window(all, start, |all|)
    ensures start > |all| ==> ApplyIndexRange(all, Span(start, None)) == []
  {
  }

  // ---- Pages ----

  /** Positions at which a client cuts a listing into pages. */
  predicate Cuts(cuts: seq<nat>) {
    && cuts != [] && cuts[0] == 0
    && forall i :: 0 <= i < |cuts| - 1 ==> cuts[i] < cuts[i + 1]
  }

  /** Page i: up to just before the next cut, and the last page to the end. */
  function PageRange(cuts: seq<nat>, i: nat): (r: Range)
    requires Cuts(cuts) && i < |cuts|
    ensures WellOrdered(r)
  {
    if i == |cuts| - 1 then Span(cuts[i], None)
    else
      assert cuts[i] < cuts[i + 1];
      Span(cuts[i], Some(cuts[i + 1] - 1))
  }

  /** Page i of the i-th fetched listing, for each page in turn. */
  function JoinedPages<T>(listings: seq<seq<T>>, cuts: seq<nat>, i: nat): seq<T>
    requires Cuts(cuts) && |listings| == |cuts| && i <= |cuts|
    decreases |cuts| - i
  {
    if i == |cuts| then []
    else ApplyIndexRange(listings[i], PageRange(cuts, i)) + JoinedPages(listings, cuts, i + 1)
  }

  /** If every fetch computes the same listing, the pages join to it. */
  lemma {:induction false} PagesJoin<T>(all: seq<T>, listings: seq<seq<T>>, cuts: seq<nat>, i: nat)
    requires Cuts(cuts) && |listings| == |cuts| && i < |cuts|
    requires forall k :: 0 <= k < |listings| ==> listings[k] == all
    ensures JoinedPages(listings, cuts, i) == all[Min(cuts[i], |all|)..]
    decreases |cuts| - i
  {
    hide ApplyIndexRange, JoinedPages, Cuts;
    FirstPage(listings, cuts, i);
    assert listings[i] == all;
    if i == |cuts| - 1 {
      RangeIsWindow(all, cuts[i], cuts[i]);
      NoPage(listings, cuts);
      assert all[Min(cuts[i], |all|)..] + [] == all[Min(cuts[i], |all|)..];
    } else {
      CutsRise(cuts, i);
      RangeIsWindow(all, cuts[i], cuts[i + 1] - 1);
      PagesJoin(all, listings, cuts, i + 1);
      var lo, hi := Min(cuts[i], |all|), Min(cuts[i + 1], |all|);
      assert all[lo..hi] + all[hi..] == all[lo..];
    }
  }

  lemma {:induction false} FirstPage<T>(listings: seq<seq<T>>, cuts: seq<nat>, i: nat)
    requires Cuts(cuts) && |listings| == |cuts| && i < |cuts|
    ensures JoinedPages(listings, cuts, i) ==
      ApplyIndexRange(listings[i], PageRange(cuts, i)) + JoinedPages(listings, cuts, i + 1)
  {
    hide ApplyIndexRange;
  }

  lemma {:induction false} NoPage<T>(listings: seq<seq<T>>, cuts: seq<nat>)
    requires Cuts(cuts) && |listings| == |cuts|
    ensures JoinedPages(listings, cuts, |cuts|) == []
  {
  }

  lemma {:induction false} CutsRise(cuts: seq<nat>, i: nat)
    requires Cuts(cuts) && i + 1 < |cuts|
    ensures cuts[i] < cuts[i + 1]
  {
  }

  lemma {:induction false} AllPagesJoin<T>(all: seq<T>, listings: seq<seq<T>>, cuts: seq<nat>)
    requires Cuts(cuts) && |listings| == |cuts|
    requires forall k :: 0 <= k < |listings| ==> listings[k] == all
    ensures JoinedPages(listings, cuts, 0) == all
  {
    PagesJoin(all, listings, cuts, 0);
  }

  // ---- Elementwise passes ----

  /** Each element's images, in order: mapping, filtering and looking up are all of this kind. */
  function Images<T, U>(f: T -> seq<U>, s: seq<T>): seq<U> {
    if s == [] then [] else f(s[0]) + Images(f, s[1..])
  }

  lemma {:induction false} ImagesAppend<T, U>(f: T -> seq<U>, a: seq<T>, b: seq<T>)
    ensures Images(f, a + b) == Images(f, a) + Images(f, b)
  {
    if a == [] {
      assert a + b == b;
    } else {
      ImagesAppend(f, a[1..], b);
      assert (a + b)[1..] == a[1..] + b;
      assert f(a[0]) + (Images(f, a[1..]) + Images(f, b)) == f(a[0]) + Images(f, a[1..]) + Images(f, b);
    }
  }

  lemma {:induction false} ImagesMember<T, U>(f: T -> seq<U>, s: seq<T>, u: U) returns (t: T)
    requires u in Images(f, s)
    ensures t in s && u in f(t)
  {
    if u in f(s[0]) {
      t := s[0];
    } else {
      t := ImagesMember(f, s[1..], u);
    }
  }

  /** Rearranging the input rearranges the images. */
  lemma {:induction false} ImagesPermute<T, U>(f: T -> seq<U>, s: seq<T>, t: seq<T>)
    requires multiset(s) == multiset(t)
    ensures multiset(Images(f, s)) == multiset(Images(f, t))
    decreases |s|
  {
    assert |multiset(s)| == |s| && |multiset(t)| == |t|;
    if s != [] {
      assert s[0] in multiset(t);
      var i :| 0 <= i < |t| && t[i] == s[0];
      var t' := t[..i] + t[i + 1..];
      WithoutFirst(s);
      RemoveOne(t, i);
      ImagesPermute(f, s[1..], t');
      ImagesSplit(f, t, i);
    }
  }

  lemma {:induction false} RemoveOne<T>(t: seq<T>, i: nat)
    requires i < |t|
    ensures multiset(t[..i] + t[i + 1..]) == multiset(t) - multiset{t[i]}
  {
    assert t == t[..i] + [t[i]] + t[i + 1..];
  }

  lemma {:induction false} ImagesSplit<T, U>(f: T -> seq<U>, t: seq<T>, i: nat)
    requires i < |t|
    ensures multiset(Images(f, t)) == multiset(f(t[i])) + multiset(Images(f, t[..i] + t[i + 1..]))
  {
    ImagesAppend(f, t[..i], t[i..]);
    assert t[..i] + t[i..] == t;
    ImagesAppend(f, t[..i], t[i + 1..]);
  }

  // ---- Searching ----

  datatype SearchField = ItemName | SongArtist | SongAlbum | UnknownField

  datatype Clause = Clause(field: SearchField, needle: string)

  /** The text a clause looks in. */
  function Haystack(t: Track, f: SearchField): Option<string> {
    match f
    case ItemName => Some(t.title)
    case SongArtist => t.artist
    case SongAlbum => t.album
    case UnknownField => None
  }

  predicate ClauseMatches(lower: string -> string, c: Clause, t: Track) {
    match Haystack(t, c.field)
    case None => false
    case Some(h) => c.needle == "" || Contains(lower(h), c.needle)
  }

  /** Any clause may match. */
  predicate Matches(lower: string -> string, query: seq<Clause>, t: Track) {
    exists i :: 0 <= i < |query| && ClauseMatches(lower, query[i], t)
  }

  /** The needle is somewhere in the text. */
  ghost predicate Found(needle: string, text: string) {
    exists before, after :: Around(text, needle, before, after)
  }

  /** A clause for the name, the artist or the album matches a track that has such a text in which,
      lower-cased, the needle is found; one for anything else matches none. */
  lemma {:induction false} ClauseMeans(lower: string -> string, c: Clause, t: Track)
    ensures c.field == ItemName ==> (ClauseMatches(lower, c, t) <==> Found(c.needle, lower(t.title)))
    ensures c.field == SongArtist ==> (ClauseMatches(lower, c, t) <==> t.artist.Some? && Found(c.needle, lower(t.artist.value)))
    ensures c.field == SongAlbum ==> (ClauseMatches(lower, c, t) <==> t.album.Some? && Found(c.needle, lower(t.album.value)))
    ensures c.field == UnknownField ==> !ClauseMatches(lower, c, t)
  {
    match Haystack(t, c.field) {
      case None =>
      case Some(h) =>
        ContainsIffAround(lower(h), c.needle);
        assert OccursAt(lower(h), "", 0);
    }
  }

  /** A query matches whatever one of its clauses matches. */
  lemma {:induction false} AnyClauseMatches(lower: string -> string, c: Clause, query: seq<Clause>, t: Track)
    ensures !Matches(lower, [], t)
    ensures Matches(lower, [c] + query, t) <==> ClauseMatches(lower, c, t) || Matches(lower, query, t)
  {
    hide ClauseMatches;
    var all := [c] + query;
    if i :| 0 <= i < |query| && ClauseMatches(lower, query[i], t) {
      assert ClauseMatches(lower, all[i + 1], t);
    }
    if i :| 0 <= i < |all| && ClauseMatches(lower, all[i], t) {
      assert i > 0 ==> all[i] == query[i - 1];
    }
    assert all[0] == c;
  }

  // ---- Tracks ----

  /** Everything about a tracks request but its source and range: what the transcoder makes of a
      track, the filter and the keys. Without `sort=` the keys are empty: order by number. */
  datatype View = View(serve: Track -> Track, lower: string -> string, fold: Folding, query: Option<seq<Clause>>,
    keys: seq<SortKey>)

  /** Serving a track in another format keeps its number. */
  ghost predicate KeepsId(serve: Track -> Track) {
    forall t :: serve(t).id == t.id
  }

  predicate Retained(lower: string -> string, query: Option<seq<Clause>>, t: Track) {
    query.Some? ==> Matches(lower, query.value, t)
  }

  /** A track as served, if the filter keeps it. */
  function ShownAs(serve: Track -> Track, lower: string -> string, query: Option<seq<Clause>>): Track -> seq<Track> {
    (t: Track) => if Retained(lower, query, serve(t)) then [serve(t)] else []
  }

  function Shown(v: View, tracks: seq<Track>): seq<Track> {
    Images(ShownAs(v.serve, v.lower, v.query), tracks)
  }

  /** The whole listing that a request's pages are cut from. */
  function ItemListing(v: View, tracks: seq<Track>): seq<Track> {
    Sort(ByKeys(v.fold, v.keys), Shown(v, tracks))
  }

  lemma {:induction false} ShownNoTies(v: View, tracks: seq<Track>)
    requires DistinctIds(tracks) && KeepsId(v.serve)
    ensures NoTies(ByKeys(v.fold, v.keys), Shown(v, tracks))
  {
    hide CompareKeys, Images, Retained;
    var cmp := ByKeys(v.fold, v.keys);
    var shown := Shown(v, tracks);
    forall a, b | a in shown && b in shown && cmp(a, b) == Equal
      ensures a == b
    {
      var s := ImagesMember(ShownAs(v.serve, v.lower, v.query), tracks, a);
      var t := ImagesMember(ShownAs(v.serve, v.lower, v.query), tracks, b);
      TiesOnlyById(v.fold, a, b, v.keys);
    }
  }

  /** The listing holds exactly the served tracks that the filter keeps, none before one that the keys
      put ahead of it. */
  lemma {:induction false} ItemListingMeans(v: View, tracks: seq<Track>)
    ensures forall i, j :: 0 <= i < j < |ItemListing(v, tracks)| ==>
      !Before(v.fold, v.keys, ItemListing(v, tracks)[j], ItemListing(v, tracks)[i])
    ensures forall u :: u in ItemListing(v, tracks) <==>
      exists t :: t in tracks && u == v.serve(t) && (v.query.Some? ==> Matches(v.lower, v.query.value, u))
  {
    hide Images, Sort, Matches, CompareKeys, TotalPreorder, Before;
    SortedInOrder(v.fold, Shown(v, tracks), v.keys);
    var f, listing := ShownAs(v.serve, v.lower, v.query), ItemListing(v, tracks);
    forall u
      ensures u in listing <==> exists t :: t in tracks && u == v.serve(t) && (v.query.Some? ==> Matches(v.lower, v.query.value, u))
    {
      assert u in listing <==> u in multiset(listing);
      assert u in Shown(v, tracks) <==> u in multiset(Shown(v, tracks));
      if u in Images(f, tracks) {
        var t := ImagesMember(f, tracks, u);
      }
      if t :| t in tracks && u == v.serve(t) && (v.query.Some? ==> Matches(v.lower, v.query.value, u)) {
        ImagesHas(f, tracks, t, u);
      }
    }
  }

  lemma {:induction false} ImagesHas<T, U>(f: T -> seq<U>, s: seq<T>, t: T, u: U)
    requires t in s && u in f(t)
    ensures u in Images(f, s)
  {
    if t != s[0] {
      ImagesHas(f, s[1..], t, u);
    }
  }

  /** Whatever order the source returns the tracks in, the listing is the same. */
  lemma {:induction false} ItemListingStable(v: View, s: seq<Track>, t: seq<Track>)
    requires DistinctIds(s) && KeepsId(v.serve) && multiset(s) == multiset(t)
    ensures ItemListing(v, s) == ItemListing(v, t)
  {
    ImagesPermute(ShownAs(v.serve, v.lower, v.query), s, t);
    ShownNoTies(v, s);
    KeysTotalPreorder(v.fold, v.keys);
    OrderIndependent(ByKeys(v.fold, v.keys), Shown(v, s), Shown(v, t));
  }

  function ItemListings(v: View, sources: seq<seq<Track>>): (ls: seq<seq<Track>>)
    ensures |ls| == |sources|
  {
    seq(|sources|, i requires 0 <= i < |sources| => ItemListing(v, sources[i]))
  }

  /** Pages fetched one by one, each from the source's order of the moment, join to the listing. */
  lemma {:induction false} ItemPagesJoin(v: View, tracks: seq<Track>, sources: seq<seq<Track>>, cuts: seq<nat>)
    requires DistinctIds(tracks) && KeepsId(v.serve) && Cuts(cuts) && |sources| == |cuts|
    requires forall i :: 0 <= i < |sources| ==> multiset(sources[i]) == multiset(tracks)
    ensures JoinedPages(ItemListings(v, sources), cuts, 0) == ItemListing(v, tracks)
  {
    var listings := ItemListings(v, sources);
    forall k | 0 <= k < |listings|
      ensures listings[k] == ItemListing(v, tracks)
    {
      ItemListingStable(v, tracks, sources[k]);
    }
    AllPagesJoin(ItemListing(v, tracks), listings, cuts);
  }

  /** A malformed query or sort refuses the request. */
  datatype BadRequest = BadQuery | BadSort

  /** A page and the size of the listing it comes from. */
  datatype Page<T> = Page(entries: seq<T>, total: nat)

  /** `handle_items`: serve, filter, sort, slice. The raw parameters and their parsers are given;
      a parser yields None for malformed input. */
  method HandleItems(v: View, fetched: seq<Track>, rawQuery: Option<string>, rawSort: Option<string>, rawIndex: Option<string>,
                     parseQuery: string -> Option<seq<Clause>>, parseSort: string -> Option<seq<SortKey>>, lex: Lexer)
    returns (r: Result<Page<Track>, BadRequest>)
    ensures rawQuery.Some? && parseQuery(rawQuery.value) == None ==> r == Err(BadQuery)
    ensures (rawQuery.Some? ==> parseQuery(rawQuery.value).Some?) ==>
      if rawSort.Some? && parseSort(rawSort.value) == None then r == Err(BadSort)
      else
        var view := v.(query := if rawQuery.Some? then parseQuery(rawQuery.value) else None,
                       keys := if rawSort.Some? then parseSort(rawSort.value).value else []);
        var listing := ItemListing(view, fetched);
        r == Ok(Page(ApplyIndexRange(listing, ParseIndexRange(lex, rawIndex)), |listing|))
  {
    hide Sort, ApplyIndexRange, ParseIndexRange, Shown;
    var query: Option<seq<Clause>> := None;
    if rawQuery.Some? {
      query := parseQuery(rawQuery.value);
      if query == None {
        return Err(BadQuery);
      }
    }
    var shown := ServeAndRetain(v.(query := query), fetched);
    var keys: seq<SortKey> := [];
    if rawSort.Some? {
      var parsed := parseSort(rawSort.value);
      if parsed == None {
        return Err(BadSort);
      }
      keys := parsed.value;
    }
    ShownIgnoresKeys(v.(query := query), keys, fetched);
    var sorted := Sort(ByKeys(v.fold, keys), shown);
    r := Ok(Page(ApplyIndexRange(sorted, ParseIndexRange(lex, rawIndex)), |sorted|));
  }

  /** Rewrite each track for the client, then drop those the filter does not match. */
  method ServeAndRetain(v: View, fetched: seq<Track>) returns (shown: seq<Track>)
    ensures shown == Shown(v, fetched)
  {
    hide Images, Matches;
    var f := ShownAs(v.serve, v.lower, v.query);
    shown := [];
    ImagesEnds(f, fetched, shown);
    for i := 0 to |fetched|
      invariant shown + Images(f, fetched[i..]) == Images(f, fetched)
    {
      var t := v.serve(fetched[i]);
      ImagesStep(f, fetched, i, shown);
      if Retained(v.lower, v.query, t) {
        shown := shown + [t];
      } else {
        assert shown + f(fetched[i]) == shown;
      }
    }
    ImagesEnds(f, fetched, shown);
  }

  lemma {:induction false} ImagesStep<T, U>(f: T -> seq<U>, s: seq<T>, i: nat, done: seq<U>)
    requires i < |s|
    ensures done + f(s[i]) + Images(f, s[i + 1..]) == done + Images(f, s[i..])
  {
    assert s[i..][1..] == s[i + 1..];
    assert done + f(s[i]) + Images(f, s[i + 1..]) == done + (f(s[i]) + Images(f, s[i + 1..]));
  }

  lemma {:induction false} ImagesEnds<T, U>(f: T -> seq<U>, s: seq<T>, done: seq<U>)
    ensures [] + Images(f, s[0..]) == Images(f, s)
    ensures done + Images(f, s[|s|..]) == done
  {
    assert s[0..] == s && s[|s|..] == [];
  }

  lemma {:induction false} ShownIgnoresKeys(v: View, keys: seq<SortKey>, tracks: seq<Track>)
    ensures Shown(v.(keys := keys), tracks) == Shown(v, tracks)
  {
  }
}
