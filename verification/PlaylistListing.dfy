/** Paging of one playlist's tracks, sorted or not, and of the list of playlists itself. */
module PlaylistListing {
  import opened Wrappers
  import opened Arithmetic
  import opened StableSort
  import opened TrackSort
  import opened Listing

  datatype Playlist = Playlist(id: nat, name: string, trackIds: seq<nat>)

  // ---- Tracks of a playlist ----

  /** The track table by number; a later track replaces an earlier one of the same number. */
  function ById(tracks: seq<Track>): map<nat, Track> {
    if tracks == [] then map[]
    else
      var last := tracks[|tracks| - 1];
      ById(tracks[..|tracks| - 1])[last.id := last]
  }

  /** The entry's track, if it is in the table. */
  function Resolve(byId: map<nat, Track>): nat -> seq<Track> {
    (id: nat) => if id in byId then [byId[id]] else []
  }

  lemma {:induction false} ByIdHas(tracks: seq<Track>, i: nat)
    requires DistinctIds(tracks) && i < |tracks|
    ensures tracks[i].id in ById(tracks) && ById(tracks)[tracks[i].id] == tracks[i]
    decreases |tracks|
  {
    var n := |tracks| - 1;
    if i < n {
      DistinctPrefix(tracks, n);
      ByIdHas(tracks[..n], i);
      assert tracks[n].id != tracks[i].id;
    }
  }

  lemma {:induction false} DistinctPrefix(tracks: seq<Track>, n: nat)
    requires DistinctIds(tracks) && n <= |tracks|
    ensures DistinctIds(tracks[..n])
  {
  }

  lemma {:induction false} ByIdComes(tracks: seq<Track>, id: nat)
    requires id in ById(tracks)
    ensures ById(tracks)[id] in tracks && ById(tracks)[id].id == id
    decreases |tracks|
  {
    var n := |tracks| - 1;
    if id != tracks[n].id {
      ByIdComes(tracks[..n], id);
    }
  }

  lemma {:induction false} ByIdFinds(tracks: seq<Track>)
    requires DistinctIds(tracks)
    ensures forall t :: t in tracks ==> t.id in ById(tracks) && ById(tracks)[t.id] == t
    ensures forall id :: id in ById(tracks) ==> ById(tracks)[id] in tracks && ById(tracks)[id].id == id
  {
    hide ById, DistinctIds;
    forall t | t in tracks
      ensures t.id in ById(tracks) && ById(tracks)[t.id] == t
    {
      var i: nat :| i < |tracks| && tracks[i] == t;
      ByIdHas(tracks, i);
    }
    forall id | id in ById(tracks)
      ensures ById(tracks)[id] in tracks && ById(tracks)[id].id == id
    {
      ByIdComes(tracks, id);
    }
  }

  /** The table does not depend on the order the tracks come in. */
  lemma {:induction false} ByIdStable(s: seq<Track>, t: seq<Track>)
    requires DistinctIds(s) && DistinctIds(t) && multiset(s) == multiset(t)
    ensures ById(s) == ById(t)
  {
    ByIdFinds(s);
    ByIdFinds(t);
    forall id | id in ById(s)
      ensures id in ById(t) && ById(t)[id] == ById(s)[id]
    {
      assert ById(s)[id] in multiset(t);
    }
    forall id | id in ById(t)
      ensures id in ById(s)
    {
      assert ById(t)[id] in multiset(s);
    }
  }

  /** The whole sorted playlist. */
  function SortedTracks(fold: Folding, keys: seq<SortKey>, tracks: seq<Track>, ids: seq<nat>): seq<Track> {
    Sort(ByKeys(fold, keys), Images(Resolve(ById(tracks)), ids))
  }

  /** It holds the entries that resolve, none before one that the keys put ahead of it. */
  lemma {:induction false} SortedTracksMean(fold: Folding, keys: seq<SortKey>, tracks: seq<Track>, ids: seq<nat>)
    ensures var r := SortedTracks(fold, keys, tracks, ids);
      && multiset(r) == multiset(Images(Resolve(ById(tracks)), ids))
      && forall i, j :: 0 <= i < j < |r| ==> !Before(fold, keys, r[j], r[i])
  {
    hide Before, Sort, Images;
    SortedInOrder(fold, Images(Resolve(ById(tracks)), ids), keys);
  }

  function SaturatingPred(n: nat): nat {
    if n == 0 then 0 else n - 1
  }

  /** The slice of the sorted playlist as the handler takes it; None where it is out of bounds and
      the request aborts. */
  function SortedSlice(all: seq<Track>, r: Range): Option<seq<Track>> {
    var n := |all|;
    var start := if r.Whole? then 0 else r.start;
    var last :=
      if r.Whole? then SaturatingPred(n)
      else if r.start >= n then SaturatingPred(r.start)
      else if r.end.Some? then Min(r.end.value, n - 1)
      else n - 1;
    if start > last then Some([])
    else if last < n then Some(all[start..last + 1])
    else None
  }

  /** It aborts exactly when no entry resolves and the range is absent or starts at 0, and otherwise
      takes the page that every other listing would. */
  lemma {:induction false} SortedSliceAborts(all: seq<Track>, r: Range)
    requires WellOrdered(r)
    ensures SortedSlice(all, r) ==
      if all == [] && (r == Whole || r.start == 0) then None else Some(ApplyIndexRange(all, r))
  {
    assert all[0..|all|] == all;
  }

  lemma {:induction false} ResolvedNoTies(fold: Folding, keys: seq<SortKey>, tracks: seq<Track>, ids: seq<nat>)
    requires DistinctIds(tracks)
    ensures NoTies(ByKeys(fold, keys), Images(Resolve(ById(tracks)), ids))
  {
    var cmp, f := ByKeys(fold, keys), Resolve(ById(tracks));
    ByIdFinds(tracks);
    forall a, b | a in Images(f, ids) && b in Images(f, ids) && cmp(a, b) == Equal
      ensures a == b
    {
      var i := ImagesMember(f, ids, a);
      var j := ImagesMember(f, ids, b);
      TiesOnlyById(fold, a, b, keys);
    }
  }

  lemma {:induction false} SortedTracksStable(fold: Folding, keys: seq<SortKey>, tracks: seq<Track>, ids: seq<nat>,
                                              tracks': seq<Track>, ids': seq<nat>)
    requires DistinctIds(tracks) && DistinctIds(tracks') && multiset(tracks) == multiset(tracks') && multiset(ids) == multiset(ids')
    ensures SortedTracks(fold, keys, tracks, ids) == SortedTracks(fold, keys, tracks', ids')
  {
    var f := Resolve(ById(tracks));
    ByIdStable(tracks, tracks');
    ImagesPermute(f, ids, ids');
    ResolvedNoTies(fold, keys, tracks, ids);
    KeysTotalPreorder(fold, keys);
    OrderIndependent(ByKeys(fold, keys), Images(f, ids), Images(f, ids'));
  }

  /** What one request finds in the source. */
  datatype Fetch = Fetch(tracks: seq<Track>, ids: seq<nat>)

  function SortedFetches(fold: Folding, keys: seq<SortKey>, fetches: seq<Fetch>): (ls: seq<seq<Track>>)
    ensures |ls| == |fetches|
  {
    seq(|fetches|, i requires 0 <= i < |fetches| => SortedTracks(fold, keys, fetches[i].tracks, fetches[i].ids))
  }

  ghost predicate SameContents(a: Fetch, b: Fetch) {
    DistinctIds(a.tracks) && multiset(a.tracks) == multiset(b.tracks) && multiset(a.ids) == multiset(b.ids)
  }

  /** Sorted pages join across source orders, and none of them aborts while anything resolves. */
  lemma {:induction false} SortedPagesJoin(fold: Folding, keys: seq<SortKey>, whole: Fetch, fetches: seq<Fetch>, cuts: seq<nat>)
    requires DistinctIds(whole.tracks) && Cuts(cuts) && |fetches| == |cuts|
    requires forall i :: 0 <= i < |fetches| ==> SameContents(fetches[i], whole)
    ensures var listing := SortedTracks(fold, keys, whole.tracks, whole.ids);
      && JoinedPages(SortedFetches(fold, keys, fetches), cuts, 0) == listing
      && (listing != [] ==> forall i :: 0 <= i < |cuts| ==>
           SortedSlice(SortedFetches(fold, keys, fetches)[i], PageRange(cuts, i)) ==
           Some(ApplyIndexRange(SortedFetches(fold, keys, fetches)[i], PageRange(cuts, i))))
  {
    var listing := SortedTracks(fold, keys, whole.tracks, whole.ids);
    var listings := SortedFetches(fold, keys, fetches);
    forall k | 0 <= k < |listings|
      ensures listings[k] == listing
    {
      assert SameContents(fetches[k], whole);
      SortedTracksStable(fold, keys, fetches[k].tracks, fetches[k].ids, whole.tracks, whole.ids);
    }
    AllPagesJoin(listing, listings, cuts);
    forall i | 0 <= i < |cuts| && listing != []
      ensures SortedSlice(listings[i], PageRange(cuts, i)) == Some(ApplyIndexRange(listings[i], PageRange(cuts, i)))
    {
      SortedSliceAborts(listings[i], PageRange(cuts, i));
    }
  }

  /** Without `sort=` each page resolves its own slice of the entries. */
  function JoinedResolved(byId: map<nat, Track>, ids: seq<nat>, cuts: seq<nat>, i: nat): seq<Track>
    requires Cuts(cuts) && i <= |cuts|
    decreases |cuts| - i
  {
    if i == |cuts| then []
    else Images(Resolve(byId), ApplyIndexRange(ids, PageRange(cuts, i))) + JoinedResolved(byId, ids, cuts, i + 1)
  }

  /** Unsorted pages join to the playlist's own order, entries without a track left out. */
  lemma {:induction false} UnsortedPagesJoin(byId: map<nat, Track>, ids: seq<nat>, cuts: seq<nat>, i: nat)
    requires Cuts(cuts) && i < |cuts|
    ensures JoinedResolved(byId, ids, cuts, i) == Images(Resolve(byId), ids[Min(cuts[i], |ids|)..])
    decreases |cuts| - i
  {
    hide ApplyIndexRange, Images, Resolve;
    var f := Resolve(byId);
    var lo := Min(cuts[i], |ids|);
    if i == |cuts| - 1 {
      RangeIsWindow(ids, cuts[i], cuts[i]);
      assert ApplyIndexRange(ids, PageRange(cuts, i)) == ids[lo..];
      assert JoinedResolved(byId, ids, cuts, i + 1) == [];
    } else {
      assert cuts[i] < cuts[i + 1];
      RangeIsWindow(ids, cuts[i], cuts[i + 1] - 1);
      UnsortedPagesJoin(byId, ids, cuts, i + 1);
      var hi := Min(cuts[i + 1], |ids|);
      assert ApplyIndexRange(ids, PageRange(cuts, i)) == ids[lo..hi];
      assert ids[lo..hi] + ids[hi..] == ids[lo..];
      ImagesAppend(f, ids[lo..hi], ids[hi..]);
    }
  }

  // ---- Places ----

  /** The entries of a page with their 1-based places, counted from the page's offset. */
  function Placed<T>(page: seq<T>, offset: nat): (p: seq<(T, nat)>)
    ensures |p| == |page| && forall i :: 0 <= i < |p| ==> p[i] == (page[i], offset + i + 1)
  {
    seq(|page|, i requires 0 <= i < |page| => (page[i], offset + i + 1))
  }

  /** The placed entries of all pages from the i-th on. */
  function JoinedPlaced<T>(all: seq<T>, cuts: seq<nat>, i: nat): seq<(T, nat)>
    requires Cuts(cuts) && i <= |cuts|
    decreases |cuts| - i
  {
    if i == |cuts| then [] else Placed(ApplyIndexRange(all, PageRange(cuts, i)), cuts[i]) + JoinedPlaced(all, cuts, i + 1)
  }

  /** Every entry has the same place whichever page brings it. */
  lemma {:induction false} PlacesJoin<T>(all: seq<T>, cuts: seq<nat>, i: nat)
    requires Cuts(cuts) && i < |cuts|
    ensures JoinedPlaced(all, cuts, i) == Placed(all, 0)[Min(cuts[i], |all|)..]
    decreases |cuts| - i
  {
    hide ApplyIndexRange, Placed;
    var lo := Min(cuts[i], |all|);
    if i == |cuts| - 1 {
      RangeIsWindow(all, cuts[i], cuts[i]);
      assert ApplyIndexRange(all, PageRange(cuts, i)) == all[lo..];
      assert JoinedPlaced(all, cuts, i + 1) == [];
      PlacedPart(all, cuts[i], |all|);
      assert Placed(all, 0)[lo..|all|] + [] == Placed(all, 0)[lo..];
    } else {
      assert cuts[i] < cuts[i + 1];
      RangeIsWindow(all, cuts[i], cuts[i + 1] - 1);
      PlacesJoin(all, cuts, i + 1);
      var hi := Min(cuts[i + 1], |all|);
      assert ApplyIndexRange(all, PageRange(cuts, i)) == all[lo..hi];
      PlacedPart(all, cuts[i], hi);
      assert Placed(all, 0)[lo..hi] + Placed(all, 0)[hi..] == Placed(all, 0)[lo..];
    }
  }

  /** The page from position at on has the places of the whole there. */
  lemma {:induction false} PlacedPart<T>(all: seq<T>, at: nat, hi: nat)
    requires Min(at, |all|) <= hi <= |all|
    ensures Placed(all[Min(at, |all|)..hi], at) == Placed(all, 0)[Min(at, |all|)..hi]
  {
  }

  /** An unsorted page counts places over its entries that resolved. */
  function JoinedResolvedPlaced(byId: map<nat, Track>, ids: seq<nat>, cuts: seq<nat>, i: nat): seq<(Track, nat)>
    requires Cuts(cuts) && i <= |cuts|
    decreases |cuts| - i
  {
    if i == |cuts| then []
    else
      Placed(Images(Resolve(byId), ApplyIndexRange(ids, PageRange(cuts, i))), cuts[i])
      + JoinedResolvedPlaced(byId, ids, cuts, i + 1)
  }

  /** However a client pages, each track has the place it has in the whole listing. */
  ghost predicate PlacesAgree(byId: map<nat, Track>, ids: seq<nat>) {
    forall cuts {:trigger JoinedResolvedPlaced(byId, ids, cuts, 0)} :: Cuts(cuts) ==>
      JoinedResolvedPlaced(byId, ids, cuts, 0) == Placed(Images(Resolve(byId), ids), 0)
  }

  /** No entry that resolves comes after one that does not. */
  ghost predicate GapsLast(byId: map<nat, Track>, ids: seq<nat>) {
    forall p, q :: 0 <= p < q < |ids| && ids[q] in byId ==> ids[p] in byId
  }

  lemma {:induction false} ResolvedAtMost(byId: map<nat, Track>, ids: seq<nat>)
    ensures |Images(Resolve(byId), ids)| <= |ids|
    ensures |Images(Resolve(byId), ids)| == |ids| <==> forall p :: 0 <= p < |ids| ==> ids[p] in byId
    ensures Images(Resolve(byId), ids) == [] <==> forall p :: 0 <= p < |ids| ==> ids[p] !in byId
    decreases |ids|
  {
    if ids != [] {
      ResolvedAtMost(byId, ids[1..]);
      assert forall p :: 0 < p < |ids| ==> ids[p] == ids[1..][p - 1];
    }
  }

  /** Then the first entries resolve to the first tracks, one each, until there are no more. */
  lemma {:induction false} GapsLastPrefix(byId: map<nat, Track>, ids: seq<nat>, k: nat)
    requires GapsLast(byId, ids) && k <= |ids|
    ensures var all := Images(Resolve(byId), ids); Images(Resolve(byId), ids[..k]) == all[..Min(k, |all|)]
  {
    hide Images, Resolve;
    var f := Resolve(byId);
    assert ids[..k] + ids[k..] == ids;
    ImagesAppend(f, ids[..k], ids[k..]);
    ResolvedAtMost(byId, ids[..k]);
    ResolvedAtMost(byId, ids[k..]);
    if |Images(f, ids[..k])| < k {
      var p :| 0 <= p < k && ids[..k][p] !in byId;
      assert forall q :: k <= q < |ids| ==> ids[q] !in byId;
      assert forall q :: 0 <= q < |ids[k..]| ==> ids[k..][q] == ids[k + q];
      assert Images(f, ids[k..]) == [];
    }
  }

  /** So a page of the entries resolves to the same page of the tracks. */
  lemma {:induction false} GapsLastPage(byId: map<nat, Track>, ids: seq<nat>, r: Range)
    requires GapsLast(byId, ids) && WellOrdered(r)
    ensures Images(Resolve(byId), ApplyIndexRange(ids, r)) == ApplyIndexRange(Images(Resolve(byId), ids), r)
  {
    hide Images, Resolve, GapsLast;
    var f, all := Resolve(byId), Images(Resolve(byId), ids);
    ResolvedAtMost(byId, ids);
    if r.Span? && r.start < |ids| {
      var lo, hi := r.start, (if r.end.Some? then Min(r.end.value, |ids| - 1) else |ids| - 1) + 1;
      GapsLastPrefix(byId, ids, lo);
      GapsLastPrefix(byId, ids, hi);
      assert ids[..lo] + ids[lo..hi] == ids[..hi];
      ImagesAppend(f, ids[..lo], ids[lo..hi]);
      assert Images(f, ids[lo..hi]) == Images(f, ids[..hi])[|Images(f, ids[..lo])|..];
      assert Images(f, ids[lo..hi]) == all[Min(lo, |all|)..Min(hi, |all|)];
    } else if r.Span? {
      ResolvedAtMost(byId, []);
    }
  }

  lemma {:induction false} GapsLastAgree(byId: map<nat, Track>, ids: seq<nat>, cuts: seq<nat>, i: nat)
    requires GapsLast(byId, ids) && Cuts(cuts) && i <= |cuts|
    ensures JoinedResolvedPlaced(byId, ids, cuts, i) == JoinedPlaced(Images(Resolve(byId), ids), cuts, i)
    decreases |cuts| - i
  {
    hide Images, Resolve, GapsLast, ApplyIndexRange, Cuts, Placed;
    if i < |cuts| {
      GapsLastPage(byId, ids, PageRange(cuts, i));
      GapsLastAgree(byId, ids, cuts, i + 1);
    }
  }

  /** A cut behind an entry without a track gives every later track a place further on. */
  lemma {:induction false} GapShiftsPlaces(byId: map<nat, Track>, ids: seq<nat>, p: nat, q: nat)
    requires p < q < |ids| && ids[p] !in byId && ids[q] in byId
    ensures Cuts([0, p + 1])
    ensures JoinedResolvedPlaced(byId, ids, [0, p + 1], 0) != Placed(Images(Resolve(byId), ids), 0)
  {
    hide Images, Resolve;
    var f, cuts, front, back := Resolve(byId), [0, p + 1], ids[..p + 1], ids[p + 1..];
    assert front + back == ids;
    ImagesAppend(f, front, back);
    ResolvedAtMost(byId, front);
    ResolvedAtMost(byId, back);
    assert front[p] !in byId && back[q - p - 1] in byId;
    assert ApplyIndexRange(ids, PageRange(cuts, 0)) == front && ApplyIndexRange(ids, PageRange(cuts, 1)) == back;
    var a := |Images(f, front)|;
    assert JoinedResolvedPlaced(byId, ids, cuts, 2) == [];
    assert JoinedResolvedPlaced(byId, ids, cuts, 1) == Placed(Images(f, back), p + 1);
    assert JoinedResolvedPlaced(byId, ids, cuts, 0)[a].1 == p + 2 && Placed(Images(f, ids), 0)[a].1 == a + 1;
  }

  /** Places on unsorted pages agree, however the client pages, exactly when entries without a
      track come last. */
  lemma {:induction false} UnsortedPlacesAgreeIff(byId: map<nat, Track>, ids: seq<nat>)
    ensures PlacesAgree(byId, ids) <==> GapsLast(byId, ids)
  {
    hide Images, Resolve;
    if GapsLast(byId, ids) {
      forall cuts | Cuts(cuts)
        ensures JoinedResolvedPlaced(byId, ids, cuts, 0) == Placed(Images(Resolve(byId), ids), 0)
      {
        GapsLastAgree(byId, ids, cuts, 0);
        PlacesJoin(Images(Resolve(byId), ids), cuts, 0);
      }
    } else {
      var p: nat, q: nat :| p < q < |ids| && ids[q] in byId && ids[p] !in byId;
      GapShiftsPlaces(byId, ids, p, q);
    }
  }

  /** The shortest such playlist: a missing entry before the only track. */
  lemma {:induction false} UnresolvedShiftsPlaces(t: Track, missing: nat)
    requires missing != t.id
    ensures !PlacesAgree(map[t.id := t], [missing, t.id]) && PlacesAgree(map[t.id := t], [t.id, missing])
  {
    hide PlacesAgree;
    var byId := map[t.id := t];
    UnsortedPlacesAgreeIff(byId, [missing, t.id]);
    UnsortedPlacesAgreeIff(byId, [t.id, missing]);
    assert [missing, t.id][1] in byId && [missing, t.id][0] !in byId;
  }

  // ---- The request ----

  /** What the container-items handler answers with: tracks or bare numbers, the size of the whole
      playlist, and the place of the first entry less one. */
  datatype ContainerPage = FullPage(tracks: seq<Track>, total: nat, offset: nat) | IdPage(ids: seq<nat>, total: nat, offset: nat)

  datatype ContainerFailure = MalformedSort | Abort

  /** The first playlist of that number. */
  function FindPlaylist(ps: seq<Playlist>, id: nat): Option<Playlist> {
    if ps == [] then None else if ps[0].id == id then Some(ps[0]) else FindPlaylist(ps[1..], id)
  }

  function TrackNumbers(tracks: seq<Track>): (ids: seq<nat>)
    ensures |ids| == |tracks|
  {
    seq(|tracks|, i requires 0 <= i < |tracks| => tracks[i].id)
  }

  /** The entries of a container: all tracks for the library, else those of the playlist, if any. */
  function Entries(libraryId: nat, id: nat, tracks: seq<Track>, ps: seq<Playlist>): seq<nat> {
    if id == libraryId then TrackNumbers(tracks)
    else match FindPlaylist(ps, id) case None => [] case Some(p) => p.trackIds
  }

  /** The first playlist of a number is the one before which none has it. */
  lemma {:induction false} FoundIsFirst(ps: seq<Playlist>, id: nat)
    ensures FindPlaylist(ps, id) == None <==> forall i :: 0 <= i < |ps| ==> ps[i].id != id
    ensures forall i :: 0 <= i < |ps| && ps[i].id == id && (forall j :: 0 <= j < i ==> ps[j].id != id) ==>
      FindPlaylist(ps, id) == Some(ps[i])
  {
    if ps != [] && ps[0].id != id {
      var rest := ps[1..];
      FoundIsFirst(rest, id);
      forall i | 0 <= i < |ps| && ps[i].id == id && forall j :: 0 <= j < i ==> ps[j].id != id
        ensures FindPlaylist(ps, id) == Some(ps[i])
      {
        assert rest[i - 1] == ps[i];
        assert forall j :: 0 <= j < i - 1 ==> rest[j] == ps[j + 1];
      }
      assert forall j :: 0 <= j < |rest| ==> rest[j] == ps[j + 1];
    }
  }

  /** The library's entries are all tracks, a playlist's those of the first of its number, and of a
      number that no playlist has there are none. */
  lemma {:induction false} EntriesMean(libraryId: nat, id: nat, tracks: seq<Track>, ps: seq<Playlist>)
    ensures var ids := Entries(libraryId, id, tracks, ps);
      && (id == libraryId ==> |ids| == |tracks| && forall i :: 0 <= i < |ids| ==> ids[i] == tracks[i].id)
      && (id != libraryId ==>
            && (forall i :: 0 <= i < |ps| && ps[i].id == id && (forall j :: 0 <= j < i ==> ps[j].id != id) ==>
                  ids == ps[i].trackIds)
            && ((forall i :: 0 <= i < |ps| ==> ps[i].id != id) ==> ids == []))
  {
    hide FindPlaylist;
    FoundIsFirst(ps, id);
  }

  function StartOf(r: Range): nat {
    if r.Whole? then 0 else r.start
  }

  /** `handle_container_items`. */
  method HandleContainerItems(fold: Folding, libraryId: nat, id: nat, tracks: seq<Track>, ps: seq<Playlist>, full: bool,
                              rawSort: Option<string>, parseSort: string -> Option<seq<SortKey>>,
                              lex: Lexer, rawIndex: Option<string>)
    returns (r: Result<ContainerPage, ContainerFailure>)
    ensures var ids, range := Entries(libraryId, id, tracks, ps), ParseIndexRange(lex, rawIndex);
      if !full then r == Ok(IdPage(ApplyIndexRange(ids, range), |ids|, StartOf(range)))
      else if rawSort == None then
        r == Ok(FullPage(Images(Resolve(ById(tracks)), ApplyIndexRange(ids, range)), |ids|, StartOf(range)))
      else if parseSort(rawSort.value) == None then r == Err(MalformedSort)
      else
        var sorted := SortedTracks(fold, parseSort(rawSort.value).value, tracks, ids);
        if sorted == [] && StartOf(range) == 0 then r == Err(Abort)
        else r == Ok(FullPage(ApplyIndexRange(sorted, range), |ids|, StartOf(range)))
  {
    hide ApplyIndexRange, ParseIndexRange, Sort, Images, ById;
    var ids := [];
    if id == libraryId {
      ids := TrackNumbers(tracks);
    } else {
      var found := Search(ps, id);
      if found.Some? {
        ids := found.value.trackIds;
      }
    }
    var range := ParseIndexRange(lex, rawIndex);
    var sliced, offset := ApplyIndexRange(ids, range), StartOf(range);
    if !full {
      return Ok(IdPage(sliced, |ids|, offset));
    }
    if rawSort.Some? && parseSort(rawSort.value) == None {
      return Err(MalformedSort);
    }
    var byId := Index(tracks);
    if rawSort.Some? {
      var all := Look(byId, ids);
      var sorted := Sort(ByKeys(fold, parseSort(rawSort.value).value), all);
      SortedSliceAborts(sorted, range);
      var slice := SortedSlice(sorted, range);
      if slice == None {
        return Err(Abort);
      }
      return Ok(FullPage(slice.value, |ids|, offset));
    }
    var slice := Look(byId, sliced);
    r := Ok(FullPage(slice, |ids|, offset));
  }

  method Search(ps: seq<Playlist>, id: nat) returns (r: Option<Playlist>)
    ensures r == FindPlaylist(ps, id)
  {
    for i := 0 to |ps|
      invariant FindPlaylist(ps, id) == FindPlaylist(ps[i..], id)
    {
      assert ps[i..][1..] == ps[i + 1..];
      if ps[i].id == id {
        return Some(ps[i]);
      }
    }
    assert ps[|ps|..] == [];
    r := None;
  }

  /** The table of tracks by number. */
  method Index(tracks: seq<Track>) returns (byId: map<nat, Track>)
    ensures byId == ById(tracks)
  {
    byId := map[];
    for i := 0 to |tracks|
      invariant byId == ById(tracks[..i])
    {
      assert tracks[..i + 1][..i] == tracks[..i];
      byId := byId[tracks[i].id := tracks[i]];
    }
    assert tracks[..|tracks|] == tracks;
  }

  /** The tracks of the entries that have one. */
  method Look(byId: map<nat, Track>, ids: seq<nat>) returns (found: seq<Track>)
    ensures found == Images(Resolve(byId), ids)
  {
    hide Images;
    var f := Resolve(byId);
    found := [];
    ImagesEnds(f, ids, found);
    for i := 0 to |ids|
      invariant found + Images(f, ids[i..]) == Images(f, ids)
    {
      ImagesStep(f, ids, i, found);
      if ids[i] in byId {
        found := found + [byId[ids[i]]];
      } else {
        assert found + f(ids[i]) == found;
      }
    }
    ImagesEnds(f, ids, found);
  }

  // ---- The list of playlists ----

  /** An entry of the source pane: the whole library first, then the playlists. */
  datatype PaneEntry = Library | Extra(p: Playlist)

  function Extras(ps: seq<Playlist>): (es: seq<PaneEntry>)
    ensures |es| == |ps| && forall i :: 0 <= i < |es| ==> es[i] == Extra(ps[i])
  {
    seq(|ps|, i requires 0 <= i < |ps| => Extra(ps[i]))
  }

  function Pane(extras: seq<Playlist>): seq<PaneEntry> {
    [Library] + Extras(extras)
  }

  /** `slice_playlists`: whether the library is on the page, and which playlists are. */
  function SlicePlaylists(r: Range, extras: seq<Playlist>): (bool, seq<Playlist>)
    requires WellOrdered(r)
  {
    var total := 1 + |extras|;
    if r.Whole? then (true, extras)
    else if r.start >= total then (false, [])
    else
      var last := if r.end.Some? then Min(r.end.value, total - 1) else total - 1;
      (r.start == 0, extras[SaturatingPred(r.start)..Min(last, |extras|)])
  }

  /** The two parts together are the range of the one list the client sees. */
  lemma {:induction false} SliceIsRange(r: Range, extras: seq<Playlist>)
    requires WellOrdered(r)
    ensures var (library, shown) := SlicePlaylists(r, extras);
      (if library then [Library] else []) + Extras(shown) == ApplyIndexRange(Pane(extras), r)
  {
    var (library, shown) := SlicePlaylists(r, extras);
    if r.Span? && r.start <= |extras| {
      var last := if r.end.Some? then Min(r.end.value, |extras|) else |extras|;
      PanePart(extras, r.start, last);
      assert shown == extras[SaturatingPred(r.start)..last];
    }
  }

  /** Positions start to last of the pane: the library is at 0, playlist i at i + 1. */
  lemma {:induction false} PanePart(extras: seq<Playlist>, start: nat, last: nat)
    requires start <= last <= |extras|
    ensures Pane(extras)[start..last + 1] ==
      (if start == 0 then [Library] else []) + Extras(extras[SaturatingPred(start)..last])
  {
    ExtrasPart(extras, SaturatingPred(start), last);
    var es := Extras(extras);
    hide Extras;
    if start == 0 {
      assert ([Library] + es)[..last + 1] == [Library] + es[..last];
    } else {
      assert ([Library] + es)[start..last + 1] == es[start - 1..last];
    }
  }

  lemma {:induction false} ExtrasPart(extras: seq<Playlist>, a: nat, b: nat)
    requires a <= b <= |extras|
    ensures Extras(extras)[a..b] == Extras(extras[a..b])
  {
  }

  /** What a playlist's name sorts by: artist, year and album, however they are read off it. */
  datatype NameKey = NameKey(artist: string, year: nat, album: string)

  function CmpName(a: NameKey, b: NameKey): Ordering {
    Then(CmpString(a.artist, b.artist), Then(CmpInt(a.year, b.year), CmpString(a.album, b.album)))
  }

  function ByName(key: string -> NameKey): Comparison<Playlist> {
    (a: Playlist, b: Playlist) => CmpName(key(a.name), key(b.name))
  }

  lemma {:induction false} NameConsistent(a: NameKey, b: NameKey, c: NameKey)
    ensures Consistent(CmpName(a, b), CmpName(b, c), CmpName(a, c))
    ensures CmpName(b, a) == Reverse(CmpName(a, b))
  {
    hide CmpString;
    StringAntisymmetric(a.artist, b.artist);
    StringAntisymmetric(a.album, b.album);
    StringConsistent(a.artist, b.artist, c.artist);
    StringConsistent(a.album, b.album, c.album);
    IntConsistent(a.year, b.year, c.year);
    ConsistentThen(CmpInt(a.year, b.year), CmpInt(b.year, c.year), CmpInt(a.year, c.year),
                   CmpString(a.album, b.album), CmpString(b.album, c.album), CmpString(a.album, c.album));
    ConsistentThen(CmpString(a.artist, b.artist), CmpString(b.artist, c.artist), CmpString(a.artist, c.artist),
                   Then(CmpInt(a.year, b.year), CmpString(a.album, b.album)),
                   Then(CmpInt(b.year, c.year), CmpString(b.album, c.album)),
                   Then(CmpInt(a.year, c.year), CmpString(a.album, c.album)));
  }

  lemma {:induction false} NameTotalPreorder(key: string -> NameKey)
    ensures TotalPreorder(ByName(key))
  {
    var cmp := ByName(key);
    forall a, b
      ensures cmp(b, a) == Reverse(cmp(a, b))
    {
      NameConsistent(key(a.name), key(b.name), key(a.name));
    }
    forall a, b, c
      ensures Consistent(cmp(a, b), cmp(b, c), cmp(a, c))
    {
      NameConsistent(key(a.name), key(b.name), key(c.name));
    }
  }

  /** Artists first, then years, then albums. */
  ghost predicate NameBefore(a: NameKey, b: NameKey) {
    if a.artist != b.artist then TextBelow(a.artist, b.artist)
    else if a.year != b.year then a.year < b.year
    else TextBelow(a.album, b.album)
  }

  lemma {:induction false} CmpNameIsBefore(a: NameKey, b: NameKey)
    ensures CmpName(a, b) == Less <==> NameBefore(a, b)
    ensures CmpName(a, b) == Equal <==> a == b
  {
    hide CmpString, TextBelow;
    StringOrder(a.artist, b.artist);
    StringOrder(a.album, b.album);
  }

  /** The list of playlists holds them all, none before one whose name comes first. */
  lemma {:induction false} PaneInOrder(key: string -> NameKey, extras: seq<Playlist>)
    ensures var r := Sort(ByName(key), extras);
      multiset(r) == multiset(extras) && forall i, j :: 0 <= i < j < |r| ==> !NameBefore(key(r[j].name), key(r[i].name))
  {
    hide CmpName, NameBefore, TotalPreorder, Sort;
    var cmp := ByName(key);
    NameTotalPreorder(key);
    SortIsStable(cmp, extras);
    var r := Sort(cmp, extras);
    forall i, j | 0 <= i < j < |r|
      ensures !NameBefore(key(r[j].name), key(r[i].name))
    {
      assert cmp(r[i], r[j]) != Greater;
      CmpNameIsBefore(key(r[j].name), key(r[i].name));
      NameConsistent(key(r[i].name), key(r[j].name), key(r[i].name));
    }
  }

  function PaneListing(key: string -> NameKey, extras: seq<Playlist>): seq<PaneEntry> {
    Pane(Sort(ByName(key), extras))
  }

  function PaneListings(key: string -> NameKey, sources: seq<seq<Playlist>>): (ls: seq<seq<PaneEntry>>)
    ensures |ls| == |sources|
  {
    seq(|sources|, i requires 0 <= i < |sources| => PaneListing(key, sources[i]))
  }

  /** Pages of playlists join across source orders if no two different playlists have names that
      sort the same. */
  lemma {:induction false} PanePagesJoin(key: string -> NameKey, extras: seq<Playlist>, sources: seq<seq<Playlist>>, cuts: seq<nat>)
    requires NoTies(ByName(key), extras) && Cuts(cuts) && |sources| == |cuts|
    requires forall i :: 0 <= i < |sources| ==> multiset(sources[i]) == multiset(extras)
    ensures JoinedPages(PaneListings(key, sources), cuts, 0) == PaneListing(key, extras)
  {
    NameTotalPreorder(key);
    var listings := PaneListings(key, sources);
    forall k | 0 <= k < |listings|
      ensures listings[k] == PaneListing(key, extras)
    {
      OrderIndependent(ByName(key), extras, sources[k]);
    }
    AllPagesJoin(PaneListing(key, extras), listings, cuts);
  }

  /** If two do, there are a second source order and a cut at which two pages joined show one
      playlist twice and another not at all. */
  lemma {:induction false} PanePagesDrift(key: string -> NameKey, extras: seq<Playlist>, i: nat, j: nat)
    returns (other: seq<Playlist>, cut: nat)
    requires i < j < |extras| && extras[i] != extras[j] && ByName(key)(extras[i], extras[j]) == Equal
    ensures multiset(other) == multiset(extras) && Cuts([0, cut])
    ensures multiset(JoinedPages(PaneListings(key, [extras, other]), [0, cut], 0)) != multiset(PaneListing(key, extras))
  {
    hide Sort, JoinedPages, TotalPreorder, StablySorted, ByName, CmpName, Cuts, Pane;
    var cmp := ByName(key);
    other := extras[i := extras[j]][j := extras[i]];
    NameTotalPreorder(key);
    TiesShow(cmp, extras, i, j);
    SortIsStable(cmp, extras);
    SortIsStable(cmp, other);
    cut := MixedPanes(Sort(cmp, extras), Sort(cmp, other));
    assert PaneListings(key, [extras, other]) == [Pane(Sort(cmp, extras)), Pane(Sort(cmp, other))];
  }

  /** Two arrangements of the same playlists, cut where they first differ and joined. */
  lemma {:induction false} MixedPanes(s: seq<Playlist>, t: seq<Playlist>) returns (cut: nat)
    requires multiset(s) == multiset(t) && s != t
    ensures Cuts([0, cut]) && multiset(JoinedPages([Pane(s), Pane(t)], [0, cut], 0)) != multiset(Pane(s))
  {
    hide JoinedPages, Cuts;
    var a, b := Pane(s), Pane(t);
    assert |multiset(s)| == |s| && |multiset(t)| == |t|;
    var k := FirstDifference(s, t);
    assert a[k + 1] == Extra(s[k]) && b[k + 1] == Extra(t[k]);
    cut := k + 2;
    PaneMultiset(s, t);
    JoinTwo(a, b, cut);
    assert a[..k + 1] == b[..k + 1];
    MixDiffers(a, b, k + 1);
  }

  lemma {:induction false} FirstDifference<T>(s: seq<T>, t: seq<T>) returns (k: nat)
    requires |s| == |t| && s != t
    ensures k < |s| && s[k] != t[k] && s[..k] == t[..k]
  {
    k := 0;
    while s[k] == t[k]
      invariant k < |s| && s[..k] == t[..k]
      invariant exists m :: k <= m < |s| && s[m] != t[m]
      decreases |s| - k
    {
      k := k + 1;
    }
  }

  lemma {:induction false} PaneMultiset(s: seq<Playlist>, t: seq<Playlist>)
    requires multiset(s) == multiset(t)
    ensures multiset(Pane(s)) == multiset(Pane(t))
  {
    var f := (p: Playlist) => [Extra(p)];
    ImagesPermute(f, s, t);
    ExtrasAreImages(s);
    ExtrasAreImages(t);
  }

  lemma {:induction false} ExtrasAreImages(s: seq<Playlist>)
    ensures Images((p: Playlist) => [Extra(p)], s) == Extras(s)
  {
    if s != [] {
      ExtrasAreImages(s[1..]);
    }
  }

  lemma {:induction false} JoinTwo<T>(a: seq<T>, b: seq<T>, cut: nat)
    requires 0 < cut <= |a| == |b|
    ensures Cuts([0, cut]) && JoinedPages([a, b], [0, cut], 0) == a[..cut] + b[cut..]
  {
    var cuts := [0, cut];
    RangeIsWindow(a, 0, cut - 1);
    RangeIsWindow(b, cut, cut);
    assert JoinedPages([a, b], cuts, 2) == [];
    assert JoinedPages([a, b], cuts, 1) == b[cut..];
  }

  /** Two equal-length sequences that first differ at k: the start of one through k and the rest of
      the other are not a rearrangement of either. */
  lemma {:induction false} MixDiffers<T>(a: seq<T>, b: seq<T>, k: nat)
    requires k < |a| == |b| && a[k] != b[k] && a[..k] == b[..k] && multiset(a) == multiset(b)
    ensures multiset(a[..k + 1] + b[k + 1..]) != multiset(a)
  {
    assert a[..k + 1] + b[k + 1..] == b[k := a[k]];
    assert multiset(b[k := a[k]]) == multiset(b)[a[k] := multiset(b)[a[k]] + 1][b[k] := multiset(b)[b[k]] - 1];
  }
}
