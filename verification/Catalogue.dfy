/** Building the catalogue: paged browsing of one container, and a queue-driven walk of a remote,
    possibly cyclic, possibly failing container graph. */
module Catalogue {
  import opened Wrappers
  import opened Arithmetic
  import opened Didl

  const MAX_DEPTH: nat := 8
  const U32_MAX: nat := 0xFFFF_FFFF

  const SKIP_TOP_LEVEL: seq<string> := ["Video", "Videos", "Photos", "Photo", "Movies", "TV Shows", "TV"]

  /** What browsing one container found. */
  datatype Listing = Listing(folders: seq<Folder>, items: seq<AudioItem>)

  // ---- One container, page by page ----

  /** A page of results, with the server's own count of what it returned and of all there is. */
  datatype Page = Page(folders: seq<Folder>, items: seq<AudioItem>, returned: nat, total: nat)

  /** The answer to the n-th request of a browse, which asks from the given index on; None is any
      transport, status or parse failure. */
  type PageServer = (nat, nat) -> Option<Page>

  /** Adding past the 32-bit index stops the program. */
  datatype BrowseError = Failed | IndexOverflow

  ghost predicate Counts32(server: PageServer) {
    forall n, start :: server(n, start).Some? ==>
      server(n, start).value.returned <= U32_MAX && server(n, start).value.total <= U32_MAX
  }

  /** What the n-th and later requests bring, from the given index on. */
  ghost function Fetched(server: PageServer, n: nat, start: nat): Result<Listing, BrowseError>
    requires Counts32(server) && start <= U32_MAX
    decreases U32_MAX - start
  {
    match server(n, start)
    case None => Err(Failed)
    case Some(page) =>
      if page.returned == 0 then Ok(Listing(page.folders, page.items))
      else if start + page.returned > U32_MAX then Err(IndexOverflow)
      else if start + page.returned >= page.total then Ok(Listing(page.folders, page.items))
      else
        match Fetched(server, n + 1, start + page.returned)
        case Err(e) => Err(e)
        case Ok(rest) => Ok(Listing(page.folders + rest.folders, page.items + rest.items))
  }

  /** What had been gathered before, then the rest. */
  function Joined(folders: seq<Folder>, items: seq<AudioItem>, rest: Result<Listing, BrowseError>): Result<Listing, BrowseError> {
    match rest
    case Err(e) => Err(e)
    case Ok(more) => Ok(Listing(folders + more.folders, items + more.items))
  }

  lemma {:induction false} JoinedTwice(f: seq<Folder>, i: seq<AudioItem>, f': seq<Folder>, i': seq<AudioItem>,
                                       rest: Result<Listing, BrowseError>)
    ensures Joined(f, i, Joined(f', i', rest)) == Joined(f + f', i + i', rest)
  {
    if rest.Ok? {
      assert f + (f' + rest.value.folders) == f + f' + rest.value.folders;
      assert i + (i' + rest.value.items) == i + i' + rest.value.items;
    }
  }

  lemma {:induction false} JoinedNothing(rest: Result<Listing, BrowseError>)
    ensures Joined([], [], rest) == rest
  {
    if rest.Ok? {
      assert [] + rest.value.folders == rest.value.folders && [] + rest.value.items == rest.value.items;
    }
  }

  /** A successful response: the events of its document, whether the reader breaks off with an error,
      and the two counts. */
  datatype Answer = Answer(events: seq<Event>, broken: bool, returned: nat, total: nat)

  /** What the control address answers to the n-th request of a browse; None is a transport or status
      failure or a response without a result. */
  type Endpoint = (nat, nat) -> Option<Answer>

  function PageOf(lex: Lexicon, answer: Option<Answer>): Option<Page> {
    if answer == None || answer.value.broken then None
    else
      var parsed := Run(lex, INITIAL, answer.value.events);
      Some(Page(parsed.containers, parsed.items, answer.value.returned, answer.value.total))
  }

  function Pages(lex: Lexicon, endpoint: Endpoint): PageServer {
    (n: nat, start: nat) => PageOf(lex, endpoint(n, start))
  }

  /** `browse_children`: ask for pages and parse them until one comes back empty or the total is
      reached. */
  method BrowseChildren(lex: Lexicon, endpoint: Endpoint) returns (r: Result<Listing, BrowseError>)
    requires Counts32(Pages(lex, endpoint))
    ensures r == Fetched(Pages(lex, endpoint), 0, 0)
  {
    hide Run;
    ghost var server := Pages(lex, endpoint);
    var folders: seq<Folder>, items: seq<AudioItem> := [], [];
    var start := 0;
    var request: nat := 0;
    JoinedNothing(Fetched(server, 0, 0));
    while true
      invariant 0 <= start <= U32_MAX && 0 <= request
      invariant Fetched(server, 0, 0) == Joined(folders, items, Fetched(server, request, start))
      decreases U32_MAX - start
    {
      var answer := endpoint(request, start);
      if answer == None {
        return Err(Failed);
      }
      var parsed := ParseDidlLite(lex, answer.value.events, answer.value.broken);
      if parsed.Err? {
        return Err(Failed);
      }
      var (c, i) := parsed.value;
      var returned, total := answer.value.returned, answer.value.total;
      assert server(request, start) == Some(Page(c, i, returned, total));
      JoinedTwice(folders, items, c, i,
                  if returned > 0 && start + returned < total
                  then Fetched(server, request + 1, start + returned) else Ok(Listing([], [])));
      folders, items := folders + c, items + i;
      if returned == 0 {
        return Ok(Listing(folders, items));
      }
      if start + returned > U32_MAX {
        return Err(IndexOverflow);
      }
      start := start + returned;
      if start >= total {
        return Ok(Listing(folders, items));
      }
      request := request + 1;
    }
  }

  /** A child object: a container, an audio item, or something the parser makes nothing of. */
  datatype Child = FolderChild(folder: Folder) | ItemChild(item: AudioItem) | OtherChild

  function Folders(all: seq<Child>): seq<Folder> {
    if all == [] then [] else (if all[0].FolderChild? then [all[0].folder] else []) + Folders(all[1..])
  }

  function Items(all: seq<Child>): seq<AudioItem> {
    if all == [] then [] else (if all[0].ItemChild? then [all[0].item] else []) + Items(all[1..])
  }

  lemma {:induction false} FoldersAppend(a: seq<Child>, b: seq<Child>)
    ensures Folders(a + b) == Folders(a) + Folders(b)
  {
    if a == [] {
      assert a + b == b;
    } else {
      FoldersAppend(a[1..], b);
      assert (a + b)[1..] == a[1..] + b;
      Assoc(if a[0].FolderChild? then [a[0].folder] else [], Folders(a[1..]), Folders(b));
    }
  }

  lemma {:induction false} ItemsAppend(a: seq<Child>, b: seq<Child>)
    ensures Items(a + b) == Items(a) + Items(b)
  {
    if a == [] {
      assert a + b == b;
    } else {
      ItemsAppend(a[1..], b);
      assert (a + b)[1..] == a[1..] + b;
      Assoc(if a[0].ItemChild? then [a[0].item] else [], Items(a[1..]), Items(b));
    }
  }

  /** A server that pages through a fixed list of children, as many at a time as it likes but at
      least one while there are any left. */
  ghost predicate Honest(server: PageServer, all: seq<Child>) {
    && |all| <= U32_MAX
    && forall n: nat, start: nat :: start <= |all| ==> HonestPage(server(n, start), start, all)
  }

  predicate HonestPage(answer: Option<Page>, start: nat, all: seq<Child>)
    requires start <= |all|
  {
    && answer.Some?
    && answer.value.total == |all|
    && start + answer.value.returned <= |all|
    && (start < |all| ==> answer.value.returned > 0)
    && answer.value.folders == Folders(all[start..start + answer.value.returned])
    && answer.value.items == Items(all[start..start + answer.value.returned])
  }

  /** The pages of an honest server join to the whole list, nothing missing and nothing twice. */
  lemma {:induction false} PagesJoin(server: PageServer, all: seq<Child>, n: nat, start: nat)
    requires Counts32(server) && Honest(server, all) && start <= |all|
    ensures Fetched(server, n, start) == Ok(Listing(Folders(all[start..]), Items(all[start..])))
    decreases |all| - start
  {
    assert HonestPage(server(n, start), start, all);
    var k := server(n, start).value.returned;
    var page, rest := all[start..start + k], all[start + k..];
    assert all[start..] == page + rest;
    FoldersAppend(page, rest);
    ItemsAppend(page, rest);
    if start + k < |all| {
      PagesJoin(server, all, n + 1, start + k);
    } else {
      assert rest == [];
      assert Folders(page) + [] == Folders(page) && Items(page) + [] == Items(page);
    }
  }

  // ---- The walk, level by level ----

  /** The answer to the n-th browse of the walk; None is a failure. */
  type Server = (nat, string) -> Option<Listing>

  datatype Entry = Entry(folder: Folder, depth: nat)

  /** A container that was browsed, and its own items. */
  datatype Visit = Visit(folder: Folder, depth: nat, items: seq<AudioItem>)

  function AsciiLower(c: char): char {
    if 'A' <= c <= 'Z' then (c as int + 32) as char else c
  }

  predicate EqIgnoreAsciiCase(a: string, b: string) {
    |a| == |b| && forall i :: 0 <= i < |a| ==> AsciiLower(a[i]) == AsciiLower(b[i])
  }

  /** Names of the media hierarchies left out directly below the server's own root. */
  predicate SkippedName(name: string) {
    exists i :: 0 <= i < |SKIP_TOP_LEVEL| && EqIgnoreAsciiCase(SKIP_TOP_LEVEL[i], name)
  }

  predicate Kept(filter: bool, depth: nat, f: Folder) {
    !(filter && depth == 0 && SkippedName(f.title))
  }

  function KeptFolders(filter: bool, depth: nat, fs: seq<Folder>): seq<Folder> {
    if fs == [] then [] else (if Kept(filter, depth, fs[0]) then [fs[0]] else []) + KeptFolders(filter, depth, fs[1..])
  }

  function Children(answer: Option<Listing>, filter: bool, depth: nat): seq<Folder> {
    if answer == None then [] else KeptFolders(filter, depth, answer.value.folders)
  }

  /** Browsing the containers of one level in order, as requests n, n + 1, ...: the visits ... */
  function LevelVisits(server: Server, n: nat, level: seq<Folder>, depth: nat): seq<Visit>
    decreases |level|
  {
    if level == [] then []
    else
      var answer := server(n, level[0].id);
      (if answer == None then [] else [Visit(level[0], depth, answer.value.items)])
      + LevelVisits(server, n + 1, level[1..], depth)
  }

  /** ... and the containers of the level below. */
  function NextLevel(server: Server, n: nat, level: seq<Folder>, filter: bool, depth: nat): seq<Folder>
    decreases |level|
  {
    if level == [] then []
    else Children(server(n, level[0].id), filter, depth) + NextLevel(server, n + 1, level[1..], filter, depth)
  }

  /** The visits of a level and of all levels below it. */
  function Levels(server: Server, n: nat, level: seq<Folder>, filter: bool, depth: nat): seq<Visit>
    decreases MAX_DEPTH + 1 - depth
  {
    if depth > MAX_DEPTH then []
    else
      LevelVisits(server, n, level, depth)
      + Levels(server, n + |level|, NextLevel(server, n, level, filter, depth), filter, depth + 1)
  }

  // ---- Numbering ----

  datatype AudioContainer = AudioContainer(id: nat, name: string, trackIds: seq<nat>)

  datatype Catalogue = Catalogue(items: seq<AudioItem>, containers: seq<AudioContainer>)

  function VisitedItems(vs: seq<Visit>): seq<AudioItem> {
    if vs == [] then [] else VisitedItems(vs[..|vs| - 1]) + vs[|vs| - 1].items
  }

  /** Items numbered from 1 in visiting order. */
  function NumberedItems(vs: seq<Visit>): (items: seq<AudioItem>)
    ensures |items| == |VisitedItems(vs)|
    ensures forall i :: 0 <= i < |items| ==> items[i] == VisitedItems(vs)[i].(id := i + 1)
  {
    seq(|VisitedItems(vs)|, i requires 0 <= i < |VisitedItems(vs)| => VisitedItems(vs)[i].(id := i + 1))
  }

  /** A visit that gives rise to a container. */
  predicate Listed(v: Visit) {
    v.depth > 0 && v.items != []
  }

  function ListedVisits(vs: seq<Visit>): seq<Visit> {
    if vs == [] then []
    else ListedVisits(vs[..|vs| - 1]) + if Listed(vs[|vs| - 1]) then [vs[|vs| - 1]] else []
  }

  function ContainerName(f: Folder): string {
    if f.title == "" then f.id else f.title
  }

  /** The track numbers first, first + 1, ..., n of them. */
  function Consecutive(first: nat, n: nat): (ids: seq<nat>)
    ensures |ids| == n && forall i :: 0 <= i < n ==> ids[i] == first + i
  {
    seq(n, i => first + i)
  }

  /** A container for every listed visit, numbered from 2, with the numbers its items got. */
  function NumberedContainers(vs: seq<Visit>): seq<AudioContainer> {
    if vs == [] then []
    else
      var before, last := vs[..|vs| - 1], vs[|vs| - 1];
      NumberedContainers(before) +
      if Listed(last) then
        [AudioContainer(|ListedVisits(before)| + 2, ContainerName(last.folder),
                        Consecutive(|VisitedItems(before)| + 1, |last.items|))]
      else []
  }

  function Numbered(vs: seq<Visit>): Catalogue {
    Catalogue(NumberedItems(vs), NumberedContainers(vs))
  }

  lemma {:induction false} NumberedOneMore(vs: seq<Visit>, v: Visit)
    ensures Numbered(vs + [v]).items == Numbered(vs).items + Renumbered(v.items, |VisitedItems(vs)| + 1)
    ensures Numbered(vs + [v]).containers == Numbered(vs).containers +
      if Listed(v) then
        [AudioContainer(|Numbered(vs).containers| + 2, ContainerName(v.folder),
                        Consecutive(|VisitedItems(vs)| + 1, |v.items|))]
      else []
  {
    assert (vs + [v])[..|vs|] == vs;
    ContainersAreListed(vs);
  }

  function Renumbered(items: seq<AudioItem>, first: nat): (r: seq<AudioItem>)
    ensures |r| == |items| && forall i :: 0 <= i < |r| ==> r[i] == items[i].(id := first + i)
  {
    seq(|items|, i requires 0 <= i < |items| => items[i].(id := first + i))
  }

  lemma {:induction false} ContainersAreListed(vs: seq<Visit>)
    ensures |NumberedContainers(vs)| == |ListedVisits(vs)|
    decreases |vs|
  {
    if vs != [] {
      ContainersAreListed(vs[..|vs| - 1]);
    }
  }

  // ---- What the numbering promises ----

  /** Container j stems from visit k: its number, its name, and the numbers of the visit's items. */
  predicate StemsFrom(vs: seq<Visit>, c: AudioContainer, j: nat, k: nat) {
    && k < |vs| && vs[k].depth > 0 && vs[k].items != [] && c.id == j + 2
    && c.name == (if vs[k].folder.title != "" then vs[k].folder.title else vs[k].folder.id)
    && c.trackIds == Consecutive(|VisitedItems(vs[..k])| + 1, |vs[k].items|)
  }

  lemma {:induction false} VisitedPrefix(vs: seq<Visit>, k: nat)
    requires k < |vs|
    ensures |VisitedItems(vs[..k])| + |vs[k].items| <= |VisitedItems(vs)|
    ensures VisitedItems(vs)[|VisitedItems(vs[..k])|..|VisitedItems(vs[..k])| + |vs[k].items|] == vs[k].items
    decreases |vs|
  {
    var before := vs[..|vs| - 1];
    if k < |before| {
      VisitedPrefix(before, k);
      assert before[..k] == vs[..k];
    }
  }

  /** Containers are numbered from 2 and named by title, or by object id for want of one; each has the
      non-empty, consecutive track numbers of one visit
      below the top, and these are the numbers of the items found there. */
  lemma {:induction false} ContainerStems(vs: seq<Visit>, j: nat) returns (k: nat)
    requires j < |NumberedContainers(vs)|
    ensures StemsFrom(vs, NumberedContainers(vs)[j], j, k)
    ensures var ids := NumberedContainers(vs)[j].trackIds;
      ids != [] && forall i :: 0 <= i < |ids| ==>
        1 <= ids[i] <= |NumberedItems(vs)| && NumberedItems(vs)[ids[i] - 1] == vs[k].items[i].(id := ids[i])
    decreases |vs|
  {
    k := StemOf(vs, j);
    VisitedPrefix(vs, k);
    var ids, n := NumberedContainers(vs)[j].trackIds, |VisitedItems(vs[..k])|;
    forall i | 0 <= i < |ids|
      ensures 1 <= ids[i] <= |NumberedItems(vs)| && NumberedItems(vs)[ids[i] - 1] == vs[k].items[i].(id := ids[i])
    {
      assert VisitedItems(vs)[n..n + |vs[k].items|][i] == vs[k].items[i];
    }
  }

  lemma {:induction false} StemOf(vs: seq<Visit>, j: nat) returns (k: nat)
    requires j < |NumberedContainers(vs)|
    ensures StemsFrom(vs, NumberedContainers(vs)[j], j, k)
    decreases |vs|
  {
    var before := vs[..|vs| - 1];
    if j < |NumberedContainers(before)| {
      k := StemOf(before, j);
      assert before[..k] == vs[..k];
    } else {
      ContainersAreListed(before);
      k := |before|;
    }
  }

  /** A later container's track numbers are all greater, so no two containers share a track. */
  lemma {:induction false} ContainersDisjoint(vs: seq<Visit>, i: nat, j: nat, a: nat, b: nat)
    requires i < j < |NumberedContainers(vs)|
    requires a in NumberedContainers(vs)[i].trackIds && b in NumberedContainers(vs)[j].trackIds
    ensures a < b
    decreases |vs|
  {
    var before, last := vs[..|vs| - 1], vs[|vs| - 1];
    if j < |NumberedContainers(before)| {
      ContainersDisjoint(before, i, j, a, b);
    } else {
      var k := ContainerStems(before, i);
      assert a <= |NumberedItems(before)| < b;
    }
  }

  /** Every visit below the top that found items gives rise to exactly one container. */
  lemma {:induction false} ContainerOfVisit(vs: seq<Visit>, k: nat) returns (j: nat)
    requires k < |vs| && vs[k].depth > 0 && vs[k].items != []
    ensures j < |NumberedContainers(vs)| && StemsFrom(vs, NumberedContainers(vs)[j], j, k)
    ensures forall i :: 0 <= i < |NumberedContainers(vs)| && StemsFrom(vs, NumberedContainers(vs)[i], i, k) ==> i == j
  {
    hide StemsFrom;
    j := FindContainer(vs, k);
    forall i | 0 <= i < |NumberedContainers(vs)| && StemsFrom(vs, NumberedContainers(vs)[i], i, k)
      ensures i == j
    {
      OneContainerAVisit(vs, i, j, k);
    }
  }

  lemma {:induction false} FindContainer(vs: seq<Visit>, k: nat) returns (j: nat)
    requires k < |vs| && vs[k].depth > 0 && vs[k].items != []
    ensures j < |NumberedContainers(vs)| && StemsFrom(vs, NumberedContainers(vs)[j], j, k)
    decreases |vs|
  {
    var before := vs[..|vs| - 1];
    if k < |before| {
      j := FindContainer(before, k);
      assert before[..k] == vs[..k];
    } else {
      ContainersAreListed(before);
      j := |NumberedContainers(before)|;
      assert vs[..k] == before;
    }
  }

  lemma {:induction false} OneContainerAVisit(vs: seq<Visit>, i: nat, j: nat, k: nat)
    requires i < |NumberedContainers(vs)| && StemsFrom(vs, NumberedContainers(vs)[i], i, k)
    requires j < |NumberedContainers(vs)| && StemsFrom(vs, NumberedContainers(vs)[j], j, k)
    ensures i == j
  {
    var a := NumberedContainers(vs)[i].trackIds[0];
    assert a in NumberedContainers(vs)[i].trackIds && a in NumberedContainers(vs)[j].trackIds;
    if i < j {
      ContainersDisjoint(vs, i, j, a, a);
    } else if j < i {
      ContainersDisjoint(vs, j, i, a, a);
    }
  }

  /** The depth each item was found at. */
  function ItemDepths(vs: seq<Visit>): (ds: seq<nat>)
    ensures |ds| == |VisitedItems(vs)|
  {
    if vs == [] then []
    else ItemDepths(vs[..|vs| - 1]) + seq<nat>(|vs[|vs| - 1].items|, _ => vs[|vs| - 1].depth)
  }

  ghost predicate InSomeContainer(cs: seq<AudioContainer>, id: nat) {
    exists j :: 0 <= j < |cs| && id in cs[j].trackIds
  }

  /** The containers' tracks are exactly the items found below the top. */
  lemma {:induction false} ContainersCoverDeepItems(vs: seq<Visit>, i: nat)
    requires i < |NumberedItems(vs)|
    ensures InSomeContainer(NumberedContainers(vs), i + 1) <==> ItemDepths(vs)[i] > 0
    decreases |vs|
  {
    var before, last := vs[..|vs| - 1], vs[|vs| - 1];
    var cs, all := NumberedContainers(before), NumberedContainers(vs);
    var n := |VisitedItems(before)|;
    assert forall j :: 0 <= j < |cs| ==> all[j] == cs[j];
    if i < n {
      ContainersCoverDeepItems(before, i);
      if InSomeContainer(cs, i + 1) {
        var j :| 0 <= j < |cs| && i + 1 in cs[j].trackIds;
        assert i + 1 in all[j].trackIds;
      }
    } else {
      forall j | 0 <= j < |cs|
        ensures i + 1 !in all[j].trackIds
      {
        var k := ContainerStems(before, j);
      }
      if Listed(last) {
        assert all[|cs|].trackIds[i - n] == i + 1;
      }
    }
  }

  /** The first item of that number. */
  function FirstWithId(items: seq<AudioItem>, id: nat): Option<AudioItem> {
    if items == [] then None else if items[0].id == id then Some(items[0]) else FirstWithId(items[1..], id)
  }

  /** What it finds is there with that number, and no earlier item has it; else none has. */
  lemma {:induction false} FirstIsFirst(items: seq<AudioItem>, id: nat)
    ensures FirstWithId(items, id) == None <==> forall i :: 0 <= i < |items| ==> items[i].id != id
    ensures FirstWithId(items, id).Some? ==>
      exists i :: 0 <= i < |items| && FirstWithId(items, id) == Some(items[i]) && items[i].id == id
        && forall j :: 0 <= j < i ==> items[j].id != id
  {
    if items != [] && items[0].id != id {
      FirstIsFirst(items[1..], id);
      assert forall i :: 0 <= i < |items[1..]| ==> items[1..][i] == items[i + 1];
      if FirstWithId(items, id).Some? {
        var i :| 0 <= i < |items[1..]| && FirstWithId(items[1..], id) == Some(items[1..][i]) && items[1..][i].id == id
          && forall j :: 0 <= j < i ==> items[1..][j].id != id;
        assert items[i + 1] == items[1..][i];
        forall j | 0 <= j < i + 1
          ensures items[j].id != id
        {
          if j > 0 {
            assert items[1..][j - 1] == items[j];
          }
        }
      }
    }
  }

  /** Looking an item up by its number, as a scan from the front. */
  method ItemById(items: seq<AudioItem>, id: nat) returns (r: Option<AudioItem>)
    ensures r == FirstWithId(items, id)
  {
    for i := 0 to |items|
      invariant FirstWithId(items, id) == FirstWithId(items[i..], id)
    {
      assert items[i..][1..] == items[i + 1..];
      if items[i].id == id {
        return Some(items[i]);
      }
    }
    assert items[|items|..] == [];
    r := None;
  }

  /** In a numbered catalogue the scan is direct indexing. */
  lemma {:induction false} LookupIsIndexing(vs: seq<Visit>, id: nat)
    ensures FirstWithId(NumberedItems(vs), id) ==
      if 1 <= id <= |NumberedItems(vs)| then Some(NumberedItems(vs)[id - 1]) else None
  {
    ScanNumbered(NumberedItems(vs), 1, id);
  }

  lemma {:induction false} ScanNumbered(items: seq<AudioItem>, first: nat, id: nat)
    requires forall i :: 0 <= i < |items| ==> items[i].id == first + i
    ensures FirstWithId(items, id) == if first <= id < first + |items| then Some(items[id - first]) else None
    decreases |items|
  {
    if items != [] {
      ScanNumbered(items[1..], first + 1, id);
    }
  }

  // ---- What the levels promise ----

  lemma {:induction false} LevelsUnfold(server: Server, n: nat, level: seq<Folder>, filter: bool, depth: nat)
    requires depth <= MAX_DEPTH
    ensures Levels(server, n, level, filter, depth) == LevelVisits(server, n, level, depth)
      + Levels(server, n + |level|, NextLevel(server, n, level, filter, depth), filter, depth + 1)
  {
  }

  lemma {:induction false} NoDeeper(server: Server, n: nat, level: seq<Folder>, filter: bool, depth: nat)
    requires depth > MAX_DEPTH
    ensures Levels(server, n, level, filter, depth) == []
  {
  }

  lemma {:induction false} DepthWithin(server: Server, n: nat, level: seq<Folder>, filter: bool, depth: nat, i: nat)
    requires i < |Levels(server, n, level, filter, depth)|
    ensures depth <= Levels(server, n, level, filter, depth)[i].depth <= MAX_DEPTH
    decreases MAX_DEPTH + 1 - depth
  {
    hide LevelVisits, NextLevel, Levels;
    if depth > MAX_DEPTH {
      NoDeeper(server, n, level, filter, depth);
    } else {
      LevelsUnfold(server, n, level, filter, depth);
      OneDepth(server, n, level, depth);
      var here := |LevelVisits(server, n, level, depth)|;
      if i >= here {
        DepthWithin(server, n + |level|, NextLevel(server, n, level, filter, depth), filter, depth + 1, i - here);
      }
    }
  }

  /** Visits come level by level, never deeper than the limit. */
  lemma {:induction false} LevelOrder(server: Server, n: nat, level: seq<Folder>, filter: bool, depth: nat, i: nat, j: nat)
    requires i <= j < |Levels(server, n, level, filter, depth)|
    ensures var vs := Levels(server, n, level, filter, depth); depth <= vs[i].depth <= vs[j].depth <= MAX_DEPTH
    decreases MAX_DEPTH + 1 - depth
  {
    hide *;
    DepthWithin(server, n, level, filter, depth, i);
    DepthWithin(server, n, level, filter, depth, j);
    LevelsUnfold(server, n, level, filter, depth);
    OneDepth(server, n, level, depth);
    var here := |LevelVisits(server, n, level, depth)|;
    if i >= here {
      LevelOrder(server, n + |level|, NextLevel(server, n, level, filter, depth), filter, depth + 1, i - here, j - here);
    }
  }

  lemma {:induction false} OneDepth(server: Server, n: nat, level: seq<Folder>, depth: nat)
    ensures forall i :: 0 <= i < |LevelVisits(server, n, level, depth)| ==> LevelVisits(server, n, level, depth)[i].depth == depth
    decreases |level|
  {
    if level != [] {
      OneDepth(server, n + 1, level[1..], depth);
    }
  }

  /** Directly below the server's own root the skipped media hierarchies are never browsed. */
  lemma {:induction false} NothingSkippedVisited(server: Server, root: Folder, i: nat)
    requires i < |Levels(server, 0, [root], true, 0)| && Levels(server, 0, [root], true, 0)[i].depth == 1
    ensures !SkippedName(Levels(server, 0, [root], true, 0)[i].folder.title)
  {
    hide SkippedName, Levels, LevelVisits, NextLevel;
    LevelsUnfold(server, 0, [root], true, 0);
    var top, below := LevelVisits(server, 0, [root], 0), NextLevel(server, 0, [root], true, 0);
    OneDepth(server, 0, [root], 0);
    NextLevelKept(server, 0, [root]);
    assert Levels(server, 0, [root], true, 0) == top + Levels(server, 1, below, true, 1);
    var here := LevelVisits(server, 1, below, 1);
    VisitsComeFrom(server, 1, below, 1);
    LevelsUnfold(server, 1, below, true, 1);
    var deeper := Levels(server, 1 + |below|, NextLevel(server, 1, below, true, 1), true, 2);
    assert Levels(server, 1, below, true, 1) == here + deeper;
    var k := i - |top|;
    if k >= |here| {
      LevelOrder(server, 1 + |below|, NextLevel(server, 1, below, true, 1), true, 2, k - |here|, k - |here|);
    } else {
      assert here[k].folder in below;
    }
  }

  lemma {:induction false} VisitsComeFrom(server: Server, n: nat, level: seq<Folder>, depth: nat)
    ensures forall i :: 0 <= i < |LevelVisits(server, n, level, depth)| ==> LevelVisits(server, n, level, depth)[i].folder in level
    decreases |level|
  {
    if level != [] {
      VisitsComeFrom(server, n + 1, level[1..], depth);
    }
  }

  lemma {:induction false} NextLevelKept(server: Server, n: nat, level: seq<Folder>)
    ensures forall f :: f in NextLevel(server, n, level, true, 0) ==> !SkippedName(f.title)
    decreases |level|
  {
    hide SkippedName;
    if level != [] {
      NextLevelKept(server, n + 1, level[1..]);
      var answer := server(n, level[0].id);
      if answer.Some? {
        KeptOnly(answer.value.folders);
      }
    }
  }

  lemma {:induction false} KeptOnly(fs: seq<Folder>)
    ensures forall f :: f in KeptFolders(true, 0, fs) ==> !SkippedName(f.title)
    decreases |fs|
  {
    hide SkippedName;
    if fs != [] {
      KeptOnly(fs[1..]);
    }
  }

  // ---- The walk as it runs ----

  function Entries(fs: seq<Folder>, depth: nat): (es: seq<Entry>)
    ensures |es| == |fs| && forall i :: 0 <= i < |es| ==> es[i] == Entry(fs[i], depth)
  {
    seq(|fs|, i requires 0 <= i < |fs| => Entry(fs[i], depth))
  }

  /** What is still to come when the queue holds a at this depth and then b one level deeper. */
  function Rest(server: Server, n: nat, a: seq<Folder>, b: seq<Folder>, filter: bool, depth: nat): seq<Visit> {
    if depth > MAX_DEPTH then []
    else
      LevelVisits(server, n, a, depth)
      + Levels(server, n + |a|, b + NextLevel(server, n, a, filter, depth), filter, depth + 1)
  }

  function VisitOf(answer: Option<Listing>, f: Folder, depth: nat): seq<Visit> {
    if answer == None then [] else [Visit(f, depth, answer.value.items)]
  }

  lemma {:induction false} RestPop(server: Server, n: nat, a: seq<Folder>, b: seq<Folder>, filter: bool, depth: nat)
    requires a != [] && depth <= MAX_DEPTH
    ensures var answer := server(n, a[0].id);
      Rest(server, n, a, b, filter, depth) ==
      VisitOf(answer, a[0], depth) + Rest(server, n + 1, a[1..], b + Children(answer, filter, depth), filter, depth)
  {
    hide Levels, Children;
    var answer := server(n, a[0].id);
    var here, below := LevelVisits(server, n + 1, a[1..], depth), NextLevel(server, n + 1, a[1..], filter, depth);
    Assoc(b, Children(answer, filter, depth), below);
    Assoc(VisitOf(answer, a[0], depth), here,
            Levels(server, n + |a|, b + Children(answer, filter, depth) + below, filter, depth + 1));
  }

  lemma {:induction false} RestDown(server: Server, n: nat, b: seq<Folder>, filter: bool, depth: nat)
    requires depth <= MAX_DEPTH
    ensures Rest(server, n, [], b, filter, depth) == Rest(server, n, b, [], filter, depth + 1)
  {
    hide LevelVisits, NextLevel;
    EmptyLevel(server, n, filter, depth);
    assert b + [] == b;
    var below := NextLevel(server, n, b, filter, depth + 1);
    assert [] + below == below;
  }

  lemma {:induction false} EmptyLevel(server: Server, n: nat, filter: bool, depth: nat)
    ensures LevelVisits(server, n, [], depth) == [] && NextLevel(server, n, [], filter, depth) == []
  {
  }

  /** The queue spans at most two levels, the shallower first; done is what the visits so far are. */
  ghost predicate Walking(server: Server, filter: bool, root: Folder, queue: seq<Entry>, n: nat, done: seq<Visit>,
                          a: seq<Folder>, b: seq<Folder>, depth: nat) {
    && depth <= MAX_DEPTH + 1 && (depth == MAX_DEPTH + 1 ==> b == [])
    && queue == Entries(a, depth) + Entries(b, depth + 1)
    && done + Rest(server, n, a, b, filter, depth) == Levels(server, 0, [root], filter, 0)
  }

  lemma {:induction false} WalkStart(server: Server, filter: bool, root: Folder)
    ensures Walking(server, filter, root, [Entry(root, 0)], 0, [], [root], [], 0)
  {
    var below := NextLevel(server, 0, [root], filter, 0);
    assert [] + below == below;
    assert [] + Levels(server, 0, [root], filter, 0) == Levels(server, 0, [root], filter, 0);
  }

  lemma {:induction false} WalkDown(server: Server, filter: bool, root: Folder, queue: seq<Entry>, n: nat, done: seq<Visit>,
                                    b: seq<Folder>, depth: nat)
    requires Walking(server, filter, root, queue, n, done, [], b, depth) && depth <= MAX_DEPTH
    ensures Walking(server, filter, root, queue, n, done, b, [], depth + 1)
  {
    hide Levels, Rest;
    RestDown(server, n, b, filter, depth);
  }

  lemma {:induction false} WalkPop(server: Server, filter: bool, root: Folder, queue: seq<Entry>, n: nat, done: seq<Visit>,
                                   a: seq<Folder>, b: seq<Folder>, depth: nat)
    requires Walking(server, filter, root, queue, n, done, a, b, depth) && depth <= MAX_DEPTH && a != []
    ensures queue != [] && queue[0] == Entry(a[0], depth)
    ensures var answer := server(n, a[0].id);
      Walking(server, filter, root, queue[1..] + Entries(Children(answer, filter, depth), depth + 1), n + 1,
              done + VisitOf(answer, a[0], depth), a[1..], b + Children(answer, filter, depth), depth)
  {
    hide Levels, Rest, Children;
    RestPop(server, n, a, b, filter, depth);
    var answer := server(n, a[0].id);
    var kids := Children(answer, filter, depth);
    var rest := Rest(server, n + 1, a[1..], b + kids, filter, depth);
    assert done + (VisitOf(answer, a[0], depth) + rest) == done + VisitOf(answer, a[0], depth) + rest;
  }

  /** A container beyond the depth limit is dropped without a request. */
  lemma {:induction false} WalkDrop(server: Server, filter: bool, root: Folder, queue: seq<Entry>, n: nat, done: seq<Visit>,
                                    a: seq<Folder>, b: seq<Folder>)
    requires Walking(server, filter, root, queue, n, done, a, b, MAX_DEPTH + 1) && a != []
    ensures queue != [] && queue[0] == Entry(a[0], MAX_DEPTH + 1)
    ensures Walking(server, filter, root, queue[1..], n, done, a[1..], b, MAX_DEPTH + 1)
  {
    hide Levels;
  }

  lemma {:induction false} WalkEnd(server: Server, filter: bool, root: Folder, n: nat, done: seq<Visit>,
                                   a: seq<Folder>, b: seq<Folder>, depth: nat)
    requires Walking(server, filter, root, [], n, done, a, b, depth)
    ensures done == Levels(server, 0, [root], filter, 0)
  {
    hide LevelVisits, NextLevel;
    assert a == [] && b == [];
    NothingLeft(server, n, filter, depth);
    assert done + [] == done;
  }

  lemma {:induction false} NothingLeft(server: Server, n: nat, filter: bool, depth: nat)
    ensures Rest(server, n, [], [], filter, depth) == []
    decreases MAX_DEPTH + 1 - depth
  {
    if depth < MAX_DEPTH {
      NothingLeft(server, n, filter, depth + 1);
      RestDown(server, n, [], filter, depth);
    } else if depth == MAX_DEPTH {
      RestDown(server, n, [], filter, depth);
    }
  }

  method TakeItems(catalogued: seq<AudioItem>, found: seq<AudioItem>, nextTrackId: nat)
    returns (catalogued': seq<AudioItem>, trackIds: seq<nat>, nextTrackId': nat)
    ensures catalogued' == catalogued + Renumbered(found, nextTrackId)
    ensures trackIds == Consecutive(nextTrackId, |found|) && nextTrackId' == nextTrackId + |found|
  {
    catalogued', trackIds, nextTrackId' := catalogued, [], nextTrackId;
    for i := 0 to |found|
      invariant nextTrackId' == nextTrackId + i && trackIds == Consecutive(nextTrackId, i)
      invariant catalogued' == catalogued + Renumbered(found, nextTrackId)[..i]
    {
      catalogued' := catalogued' + [found[i].(id := nextTrackId')];
      trackIds := trackIds + [nextTrackId'];
      nextTrackId' := nextTrackId' + 1;
    }
  }

  method Enqueue(queue: seq<Entry>, folders: seq<Folder>, filter: bool, depth: nat) returns (queue': seq<Entry>)
    ensures queue' == queue + Entries(KeptFolders(filter, depth, folders), depth + 1)
  {
    hide SkippedName;
    queue' := queue;
    for i := 0 to |folders|
      invariant queue' + Entries(KeptFolders(filter, depth, folders[i..]), depth + 1) ==
        queue + Entries(KeptFolders(filter, depth, folders), depth + 1)
    {
      assert folders[i..][1..] == folders[i + 1..];
      if Kept(filter, depth, folders[i]) {
        queue' := queue' + [Entry(folders[i], depth + 1)];
      }
    }
    assert folders[|folders|..] == [];
  }

  /** What the control address answers to the n-th browse of the walk, for any object id. */
  type World = (nat, string) -> Endpoint

  ghost predicate WorldCounts32(lex: Lexicon, world: World) {
    forall n, id :: Counts32(Pages(lex, world(n, id)))
  }

  /** What a whole browse brings: nothing when any of its requests fails. */
  ghost function Brought(server: PageServer): Option<Listing> {
    if Counts32(server) && Fetched(server, 0, 0).Ok? then Some(Fetched(server, 0, 0).value) else None
  }

  ghost function Browsed(lex: Lexicon, world: World): Server {
    (n: nat, id: string) => Brought(Pages(lex, world(n, id)))
  }

  ghost predicate Overflows(lex: Lexicon, world: World, n: nat, id: string) {
    Counts32(Pages(lex, world(n, id))) && Fetched(Pages(lex, world(n, id)), 0, 0) == Err(IndexOverflow)
  }

  method BrowseOne(lex: Lexicon, world: World, n: nat, id: string) returns (r: Result<Option<Listing>, BrowseError>)
    requires WorldCounts32(lex, world)
    ensures r.Ok? ==> r.value == Browsed(lex, world)(n, id)
    ensures r.Err? ==> r.error == IndexOverflow && Overflows(lex, world, n, id)
  {
    assert Counts32(Pages(lex, world(n, id)));
    hide WorldCounts32, Counts32, Fetched;
    var got := BrowseChildren(lex, world(n, id));
    match got {
      case Ok(listing) => r := Ok(Some(listing));
      case Err(Failed) => r := Ok(None);
      case Err(IndexOverflow) => r := Err(IndexOverflow);
    }
  }

  /** `build_catalogue`: whatever the graph, its cycles and its failures, the walk ends, and unless a
      server counts past 32 bits the catalogue numbers what a level-by-level traversal visits. */
  method BuildCatalogue(lex: Lexicon, world: World, rootId: string) returns (r: Result<Catalogue, BrowseError>)
    requires WorldCounts32(lex, world)
    ensures r.Ok? ==> r.value == Numbered(Levels(Browsed(lex, world), 0, [Folder(rootId, "")], rootId == "0", 0))
    ensures r.Err? ==> r.error == IndexOverflow && exists n, id :: Overflows(lex, world, n, id)
  {
    hide *;
    ghost var server := Browsed(lex, world);
    var filter := rootId == "0";
    var items: seq<AudioItem>, containers: seq<AudioContainer> := [], [];
    ghost var root := Folder(rootId, "");
    var queue := [Entry(Folder(rootId, ""), 0)];
    var nextTrackId: nat, nextContainerId: nat, requests: nat := 1, 2, 0;
    ghost var done: seq<Visit>, a: seq<Folder>, b: seq<Folder>, level: nat := [], [root], [], 0;
    WalkStart(server, filter, root);
    NumberedNone();
    while queue != []
      invariant Walking(server, filter, root, queue, requests, done, a, b, level)
      invariant Numbered(done) == Catalogue(items, containers)
      invariant nextTrackId == |VisitedItems(done)| + 1 && nextContainerId == |containers| + 2
      invariant level <= MAX_DEPTH + 1
      decreases MAX_DEPTH + 1 - level, |a|
    {
      if a == [] {
        WalkShape(server, filter, root, queue, requests, done, a, b, level);
        WalkDown(server, filter, root, queue, requests, done, b, level);
        a, b, level := b, [], level + 1;
      }
      WalkShape(server, filter, root, queue, requests, done, a, b, level);
      var entry := queue[0];
      if entry.depth > MAX_DEPTH {
        WalkDrop(server, filter, root, queue, requests, done, a, b);
        queue, a := queue[1..], a[1..];
      } else {
        WalkPop(server, filter, root, queue, requests, done, a, b, level);
        queue := queue[1..];
        var got := BrowseOne(lex, world, requests, entry.folder.id);
        if got.Err? {
          return Err(got.error);
        }
        var answer := got.value;
        requests := requests + 1;
        AnswerMeans(answer, a[0], filter, level, done, queue);
        if answer.Some? {
          ghost var v := Visit(entry.folder, entry.depth, answer.value.items);
          NumberedOneMore(done, v);
          VisitedOneMore(done, v);
          items, containers, nextTrackId, nextContainerId :=
            Record(items, containers, nextTrackId, nextContainerId, entry, answer.value.items);
          queue := Enqueue(queue, answer.value.folders, filter, entry.depth);
        }
        done := done + VisitOf(answer, a[0], level);
        b := b + Children(answer, filter, level);
        a := a[1..];
      }
    }
    WalkEnd(server, filter, root, requests, done, a, b, level);
    r := Ok(Catalogue(items, containers));
  }

  lemma {:induction false} NumberedNone()
    ensures Numbered([]) == Catalogue([], []) && VisitedItems([]) == []
  {
  }

  lemma {:induction false} VisitedOneMore(vs: seq<Visit>, v: Visit)
    ensures |VisitedItems(vs + [v])| == |VisitedItems(vs)| + |v.items|
  {
    assert (vs + [v])[..|vs|] == vs;
  }

  lemma {:induction false} AnswerMeans(answer: Option<Listing>, f: Folder, filter: bool, depth: nat, done: seq<Visit>, queue: seq<Entry>)
    ensures answer.Some? ==>
      && VisitOf(answer, f, depth) == [Visit(f, depth, answer.value.items)]
      && Children(answer, filter, depth) == KeptFolders(filter, depth, answer.value.folders)
    ensures answer == None ==>
      && done + VisitOf(answer, f, depth) == done
      && queue + Entries(Children(answer, filter, depth), depth + 1) == queue
  {
  }

  lemma {:induction false} WalkShape(server: Server, filter: bool, root: Folder, queue: seq<Entry>, n: nat, done: seq<Visit>,
                                     a: seq<Folder>, b: seq<Folder>, depth: nat)
    requires Walking(server, filter, root, queue, n, done, a, b, depth) && queue != []
    ensures depth <= MAX_DEPTH + 1
    ensures if a == [] then depth <= MAX_DEPTH && b != [] else queue[0] == Entry(a[0], depth)
  {
  }

  /** The items of one visit, and its container if it is to have one. */
  method Record(items: seq<AudioItem>, containers: seq<AudioContainer>, nextTrackId: nat, nextContainerId: nat,
                entry: Entry, found: seq<AudioItem>)
    returns (items': seq<AudioItem>, containers': seq<AudioContainer>, nextTrackId': nat, nextContainerId': nat)
    ensures items' == items + Renumbered(found, nextTrackId) && nextTrackId' == nextTrackId + |found|
    ensures var v := Visit(entry.folder, entry.depth, found);
      && nextContainerId' == nextContainerId + (if Listed(v) then 1 else 0)
      && containers' == containers +
           if Listed(v) then [AudioContainer(nextContainerId, ContainerName(entry.folder), Consecutive(nextTrackId, |found|))]
           else []
  {
    var trackIds;
    items', trackIds, nextTrackId' := TakeItems(items, found, nextTrackId);
    containers', nextContainerId' := containers, nextContainerId;
    if entry.depth > 0 && trackIds != [] {
      var name := if entry.folder.title == "" then entry.folder.id else entry.folder.title;
      containers' := containers' + [AudioContainer(nextContainerId, name, trackIds)];
      nextContainerId' := nextContainerId + 1;
    }
  }
}
