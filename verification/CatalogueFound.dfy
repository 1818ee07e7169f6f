/** The whole pipeline on a server that pages honestly through a graph that does not change: documents
    are parsed, pages joined and the graph walked, and the catalogue has exactly what can be found. */
module CatalogueFound {
  import opened Wrappers
  import opened Didl
  import opened Catalogue
  import opened CatalogueReach

  // ---- Documents ----

  /** The child object an element of a document describes. */
  function ChildOf(lex: Lexicon, e: Element): seq<Child> {
    match e
    case ItemElement(attrs, parts) =>
      var item := ItemOf(lex, attrs, parts);
      if item == [] then [OtherChild] else [ItemChild(item[0])]
    case FolderElement(attrs, parts) => [FolderChild(FolderOf(lex, attrs, parts))]
    case Stray(_) => []
  }

  function ChildrenOf(lex: Lexicon, es: seq<Element>): seq<Child> {
    if es == [] then [] else ChildOf(lex, es[0]) + ChildrenOf(lex, es[1..])
  }

  lemma {:induction false} ChildrenAreParsed(lex: Lexicon, es: seq<Element>)
    ensures Folders(ChildrenOf(lex, es)) == FoldersOf(lex, es) && Items(ChildrenOf(lex, es)) == ItemsOf(lex, es)
    decreases |es|
  {
    hide ItemOf, FolderOf;
    if es != [] {
      ChildrenAreParsed(lex, es[1..]);
      FoldersAppend(ChildOf(lex, es[0]), ChildrenOf(lex, es[1..]));
      ItemsAppend(ChildOf(lex, es[0]), ChildrenOf(lex, es[1..]));
      OneChild(lex, es[0]);
    }
  }

  lemma {:induction false} OneChild(lex: Lexicon, e: Element)
    ensures Folders(ChildOf(lex, e)) == if e.FolderElement? then [FolderOf(lex, e.attrs, e.parts)] else []
    ensures Items(ChildOf(lex, e)) == if e.ItemElement? then ItemOf(lex, e.attrs, e.parts) else []
  {
    hide Finalize, Assembled, FirstRes, Fields, FieldText;
    assert forall c: Child :: [c][1..] == [];
  }

  // ---- Honest answers ----

  /** The answer to a request from the given index on: a document that describes the next children. */
  ghost predicate HonestAnswer(lex: Lexicon, answer: Option<Answer>, start: nat, all: seq<Child>)
    requires start <= |all|
  {
    && answer.Some? && !answer.value.broken && answer.value.total == |all|
    && start + answer.value.returned <= |all| && (start < |all| ==> answer.value.returned > 0)
    && Described(lex, answer.value.events, all[start..start + answer.value.returned])
  }

  ghost predicate Describing(lex: Lexicon, es: seq<Element>, events: seq<Event>, children: seq<Child>) {
    WellFormedDocument(es) && DocumentEvents(es) == events && ChildrenOf(lex, es) == children
  }

  ghost predicate Described(lex: Lexicon, events: seq<Event>, children: seq<Child>) {
    exists es :: Describing(lex, es, events, children)
  }

  ghost predicate HonestEndpoint(lex: Lexicon, endpoint: Endpoint, all: seq<Child>) {
    && |all| <= U32_MAX
    && forall n: nat, start: nat :: start <= |all| ==> HonestAt(lex, endpoint, n, start, all)
  }

  ghost predicate HonestAt(lex: Lexicon, endpoint: Endpoint, n: nat, start: nat, all: seq<Child>)
    requires start <= |all|
  {
    HonestAnswer(lex, endpoint(n, start), start, all)
  }

  lemma {:induction false} HonestAnswerPage(lex: Lexicon, answer: Option<Answer>, start: nat, all: seq<Child>)
    requires start <= |all| && HonestAnswer(lex, answer, start, all)
    ensures HonestPage(PageOf(lex, answer), start, all)
  {
    hide Run, DocumentEvents, ChildrenOf, Folders, Items, FoldersOf, ItemsOf;
    var page := all[start..start + answer.value.returned];
    var es :| Describing(lex, es, answer.value.events, page);
    DocumentReadsBack(lex, INITIAL, es);
    ChildrenAreParsed(lex, es);
    assert [] + FoldersOf(lex, es) == FoldersOf(lex, es) && [] + ItemsOf(lex, es) == ItemsOf(lex, es);
  }

  /** The contents of every object, in the server's order; None cannot be browsed. */
  type Contents = string -> Option<seq<Child>>

  function GraphOf(contents: Contents): Graph {
    (id: string) => if contents(id) == None then None
      else Some(Listing(Folders(contents(id).value), Items(contents(id).value)))
  }

  /** Whenever an object is browsed, its contents are the same. */
  ghost predicate HonestWorld(lex: Lexicon, world: World, contents: Contents) {
    forall n, id {:trigger world(n, id)} ::
      match contents(id)
      case None => world(n, id)(0, 0) == None
      case Some(all) => HonestEndpoint(lex, world(n, id), all)
  }

  /** A browse of an honest server brings what the object holds, and its index never overflows. */
  lemma {:induction false} HonestBrowse(lex: Lexicon, world: World, contents: Contents, n: nat, id: string)
    requires WorldCounts32(lex, world) && HonestWorld(lex, world, contents)
    ensures Browsed(lex, world)(n, id) == GraphOf(contents)(id) && !Overflows(lex, world, n, id)
  {
    hide HonestAnswer, Run, Folders, Items;
    var server := Pages(lex, world(n, id));
    assert Counts32(server);
    if contents(id).Some? {
      var all := contents(id).value;
      assert Honest(server, all) by {
        forall m: nat, start: nat | start <= |all|
          ensures HonestPage(server(m, start), start, all)
        {
          assert HonestAt(lex, world(n, id), m, start, all);
          HonestAnswerPage(lex, world(n, id)(m, start), start, all);
        }
      }
      hide Honest, Counts32;
      PagesJoin(server, all, 0, 0);
      assert all[0..] == all;
    } else {
      assert server(0, 0) == None;
    }
  }

  // ---- The walk ----

  lemma {:induction false} SameVisits(server: Server, graph: Graph, n: nat, level: seq<Folder>, filter: bool, depth: nat)
    requires forall n, id :: server(n, id) == graph(id)
    ensures LevelVisits(server, n, level, depth) == LevelVisits(Serving(graph), n, level, depth)
    ensures NextLevel(server, n, level, filter, depth) == NextLevel(Serving(graph), n, level, filter, depth)
    decreases |level|
  {
    hide Children;
    if level != [] {
      SameVisits(server, graph, n + 1, level[1..], filter, depth);
    }
  }

  lemma {:induction false} SameLevels(server: Server, graph: Graph, n: nat, level: seq<Folder>, filter: bool, depth: nat)
    requires forall n, id :: server(n, id) == graph(id)
    ensures Levels(server, n, level, filter, depth) == Levels(Serving(graph), n, level, filter, depth)
    decreases MAX_DEPTH + 1 - depth
  {
    hide LevelVisits, NextLevel, Levels;
    if depth > MAX_DEPTH {
      NoDeeper(server, n, level, filter, depth);
      NoDeeper(Serving(graph), n, level, filter, depth);
    } else {
      LevelsUnfold(server, n, level, filter, depth);
      LevelsUnfold(Serving(graph), n, level, filter, depth);
      SameVisits(server, graph, n, level, filter, depth);
      SameLevels(server, graph, n + |level|, NextLevel(server, n, level, filter, depth), filter, depth + 1);
    }
  }

  /** Item i of the catalogue is this one with its number. */
  predicate Catalogued(cat: Catalogue, i: int, item: AudioItem) {
    0 <= i < |cat.items| && cat.items[i] == item.(id := i + 1)
  }

  ghost predicate InCatalogue(cat: Catalogue, item: AudioItem) {
    exists i :: Catalogued(cat, i, item)
  }

  ghost predicate IsFindable(graph: Graph, rootId: string, cat: Catalogue, i: int) {
    exists item :: Findable(graph, rootId, item) && Catalogued(cat, i, item)
  }

  /** Container j shows folder f: its title, or its id for want of one, and consecutive numbers under
      which the catalogue has the folder's items in their order. */
  ghost predicate Shows(graph: Graph, cat: Catalogue, j: int, f: Folder) {
    && 0 <= j < |cat.containers| && cat.containers[j].id == j + 2
    && (f.title != "" ==> cat.containers[j].name == f.title)
    && (f.title == "" ==> cat.containers[j].name == f.id)
    && graph(f.id).Some? && NumbersOf(cat, cat.containers[j].trackIds, graph(f.id).value.items)
  }

  predicate NumbersOf(cat: Catalogue, ids: seq<nat>, items: seq<AudioItem>) {
    && |ids| == |items| > 0
    && forall i :: 0 <= i < |ids| ==>
         ids[i] == ids[0] + i && 1 <= ids[i] <= |cat.items| && cat.items[ids[i] - 1] == items[i].(id := ids[i])
  }

  /** A folder below the top that a path within the limit reaches and that holds items. */
  ghost predicate HoldsItems(graph: Graph, rootId: string, f: Folder, depth: nat) {
    && 0 < depth <= 8 && Reached(graph, rootId == "0", Folder(rootId, ""), f, depth)
    && graph(f.id).Some? && graph(f.id).value.items != []
  }

  ghost predicate ShowsSome(graph: Graph, rootId: string, cat: Catalogue, j: int) {
    exists f, depth :: HoldsItems(graph, rootId, f, depth) && Shows(graph, cat, j, f)
  }

  ghost predicate ShownBySome(graph: Graph, cat: Catalogue, f: Folder) {
    exists j :: Shows(graph, cat, j, f)
  }

  lemma {:induction false} StemShows(graph: Graph, vs: seq<Visit>, j: nat, k: nat)
    requires j < |NumberedContainers(vs)| && StemsFrom(vs, NumberedContainers(vs)[j], j, k)
    requires VisitTo(graph, vs[k].folder, vs[k].depth, vs[k])
    ensures Shows(graph, Numbered(vs), j, vs[k].folder)
  {
    VisitedPrefix(vs, k);
    var cat, n := Numbered(vs), |VisitedItems(vs[..k])|;
    var ids, items := cat.containers[j].trackIds, vs[k].items;
    forall i | 0 <= i < |ids|
      ensures ids[i] == ids[0] + i && 1 <= ids[i] <= |cat.items| && cat.items[ids[i] - 1] == items[i].(id := ids[i])
    {
      assert VisitedItems(vs)[n..n + |items|][i] == items[i];
    }
  }

  /** On an unchanging graph the containers are those of the folders below the top that hold items. */
  lemma {:induction false} ContainersShow(graph: Graph, rootId: string)
    ensures var vs := Levels(Serving(graph), 0, [Folder(rootId, "")], rootId == "0", 0);
      && (forall j :: 0 <= j < |NumberedContainers(vs)| ==> ShowsSome(graph, rootId, Numbered(vs), j))
      && (forall f, depth :: HoldsItems(graph, rootId, f, depth) ==> ShownBySome(graph, Numbered(vs), f))
  {
    hide Levels, Reached, NumberedContainers, StemsFrom, Shows, NumberedItems;
    var vs := Levels(Serving(graph), 0, [Folder(rootId, "")], rootId == "0", 0);
    forall j | 0 <= j < |NumberedContainers(vs)|
      ensures ShowsSome(graph, rootId, Numbered(vs), j)
    {
      var k := ContainerStems(vs, j);
      StemIsListed(vs, j, k);
      assert vs[k] in vs;
      VisitedIffReached(graph, rootId, vs[k]);
      StemShows(graph, vs, j, k);
      assert HoldsItems(graph, rootId, vs[k].folder, vs[k].depth);
    }
    forall f, depth | HoldsItems(graph, rootId, f, depth)
      ensures ShownBySome(graph, Numbered(vs), f)
    {
      var v := Visit(f, depth, graph(f.id).value.items);
      VisitedIffReached(graph, rootId, v);
      var k :| 0 <= k < |vs| && vs[k] == v;
      var j := ContainerOfVisit(vs, k);
      StemShows(graph, vs, j, k);
    }
  }

  lemma {:induction false} StemIsListed(vs: seq<Visit>, j: nat, k: nat)
    requires j < |NumberedContainers(vs)| && StemsFrom(vs, NumberedContainers(vs)[j], j, k)
    ensures k < |vs| && vs[k].depth > 0 && vs[k].items != []
  {
  }

  /** A folder in a listing comes from an element of a document: its id is the element's attribute, its
      title the trimmed text of the element's titles. */
  lemma {:induction false} FolderIsElement(lex: Lexicon, es: seq<Element>, f: Folder)
    requires WellFormedDocument(es) && f in Folders(ChildrenOf(lex, es))
    ensures exists i :: 0 <= i < |es| && DescribesFolder(lex, es[i], f)
    decreases |es|
  {
    hide ItemOf, FolderOf, Assembled, Finalize;
    if es != [] {
      FoldersAppend(ChildOf(lex, es[0]), ChildrenOf(lex, es[1..]));
      OneChild(lex, es[0]);
      if f in Folders(ChildrenOf(lex, es[1..])) {
        FolderIsElement(lex, es[1..], f);
        var i :| 0 <= i < |es[1..]| && DescribesFolder(lex, es[1..][i], f);
        assert DescribesFolder(lex, es[i + 1], f);
      } else {
        FolderOfElement(lex, es[0], f);
        assert DescribesFolder(lex, es[0], f);
      }
    }
  }

  predicate DescribesFolder(lex: Lexicon, e: Element, f: Folder) {
    && e.FolderElement?
    && f.id == OrEmpty(Attr(e.attrs, "id")) && f.title == lex.trim(OrEmpty(FieldText(lex, Fields(e.parts), "title")))
  }

  lemma {:induction false} FolderOfElement(lex: Lexicon, e: Element, f: Folder)
    requires e.FolderElement? && f == FolderOf(lex, e.attrs, e.parts)
    ensures DescribesFolder(lex, e, f)
  {
  }

  /** The server has a document that describes folder f, in answer to a request for object id. */
  ghost predicate InDocument(lex: Lexicon, world: World, id: string, f: Folder) {
    exists start, es, i :: InDocumentAt(lex, world, id, start, es, i, f)
  }

  ghost predicate InDocumentAt(lex: Lexicon, world: World, id: string, start: nat, es: seq<Element>, i: nat, f: Folder) {
    && world(0, id)(0, start).Some? && WellFormedDocument(es) && world(0, id)(0, start).value.events == DocumentEvents(es)
    && i < |es| && DescribesFolder(lex, es[i], f)
  }

  /** So a child in the graph is named as the parent's document says. */
  lemma {:induction false} ChildIsListed(lex: Lexicon, world: World, contents: Contents, id: string, f: Folder)
    requires HonestWorld(lex, world, contents) && contents(id).Some? && f in Folders(contents(id).value)
    ensures InDocument(lex, world, id, f)
  {
    hide HonestAnswer, DescribesFolder, DocumentEvents, ChildrenOf, HonestWorld, HonestEndpoint;
    var all := contents(id).value;
    assert HonestEndpoint(lex, world(0, id), all) by { EndpointOf(lex, world, contents, id); }
    var start := FolderAt(all, f);
    var returned, es := PageAt(lex, world(0, id), all, start);
    assert all[start..start + returned][0] == FolderChild(f);
    FirstFolder(all[start..start + returned], f);
    FolderIsElement(lex, es, f);
    var i :| 0 <= i < |es| && DescribesFolder(lex, es[i], f);
    assert InDocumentAt(lex, world, id, start, es, i, f);
  }

  /** Every folder shown as a container has its id and its title from a document about its parent. */
  lemma {:induction false} HolderIsInDocument(lex: Lexicon, world: World, contents: Contents, rootId: string, f: Folder, depth: nat)
    returns (parentId: string)
    requires HonestWorld(lex, world, contents) && HoldsItems(GraphOf(contents), rootId, f, depth)
    ensures InDocument(lex, world, parentId, f)
  {
    hide HonestWorld, Reached, InDocument, Folders, Items;
    var parent := PathShrinks(GraphOf(contents), rootId == "0", Folder(rootId, ""), f, depth - 1);
    parentId := parent.id;
    ChildIsListed(lex, world, contents, parentId, f);
  }

  lemma {:induction false} EndpointOf(lex: Lexicon, world: World, contents: Contents, id: string)
    requires HonestWorld(lex, world, contents) && contents(id).Some?
    ensures HonestEndpoint(lex, world(0, id), contents(id).value)
  {
  }

  /** The page that starts at a child. */
  lemma {:induction false} PageAt(lex: Lexicon, endpoint: Endpoint, all: seq<Child>, start: nat)
    returns (returned: nat, es: seq<Element>)
    requires HonestEndpoint(lex, endpoint, all) && start < |all|
    ensures 0 < returned <= |all| - start && endpoint(0, start).Some?
    ensures Describing(lex, es, endpoint(0, start).value.events, all[start..start + returned])
  {
    assert HonestAt(lex, endpoint, 0, start, all);
    returned := endpoint(0, start).value.returned;
    es :| Describing(lex, es, endpoint(0, start).value.events, all[start..start + returned]);
  }

  lemma {:induction false} FolderAt(all: seq<Child>, f: Folder) returns (i: nat)
    requires f in Folders(all)
    ensures i < |all| && all[i] == FolderChild(f)
    decreases |all|
  {
    if all[0] == FolderChild(f) {
      i := 0;
    } else {
      i := FolderAt(all[1..], f);
      i := i + 1;
    }
  }

  lemma {:induction false} FirstFolder(cs: seq<Child>, f: Folder)
    requires cs != [] && cs[0] == FolderChild(f)
    ensures f in Folders(cs)
  {
  }

  /** On an honest server over a graph that does not change the walk always completes, and its
      catalogue has, numbered in order, exactly the items in a browsable container that a path from
      the root reaches within the depth limit. Its containers are those of the folders below the top
      that hold items, by their titles and with the numbers of their items. */
  lemma {:induction false} HonestCatalogue(lex: Lexicon, world: World, contents: Contents, rootId: string)
    requires WorldCounts32(lex, world) && HonestWorld(lex, world, contents)
    ensures !exists n, id :: Overflows(lex, world, n, id)
    ensures var graph, cat := GraphOf(contents), Numbered(Levels(Browsed(lex, world), 0, [Folder(rootId, "")], rootId == "0", 0));
      && (forall item :: Findable(graph, rootId, item) ==> InCatalogue(cat, item))
      && (forall i :: 0 <= i < |cat.items| ==> IsFindable(graph, rootId, cat, i))
      && (forall f, depth :: HoldsItems(graph, rootId, f, depth) ==> ShownBySome(graph, cat, f))
      && (forall j :: 0 <= j < |cat.containers| ==> ShowsSome(graph, rootId, cat, j))
  {
    hide Levels, Findable, Overflows, Browsed, GraphOf, VisitedItems, HonestWorld, WorldCounts32;
    var server, graph := Browsed(lex, world), GraphOf(contents);
    forall n, id
      ensures server(n, id) == graph(id) && !Overflows(lex, world, n, id)
    {
      HonestBrowse(lex, world, contents, n, id);
    }
    SameLevels(server, graph, 0, [Folder(rootId, "")], rootId == "0", 0);
    var vs := Levels(server, 0, [Folder(rootId, "")], rootId == "0", 0);
    forall item
      ensures item in VisitedItems(vs) <==> Findable(graph, rootId, item)
    {
      CatalogueIsFindable(graph, rootId, item);
    }
    NumberedIsVisited(graph, rootId, vs);
    hide Numbered, NumberedItems, NumberedContainers, HoldsItems, ShownBySome, ShowsSome;
    ContainersShow(graph, rootId);
    assert Numbered(vs).containers == NumberedContainers(vs) by { ContainersOf(vs); }
  }

  lemma {:induction false} ContainersOf(vs: seq<Visit>)
    ensures Numbered(vs).containers == NumberedContainers(vs)
  {
  }

  lemma {:induction false} NumberedIsVisited(graph: Graph, rootId: string, vs: seq<Visit>)
    requires forall item :: item in VisitedItems(vs) <==> Findable(graph, rootId, item)
    ensures var cat := Numbered(vs);
      && (forall item :: Findable(graph, rootId, item) ==> InCatalogue(cat, item))
      && (forall i :: 0 <= i < |cat.items| ==> IsFindable(graph, rootId, cat, i))
  {
    hide Findable, VisitedItems;
    var found, cat := VisitedItems(vs), Numbered(vs);
    forall i | 0 <= i < |cat.items|
      ensures IsFindable(graph, rootId, cat, i)
    {
      assert found[i] in found && Catalogued(cat, i, found[i]);
    }
    forall item | Findable(graph, rootId, item)
      ensures InCatalogue(cat, item)
    {
      var i :| 0 <= i < |found| && found[i] == item;
      assert Catalogued(cat, i, item);
    }
  }

  /** `build_catalogue` on such a server. */
  method CatalogueOfHonestServer(lex: Lexicon, world: World, ghost contents: Contents, rootId: string) returns (cat: Catalogue)
    requires WorldCounts32(lex, world) && HonestWorld(lex, world, contents)
    ensures forall item :: Findable(GraphOf(contents), rootId, item) ==> InCatalogue(cat, item)
    ensures forall i :: 0 <= i < |cat.items| ==> IsFindable(GraphOf(contents), rootId, cat, i)
    ensures forall f, depth :: HoldsItems(GraphOf(contents), rootId, f, depth) ==> ShownBySome(GraphOf(contents), cat, f)
    ensures forall j :: 0 <= j < |cat.containers| ==> ShowsSome(GraphOf(contents), rootId, cat, j)
  {
    hide *;
    HonestCatalogue(lex, world, contents, rootId);
    var r := BuildCatalogue(lex, world, rootId);
    cat := r.value;
  }
}
