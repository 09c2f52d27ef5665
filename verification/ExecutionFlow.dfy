/** Pages of an execution flow, merged into one bounded, closed graph (app/graphQueries.ts). */
module ExecutionFlow {
  import opened Options
  import opened InsertionOrder

  const MAX_EXECUTION_FLOW_NODES: nat := 1_000
  const MAX_EXECUTION_FLOW_EDGES: nat := 2_000
  const MAX_EXECUTION_FLOW_PAGES: nat := 10

  /** An object with an id: its other fields, and its metadata. */
  datatype FlowNode = FlowNode(id: string, fields: map<string, string>, metadata: map<string, string>)

  datatype FlowEdge = FlowEdge(id: string, source: string, target: string, fields: map<string, string>)

  /** A cursor field can be absent, null, or a string. */
  datatype CursorField = Absent | Null | Cursor(text: string)

  /** A page as the backend sends it: a field with no value is left out. */
  datatype Page = Page(nodes: seq<FlowNode>, edges: seq<FlowEdge>, truncated: bool, nextCursor: CursorField,
                       totalRootLinks: Option<nat>, omittedRootLinks: Option<nat>)

  /** A page with what the client adds to it. */
  datatype Flow = Flow(page: Page, clientPageCount: Option<nat>, clientPagingLimited: Option<bool>)

  function NodeId(): FlowNode -> string {
    (n: FlowNode) => n.id
  }

  function EdgeId(): FlowEdge -> string {
    (e: FlowEdge) => e.id
  }

  /** A node seen again: the later fields win, and so do the later entries of its metadata. */
  function JoinNodes(): (FlowNode, FlowNode) -> FlowNode {
    (previous: FlowNode, node: FlowNode) =>
      FlowNode(node.id, previous.fields + node.fields, previous.metadata + node.metadata)
  }

  function First<T>(q: seq<T>, n: nat): (r: seq<T>)
    ensures r <= q && |r| <= n
  {
    if |q| <= n then q else q[..n]
  }

  predicate IsConnected(e: FlowEdge, nodes: seq<FlowNode>) {
    && (exists i :: 0 <= i < |nodes| && nodes[i].id == e.source)
    && (exists i :: 0 <= i < |nodes| && nodes[i].id == e.target)
  }

  function Connected(edges: seq<FlowEdge>, nodes: seq<FlowNode>): (r: seq<FlowEdge>)
    ensures forall i :: 0 <= i < |r| ==> IsConnected(r[i], nodes)
    ensures |r| <= |edges| && (|r| == |edges| ==> r == edges)
  {
    if edges == [] then []
    else
      var n := |edges| - 1;
      Connected(edges[..n], nodes) + if IsConnected(edges[n], nodes) then [edges[n]] else []
  }

  predicate IsLimited(f: Flow) {
    f.clientPagingLimited == Some(true)
  }

  /** JavaScript's truth of a cursor: a string that is not empty. */
  predicate Truthy(c: CursorField) {
    c.Cursor? && c.text != ""
  }

  /** queryExecutionFlow, from the page that the backend answered. */
  function FromPage(page: Page): Flow {
    var nodes := First(page.nodes, MAX_EXECUTION_FLOW_NODES);
    var edges := First(Connected(page.edges, nodes), MAX_EXECUTION_FLOW_EDGES);
    Flow(page.(nodes := nodes, edges := edges), Some(1),
         Some(|page.nodes| > |nodes| || |page.edges| > |edges|))
  }

  function Keep<T>(before: Option<T>, after: Option<T>): Option<T> {
    if after.Some? then after else before
  }

  // ---------- merging ----------

  ghost function AllNodes(current: Flow, page: Flow): seq<FlowNode> {
    PutAll(NodeId(), JoinNodes(), PutAll(NodeId(), Replace(), [], current.page.nodes), page.page.nodes)
  }

  ghost function AllEdges(current: Flow, page: Flow): seq<FlowEdge> {
    PutAll(EdgeId(), Replace(), PutAll(EdgeId(), Replace(), [], current.page.edges), page.page.edges)
  }

  ghost function BoundedNodes(current: Flow, page: Flow): seq<FlowNode> {
    First(AllNodes(current, page), MAX_EXECUTION_FLOW_NODES)
  }

  ghost function BoundedEdges(current: Flow, page: Flow): seq<FlowEdge> {
    First(Connected(AllEdges(current, page), BoundedNodes(current, page)), MAX_EXECUTION_FLOW_EDGES)
  }

  function PageCount(current: Flow): nat {
    var count := (if current.clientPageCount.Some? then current.clientPageCount.value else 1) + 1;
    if count < MAX_EXECUTION_FLOW_PAGES then count else MAX_EXECUTION_FLOW_PAGES
  }

  /** Whether merging leaves a node or an edge out. */
  ghost predicate Omits(current: Flow, page: Flow) {
    |AllNodes(current, page)| > MAX_EXECUTION_FLOW_NODES || |AllEdges(current, page)| > |BoundedEdges(current, page)|
  }

  /** The page over the current one, field by field; what the page leaves out stays. */
  function Spread(current: Page, page: Page): Page {
    Page(page.nodes, page.edges, page.truncated,
         if page.nextCursor.Absent? then current.nextCursor else page.nextCursor,
         Keep(current.totalRootLinks, page.totalRootLinks), Keep(current.omittedRootLinks, page.omittedRootLinks))
  }

  ghost function Merged(current: Flow, page: Flow): Flow {
    Flow(Spread(current.page, page.page).(nodes := BoundedNodes(current, page), edges := BoundedEdges(current, page)),
         Some(PageCount(current)),
         Some(IsLimited(current) || IsLimited(page) || Omits(current, page)
              || (PageCount(current) >= MAX_EXECUTION_FLOW_PAGES && Truthy(page.page.nextCursor))))
  }

  method PutEach<T>(key: T -> string, join: (T, T) -> T, m: seq<T>, xs: seq<T>) returns (r: seq<T>)
    ensures r == PutAll(key, join, m, xs)
  {
    r := m;
    for i := 0 to |xs|
      invariant r == PutAll(key, join, m, xs[..i])
    {
      assert xs[..i + 1][..i] == xs[..i];
      r := Put(key, join, r, xs[i]);
    }
    assert xs[..|xs|] == xs;
  }

  /** mergeExecutionFlow: both maps are filled, then cut to the bounds, edges after nodes. */
  method MergeExecutionFlow(current: Flow, page: Flow) returns (merged: Flow)
    ensures merged == Merged(current, page)
  {
    var nodes := PutEach(NodeId(), Replace(), [], current.page.nodes);
    var allNodes := PutEach(NodeId(), JoinNodes(), nodes, page.page.nodes);
    var boundedNodes := First(allNodes, MAX_EXECUTION_FLOW_NODES);
    var edges := PutEach(EdgeId(), Replace(), [], current.page.edges);
    var allEdges := PutEach(EdgeId(), Replace(), edges, page.page.edges);
    var boundedEdges := First(Connected(allEdges, boundedNodes), MAX_EXECUTION_FLOW_EDGES);
    var pageCount := PageCount(current);
    var omittedNodes, omittedEdges := |allNodes| > |boundedNodes|, |allEdges| > |boundedEdges|;
    var pageLimitReached := pageCount >= MAX_EXECUTION_FLOW_PAGES && Truthy(page.page.nextCursor);
    merged := Flow(Spread(current.page, page.page).(nodes := boundedNodes, edges := boundedEdges), Some(pageCount),
                   Some(IsLimited(current) || IsLimited(page) || omittedNodes || omittedEdges || pageLimitReached));
  }

  // ---------- what merging gives ----------

  /** At most 1,000 nodes and 2,000 edges, every edge between nodes of the flow. */
  ghost predicate Bounded(f: Flow) {
    && |f.page.nodes| <= MAX_EXECUTION_FLOW_NODES && |f.page.edges| <= MAX_EXECUTION_FLOW_EDGES
    && forall i :: 0 <= i < |f.page.edges| ==> IsConnected(f.page.edges[i], f.page.nodes)
  }

  lemma AlwaysBounded(current: Flow, page: Page)
    ensures Bounded(FromPage(page)) && Bounded(Merged(current, FromPage(page)))
  {
    var merged := Merged(current, FromPage(page));
    assert merged.page.edges <= Connected(AllEdges(current, FromPage(page)), BoundedNodes(current, FromPage(page)));
    assert FromPage(page).page.edges <= Connected(page.edges, FromPage(page).page.nodes);
  }

  ghost function Ids(f: Flow): seq<string> {
    Keys(NodeId(), f.page.nodes)
  }

  /** Whatever the current flow and the page repeat, a merge has each node id once. */
  lemma MergedIdsDistinct(current: Flow, page: Flow)
    ensures Distinct(Ids(Merged(current, page)))
  {
    var own := PutAll(NodeId(), Replace(), [], current.page.nodes);
    JoiningKeepsId();
    PutAllKeys(NodeId(), Replace(), [], current.page.nodes);
    PutAllKeys(NodeId(), JoinNodes(), own, page.page.nodes);
    assert Ids(Merged(current, page)) == First(Keys(NodeId(), AllNodes(current, page)), MAX_EXECUTION_FLOW_NODES);
  }

  /** The nodes of the current flow keep their places and their fields; a field the page also has takes the page's
      value. */
  lemma EarlierNodesKept(current: Flow, page: Flow)
    requires Distinct(Ids(current)) && |current.page.nodes| <= MAX_EXECUTION_FLOW_NODES
    ensures var merged := Merged(current, page);
      && Ids(current) <= Ids(merged) && Distinct(Ids(merged))
      && forall i :: 0 <= i < |current.page.nodes| ==>
           Carries(merged.page.nodes[i], current.page.nodes[i], page.page.nodes)
  {
    DistinctIsMap(NodeId(), Replace(), current.page.nodes);
    JoiningKeepsId();
    PutAllKeys(NodeId(), JoinNodes(), current.page.nodes, page.page.nodes);
    var all := AllNodes(current, page);
    assert Ids(Merged(current, page)) == First(Keys(NodeId(), all), MAX_EXECUTION_FLOW_NODES);
    forall i | 0 <= i < |current.page.nodes| ensures Carries(all[i], current.page.nodes[i], page.page.nodes) {
      Carried(current.page.nodes, page.page.nodes, i);
    }
  }

  /** The node that an earlier one becomes: its fields and metadata, overlaid by those of each page node with its id. */
  ghost function Overlaid(node: FlowNode, page: seq<FlowNode>): FlowNode {
    if page == [] then node
    else
      var before, last := Overlaid(node, page[..|page| - 1]), page[|page| - 1];
      if last.id == node.id then FlowNode(node.id, before.fields + last.fields, before.metadata + last.metadata)
      else before
  }

  ghost predicate Carries(after: FlowNode, node: FlowNode, page: seq<FlowNode>) {
    && after == Overlaid(node, page)
    && node.fields.Keys <= after.fields.Keys && node.metadata.Keys <= after.metadata.Keys
  }

  lemma JoiningKeepsId()
    ensures KeepsKey(NodeId(), JoinNodes()) && KeepsKey(NodeId(), Replace()) && KeepsKey(EdgeId(), Replace())
  {
  }

  lemma {:induction false} Carried(nodes: seq<FlowNode>, page: seq<FlowNode>, i: nat)
    requires Distinct(Keys(NodeId(), nodes)) && i < |nodes|
    ensures i < |PutAll(NodeId(), JoinNodes(), nodes, page)|
    ensures Carries(PutAll(NodeId(), JoinNodes(), nodes, page)[i], nodes[i], page)
    ensures Overlaid(nodes[i], page).id == nodes[i].id
  {
    if page != [] {
      var n := |page| - 1;
      Carried(nodes, page[..n], i);
      JoiningKeepsId();
      PutAllKeys(NodeId(), JoinNodes(), nodes, page[..n]);
      var before := PutAll(NodeId(), JoinNodes(), nodes, page[..n]);
      var k := IndexOf(NodeId(), before, page[n].id);
      assert Keys(NodeId(), before)[i] == nodes[i].id;
      if k < |before| && k != i { assert Keys(NodeId(), before)[k] != Keys(NodeId(), before)[i]; }
    }
  }

  /** Once limited, always limited. */
  lemma LimitSticks(current: Flow, page: Flow)
    requires IsLimited(current) || IsLimited(page)
    ensures IsLimited(Merged(current, page))
  {
  }

  ghost function NodeIds(nodes: seq<FlowNode>): set<string> {
    KeySet(NodeId(), nodes)
  }

  ghost function EdgeIds(edges: seq<FlowEdge>): set<string> {
    KeySet(EdgeId(), edges)
  }

  lemma UnlimitedPage(page: Page)
    requires !IsLimited(FromPage(page))
    ensures FromPage(page).page.nodes == page.nodes && FromPage(page).page.edges == page.edges
  {
    var f := FromPage(page);
    assert |Connected(page.edges, f.page.nodes)| == |page.edges|;
  }

  /** A merge that is not limited leaves nothing out. */
  lemma UnlimitedMerge(current: Flow, page: Page)
    requires !IsLimited(Merged(current, FromPage(page)))
    ensures var merged := Merged(current, FromPage(page));
      && NodeIds(merged.page.nodes) == NodeIds(current.page.nodes) + NodeIds(page.nodes)
      && EdgeIds(merged.page.edges) == EdgeIds(current.page.edges) + EdgeIds(page.edges)
  {
    UnlimitedPage(page);
    JoiningKeepsId();
    var p := FromPage(page);
    PutAllKeys(NodeId(), Replace(), [], current.page.nodes);
    PutAllKeys(NodeId(), JoinNodes(), PutAll(NodeId(), Replace(), [], current.page.nodes), page.nodes);
    PutAllKeys(EdgeId(), Replace(), [], current.page.edges);
    PutAllKeys(EdgeId(), Replace(), PutAll(EdgeId(), Replace(), [], current.page.edges), page.edges);
    assert Merged(current, p).page.nodes == AllNodes(current, p);
    assert |Connected(AllEdges(current, p), BoundedNodes(current, p))| == |AllEdges(current, p)|;
  }

  // ---------- any number of pages ----------

  /** The flow after the first page and then the others. */
  ghost function AfterPages(first: Page, pages: seq<Page>): Flow {
    if pages == [] then FromPage(first)
    else Merged(AfterPages(first, pages[..|pages| - 1]), FromPage(pages[|pages| - 1]))
  }

  ghost function AllNodeIds(pages: seq<Page>): set<string> {
    if pages == [] then {} else AllNodeIds(pages[..|pages| - 1]) + NodeIds(pages[|pages| - 1].nodes)
  }

  ghost function AllEdgeIds(pages: seq<Page>): set<string> {
    if pages == [] then {} else AllEdgeIds(pages[..|pages| - 1]) + EdgeIds(pages[|pages| - 1].edges)
  }

  /** After any number of pages the flow is bounded and closed, and while it is not limited it holds exactly the nodes
      and edges of all the pages. */
  lemma {:induction false} FlowOfPages(first: Page, pages: seq<Page>)
    ensures var f := AfterPages(first, pages);
      && Bounded(f)
      && (!IsLimited(f) ==>
            && NodeIds(f.page.nodes) == NodeIds(first.nodes) + AllNodeIds(pages)
            && EdgeIds(f.page.edges) == EdgeIds(first.edges) + AllEdgeIds(pages))
  {
    if pages == [] {
      AlwaysBounded(FromPage(first), first);
      if !IsLimited(FromPage(first)) { UnlimitedPage(first); }
    } else {
      var before, last := AfterPages(first, pages[..|pages| - 1]), pages[|pages| - 1];
      FlowOfPages(first, pages[..|pages| - 1]);
      AlwaysBounded(before, last);
      if !IsLimited(AfterPages(first, pages)) {
        UnlimitedMerge(before, last);
        assert !IsLimited(before);
      }
    }
  }

  /** Whether another page may be asked for. */
  predicate CanLoad(f: Flow) {
    Truthy(f.page.nextCursor) && !IsLimited(f)
  }

  /** Every page was asked for by a flow that may load. */
  ghost predicate Asked(first: Page, pages: seq<Page>) {
    forall n :: 0 <= n < |pages| ==> CanLoad(AfterPages(first, pages[..n]))
  }

  lemma {:induction false} PagesCounted(first: Page, pages: seq<Page>)
    ensures AfterPages(first, pages).clientPageCount ==
      Some(if |pages| + 1 < MAX_EXECUTION_FLOW_PAGES then |pages| + 1 else MAX_EXECUTION_FLOW_PAGES)
  {
    if pages != [] { PagesCounted(first, pages[..|pages| - 1]); }
  }

  lemma TenPagesEnd(first: Page, pages: seq<Page>)
    requires |pages| == MAX_EXECUTION_FLOW_PAGES - 1 && !pages[|pages| - 1].nextCursor.Absent?
    ensures !CanLoad(AfterPages(first, pages))
  {
    PagesCounted(first, pages[..|pages| - 1]);
  }

  /** When every page has a cursor field, no more than nine pages follow the first. */
  lemma AtMostNineMore(first: Page, pages: seq<Page>)
    requires Asked(first, pages) && forall n :: 0 <= n < |pages| ==> !pages[n].nextCursor.Absent?
    ensures |pages| <= MAX_EXECUTION_FLOW_PAGES - 1
  {
    var most := MAX_EXECUTION_FLOW_PAGES - 1;
    if |pages| > most { TenPagesEnd(first, pages[..most]); }
  }

  /** From the tenth page on, paging goes on exactly when a page without a cursor field leaves nothing out: it keeps the
      old cursor, and only the page's own cursor is looked at for the page limit. */
  lemma PagingGoesOn(current: Flow, page: Page)
    requires CanLoad(current) && PageCount(current) == MAX_EXECUTION_FLOW_PAGES
    ensures CanLoad(Merged(current, FromPage(page))) <==>
      page.nextCursor.Absent? && !IsLimited(FromPage(page)) && !Omits(current, FromPage(page))
  {
  }

  lemma AskedMore(first: Page, pages: seq<Page>)
    requires pages != [] && Asked(first, pages[..|pages| - 1])
    requires CanLoad(AfterPages(first, pages[..|pages| - 1]))
    ensures Asked(first, pages)
  {
    var some := pages[..|pages| - 1];
    forall n | 0 <= n < |pages| ensures CanLoad(AfterPages(first, pages[..n])) {
      if n < |some| { assert pages[..n] == some[..n]; }
    }
  }

  /** A page with nothing in it and no cursor field changes no more than the count of pages. */
  lemma EmptyPageMerged(before: Flow, first: Page)
    requires first == Page([], [], false, Cursor("next"), None, None)
    requires before.page == first && !IsLimited(before)
    ensures var after := Merged(before, FromPage(Page([], [], false, Absent, None, None)));
      after.page == first && !IsLimited(after)
  {
    var empty := FromPage(Page([], [], false, Absent, None, None));
    assert AllNodes(before, empty) == [] && AllEdges(before, empty) == [];
  }

  /** So without cursor fields there is no bound: any number of pages can follow. */
  lemma {:induction false} PagingWithoutEnd(pages: seq<Page>)
    requires forall n :: 0 <= n < |pages| ==> pages[n] == Page([], [], false, Absent, None, None)
    ensures var first := Page([], [], false, Cursor("next"), None, None);
      && Asked(first, pages)
      && AfterPages(first, pages).page == first && !IsLimited(AfterPages(first, pages))
  {
    var first := Page([], [], false, Cursor("next"), None, None);
    if pages == [] {
      assert First<FlowNode>([], MAX_EXECUTION_FLOW_NODES) == [];
    } else {
      var some := pages[..|pages| - 1];
      PagingWithoutEnd(some);
      AskedMore(first, pages);
      EmptyPageMerged(AfterPages(first, some), first);
    }
  }
}
