/** Exactly what a page and a merge keep of an execution flow, and when paging is limited (app/graphQueries.ts). */
module FlowContents {
  import opened Options
  import opened InsertionOrder
  import opened Places
  import opened ExecutionFlow
  import Seqs

  /** Both ends are among the nodes. */
  ghost predicate IsBetween(e: FlowEdge, nodes: seq<FlowNode>) {
    && (exists n :: n in nodes && n.id == e.source)
    && (exists n :: n in nodes && n.id == e.target)
  }

  ghost function Between(nodes: seq<FlowNode>): FlowEdge -> bool {
    (e: FlowEdge) => IsBetween(e, nodes)
  }

  /** Kept are the edges between nodes, with the places they have among all, or the first 2,000 of them. */
  ghost predicate KeepsEdges(kept: seq<FlowEdge>, all: seq<FlowEdge>, nodes: seq<FlowNode>, places: seq<nat>) {
    && ArePlaces(all, places, Between(nodes))
    && |kept| == (if |places| <= 2_000 then |places| else 2_000)
    && forall i :: 0 <= i < |kept| ==> kept[i] == all[places[i]]
  }

  /** The first 1,000 nodes are kept. */
  ghost predicate KeepsNodes(kept: seq<FlowNode>, all: seq<FlowNode>) {
    kept == if |all| <= 1_000 then all else all[..1_000]
  }

  lemma ConnectedIsBetween(e: FlowEdge, nodes: seq<FlowNode>)
    ensures IsConnected(e, nodes) <==> IsBetween(e, nodes)
  {
    if IsBetween(e, nodes) {
      var a :| a in nodes && a.id == e.source;
      var b :| b in nodes && b.id == e.target;
      var i :| 0 <= i < |nodes| && nodes[i] == a;
      var j :| 0 <= j < |nodes| && nodes[j] == b;
      assert nodes[i].id == e.source && nodes[j].id == e.target;
    }
    if IsConnected(e, nodes) {
      var i :| 0 <= i < |nodes| && nodes[i].id == e.source;
      var j :| 0 <= j < |nodes| && nodes[j].id == e.target;
      assert nodes[i] in nodes && nodes[j] in nodes;
    }
  }

  /** The filter keeps exactly the edges between nodes, each as often as it is there, in their order. */
  lemma {:induction false} ConnectedPlaces(edges: seq<FlowEdge>, nodes: seq<FlowNode>) returns (places: seq<nat>)
    ensures ArePlaces(edges, places, Between(nodes)) && Picks(Connected(edges, nodes), edges, places)
  {
    if edges == [] {
      places := [];
    } else {
      var n := |edges| - 1;
      places := ConnectedPlaces(edges[..n], nodes);
      PlacesMore(edges, places, Between(nodes));
      PicksMore(Connected(edges[..n], nodes), edges, places);
      ConnectedIsBetween(edges[n], nodes);
      places := if IsConnected(edges[n], nodes) then places + [n] else places;
    }
  }

  lemma CutKeepsEdges(all: seq<FlowEdge>, nodes: seq<FlowNode>) returns (places: seq<nat>)
    ensures KeepsEdges(First(Connected(all, nodes), MAX_EXECUTION_FLOW_EDGES), all, nodes, places)
  {
    places := ConnectedPlaces(all, nodes);
  }

  // ---------- a page ----------

  /** A page keeps its first 1,000 nodes and the first 2,000 of the edges between these, in their order; everything else
      in it stays. */
  lemma PageKeeps(page: Page) returns (places: seq<nat>)
    ensures var f := FromPage(page);
      && KeepsNodes(f.page.nodes, page.nodes) && KeepsEdges(f.page.edges, page.edges, f.page.nodes, places)
      && f.page == page.(nodes := f.page.nodes, edges := f.page.edges) && f.clientPageCount == Some(1)
  {
    places := CutKeepsEdges(page.edges, FromPage(page).page.nodes);
  }

  /** A page is limited exactly when it is too long or has an edge with an end elsewhere. */
  lemma PageLimited(page: Page)
    ensures IsLimited(FromPage(page)) <==>
      || |page.nodes| > 1_000 || |page.edges| > 2_000
      || exists k :: 0 <= k < |page.edges| && !IsBetween(page.edges[k], FromPage(page).page.nodes)
  {
    AllBetween(page.edges, FromPage(page).page.nodes);
  }

  lemma AllBetween(edges: seq<FlowEdge>, nodes: seq<FlowNode>)
    ensures |Connected(edges, nodes)| == |edges| <==> forall k :: 0 <= k < |edges| ==> IsBetween(edges[k], nodes)
  {
    var places := ConnectedPlaces(edges, nodes);
    PlacesFill(places, |edges|);
    AllWanted(edges, places, Between(nodes));
  }

  // ---------- a merge ----------

  /** The edges of a flow and a page, one for each id: the last with it, where the id first comes. */
  ghost predicate AreLatest(current: Flow, page: Flow, edges: seq<FlowEdge>) {
    exists firsts, lasts :: IsLatest(EdgeId(), current.page.edges + page.page.edges, edges, firsts, lasts)
  }

  /** What a node of a merge is made of: the last node of the flow with its id, else the first of the page. */
  ghost predicate IsBase(own: seq<FlowNode>, page: seq<FlowNode>, base: FlowNode) {
    || (exists last: nat :: last < |own| && own[last] == base && forall k :: last < k < |own| ==> own[k].id != base.id)
    || ((forall k :: 0 <= k < |own| ==> own[k].id != base.id)
        && exists first: nat ::
             first < |page| && page[first] == base && forall k :: 0 <= k < first ==> page[k].id != base.id)
  }

  ghost predicate IsOverlaid(own: seq<FlowNode>, page: seq<FlowNode>, node: FlowNode) {
    exists base :: IsBase(own, page, base) && base.id == node.id && node == Overlaid(base, page)
  }

  /** One node for each id, in the order in which the ids first come, each overlaid by the nodes of the page with its
      id. */
  ghost predicate AreOverlaid(current: Flow, page: Flow, nodes: seq<FlowNode>) {
    && (exists firsts: seq<nat> :: AreFirsts(current.page.nodes + page.page.nodes, nodes, firsts))
    && forall i :: 0 <= i < |nodes| ==> IsOverlaid(current.page.nodes, page.page.nodes, nodes[i])
  }

  ghost predicate AreFirsts(all: seq<FlowNode>, nodes: seq<FlowNode>, firsts: seq<nat>) {
    && |firsts| == |nodes| && Ascending(firsts) && NodeIds(nodes) == NodeIds(all)
    && forall i :: 0 <= i < |nodes| ==>
         && firsts[i] < |all| && all[firsts[i]].id == nodes[i].id
         && forall k :: 0 <= k < firsts[i] ==> all[k].id != nodes[i].id
  }

  lemma FirstsOfBoth(current: Flow, page: Flow) returns (firsts: seq<nat>)
    ensures AreFirsts(current.page.nodes + page.page.nodes, AllNodes(current, page), firsts)
  {
    var all := current.page.nodes + page.page.nodes;
    var own := PutAll(NodeId(), Replace(), [], current.page.nodes);
    JoiningKeepsId();
    SameKeysInOrder(NodeId(), JoinNodes(), own, own, page.page.nodes);
    PutAllTwice(NodeId(), Replace(), [], current.page.nodes, page.page.nodes);
    var lasts;
    firsts, lasts := FilledIsLatest(NodeId(), all);
    var nodes, latest := AllNodes(current, page), PutAll(NodeId(), Replace(), [], all);
    IdsOfBoth(current, page);
    PutAllKeys(NodeId(), Replace(), [], all);
    forall i | 0 <= i < |nodes|
      ensures nodes[i].id == latest[i].id && IsLatestAt(NodeId(), all, latest[i], firsts[i], lasts[i])
    {
      assert Keys(NodeId(), nodes)[i] == Keys(NodeId(), latest)[i];
    }
    assert NodeIds(all) == NodeIds(current.page.nodes) + NodeIds(page.page.nodes);
  }

  lemma {:induction false} OverlaidByNone(node: FlowNode, page: seq<FlowNode>)
    requires forall k :: 0 <= k < |page| ==> page[k].id != node.id
    ensures Overlaid(node, page) == node
  {
    if page != [] { OverlaidByNone(node, page[..|page| - 1]); }
  }

  lemma BaseStays(own: seq<FlowNode>, page: seq<FlowNode>, base: FlowNode)
    requires page != [] && IsBase(own, page[..|page| - 1], base)
    ensures IsBase(own, page, base)
  {
    assert forall k :: 0 <= k < |page| - 1 ==> page[..|page| - 1][k] == page[k];
  }

  /** The nodes of a page put into a map, when the map holds nodes of the flow. */
  lemma {:induction false} JoinedAreOverlaid(own: seq<FlowNode>, m: seq<FlowNode>, page: seq<FlowNode>)
    requires Distinct(Keys(NodeId(), m)) && NodeIds(m) == NodeIds(own)
    requires forall i :: 0 <= i < |m| ==> IsBase(own, [], m[i])
    ensures forall i :: 0 <= i < |PutAll(NodeId(), JoinNodes(), m, page)| ==>
      IsOverlaid(own, page, PutAll(NodeId(), JoinNodes(), m, page)[i])
  {
    if page == [] {
      forall i | 0 <= i < |m| ensures IsOverlaid(own, page, m[i]) { assert m[i] == Overlaid(m[i], []); }
    } else {
      var n := |page| - 1;
      var before := PutAll(NodeId(), JoinNodes(), m, page[..n]);
      JoinedAreOverlaid(own, m, page[..n]);
      JoiningKeepsId();
      PutAllKeys(NodeId(), JoinNodes(), m, page[..n]);
      OneMoreOverlaid(own, page, before);
    }
  }

  lemma OneMoreOverlaid(own: seq<FlowNode>, page: seq<FlowNode>, before: seq<FlowNode>)
    requires page != [] && Distinct(Keys(NodeId(), before))
    requires NodeIds(before) == NodeIds(own) + NodeIds(page[..|page| - 1])
    requires forall i :: 0 <= i < |before| ==> IsOverlaid(own, page[..|page| - 1], before[i])
    ensures var after := Put(NodeId(), JoinNodes(), before, page[|page| - 1]);
      forall i :: 0 <= i < |after| ==> IsOverlaid(own, page, after[i])
  {
    var x := page[|page| - 1];
    var after, at := Put(NodeId(), JoinNodes(), before, x), IndexOf(NodeId(), before, x.id);
    forall i | 0 <= i < |before| ensures IsOverlaid(own, page, after[i]) {
      if i != at && at < |before| { assert Keys(NodeId(), before)[i] != Keys(NodeId(), before)[at]; }
      StillOverlaid(own, page, before[i]);
    }
    if at == |before| {
      assert x.id !in NodeIds(before);
      NewIsOverlaid(own, page);
    }
  }

  lemma StillOverlaid(own: seq<FlowNode>, page: seq<FlowNode>, node: FlowNode)
    requires page != [] && IsOverlaid(own, page[..|page| - 1], node)
    ensures var x := page[|page| - 1];
      IsOverlaid(own, page, if x.id == node.id then JoinNodes()(node, x) else node)
  {
    var base :| IsBase(own, page[..|page| - 1], base) && base.id == node.id
      && node == Overlaid(base, page[..|page| - 1]);
    BaseStays(own, page, base);
  }

  lemma NewIsOverlaid(own: seq<FlowNode>, page: seq<FlowNode>)
    requires page != [] && page[|page| - 1].id !in NodeIds(own) + NodeIds(page[..|page| - 1])
    ensures IsOverlaid(own, page, page[|page| - 1])
  {
    var n := |page| - 1;
    var x := page[n];
    forall k | 0 <= k < |own| ensures own[k].id != x.id { assert own[k].id in NodeIds(own); }
    forall k | 0 <= k < n ensures page[k].id != x.id { assert page[..n][k].id in NodeIds(page[..n]); }
    OverlaidByNone(x, page[..n]);
    assert IsBase(own, page, x);
    assert Overlaid(x, page) == x;
  }

  lemma NodesOfBoth(current: Flow, page: Flow)
    ensures AreOverlaid(current, page, AllNodes(current, page))
  {
    var own := current.page.nodes;
    var m := PutAll(NodeId(), Replace(), [], own);
    var ownFirsts, lasts := FilledIsLatest(NodeId(), own);
    JoiningKeepsId();
    PutAllKeys(NodeId(), Replace(), [], own);
    forall i | 0 <= i < |m| ensures IsBase(own, [], m[i]) {
      assert IsLatestAt(NodeId(), own, m[i], ownFirsts[i], lasts[i]);
      assert own[lasts[i]] == m[i];
    }
    JoinedAreOverlaid(own, m, page.page.nodes);
    var firsts := FirstsOfBoth(current, page);
  }

  /** A merge keeps the first 1,000 of the nodes of both and the first 2,000 of the edges between these; what the page
      leaves out of the other fields stays. */
  lemma MergeKeeps(current: Flow, page: Flow) returns (nodes: seq<FlowNode>, edges: seq<FlowEdge>, places: seq<nat>)
    ensures var merged := Merged(current, page);
      && AreOverlaid(current, page, nodes) && KeepsNodes(merged.page.nodes, nodes)
      && AreLatest(current, page, edges) && KeepsEdges(merged.page.edges, edges, merged.page.nodes, places)
    ensures var (merged, earlier, later) := (Merged(current, page).page, current.page, page.page);
      && merged.truncated == later.truncated
      && merged.nextCursor == (if later.nextCursor == Absent then earlier.nextCursor else later.nextCursor)
      && merged.totalRootLinks ==
           (if later.totalRootLinks == None then earlier.totalRootLinks else later.totalRootLinks)
      && merged.omittedRootLinks ==
           (if later.omittedRootLinks == None then earlier.omittedRootLinks else later.omittedRootLinks)
  {
    nodes, edges := AllNodes(current, page), AllEdges(current, page);
    NodesOfBoth(current, page);
    PutAllTwice(EdgeId(), Replace(), [], current.page.edges, page.page.edges);
    var firsts, lasts := FilledIsLatest(EdgeId(), current.page.edges + page.page.edges);
    places := CutKeepsEdges(edges, Merged(current, page).page.nodes);
  }

  /** A node or an edge of the flow or the page is not in the merge. */
  ghost predicate LeavesOut(current: Flow, page: Flow) {
    var merged := Merged(current, page);
    || (exists n :: (n in current.page.nodes || n in page.page.nodes) && n.id !in NodeIds(merged.page.nodes))
    || (exists e :: (e in current.page.edges || e in page.page.edges) && e.id !in EdgeIds(merged.page.edges))
  }

  lemma IdsOfBoth(current: Flow, page: Flow)
    ensures NodeIds(AllNodes(current, page)) == NodeIds(current.page.nodes) + NodeIds(page.page.nodes)
    ensures EdgeIds(AllEdges(current, page)) == EdgeIds(current.page.edges) + EdgeIds(page.page.edges)
    ensures Distinct(Keys(NodeId(), AllNodes(current, page))) && Distinct(Keys(EdgeId(), AllEdges(current, page)))
  {
    JoiningKeepsId();
    var nodes, edges :=
      PutAll(NodeId(), Replace(), [], current.page.nodes), PutAll(EdgeId(), Replace(), [], current.page.edges);
    PutAllKeys(NodeId(), Replace(), [], current.page.nodes);
    PutAllKeys(NodeId(), JoinNodes(), nodes, page.page.nodes);
    PutAllKeys(EdgeId(), Replace(), [], current.page.edges);
    PutAllKeys(EdgeId(), Replace(), edges, page.page.edges);
  }

  lemma KeyIsMissing<T(!new)>(key: T -> string, all: seq<T>, part: seq<T>, places: seq<nat>, k: nat)
    requires Distinct(Keys(key, all)) && Picks(part, all, places) && k < |all| && !HasPlace(places, k)
    ensures key(all[k]) !in KeySet(key, part)
  {
    forall i | 0 <= i < |part| ensures key(part[i]) != key(all[k]) {
      assert places[i] != k;
      assert Keys(key, all)[places[i]] != Keys(key, all)[k];
    }
  }

  /** With one element for each key, a part of a list has all keys only if it is the whole. */
  lemma PartHasFewerKeys<T(!new)>(key: T -> string, all: seq<T>, part: seq<T>, places: seq<nat>)
    requires Distinct(Keys(key, all)) && Ascending(places) && Picks(part, all, places)
    ensures |part| < |all| <==> exists x :: x in all && key(x) !in KeySet(key, part)
  {
    PlacesFill(places, |all|);
    if |part| < |all| {
      var k :| 0 <= k < |all| && !HasPlace(places, k);
      KeyIsMissing(key, all, part, places, k);
      assert all[k] in all;
    } else {
      forall x | x in all ensures key(x) in KeySet(key, part) {
        var k :| 0 <= k < |all| && all[k] == x;
        assert HasPlace(places, k);
        var i :| 0 <= i < |part| && places[i] == k;
        assert key(part[i]) == key(x);
      }
    }
  }

  lemma NodesLeftOut(current: Flow, page: Flow)
    ensures |AllNodes(current, page)| > 1_000 <==>
      exists n ::
        (n in current.page.nodes || n in page.page.nodes) && n.id !in NodeIds(Merged(current, page).page.nodes)
  {
    var nodes, kept := AllNodes(current, page), Merged(current, page).page.nodes;
    IdsOfBoth(current, page);
    PartHasFewerKeys(NodeId(), nodes, kept, seq(|kept|, i => i));
    SomeOfEither(NodeId(), current.page.nodes, page.page.nodes, nodes, NodeIds(kept));
    assert forall n: FlowNode :: NodeId()(n) == n.id;
  }

  lemma EdgesLeftOut(current: Flow, page: Flow)
    ensures |AllEdges(current, page)| > |BoundedEdges(current, page)| <==>
      exists e ::
        (e in current.page.edges || e in page.page.edges) && e.id !in EdgeIds(Merged(current, page).page.edges)
  {
    var edges, kept := AllEdges(current, page), Merged(current, page).page.edges;
    IdsOfBoth(current, page);
    var places := ConnectedPlaces(edges, Merged(current, page).page.nodes);
    PartHasFewerKeys(EdgeId(), edges, kept, places[..|kept|]);
    SomeOfEither(EdgeId(), current.page.edges, page.page.edges, edges, EdgeIds(kept));
    assert forall e: FlowEdge :: EdgeId()(e) == e.id;
  }

  lemma OmitsIsLeavingOut(current: Flow, page: Flow)
    ensures Omits(current, page) <==> LeavesOut(current, page)
  {
    NodesLeftOut(current, page);
    EdgesLeftOut(current, page);
  }

  lemma SomeOfEither<T(!new)>(key: T -> string, a: seq<T>, b: seq<T>, all: seq<T>, kept: set<string>)
    requires KeySet(key, all) == KeySet(key, a) + KeySet(key, b)
    ensures (exists x :: x in all && key(x) !in kept) <==> exists x :: (x in a || x in b) && key(x) !in kept
  {
    if x :| x in all && key(x) !in kept {
      var i :| 0 <= i < |all| && all[i] == x;
      assert key(x) in KeySet(key, all);
      if key(x) in KeySet(key, a) {
        var j :| 0 <= j < |a| && key(a[j]) == key(x);
        assert a[j] in a;
      } else {
        var j :| 0 <= j < |b| && key(b[j]) == key(x);
        assert b[j] in b;
      }
    }
    if x :| (x in a || x in b) && key(x) !in kept {
      if x in a { var j :| 0 <= j < |a| && a[j] == x; } else { var j :| 0 <= j < |b| && b[j] == x; }
      assert key(x) in KeySet(key, all);
      var i :| 0 <= i < |all| && key(all[i]) == key(x);
      assert all[i] in all;
    }
  }

  /** Whether ten pages are reached and the page names another. */
  ghost predicate ReachesPageLimit(current: Flow, page: Flow) {
    && (if current.clientPageCount.Some? then current.clientPageCount.value else 1) + 1 >= 10
    && page.page.nextCursor.Cursor? && page.page.nextCursor.text != ""
  }

  /** A merge is limited exactly when the flow or the page was, something is left out, or ten pages are reached and the
      page names another. */
  lemma MergeLimited(current: Flow, page: Flow)
    ensures IsLimited(Merged(current, page)) <==>
      IsLimited(current) || IsLimited(page) || LeavesOut(current, page) || ReachesPageLimit(current, page)
  {
    OmitsIsLeavingOut(current, page);
  }
}
