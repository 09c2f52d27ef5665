/** Structural communities of a graph snapshot (graph_algorithms/communities.rs):
    the undirected adjacency of a snapshot, the communities that label propagation leaves, and the facts
    written into every node. */
module Communities {
  import opened Lex
  import StableId
  import opened LabelPropagation
  import Grouping
  import Sweeps

  datatype Value = Text(text: string) | Number(number: nat) | Flag(on: bool)

  datatype Key =
    | CommunityId | CommunitySize | CommunityAlgorithm | CommunityBasis | CommunityComplete
    | Other(key: string)

  datatype GraphNode = GraphNode(id: string, kind: string, name: string, evidence: string, metadata: map<Key, Value>)

  datatype GraphEdge = GraphEdge(source: string, target: string, kind: string, evidence: string)

  // ---------- adjacency ----------

  ghost function Ids(nodes: seq<GraphNode>): set<string> {
    set n | n in nodes :: n.id
  }

  ghost predicate Joins(e: GraphEdge, a: string, b: string) {
    (e.source == a && e.target == b) || (e.source == b && e.target == a)
  }

  /** Some edge between two different nodes of the snapshot, in either direction. */
  ghost predicate Linked(ids: set<string>, edges: seq<GraphEdge>, a: string, b: string) {
    a in ids && b in ids && a != b && exists i :: 0 <= i < |edges| && Joins(edges[i], a, b)
  }

  ghost function Adjacent(ids: set<string>, edges: seq<GraphEdge>): Graph {
    map a | a in ids :: set b | b in ids && Linked(ids, edges, a, b)
  }

  lemma AdjacentUndirected(ids: set<string>, edges: seq<GraphEdge>)
    ensures Undirected(Adjacent(ids, edges))
  {
    var g := Adjacent(ids, edges);
    forall a, b | a in g && b in g[a] ensures b != a && b in g && a in g[b] {
      var i :| 0 <= i < |edges| && Joins(edges[i], a, b);
      assert Joins(edges[i], b, a);
    }
  }

  ghost predicate Records(g: Graph, ids: set<string>, edges: seq<GraphEdge>) {
    && g.Keys == ids
    && forall a, b {:trigger b in g[a]} :: a in g ==> (b in g[a] <==> Linked(ids, edges, a, b))
  }

  /** One more edge: it is skipped when it is a loop or leaves the snapshot, otherwise entered at both ends. */
  lemma LinkedByOneMore(ids: set<string>, edges: seq<GraphEdge>, e: GraphEdge, a: string, b: string)
    ensures Linked(ids, edges + [e], a, b) <==>
      Linked(ids, edges, a, b) || (a in ids && b in ids && a != b && Joins(e, a, b))
  {
    var all := edges + [e];
    if Linked(ids, edges, a, b) {
      var i :| 0 <= i < |edges| && Joins(edges[i], a, b);
      assert Joins(all[i], a, b);
    }
    if Joins(e, a, b) { assert Joins(all[|edges|], a, b); }
  }

  method BuildAdjacency(nodes: seq<GraphNode>, edges: seq<GraphEdge>) returns (g: Graph)
    ensures g == Adjacent(Ids(nodes), edges)
  {
    ghost var ids := Ids(nodes);
    g := map n | n in nodes :: n.id := {};
    for i := 0 to |edges|
      invariant Records(g, ids, edges[..i])
    {
      var e := edges[i];
      ghost var before := g;
      assert edges[..i + 1] == edges[..i] + [e];
      if e.source != e.target && e.source in g && e.target in g {
        g := g[e.source := g[e.source] + {e.target}];
        g := g[e.target := g[e.target] + {e.source}];
      }
      forall a, b | a in g ensures b in g[a] <==> Linked(ids, edges[..i + 1], a, b) {
        LinkedByOneMore(ids, edges[..i], e, a, b);
        assert b in before[a] <==> Linked(ids, edges[..i], a, b);
      }
    }
    assert edges[..|edges|] == edges;
    forall a | a in g ensures g[a] == Adjacent(ids, edges)[a] {
      assert forall b :: b in g[a] <==> Linked(ids, edges, a, b);
    }
  }

  /** The weight of a link between two nodes: one more than the nodes linked with both. */
  lemma WeightCountsCommonLinks(ids: set<string>, edges: seq<GraphEdge>, a: string, b: string)
    requires a in ids && b in ids
    ensures StructuralWeight(Adjacent(ids, edges), a, b) ==
      1 + |set c | c in ids && Linked(ids, edges, a, c) && Linked(ids, edges, b, c)|
  {
    var g := Adjacent(ids, edges);
    assert g[a] * g[b] == set c | c in ids && Linked(ids, edges, a, c) && Linked(ids, edges, b, c);
  }

  // ---------- communities ----------

  ghost function Community(labels: Labels, u: string): set<string>
    requires u in labels
  {
    set v | v in labels && labels[v] == labels[u]
  }

  /** How a community is named from its members in ascending order. */
  type Naming = seq<string> -> string

  ghost function CommunityIdOf(naming: Naming, labels: Labels, u: string): string
    requires u in labels
  {
    naming(Sorted(Community(labels, u)))
  }

  /** The naming in use: a stable id over the members. */
  function HashedNaming(hash: StableId.Hash): Naming {
    members => StableId.Id(hash, "community", members)
  }

  lemma CarriersAreTheCommunity(labels: Labels, u: string)
    requires u in labels
    ensures Grouping.Carriers(labels, Sorted(labels.Keys), labels[u]) == Sorted(Community(labels, u))
  {
    var order := Sorted(labels.Keys);
    Grouping.CarriersElements(labels, order, labels[u]);
    Grouping.CarriersKeepOrder(labels, order, labels[u], Less);
    AscendingUnique(Grouping.Carriers(labels, order, labels[u]), Sorted(Community(labels, u)));
  }

  /** Groups the nodes by label. They arrive in ascending order, so sorting each group afterwards changes nothing. */
  method Assign(naming: Naming, labels: Labels) returns (assignment: map<string, (string, nat)>)
    ensures Assigns(naming, labels, assignment)
  {
    var order := Ascend(labels.Keys);
    assert forall i :: 0 <= i < |order| ==> order[i] in order;
    assignment := Grouping.AssignGroups(naming, order, labels);
    forall u | u in labels ensures assignment[u] == (CommunityIdOf(naming, labels, u), |Community(labels, u)|) {
      CarriersAreTheCommunity(labels, u);
    }
  }

  // ---------- what is written into the snapshot ----------

  ghost function CommunityLabels(nodes: seq<GraphNode>, edges: seq<GraphEdge>): (labels: Labels)
    ensures labels.Keys == Ids(nodes)
  {
    AdjacentUndirected(Ids(nodes), edges);
    After(Adjacent(Ids(nodes), edges), MAX_LABEL_PROPAGATION_ROUNDS)
  }

  function Decorated(node: GraphNode, communityId: string, communitySize: nat, complete: bool): GraphNode {
    node.(metadata := node.metadata
      [CommunityId := Text(communityId)]
      [CommunitySize := Number(communitySize)]
      [CommunityAlgorithm := Text("deterministicLabelPropagationV1")]
      [CommunityBasis := Text("boundedGraphSnapshot")]
      [CommunityComplete := Flag(complete)])
  }

  /** A node keeps everything it had and receives five facts. */
  ghost predicate Received(before: GraphNode, after: GraphNode, communityId: string, communitySize: nat,
                           complete: bool) {
    && after == before.(metadata := after.metadata)
    && after.metadata.Keys == before.metadata.Keys
         + {CommunityId, CommunitySize, CommunityAlgorithm, CommunityBasis, CommunityComplete}
    && (forall k :: k in before.metadata && k.Other? ==> after.metadata[k] == before.metadata[k])
    && after.metadata[CommunityId] == Text(communityId)
    && after.metadata[CommunitySize] == Number(communitySize)
    && after.metadata[CommunityAlgorithm] == Text("deterministicLabelPropagationV1")
    && after.metadata[CommunityBasis] == Text("boundedGraphSnapshot")
    && after.metadata[CommunityComplete] == Flag(complete)
  }

  /** The facts are those of the node's own community. */
  ghost predicate Annotated(naming: Naming, labels: Labels, complete: bool, before: GraphNode, after: GraphNode) {
    && before.id in labels
    && Received(before, after, CommunityIdOf(naming, labels, before.id), |Community(labels, before.id)|, complete)
  }

  /** Every node has an assignment, so the source's skip of the others never happens here. */
  method Annotate(before: seq<GraphNode>, assignment: map<string, (string, nat)>, complete: bool)
    returns (nodes: seq<GraphNode>)
    requires forall i :: 0 <= i < |before| ==> before[i].id in assignment
    ensures |nodes| == |before|
    ensures forall i :: 0 <= i < |nodes| ==>
      Received(before[i], nodes[i], assignment[before[i].id].0, assignment[before[i].id].1, complete)
  {
    nodes := before;
    for i := 0 to |nodes|
      invariant |nodes| == |before|
      invariant forall k :: i <= k < |nodes| ==> nodes[k] == before[k]
      invariant forall k :: 0 <= k < i ==>
        Received(before[k], nodes[k], assignment[before[k].id].0, assignment[before[k].id].1, complete)
    {
      var (communityId, communitySize) := assignment[nodes[i].id];
      nodes := nodes[i := Decorated(nodes[i], communityId, communitySize, complete)];
    }
  }

  ghost predicate Assigns(naming: Naming, labels: Labels, assignment: map<string, (string, nat)>) {
    && (forall u :: u in labels ==> u in assignment)
    && (forall u :: u in labels ==> assignment[u] == (CommunityIdOf(naming, labels, u), |Community(labels, u)|))
  }

  lemma AssignedIsAnnotated(naming: Naming, labels: Labels, assignment: map<string, (string, nat)>, complete: bool,
                            before: seq<GraphNode>, after: seq<GraphNode>)
    requires Assigns(naming, labels, assignment) && labels.Keys == Ids(before) && |before| == |after|
    requires forall i :: 0 <= i < |after| ==> before[i].id in assignment
    requires forall i :: 0 <= i < |after| ==>
      Received(before[i], after[i], assignment[before[i].id].0, assignment[before[i].id].1, complete)
    ensures forall i :: 0 <= i < |after| ==> Annotated(naming, labels, complete, before[i], after[i])
  {
    forall i | 0 <= i < |after| ensures Annotated(naming, labels, complete, before[i], after[i]) {
      assert before[i] in before;
      assert before[i].id in Ids(before);
    }
  }

  lemma AllAssigned(naming: Naming, labels: Labels, assignment: map<string, (string, nat)>, nodes: seq<GraphNode>)
    requires Assigns(naming, labels, assignment) && labels.Keys == Ids(nodes)
    ensures forall i :: 0 <= i < |nodes| ==> nodes[i].id in assignment
  {
    forall i | 0 <= i < |nodes| ensures nodes[i].id in assignment {
      assert nodes[i] in nodes;
      assert nodes[i].id in Ids(nodes);
    }
  }

  class GraphSnapshot {
    var nodes: seq<GraphNode>
    const edges: seq<GraphEdge>
    const truncated: bool

    constructor (nodes: seq<GraphNode>, edges: seq<GraphEdge>, truncated: bool)
      ensures this.nodes == nodes && this.edges == edges && this.truncated == truncated
    {
      this.nodes, this.edges, this.truncated := nodes, edges, truncated;
    }

    method AnnotateStructuralCommunities(hash: StableId.Hash)
      modifies this`nodes
      ensures |nodes| == |old(nodes)|
      ensures forall i :: 0 <= i < |nodes| ==>
        Annotated(HashedNaming(hash), CommunityLabels(old(nodes), edges), !truncated, old(nodes)[i], nodes[i])
    {
      var adjacency := BuildAdjacency(nodes, edges);
      AdjacentUndirected(Ids(nodes), edges);
      var labels := Propagate(adjacency);
      assert labels == CommunityLabels(nodes, edges);
      var naming := HashedNaming(hash);
      var assignment := Assign(naming, labels);
      AllAssigned(naming, labels, assignment, nodes);
      ghost var before := nodes;
      nodes := Annotate(nodes, assignment, !truncated);
      AssignedIsAnnotated(naming, labels, assignment, !truncated, before, nodes);
    }
  }

  // ---------- the communities partition the nodes ----------

  /** The nodes whose label is among `tags`. */
  ghost function Covered(labels: Labels, tags: set<string>): set<string> {
    set v | v in labels && labels[v] in tags
  }

  ghost function SizeSum(labels: Labels, tags: set<string>): nat {
    if tags == {} then 0
    else
      var l :| l in tags;
      |Covered(labels, {l})| + SizeSum(labels, tags - {l})
  }

  lemma {:induction false} SizesAddUp(labels: Labels, tags: set<string>)
    ensures SizeSum(labels, tags) == |Covered(labels, tags)|
  {
    if tags != {} {
      var l :| l in tags && SizeSum(labels, tags) == |Covered(labels, {l})| + SizeSum(labels, tags - {l});
      SizesAddUp(labels, tags - {l});
      assert Covered(labels, tags) == Covered(labels, {l}) + Covered(labels, tags - {l});
      assert Covered(labels, {l}) !! Covered(labels, tags - {l});
    } else {
      assert Covered(labels, tags) == {};
    }
  }

  /** Every node is in its own community, two communities are equal or disjoint, and the sizes of the
      communities add up to the number of nodes. */
  lemma CommunitiesPartition(labels: Labels)
    ensures forall u :: u in labels ==>
      u in Community(labels, u) && Community(labels, u) == Covered(labels, {labels[u]})
    ensures forall u, v {:trigger Community(labels, u), Community(labels, v)} :: u in labels && v in labels ==>
      Community(labels, u) == Community(labels, v) || Community(labels, u) !! Community(labels, v)
    ensures SizeSum(labels, labels.Values) == |labels|
  {
    SizesAddUp(labels, labels.Values);
    assert Covered(labels, labels.Values) == labels.Keys;
    assert |labels.Keys| == |labels|;
    forall u, v | u in labels && v in labels
      ensures Community(labels, u) == Community(labels, v) || Community(labels, u) !! Community(labels, v)
    {
      if labels[u] != labels[v] { assert Community(labels, u) !! Community(labels, v); }
    }
  }

  /** With a collision-free hash two nodes receive the same community id exactly when they are in one community. */
  lemma CommunityIdsTellCommunities(hash: StableId.Hash, labels: Labels, u: string, v: string)
    requires StableId.CollisionFree(hash) && u in labels && v in labels
    requires forall w :: w in labels ==> StableId.Fits(w)
    ensures CommunityIdOf(HashedNaming(hash), labels, u) == CommunityIdOf(HashedNaming(hash), labels, v)
      <==> labels[u] == labels[v]
  {
    var p, q := Sorted(Community(labels, u)), Sorted(Community(labels, v));
    MembersFit(labels, u);
    MembersFit(labels, v);
    StableId.IdInjective(hash, "community", "community", p, q);
    SortedTellsSets(Community(labels, u), Community(labels, v));
    SameCommunity(labels, u, v);
  }

  lemma MembersFit(labels: Labels, u: string)
    requires u in labels && forall w :: w in labels ==> StableId.Fits(w)
    ensures StableId.AllFit(Sorted(Community(labels, u)))
  {
    var q := Sorted(Community(labels, u));
    assert forall i :: 0 <= i < |q| ==> q[i] in q;
  }

  lemma SortedTellsSets(s: set<string>, t: set<string>)
    ensures Sorted(s) == Sorted(t) <==> s == t
  {
    if Sorted(s) == Sorted(t) {
      assert forall x :: x in s <==> x in Sorted(s);
      assert forall x :: x in t <==> x in Sorted(t);
    }
  }

  lemma SameCommunity(labels: Labels, u: string, v: string)
    requires u in labels && v in labels
    ensures Community(labels, u) == Community(labels, v) <==> labels[u] == labels[v]
  {
    assert u in Community(labels, u) && v in Community(labels, v);
  }

  // ---------- a community stays inside one connected component ----------

  ghost predicate Closed(g: Graph, s: set<string>) {
    forall x, y {:trigger y in g[x]} :: x in s && x in g && y in g[x] ==> y in s
  }

  /** b lies in every set that contains a and is closed under neighbours: in the component of a. */
  ghost predicate Connected(g: Graph, a: string, b: string) {
    forall s :: Closed(g, s) && a in s ==> b in s
  }

  lemma ConnectedSymmetric(g: Graph, a: string, b: string)
    requires Undirected(g) && a in g && Connected(g, a, b)
    ensures Connected(g, b, a)
  {
    forall s | Closed(g, s) && b in s ensures a in s {
      var rest := g.Keys - s;
      assert Closed(g, rest) by {
        forall x, y | x in rest && x in g && y in g[x] ensures y in rest {
          assert x in g[y];
        }
      }
    }
  }

  /** Every node can reach the node whose name it carries. */
  ghost predicate Anchored(g: Graph, labels: Labels) {
    forall u :: u in labels ==> Connected(g, u, labels[u])
  }

  lemma NeighbourLabelAnchored(g: Graph, labels: Labels, u: string, v: string)
    requires Anchored(g, labels) && u in g && v in g[u] && v in labels
    ensures Connected(g, u, labels[v])
  {
    forall s | Closed(g, s) && u in s ensures labels[v] in s {
      assert v in s;
      assert Connected(g, v, labels[v]);
    }
  }

  lemma UpdateKeepsAnchored(g: Graph, labels: Labels, u: string, to: string)
    requires Anchored(g, labels) && Connected(g, u, to)
    ensures Anchored(g, labels[u := to])
  {
    var after := labels[u := to];
    forall x | x in after ensures Connected(g, x, after[x]) {
      if x != u { assert after[x] == labels[x]; }
    }
  }

  lemma VisitKeepsAnchored(g: Graph, labels: Labels, u: string)
    requires Undirected(g) && Labelled(g, labels) && Anchored(g, labels) && u in g
    ensures Anchored(g, Visit(g, labels, u))
  {
    if g[u] != {} {
      WinnerWins(g, labels, u);
      var v :| v in g[u] && v in labels && labels[v] == Winner(g, labels, u);
      NeighbourLabelAnchored(g, labels, u, v);
      UpdateKeepsAnchored(g, labels, u, labels[v]);
    }
  }

  lemma AlwaysAnchored(g: Graph, cap: nat)
    requires Undirected(g)
    ensures Anchored(g, After(g, cap))
  {
    var y := Propagation(g);
    PropagationSound(g);
    forall labels, u | y.keeps(labels) && Anchored(g, labels) && u in y.nodes ensures Anchored(g, y.step(labels, u)) {
      VisitKeepsAnchored(g, labels, u);
    }
    Sweeps.RunKeeps(y, OwnLabels(g), cap, labels => Anchored(g, labels));
  }

  lemma SameLabelConnected(g: Graph, labels: Labels, u: string, v: string)
    requires Undirected(g) && Anchored(g, labels) && u in labels && v in labels && v in g && labels[u] == labels[v]
    ensures Connected(g, u, v)
  {
    ConnectedSymmetric(g, v, labels[v]);
    assert Connected(g, u, labels[u]) && Connected(g, labels[u], v);
  }

  /** However many rounds ran, nodes of one community are connected, and a node without neighbours is alone. */
  lemma CommunityInsideComponent(g: Graph, cap: nat, u: string, v: string)
    requires Undirected(g) && u in g && v in g && After(g, cap)[u] == After(g, cap)[v]
    ensures Connected(g, u, v)
    ensures g[u] == {} ==> u == v
  {
    AlwaysAnchored(g, cap);
    SameLabelConnected(g, After(g, cap), u, v);
    if g[u] == {} { IsolatedAlone(g, u, v); }
  }

  lemma IsolatedAlone(g: Graph, u: string, v: string)
    requires u in g && g[u] == {} && Connected(g, u, v)
    ensures u == v
  {
    assert Closed(g, {u});
    assert v in {u};
  }

  // ---------- only the node set and the undirected edge set matter ----------

  /** Every edge of the first list that links two nodes has a counterpart, in some direction, in the second. */
  ghost predicate LinksWithin(ids: set<string>, edges: seq<GraphEdge>, others: seq<GraphEdge>) {
    forall i ::
      0 <= i < |edges| && edges[i].source != edges[i].target && edges[i].source in ids && edges[i].target in ids ==>
      exists j :: 0 <= j < |others| && Joins(others[j], edges[i].source, edges[i].target)
  }

  lemma LinkedCarriesOver(ids: set<string>, edges: seq<GraphEdge>, others: seq<GraphEdge>, a: string, b: string)
    requires LinksWithin(ids, edges, others) && Linked(ids, edges, a, b)
    ensures Linked(ids, others, a, b)
  {
    var i :| 0 <= i < |edges| && Joins(edges[i], a, b);
    var j :| 0 <= j < |others| && Joins(others[j], edges[i].source, edges[i].target);
    assert Joins(others[j], a, b);
  }

  /** The order and the repetition of nodes and edges, edge directions, self-loops and dangling edges do not matter:
      snapshots with the same ids and the same links give every id the same community. */
  lemma AssignmentDependsOnLinksOnly(nodes: seq<GraphNode>, edges: seq<GraphEdge>, nodes': seq<GraphNode>,
                                     edges': seq<GraphEdge>)
    requires Ids(nodes) == Ids(nodes')
    requires LinksWithin(Ids(nodes), edges, edges') && LinksWithin(Ids(nodes), edges', edges)
    ensures CommunityLabels(nodes, edges) == CommunityLabels(nodes', edges')
  {
    var ids := Ids(nodes);
    forall a, b ensures Linked(ids, edges, a, b) <==> Linked(ids, edges', a, b) {
      if Linked(ids, edges, a, b) { LinkedCarriesOver(ids, edges, edges', a, b); }
      if Linked(ids, edges', a, b) { LinkedCarriesOver(ids, edges', edges, a, b); }
    }
    forall a | a in ids ensures Adjacent(ids, edges)[a] == Adjacent(ids, edges')[a] {
    }
    assert Adjacent(ids, edges) == Adjacent(ids, edges');
  }
}
