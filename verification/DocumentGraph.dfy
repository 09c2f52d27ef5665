/** The graph that a list of segments stands for: one node a segment after the file node, containment edges from
    owners, and a chain of reading-order edges (analyzer/document.rs, emit_segment). */
module DocumentGraph {
  import opened Options
  import SourceText
  import opened DocumentSegments
  import opened HeadingStack
  import opened StableId
  import Occurrences
  import Labels
  import Seqs

  datatype NodeKind = FileNode | SegmentNode(kind: SegmentKind)

  datatype GraphNode = GraphNode(id: string, kind: NodeKind, text: string, span: SourceText.Span, documentOrder: nat,
                                 labelTruncated: bool)

  datatype EdgeKind = Contains | Precedes

  datatype GraphEdge = GraphEdge(source: string, target: string, kind: EdgeKind)

  /** The semantic identity of a segment, from its kind, its owner's id and its exact text. */
  type SemanticId = (SegmentKind, string, string) -> string

  datatype Config = Config(source: string, hash: Hash, prefix: string, semantic: SemanticId)

  /** What has been built: nodes, edges, and the semantic identities numbered so far. */
  datatype Graph = Graph(nodes: seq<GraphNode>, edges: seq<GraphEdge>, seen: seq<string>)

  function LevelOf(s: Segment): Option<nat> {
    if s.kind.HeadingSegment? then Some(s.kind.level) else None
  }

  ghost function LevelsOf(segments: seq<Segment>): (l: Levels)
    ensures |l| == |segments|
  {
    seq(|segments|, i requires 0 <= i < |segments| => LevelOf(segments[i]))
  }

  /** The edges that a new node brings: one from its owner, and one from the segment before it. */
  ghost function NewEdges(nodes: seq<GraphNode>, node: GraphNode, owner: nat): seq<GraphEdge>
    requires owner < |nodes|
  {
    [GraphEdge(nodes[owner].id, node.id, Contains)]
    + if |nodes| > 1 then [GraphEdge(nodes[|nodes| - 1].id, node.id, Precedes)] else []
  }

  ghost function EdgesOf(nodes: seq<GraphNode>, levels: Levels): seq<GraphEdge>
    requires |nodes| > |levels|
  {
    if levels == [] then []
    else
      var n := |levels|;
      EdgesOf(nodes, levels[..n - 1]) + NewEdges(nodes[..n], nodes[n], Owner(levels, n - 1))
  }

  /** Node k + 1 is segment k. */
  ghost predicate NodeFits(c: Config, segments: seq<Segment>, g: Graph, k: nat)
    requires |g.nodes| == |segments| + 1 && |g.seen| == |segments| && k < |segments|
  {
    var span, node := segments[k].span, g.nodes[k + 1];
    && SourceText.Tight(c.source, span)
    && var text := c.source[span.start..span.end];
       && g.seen[k] == c.semantic(segments[k].kind, g.nodes[Owner(LevelsOf(segments), k)].id, text)
       && node.id == Occurrences.NumberedId(c.hash, c.prefix, g.seen, k)
       && node.kind == SegmentNode(segments[k].kind) && node.span == span && node.documentOrder == k
       && Labels.LabelOf(text, node.text, node.labelTruncated) && node.text != ""
  }

  ghost predicate Records(c: Config, file: GraphNode, segments: seq<Segment>, g: Graph) {
    && |g.nodes| == |segments| + 1 && |g.seen| == |segments| && g.nodes[0] == file
    && g.edges == EdgesOf(g.nodes, LevelsOf(segments))
    && forall k {:trigger NodeFits(c, segments, g, k)} :: 0 <= k < |segments| ==> NodeFits(c, segments, g, k)
  }

  lemma OwnerStable(levels: Levels, l: Option<nat>, i: nat)
    requires i < |levels|
    ensures Owner(levels + [l], i) == Owner(levels, i)
  {
    assert (levels + [l])[..i] == levels[..i];
  }

  lemma {:induction false} EdgesStable(nodes: seq<GraphNode>, more: GraphNode, levels: Levels)
    requires |nodes| > |levels|
    ensures EdgesOf(nodes + [more], levels) == EdgesOf(nodes, levels)
  {
    if levels != [] {
      EdgesStable(nodes, more, levels[..|levels| - 1]);
      assert (nodes + [more])[..|levels|] == nodes[..|levels|];
    }
  }

  /** One more segment: its node and the edges to it. */
  ghost function Extended(g: Graph, semantic: string, node: GraphNode, owner: nat): Graph
    requires owner < |g.nodes|
  {
    Graph(g.nodes + [node], g.edges + NewEdges(g.nodes, node, owner), g.seen + [semantic])
  }

  lemma EdgesExtended(nodes: seq<GraphNode>, levels: Levels, l: Option<nat>, node: GraphNode)
    requires |nodes| == |levels| + 1
    ensures EdgesOf(nodes + [node], levels + [l]) ==
      EdgesOf(nodes, levels) + NewEdges(nodes, node, Owner(levels + [l], |levels|))
  {
    EdgesStable(nodes, node, levels);
    assert (levels + [l])[..|levels|] == levels;
    assert (nodes + [node])[..|nodes|] == nodes;
  }

  lemma NodeFitsStable(c: Config, segments: seq<Segment>, g: Graph, s: Segment, semantic: string, node: GraphNode,
                       owner: nat, k: nat)
    requires |g.nodes| == |segments| + 1 && |g.seen| == |segments| && k < |segments| && owner < |g.nodes|
    requires NodeFits(c, segments, g, k)
    ensures NodeFits(c, segments + [s], Extended(g, semantic, node, owner), k)
  {
    var more := Extended(g, semantic, node, owner);
    assert LevelsOf(segments + [s]) == LevelsOf(segments) + [LevelOf(s)];
    OwnerStable(LevelsOf(segments), LevelOf(s), k);
    assert more.seen[..k] == g.seen[..k];
  }

  lemma RecordsExtended(c: Config, file: GraphNode, segments: seq<Segment>, g: Graph, s: Segment, semantic: string,
                        node: GraphNode)
    requires Records(c, file, segments, g)
    requires var owner := Owner(LevelsOf(segments + [s]), |segments|);
      NodeFits(c, segments + [s], Extended(g, semantic, node, owner), |segments|)
    ensures Records(c, file, segments + [s], Extended(g, semantic, node, Owner(LevelsOf(segments + [s]), |segments|)))
  {
    var owner := Owner(LevelsOf(segments + [s]), |segments|);
    assert LevelsOf(segments + [s]) == LevelsOf(segments) + [LevelOf(s)];
    EdgesExtended(g.nodes, LevelsOf(segments), LevelOf(s), node);
    forall k | 0 <= k < |segments| ensures NodeFits(c, segments + [s], Extended(g, semantic, node, owner), k) {
      NodeFitsStable(c, segments, g, s, semantic, node, owner, k);
    }
  }

  // ---------- what such a graph is ----------

  /** For n segments there are 2n - 1 edges: n of containment and n - 1 of order. */
  lemma {:induction false} EdgeCount(nodes: seq<GraphNode>, levels: Levels)
    requires |nodes| > |levels|
    ensures |EdgesOf(nodes, levels)| == if levels == [] then 0 else 2 * |levels| - 1
  {
    if levels != [] { EdgeCount(nodes, levels[..|levels| - 1]); }
  }

  /** The edges of one kind, in the order they were added. */
  ghost function OfKind(edges: seq<GraphEdge>, kind: EdgeKind): seq<GraphEdge> {
    if edges == [] then []
    else OfKind(edges[..|edges| - 1], kind) + if edges[|edges| - 1].kind == kind then [edges[|edges| - 1]] else []
  }

  lemma OfKindAdds(edges: seq<GraphEdge>, e: GraphEdge, kind: EdgeKind)
    ensures OfKind(edges + [e], kind) == OfKind(edges, kind) + if e.kind == kind then [e] else []
  {
    assert (edges + [e])[..|edges|] == edges;
  }

  ghost function OwnerEdge(nodes: seq<GraphNode>, levels: Levels, i: nat): GraphEdge
    requires i < |levels| < |nodes|
  {
    GraphEdge(nodes[Owner(levels, i)].id, nodes[i + 1].id, Contains)
  }

  ghost predicate AreOwnerEdges(nodes: seq<GraphNode>, levels: Levels, edges: seq<GraphEdge>)
    requires |nodes| > |levels|
  {
    && |edges| == |levels|
    && forall i :: 0 <= i < |levels| ==> edges[i] == OwnerEdge(nodes, levels, i)
  }

  /** One chain through the segments of n nodes. */
  ghost predicate AreChain(nodes: seq<GraphNode>, n: nat, edges: seq<GraphEdge>)
    requires |nodes| > n
  {
    && |edges| == (if n == 0 then 0 else n - 1)
    && forall i :: 0 <= i < |edges| ==> edges[i] == GraphEdge(nodes[i + 1].id, nodes[i + 2].id, Precedes)
  }

  lemma OwnerEdgesMore(nodes: seq<GraphNode>, levels: Levels, l: Option<nat>, edges: seq<GraphEdge>)
    requires |nodes| > |levels| + 1 && AreOwnerEdges(nodes, levels, edges)
    ensures AreOwnerEdges(nodes, levels + [l], edges + [OwnerEdge(nodes, levels + [l], |levels|)])
  {
    forall i | 0 <= i < |levels| ensures Owner(levels + [l], i) == Owner(levels, i) { OwnerStable(levels, l, i); }
  }

  lemma OfKindNew(edges: seq<GraphEdge>, nodes: seq<GraphNode>, node: GraphNode, owner: nat)
    requires owner < |nodes|
    ensures OfKind(edges + NewEdges(nodes, node, owner), Contains) ==
      OfKind(edges, Contains) + [GraphEdge(nodes[owner].id, node.id, Contains)]
    ensures OfKind(edges + NewEdges(nodes, node, owner), Precedes) ==
      OfKind(edges, Precedes) + NewEdges(nodes, node, owner)[1..]
  {
    var c := GraphEdge(nodes[owner].id, node.id, Contains);
    OfKindAdds(edges, c, Contains);
    OfKindAdds(edges, c, Precedes);
    if |nodes| > 1 {
      var p := GraphEdge(nodes[|nodes| - 1].id, node.id, Precedes);
      OfKindAdds(edges + [c], p, Contains);
      OfKindAdds(edges + [c], p, Precedes);
      assert edges + NewEdges(nodes, node, owner) == edges + [c] + [p];
    } else {
      assert edges + NewEdges(nodes, node, owner) == edges + [c];
    }
  }

  lemma ChainMore(nodes: seq<GraphNode>, n: nat, edges: seq<GraphEdge>, owner: nat)
    requires |nodes| > n + 1 && AreChain(nodes, n, edges) && owner <= n
    ensures AreChain(nodes, n + 1, edges + NewEdges(nodes[..n + 1], nodes[n + 1], owner)[1..])
  {
  }

  /** Containment gives each segment exactly one edge, from its owner; order links each segment to the next. */
  lemma {:induction false} TreeAndChain(nodes: seq<GraphNode>, levels: Levels)
    requires |nodes| > |levels|
    ensures AreOwnerEdges(nodes, levels, OfKind(EdgesOf(nodes, levels), Contains))
    ensures AreChain(nodes, |levels|, OfKind(EdgesOf(nodes, levels), Precedes))
  {
    if levels != [] {
      var n, rest := |levels| - 1, levels[..|levels| - 1];
      var before, owner := EdgesOf(nodes, rest), Owner(levels, n);
      TreeAndChain(nodes, rest);
      Seqs.LastApart(levels);
      OwnerEdgesMore(nodes, rest, levels[n], OfKind(before, Contains));
      ChainMore(nodes, n, OfKind(before, Precedes), owner);
      OfKindNew(before, nodes[..n + 1], nodes[n + 1], owner);
    }
  }

  /** With a collision-free hash all segments have different ids, however often texts repeat. */
  lemma SegmentIdsDistinct(c: Config, file: GraphNode, segments: seq<Segment>, g: Graph, i: nat, j: nat)
    requires Records(c, file, segments, g) && CollisionFree(c.hash) && AllFit(g.seen) && |segments| < U64
    requires i < j < |segments|
    ensures g.nodes[i + 1].id != g.nodes[j + 1].id
  {
    assert NodeFits(c, segments, g, i) && NodeFits(c, segments, g, j);
    Occurrences.NumberedDistinct(c.hash, c.prefix, g.seen, i, j);
  }

  /** The file's identifier has a prefix of its own. */
  ghost predicate IsFileId(c: Config, id: string, prefix: string, parts: seq<string>) {
    id == Id(c.hash, prefix, parts) && prefix != c.prefix && ':' !in prefix && ':' !in c.prefix
  }

  ghost predicate IdsDiffer(nodes: seq<GraphNode>) {
    forall i, j :: 0 <= i < j < |nodes| ==> nodes[i].id != nodes[j].id
  }

  /** The file and all segments have different ids. */
  lemma NodeIdsDistinct(c: Config, file: GraphNode, segments: seq<Segment>, g: Graph, prefix: string,
                        parts: seq<string>)
    requires Records(c, file, segments, g) && CollisionFree(c.hash) && AllFit(g.seen) && |segments| < U64
    requires IsFileId(c, file.id, prefix, parts)
    ensures IdsDiffer(g.nodes)
  {
    forall i, j | 0 <= i < j < |g.nodes| ensures g.nodes[i].id != g.nodes[j].id {
      if i == 0 {
        assert NodeFits(c, segments, g, j - 1);
        var ordinal := Decimal(Occurrences.CountIn(g.seen[..j - 1], g.seen[j - 1]));
        if g.nodes[i].id == g.nodes[j].id { PrefixOfId(c.hash, prefix, c.prefix, parts, [g.seen[j - 1], ordinal]); }
      } else {
        SegmentIdsDistinct(c, file, segments, g, i - 1, j - 1);
      }
    }
  }

  /** Following containment edges upwards, by ids. */
  ghost predicate Under(edges: seq<GraphEdge>, id: string, root: string, steps: nat)
    decreases steps
  {
    if steps == 0 then id == root
    else exists k :: 0 <= k < |edges| && edges[k].target == id && Under(edges, edges[k].source, root, steps - 1)
  }

  /** Node i is reached from the file. */
  ghost predicate HangsUnderFile(nodes: seq<GraphNode>, edges: seq<GraphEdge>, i: nat)
    requires i < |nodes|
  {
    exists steps: nat :: Under(edges, nodes[i].id, nodes[0].id, steps)
  }

  ghost predicate OneEdgeEach(nodes: seq<GraphNode>, edges: seq<GraphEdge>) {
    && |nodes| == |edges| + 1
    && forall i, k :: 0 <= i < |nodes| && 0 <= k < |edges| ==> (edges[k].target == nodes[i].id <==> i == k + 1)
  }

  /** Each segment's id is the target of exactly one containment edge, the file's of none, and upwards from every id
      the edges lead to the file's. */
  ghost predicate IsTree(nodes: seq<GraphNode>, edges: seq<GraphEdge>) {
    OneEdgeEach(nodes, edges) && forall i :: 0 <= i < |nodes| ==> HangsUnderFile(nodes, edges, i)
  }

  lemma IdsMakeTree(nodes: seq<GraphNode>, levels: Levels)
    requires |nodes| == |levels| + 1 && IdsDiffer(nodes)
    ensures IsTree(nodes, OfKind(EdgesOf(nodes, levels), Contains))
  {
    var edges := OfKind(EdgesOf(nodes, levels), Contains);
    TreeAndChain(nodes, levels);
    OwnerEdgesOnce(nodes, levels, edges);
    forall i | 0 <= i < |nodes| ensures HangsUnderFile(nodes, edges, i) {
      var steps := StepsUp(nodes, levels, edges, i);
    }
  }

  lemma OwnerEdgesOnce(nodes: seq<GraphNode>, levels: Levels, edges: seq<GraphEdge>)
    requires |nodes| == |levels| + 1 && IdsDiffer(nodes) && AreOwnerEdges(nodes, levels, edges)
    ensures OneEdgeEach(nodes, edges)
  {
    forall i, k | 0 <= i < |nodes| && 0 <= k < |edges| ensures edges[k].target == nodes[i].id <==> i == k + 1 {
      assert edges[k] == OwnerEdge(nodes, levels, k);
    }
  }

  lemma {:induction false} StepsUp(nodes: seq<GraphNode>, levels: Levels, edges: seq<GraphEdge>, i: nat)
    returns (steps: nat)
    requires |nodes| == |levels| + 1 && AreOwnerEdges(nodes, levels, edges) && i < |nodes|
    ensures Under(edges, nodes[i].id, nodes[0].id, steps)
    decreases i
  {
    if i == 0 {
      steps := 0;
    } else {
      steps := StepsUp(nodes, levels, edges, Owner(levels, i - 1));
      assert edges[i - 1] == OwnerEdge(nodes, levels, i - 1);
      steps := steps + 1;
    }
  }
}
