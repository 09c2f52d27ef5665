/** Runtime events projected onto a graph, with a cache of the last projection of each graph (lib/runtimeGraph.ts).
    Graphs and events are immutable objects; the cache tells them apart by reference. */
module RuntimeProjection {
  import opened Options
  import opened InsertionOrder
  import opened Places
  import Seqs
  import opened RuntimeEvents

  const MAX_RUNTIME_GRAPH_EVENTS: nat := 80

  datatype GraphNode = GraphNode(id: string, kind: string, caption: string, metadata: map<string, Meta>)

  datatype GraphEdge = GraphEdge(id: string, source: string, target: string, kind: string, basis: string)

  datatype Graph = Graph(nodes: seq<GraphNode>, edges: seq<GraphEdge>)

  type NodeRules = Rules<GraphNode>

  function NodeId(): GraphNode -> string {
    (n: GraphNode) => n.id
  }

  function EdgeId(): GraphEdge -> string {
    (e: GraphEdge) => e.id
  }

  // ---------- where an event belongs ----------

  datatype Target = Target(node: GraphNode, kind: string, basis: string)

  predicate IsCandidate(rules: NodeRules, e: Event, path: string, n: GraphNode) {
    && n.kind in {"endpoint", "api", "external-api"}
    && var route := rules.nodeRoute(n);
       && Truthy(route) && rules.routeMatches(route.value, path)
       && var verb := MetadataString(e, "method");
          (verb.Some? && rules.upper(verb.value) != "" && Truthy(rules.nodeMethod(n)) ==>
             rules.nodeMethod(n).value == rules.upper(verb.value))
  }

  function Candidates(rules: NodeRules, e: Event, path: string, nodes: seq<GraphNode>): (r: seq<GraphNode>)
    ensures forall n :: n in r <==> n in nodes && IsCandidate(rules, e, path, n)
  {
    if nodes == [] then []
    else
      Seqs.LastApart(nodes);
      Candidates(rules, e, path, nodes[..|nodes| - 1])
      + if IsCandidate(rules, e, path, nodes[|nodes| - 1]) then [nodes[|nodes| - 1]] else []
  }

  function Named(nodes: seq<GraphNode>, id: string, kind: string, basis: string): (t: Option<Target>)
    ensures t.Some? <==> exists n :: n in nodes && n.id == id
    ensures t.Some? ==> t.value.node in nodes && t.value.node.id == id && t.value.kind == kind
  {
    var i := IndexOf(NodeId(), nodes, id);
    if i < |nodes| then Some(Target(nodes[i], kind, basis)) else None
  }

  function PathOf(rules: NodeRules, e: Event): Option<string> {
    var path := MetadataString(e, "path");
    var address := if path.Some? then path else MetadataString(e, "url");
    if Truthy(address) then rules.requestPath(address.value) else None
  }

  /** A source node given by the backend, else a node the process reported, else the only endpoint with its path. */
  function MatchingTarget(rules: NodeRules, e: Event, nodes: seq<GraphNode>): (t: Option<Target>)
    ensures t.Some? ==> t.value.node in nodes
    ensures t.Some? ==> (t.value.kind == "observedAt" <==> Truthy(e.sourceNodeId))
  {
    var mapped := MetadataString(e, "mappedNodeId");
    if Truthy(e.sourceNodeId) then Named(nodes, e.sourceNodeId.value, "observedAt", "trustedSourceNode")
    else if Truthy(mapped) then Named(nodes, mapped.value, "correlatesTo", "processReportedSourceRange")
    else
      var path := PathOf(rules, e);
      if !Truthy(path) then None
      else
        var candidates := Candidates(rules, e, path.value, nodes);
        if |candidates| == 1 then
          assert candidates[0] in candidates;
          Some(Target(candidates[0], "correlatesTo", "uniqueMethodPath"))
        else None
  }

  ghost predicate FirstNamed(nodes: seq<GraphNode>, i: int, id: string) {
    0 <= i < |nodes| && nodes[i].id == id && forall j :: 0 <= j < i ==> nodes[j].id != id
  }

  ghost predicate OnlyCandidate(rules: NodeRules, e: Event, path: string, nodes: seq<GraphNode>, i: int) {
    && 0 <= i < |nodes| && IsCandidate(rules, e, path, nodes[i])
    && forall j :: 0 <= j < |nodes| && j != i ==> !IsCandidate(rules, e, path, nodes[j])
  }

  lemma NoCandidate(rules: NodeRules, e: Event, path: string, nodes: seq<GraphNode>)
    ensures Candidates(rules, e, path, nodes) == [] <==>
      forall j :: 0 <= j < |nodes| ==> !IsCandidate(rules, e, path, nodes[j])
  {
    var r := Candidates(rules, e, path, nodes);
    if r != [] { assert r[0] in r; }
    assert forall j :: 0 <= j < |nodes| ==> nodes[j] in nodes;
  }

  lemma {:induction false} OneCandidate(rules: NodeRules, e: Event, path: string, nodes: seq<GraphNode>)
    returns (i: nat)
    requires |Candidates(rules, e, path, nodes)| == 1
    ensures OnlyCandidate(rules, e, path, nodes, i) && Candidates(rules, e, path, nodes)[0] == nodes[i]
  {
    var n := |nodes| - 1;
    if IsCandidate(rules, e, path, nodes[n]) {
      i := n;
      NoCandidate(rules, e, path, nodes[..n]);
    } else {
      i := OneCandidate(rules, e, path, nodes[..n]);
    }
    forall j | 0 <= j < n && j != i ensures !IsCandidate(rules, e, path, nodes[j]) { assert nodes[..n][j] == nodes[j]; }
  }

  lemma {:induction false} OnlyOneCandidate(rules: NodeRules, e: Event, path: string, nodes: seq<GraphNode>, i: nat)
    requires OnlyCandidate(rules, e, path, nodes, i)
    ensures Candidates(rules, e, path, nodes) == [nodes[i]]
  {
    var n := |nodes| - 1;
    assert forall j :: 0 <= j < n ==> nodes[..n][j] == nodes[j];
    if i == n {
      NoCandidate(rules, e, path, nodes[..n]);
    } else {
      OnlyOneCandidate(rules, e, path, nodes[..n], i);
    }
  }

  /** A node serves a path: it is an endpoint with a route that matches, and its method, if it has one, is the one that
      the event reports, if it reports one. */
  ghost predicate Serves(rules: NodeRules, e: Event, path: string, n: GraphNode) {
    && (n.kind == "endpoint" || n.kind == "api" || n.kind == "external-api")
    && (exists route :: route != "" && rules.nodeRoute(n) == Some(route) && rules.routeMatches(route, path))
    && forall verb, own :: HaveMethods(rules, e, n, verb, own) ==> own == rules.upper(verb)
  }

  /** The event and the node each have a method. */
  ghost predicate HaveMethods(rules: NodeRules, e: Event, n: GraphNode, verb: string, own: string) {
    Reports(e, "method", verb) && rules.upper(verb) != "" && rules.nodeMethod(n) == Some(own) && own != ""
  }

  ghost predicate OnlyServer(rules: NodeRules, e: Event, path: string, nodes: seq<GraphNode>, i: int) {
    0 <= i < |nodes| && forall j :: 0 <= j < |nodes| ==> (Serves(rules, e, path, nodes[j]) <==> j == i)
  }

  /** The path that an event reports: that of its `path`, or when it has none of its `url`. */
  ghost predicate IsPath(rules: NodeRules, e: Event, path: string) {
    path != "" && exists address :: IsAddress(e, address) && rules.requestPath(address) == Some(path)
  }

  ghost predicate IsAddress(e: Event, address: string) {
    && address != ""
    && (Reports(e, "path", address) || (Reports(e, "url", address) && forall text :: !Reports(e, "path", text)))
  }

  ghost predicate IsMapped(e: Event, id: string) {
    id != "" && Reports(e, "mappedNodeId", id)
  }

  /** The first node with the id that the backend names; or, when it names none, the first node with the id that the
      process reports; or, when neither is given, the only node that serves the path. */
  ghost predicate IsCalledFor(rules: NodeRules, e: Event, nodes: seq<GraphNode>, i: int, kind: string, basis: string) {
    if e.sourceNodeId.Some? && e.sourceNodeId.value != "" then
      kind == "observedAt" && basis == "trustedSourceNode" && FirstNamed(nodes, i, e.sourceNodeId.value)
    else if exists id :: IsMapped(e, id) then
      && kind == "correlatesTo" && basis == "processReportedSourceRange"
      && exists id :: IsMapped(e, id) && FirstNamed(nodes, i, id)
    else
      && kind == "correlatesTo" && basis == "uniqueMethodPath"
      && exists path :: IsPath(rules, e, path) && OnlyServer(rules, e, path, nodes, i)
  }

  lemma CandidateServes(rules: NodeRules, e: Event, path: string, n: GraphNode)
    ensures IsCandidate(rules, e, path, n) <==> Serves(rules, e, path, n)
  {
    MetadataStringIs(e, "method");
    if IsCandidate(rules, e, path, n) {
      assert rules.nodeRoute(n) == Some(rules.nodeRoute(n).value);
      forall verb, own | HaveMethods(rules, e, n, verb, own) ensures own == rules.upper(verb) {
        assert MetadataString(e, "method") == Some(verb);
      }
    }
    if Serves(rules, e, path, n) {
      var verb, own := MetadataString(e, "method"), rules.nodeMethod(n);
      if verb.Some? && own.Some? && rules.upper(verb.value) != "" && own.value != "" {
        assert HaveMethods(rules, e, n, verb.value, own.value);
      }
    }
  }

  lemma OnlyCandidateServes(rules: NodeRules, e: Event, path: string, nodes: seq<GraphNode>, i: int)
    ensures OnlyCandidate(rules, e, path, nodes, i) <==> OnlyServer(rules, e, path, nodes, i)
  {
    forall j | 0 <= j < |nodes| ensures IsCandidate(rules, e, path, nodes[j]) <==> Serves(rules, e, path, nodes[j]) {
      CandidateServes(rules, e, path, nodes[j]);
    }
  }

  lemma PathIs(rules: NodeRules, e: Event, path: string)
    ensures PathOf(rules, e) == Some(path) && path != "" <==> IsPath(rules, e, path)
  {
    MetadataStringIs(e, "path");
    MetadataStringIs(e, "url");
    var reported := MetadataString(e, "path");
    var address := if reported.Some? then reported else MetadataString(e, "url");
    if address.Some? && address.value != "" { assert IsAddress(e, address.value); }
  }

  lemma MappedIs(e: Event, id: string)
    ensures MetadataString(e, "mappedNodeId") == Some(id) && id != "" <==> IsMapped(e, id)
  {
    MetadataStringIs(e, "mappedNodeId");
  }

  /** An event has at most one target, and has one exactly when some node is called for. */
  lemma TargetMeaning(rules: NodeRules, e: Event, nodes: seq<GraphNode>, i: int, kind: string, basis: string)
    ensures IsCalledFor(rules, e, nodes, i, kind, basis) ==>
      MatchingTarget(rules, e, nodes) == Some(Target(nodes[i], kind, basis))
    ensures MatchingTarget(rules, e, nodes).Some? ==>
      var t := MatchingTarget(rules, e, nodes).value;
      exists k :: IsCalledFor(rules, e, nodes, k, t.kind, t.basis) && t.node == nodes[k]
  {
    TargetIs(rules, e, nodes);
    CalledForIsTarget(rules, e, nodes, i, kind, basis);
    var t := MatchingTarget(rules, e, nodes);
    if t.Some? {
      var k :| IsTarget(rules, e, nodes, k, t.value.kind, t.value.basis) && t.value.node == nodes[k];
      CalledForIsTarget(rules, e, nodes, k, t.value.kind, t.value.basis);
    }
  }

  lemma CalledForIsTarget(rules: NodeRules, e: Event, nodes: seq<GraphNode>, i: int, kind: string, basis: string)
    ensures IsCalledFor(rules, e, nodes, i, kind, basis) <==> IsTarget(rules, e, nodes, i, kind, basis)
  {
    var mapped, path := MetadataString(e, "mappedNodeId"), PathOf(rules, e);
    forall id ensures mapped == Some(id) && id != "" <==> IsMapped(e, id) { MappedIs(e, id); }
    forall p ensures path == Some(p) && p != "" <==> IsPath(rules, e, p) { PathIs(rules, e, p); }
    forall p ensures OnlyCandidate(rules, e, p, nodes, i) <==> OnlyServer(rules, e, p, nodes, i) {
      OnlyCandidateServes(rules, e, p, nodes, i);
    }
  }

  ghost predicate IsTarget(rules: NodeRules, e: Event, nodes: seq<GraphNode>, i: int, kind: string, basis: string) {
    var mapped, path := MetadataString(e, "mappedNodeId"), PathOf(rules, e);
    match basis
    case "trustedSourceNode" =>
      kind == "observedAt" && Truthy(e.sourceNodeId) && FirstNamed(nodes, i, e.sourceNodeId.value)
    case "processReportedSourceRange" =>
      kind == "correlatesTo" && !Truthy(e.sourceNodeId) && Truthy(mapped) && FirstNamed(nodes, i, mapped.value)
    case "uniqueMethodPath" =>
      && kind == "correlatesTo" && !Truthy(e.sourceNodeId) && !Truthy(mapped)
      && Truthy(path) && OnlyCandidate(rules, e, path.value, nodes, i)
    case _ => false
  }

  lemma TargetIs(rules: NodeRules, e: Event, nodes: seq<GraphNode>)
    ensures var t := MatchingTarget(rules, e, nodes);
      && (t.Some? ==>
            exists i :: IsTarget(rules, e, nodes, i, t.value.kind, t.value.basis) && t.value.node == nodes[i])
      && (forall i, kind, basis :: IsTarget(rules, e, nodes, i, kind, basis) ==>
            t == Some(Target(nodes[i], kind, basis)))
  {
    var mapped, path := MetadataString(e, "mappedNodeId"), PathOf(rules, e);
    if Truthy(e.sourceNodeId) {
      NamedMeaning(nodes, e.sourceNodeId.value, "observedAt", "trustedSourceNode");
    } else if Truthy(mapped) {
      NamedMeaning(nodes, mapped.value, "correlatesTo", "processReportedSourceRange");
    } else if Truthy(path) {
      if |Candidates(rules, e, path.value, nodes)| == 1 { var i := OneCandidate(rules, e, path.value, nodes); }
      forall i | OnlyCandidate(rules, e, path.value, nodes, i)
        ensures Candidates(rules, e, path.value, nodes) == [nodes[i]]
      {
        OnlyOneCandidate(rules, e, path.value, nodes, i);
      }
    }
  }

  lemma NamedMeaning(nodes: seq<GraphNode>, id: string, kind: string, basis: string)
    ensures var t := Named(nodes, id, kind, basis);
      && (t.Some? ==> exists i :: FirstNamed(nodes, i, id) && t.value == Target(nodes[i], kind, basis))
      && (forall i :: FirstNamed(nodes, i, id) ==> t == Some(Target(nodes[i], kind, basis)))
  {
    var i := IndexOf(NodeId(), nodes, id);
    if i < |nodes| { assert FirstNamed(nodes, i, id); }
  }

  // ---------- the projection ----------

  function NodeOf(rules: NodeRules, e: Event): GraphNode {
    var text := MetadataString(e, "text");
    var caption := if text.Some? then text.value else e.caption;
    GraphNode("runtime:" + e.id, "runtime-event", if |caption| > 240 then caption[..240] else caption,
      e.metadata + map["eventId" := Text(e.id), "eventKind" := Text(e.kind), "flowStage" := Text(rules.flowStage(e)),
                       "timestamp" := Text(e.timestamp)]
      + (if Truthy(e.traceId) then map["traceId" := Text(e.traceId.value)] else map[])
      + (if Truthy(e.sourceNodeId) then map["sourceNodeId" := Text(e.sourceNodeId.value)] else map[]))
  }

  predicate HasNode(g: Graph, id: string) {
    exists i :: 0 <= i < |g.nodes| && g.nodes[i].id == id
  }

  predicate HasEdge(g: Graph, id: string) {
    exists i :: 0 <= i < |g.edges| && g.edges[i].id == id
  }

  function WithNode(g: Graph, n: GraphNode): Graph {
    if HasNode(g, n.id) then g else g.(nodes := g.nodes + [n])
  }

  function WithEdge(g: Graph, e: GraphEdge): Graph {
    if HasEdge(g, e.id) then g else g.(edges := g.edges + [e])
  }

  function TargetEdge(e: Event, t: Target): GraphEdge {
    GraphEdge("runtime-edge:" + e.id + ":" + t.node.id, "runtime:" + e.id, t.node.id, t.kind, t.basis)
  }

  function WithEvent(rules: NodeRules, base: Graph, g: Graph, e: Event): Graph {
    var shown := WithNode(g, NodeOf(rules, e));
    match MatchingTarget(rules, e, base.nodes)
    case None => shown
    case Some(t) => WithEdge(shown, TargetEdge(e, t))
  }

  ghost function WithEvents(rules: NodeRules, base: Graph, events: seq<Event>): Graph {
    if events == [] then base
    else WithEvent(rules, base, WithEvents(rules, base, events[..|events| - 1]), events[|events| - 1])
  }

  function FindSpan(spans: seq<VisualSpan>, key: string): (i: nat)
    ensures i <= |spans| && (i < |spans| ==> spans[i].key == key)
    ensures forall j :: 0 <= j < i ==> spans[j].key != key
  {
    if spans == [] || spans[0].key == key then 0 else 1 + FindSpan(spans[1..], key)
  }

  /** The span that a span reports as its parent, when both are unambiguous. */
  function ParentOf(spans: seq<VisualSpan>, child: VisualSpan): Option<VisualSpan> {
    var key := SpanKey(child.event, MetadataString(child.event, "parentSpanId"));
    if !child.unambiguous || key == None then None
    else
      var i := FindSpan(spans, key.value);
      if i < |spans| && spans[i].unambiguous then Some(spans[i]) else None
  }

  function SpanEdge(parent: Event, child: Event): GraphEdge {
    GraphEdge("runtime-span-edge:" + parent.id + ":" + child.id, "runtime:" + parent.id, "runtime:" + child.id,
              "parentSpan", "processReportedTrace")
  }

  function WithSpan(g: Graph, spans: seq<VisualSpan>, child: VisualSpan): Graph {
    match ParentOf(spans, child)
    case None => g
    case Some(parent) => WithEdge(g, SpanEdge(parent.event, child.event))
  }

  ghost function WithSpans(g: Graph, spans: seq<VisualSpan>, n: nat): Graph
    requires n <= |spans|
  {
    if n == 0 then g else WithSpan(WithSpans(g, spans, n - 1), spans, spans[n - 1])
  }

  /** The last 80 events that a graph shows. */
  function Relevant(rules: NodeRules, events: seq<Event>): seq<Event> {
    if events == [] then []
    else
      var last := events[|events| - 1];
      Relevant(rules, events[..|events| - 1]) + if IsRelevant(rules, last) then [last] else []
  }

  function Latest<T>(q: seq<T>): seq<T> {
    if |q| > MAX_RUNTIME_GRAPH_EVENTS then q[|q| - MAX_RUNTIME_GRAPH_EVENTS..] else q
  }

  /** The projection as computed without a cache. */
  ghost function Projected(rules: NodeRules, base: Graph, events: seq<Event>): Graph {
    var spans := Spans(rules, events);
    WithSpans(WithEvents(rules, base, Canonical(rules, events)), spans, |spans|)
  }

  ghost function Uncached(rules: NodeRules, base: Graph, events: seq<Event>): Graph {
    var shown := Latest(Relevant(rules, events));
    if shown == [] then base else Projected(rules, base, shown)
  }

  // ---------- objects and the cache ----------

  class EventObject {
    const data: Event

    constructor (data: Event)
      ensures this.data == data
    {
      this.data := data;
    }
  }

  class GraphObject {
    const data: Graph

    constructor (data: Graph)
      ensures this.data == data
    {
      this.data := data;
    }
  }

  function DataOf(events: seq<EventObject>): (d: seq<Event>)
    ensures |d| == |events|
  {
    seq(|events|, i requires 0 <= i < |events| => events[i].data)
  }

  datatype CacheEntry = CacheEntry(events: seq<EventObject>, projection: GraphObject)

  class Projector {
    const rules: NodeRules
    var cache: map<GraphObject, CacheEntry>

    /** Every cached projection is the one that would be computed. */
    ghost predicate Valid()
      reads this
    {
      forall g :: g in cache ==> cache[g].projection.data == Projected(rules, g.data, DataOf(cache[g].events))
    }

    constructor (rules: NodeRules)
      ensures Valid() && this.rules == rules && cache == map[]
    {
      this.rules, cache := rules, map[];
    }

    method GraphEvents(events: seq<EventObject>) returns (shown: seq<EventObject>)
      ensures DataOf(shown) == Latest(Relevant(rules, DataOf(events)))
    {
      var relevant: seq<EventObject> := [];
      for i := 0 to |events|
        invariant DataOf(relevant) == Relevant(rules, DataOf(events)[..i])
      {
        RelevantMore(rules, DataOf(events), i);
        if IsRelevant(rules, events[i].data) {
          DataOneMore(relevant, events[i]);
          relevant := relevant + [events[i]];
        }
      }
      Seqs.TakeAll(DataOf(events));
      shown := Latest(relevant);
    }

    /** withRuntimeProjection: any sequence of calls returns what the computation without a cache would. */
    method WithRuntimeProjection(graph: GraphObject, runtimeEvents: seq<EventObject>) returns (r: GraphObject)
      requires Valid()
      modifies this
      ensures Valid()
      ensures r.data == Uncached(rules, graph.data, DataOf(runtimeEvents))
    {
      var graphEvents := GraphEvents(runtimeEvents);
      if graphEvents == [] { return graph; }
      if graph in cache && cache[graph].events == graphEvents { return cache[graph].projection; }
      var data := Project(rules, graph.data, DataOf(graphEvents));
      r := new GraphObject(data);
      cache := cache[graph := CacheEntry(graphEvents, r)];
    }
  }

  lemma RelevantMore(rules: NodeRules, events: seq<Event>, i: nat)
    requires i < |events|
    ensures Relevant(rules, events[..i + 1]) ==
      Relevant(rules, events[..i]) + if IsRelevant(rules, events[i]) then [events[i]] else []
  {
    assert events[..i + 1][..i] == events[..i];
  }

  lemma DataOneMore(events: seq<EventObject>, e: EventObject)
    ensures DataOf(events + [e]) == DataOf(events) + [e.data]
  {
  }

  /** The body of the computation: events first, then the edges between spans. */
  method Project(rules: NodeRules, base: Graph, events: seq<Event>) returns (g: Graph)
    ensures g == Projected(rules, base, events)
  {
    var shown, spans := CanonicalRuntimeEvents(rules, events);
    g := AddEvents(rules, base, shown);
    g := AddSpans(g, spans);
  }

  method AddEvents(rules: NodeRules, base: Graph, shown: seq<Event>) returns (g: Graph)
    ensures g == WithEvents(rules, base, shown)
  {
    g := base;
    for i := 0 to |shown|
      invariant g == WithEvents(rules, base, shown[..i])
    {
      assert shown[..i + 1][..i] == shown[..i];
      g := WithEvent(rules, base, g, shown[i]);
    }
    Seqs.TakeAll(shown);
  }

  method AddSpans(base: Graph, spans: seq<VisualSpan>) returns (g: Graph)
    ensures g == WithSpans(base, spans, |spans|)
  {
    g := base;
    for i := 0 to |spans|
      invariant g == WithSpans(base, spans, i)
    {
      g := WithSpan(g, spans, spans[i]);
    }
  }

  // ---------- what a projection is ----------

  ghost predicate Closed(g: Graph) {
    forall i :: 0 <= i < |g.edges| ==> HasNode(g, g.edges[i].source) && HasNode(g, g.edges[i].target)
  }

  ghost predicate UniqueIds(g: Graph) {
    Distinct(Keys(NodeId(), g.nodes)) && Distinct(Keys(EdgeId(), g.edges))
  }

  ghost predicate Extends(base: Graph, g: Graph) {
    && base.nodes <= g.nodes && base.edges <= g.edges
    && (UniqueIds(base) ==> UniqueIds(g))
    && (Closed(base) ==> Closed(g))
  }

  lemma StillThere(base: Graph, g: Graph, id: string)
    requires base.nodes <= g.nodes && HasNode(base, id)
    ensures HasNode(g, id)
  {
    var i :| 0 <= i < |base.nodes| && base.nodes[i].id == id;
    assert g.nodes[i].id == id;
  }

  lemma DistinctMore<T>(key: T -> string, q: seq<T>, x: T)
    requires Distinct(Keys(key, q)) && forall i :: 0 <= i < |q| ==> key(q[i]) != key(x)
    ensures Distinct(Keys(key, q + [x]))
  {
    assert Keys(key, q + [x]) == Keys(key, q) + [key(x)];
  }

  lemma NodeExtends(g: Graph, n: GraphNode)
    ensures Extends(g, WithNode(g, n)) && HasNode(WithNode(g, n), n.id)
    ensures WithNode(g, n).edges == g.edges
  {
    var after := WithNode(g, n);
    if !HasNode(g, n.id) {
      assert after.nodes[|g.nodes|].id == n.id;
      if UniqueIds(g) { DistinctMore(NodeId(), g.nodes, n); }
      if Closed(g) {
        forall i | 0 <= i < |after.edges|
          ensures HasNode(after, after.edges[i].source) && HasNode(after, after.edges[i].target)
        {
          StillThere(g, after, g.edges[i].source);
          StillThere(g, after, g.edges[i].target);
        }
      }
    }
  }

  lemma EdgeExtends(g: Graph, e: GraphEdge)
    requires HasNode(g, e.source) && HasNode(g, e.target)
    ensures Extends(g, WithEdge(g, e)) && HasEdge(WithEdge(g, e), e.id)
  {
    var after := WithEdge(g, e);
    if !HasEdge(g, e.id) {
      assert after.edges[|g.edges|].id == e.id;
      if UniqueIds(g) { DistinctMore(EdgeId(), g.edges, e); }
      assert forall id :: HasNode(g, id) ==> HasNode(after, id);
    }
  }

  lemma ExtendsTwice(a: Graph, b: Graph, c: Graph)
    requires Extends(a, b) && Extends(b, c)
    ensures Extends(a, c)
  {
  }

  /** An event adds its node and at most an edge to a node of the base. */
  lemma EventExtends(rules: NodeRules, base: Graph, g: Graph, e: Event)
    requires Extends(base, g)
    ensures Extends(base, WithEvent(rules, base, g, e)) && Extends(g, WithEvent(rules, base, g, e))
    ensures HasNode(WithEvent(rules, base, g, e), "runtime:" + e.id)
  {
    var shown, target := WithNode(g, NodeOf(rules, e)), MatchingTarget(rules, e, base.nodes);
    NodeExtends(g, NodeOf(rules, e));
    if target.Some? {
      var k :| 0 <= k < |base.nodes| && base.nodes[k] == target.value.node;
      assert shown.nodes[k].id == target.value.node.id;
      EdgeExtends(shown, TargetEdge(e, target.value));
      ExtendsTwice(g, shown, WithEvent(rules, base, g, e));
    }
    ExtendsTwice(base, g, WithEvent(rules, base, g, e));
  }

  ghost predicate EventsShown(g: Graph, events: seq<Event>) {
    forall i :: 0 <= i < |events| ==> HasNode(g, "runtime:" + events[i].id)
  }

  lemma ShownMore(before: Graph, after: Graph, events: seq<Event>, e: Event)
    requires EventsShown(before, events) && before.nodes <= after.nodes && HasNode(after, "runtime:" + e.id)
    ensures EventsShown(after, events + [e])
  {
    var more := events + [e];
    forall i | 0 <= i < |more| ensures HasNode(after, "runtime:" + more[i].id) {
      if i < |events| {
        assert more[i] == events[i];
        StillThere(before, after, "runtime:" + events[i].id);
      }
    }
  }

  lemma {:induction false} EventsExtend(rules: NodeRules, base: Graph, events: seq<Event>)
    ensures Extends(base, WithEvents(rules, base, events)) && EventsShown(WithEvents(rules, base, events), events)
  {
    if events != [] {
      var some, last := events[..|events| - 1], events[|events| - 1];
      var before := WithEvents(rules, base, some);
      EventsExtend(rules, base, some);
      EventExtends(rules, base, before, last);
      ShownMore(before, WithEvents(rules, base, events), some, last);
      Seqs.LastApart(events);
    }
  }

  ghost predicate AllShown(g: Graph, spans: seq<VisualSpan>) {
    forall i :: 0 <= i < |spans| ==> HasNode(g, "runtime:" + spans[i].event.id)
  }

  lemma SpanExtends(g: Graph, spans: seq<VisualSpan>, child: VisualSpan)
    requires AllShown(g, spans) && child in spans
    ensures Extends(g, WithSpan(g, spans, child)) && WithSpan(g, spans, child).nodes == g.nodes
  {
    var parent := ParentOf(spans, child);
    var k :| 0 <= k < |spans| && spans[k] == child;
    if parent.Some? {
      var i := FindSpan(spans, SpanKey(child.event, MetadataString(child.event, "parentSpanId")).value);
      assert spans[i] == parent.value;
      EdgeExtends(g, SpanEdge(parent.value.event, child.event));
    }
  }

  lemma {:induction false} SpansExtend(g: Graph, spans: seq<VisualSpan>, n: nat)
    requires AllShown(g, spans) && n <= |spans|
    ensures Extends(g, WithSpans(g, spans, n)) && WithSpans(g, spans, n).nodes == g.nodes
  {
    if n > 0 {
      var before := WithSpans(g, spans, n - 1);
      SpansExtend(g, spans, n - 1);
      assert AllShown(before, spans) by {
        forall i | 0 <= i < |spans| ensures HasNode(before, "runtime:" + spans[i].event.id) {
          StillThere(g, before, "runtime:" + spans[i].event.id);
        }
      }
      SpanExtends(before, spans, spans[n - 1]);
      ExtendsTwice(g, before, WithSpans(g, spans, n));
    }
  }

  /** A projection keeps its base as a prefix, keeps ids unique and edges closed, and shows every event and span. */
  lemma ProjectionExtends(rules: NodeRules, base: Graph, events: seq<Event>)
    ensures Extends(base, Projected(rules, base, events))
    ensures EventsShown(Projected(rules, base, events), Canonical(rules, events))
  {
    var shown, spans := Canonical(rules, events), Spans(rules, events);
    var middle := WithEvents(rules, base, shown);
    EventsExtend(rules, base, shown);
    SpansShown(middle, Ordinary(events), spans);
    SpansExtend(middle, spans, |spans|);
    ExtendsTwice(base, middle, WithSpans(middle, spans, |spans|));
  }

  lemma SpansShown(g: Graph, ordinary: seq<Event>, spans: seq<VisualSpan>)
    requires EventsShown(g, ordinary + EventsOf(spans))
    ensures AllShown(g, spans)
  {
    var shown := ordinary + EventsOf(spans);
    forall i | 0 <= i < |spans| ensures HasNode(g, "runtime:" + spans[i].event.id) {
      assert shown[|ordinary| + i] == spans[i].event;
    }
  }

  // ---------- nothing else is added ----------

  /** What the node of an event says under a key: what the event is, over what its metadata says. */
  ghost function Shows(rules: NodeRules, e: Event, key: string): Option<Meta> {
    if key == "sourceNodeId" && e.sourceNodeId.Some? && e.sourceNodeId.value != "" then Some(Text(e.sourceNodeId.value))
    else if key == "traceId" && e.traceId.Some? && e.traceId.value != "" then Some(Text(e.traceId.value))
    else if key == "eventId" then Some(Text(e.id))
    else if key == "eventKind" then Some(Text(e.kind))
    else if key == "flowStage" then Some(Text(rules.flowStage(e)))
    else if key == "timestamp" then Some(Text(e.timestamp))
    else LookUp(e.metadata, key)
  }

  /** The node of an event: the observed text, else the event's caption, cut to 240 characters. */
  ghost predicate IsNodeOf(rules: NodeRules, e: Event, n: GraphNode) {
    && n.id == "runtime:" + e.id && n.kind == "runtime-event"
    && n.caption <= WholeCaption(e) && |n.caption| == (if |WholeCaption(e)| <= 240 then |WholeCaption(e)| else 240)
    && forall key :: LookUp(n.metadata, key) == Shows(rules, e, key)
  }

  ghost function WholeCaption(e: Event): string {
    var text := LookUp(e.metadata, "text");
    if text.Some? && !text.value.OtherMeta? then text.value.text else e.caption
  }

  lemma LookUpBoth(a: map<string, Meta>, b: map<string, Meta>, key: string)
    ensures LookUp(a + b, key) == if key in b then Some(b[key]) else LookUp(a, key)
  {
  }

  lemma NodeShows(rules: NodeRules, e: Event, key: string)
    ensures LookUp(NodeOf(rules, e).metadata, key) == Shows(rules, e, key)
  {
    var own: map<string, Meta> :=
      map["eventId" := Text(e.id), "eventKind" := Text(e.kind), "flowStage" := Text(rules.flowStage(e)),
          "timestamp" := Text(e.timestamp)];
    var trace: map<string, Meta> := if Truthy(e.traceId) then map["traceId" := Text(e.traceId.value)] else map[];
    var node: map<string, Meta> :=
      if Truthy(e.sourceNodeId) then map["sourceNodeId" := Text(e.sourceNodeId.value)] else map[];
    LookUpBoth(e.metadata, own, key);
    LookUpBoth(e.metadata + own, trace, key);
    LookUpBoth(e.metadata + own + trace, node, key);
    assert NodeOf(rules, e).metadata == e.metadata + own + trace + node;
  }

  lemma NodeOfIs(rules: NodeRules, e: Event)
    ensures IsNodeOf(rules, e, NodeOf(rules, e))
  {
    forall key ensures LookUp(NodeOf(rules, e).metadata, key) == Shows(rules, e, key) { NodeShows(rules, e, key); }
  }

  ghost predicate JoinsTarget(event: Event, t: Target, e: GraphEdge) {
    && e.id == "runtime-edge:" + event.id + ":" + t.node.id
    && e.source == "runtime:" + event.id && e.target == t.node.id && e.kind == t.kind && e.basis == t.basis
  }

  ghost predicate JoinsSpans(parent: Event, child: Event, e: GraphEdge) {
    && e.id == "runtime-span-edge:" + parent.id + ":" + child.id
    && e.source == "runtime:" + parent.id && e.target == "runtime:" + child.id
    && e.kind == "parentSpan" && e.basis == "processReportedTrace"
  }

  /** The node is that of a shown event. */
  ghost predicate IsEventNode(rules: NodeRules, shown: seq<Event>, n: GraphNode) {
    exists k :: 0 <= k < |shown| && IsNodeOf(rules, shown[k], n)
  }

  /** The edge leads from a shown event to its target. */
  ghost predicate IsTargetEdge(rules: NodeRules, base: Graph, shown: seq<Event>, e: GraphEdge) {
    exists k :: 0 <= k < |shown| && MatchingTarget(rules, shown[k], base.nodes).Some?
      && JoinsTarget(shown[k], MatchingTarget(rules, shown[k], base.nodes).value, e)
  }

  /** The nodes and edges that the base does not have belong to the events. */
  ghost predicate FromEvents(rules: NodeRules, base: Graph, g: Graph, shown: seq<Event>) {
    && base.nodes <= g.nodes && base.edges <= g.edges
    && (forall i :: |base.nodes| <= i < |g.nodes| ==> IsEventNode(rules, shown, g.nodes[i]))
    && (forall i :: |base.edges| <= i < |g.edges| ==> IsTargetEdge(rules, base, shown, g.edges[i]))
  }

  lemma NodeOfMore(rules: NodeRules, shown: seq<Event>, e: Event, n: GraphNode)
    requires IsEventNode(rules, shown, n)
    ensures IsEventNode(rules, shown + [e], n)
  {
    var k :| 0 <= k < |shown| && IsNodeOf(rules, shown[k], n);
    assert (shown + [e])[k] == shown[k];
  }

  lemma EdgeOfMore(rules: NodeRules, base: Graph, shown: seq<Event>, e: Event, edge: GraphEdge)
    requires IsTargetEdge(rules, base, shown, edge)
    ensures IsTargetEdge(rules, base, shown + [e], edge)
  {
    var k :| 0 <= k < |shown| && MatchingTarget(rules, shown[k], base.nodes).Some?
      && JoinsTarget(shown[k], MatchingTarget(rules, shown[k], base.nodes).value, edge);
    assert (shown + [e])[k] == shown[k];
  }

  lemma FromMoreEvents(rules: NodeRules, base: Graph, g: Graph, shown: seq<Event>, e: Event)
    requires FromEvents(rules, base, g, shown)
    ensures FromEvents(rules, base, g, shown + [e])
  {
    forall i | |base.nodes| <= i < |g.nodes| ensures IsEventNode(rules, shown + [e], g.nodes[i]) {
      NodeOfMore(rules, shown, e, g.nodes[i]);
    }
    forall i | |base.edges| <= i < |g.edges| ensures IsTargetEdge(rules, base, shown + [e], g.edges[i]) {
      EdgeOfMore(rules, base, shown, e, g.edges[i]);
    }
  }

  lemma FromEventsWithNode(rules: NodeRules, base: Graph, g: Graph, shown: seq<Event>, n: GraphNode)
    requires FromEvents(rules, base, g, shown) && IsEventNode(rules, shown, n)
    ensures FromEvents(rules, base, WithNode(g, n), shown)
  {
  }

  lemma FromEventsWithEdge(rules: NodeRules, base: Graph, g: Graph, shown: seq<Event>, e: GraphEdge)
    requires FromEvents(rules, base, g, shown) && IsTargetEdge(rules, base, shown, e)
    ensures FromEvents(rules, base, WithEdge(g, e), shown)
  {
  }

  lemma EventAddsOwn(rules: NodeRules, base: Graph, g: Graph, shown: seq<Event>, e: Event)
    requires FromEvents(rules, base, g, shown)
    ensures FromEvents(rules, base, WithEvent(rules, base, g, e), shown + [e])
  {
    var more, target := shown + [e], MatchingTarget(rules, e, base.nodes);
    assert more[|shown|] == e;
    FromMoreEvents(rules, base, g, shown, e);
    NodeOfIs(rules, e);
    assert IsEventNode(rules, more, NodeOf(rules, e));
    FromEventsWithNode(rules, base, g, more, NodeOf(rules, e));
    if target.Some? {
      assert IsTargetEdge(rules, base, more, TargetEdge(e, target.value));
      FromEventsWithEdge(rules, base, WithNode(g, NodeOf(rules, e)), more, TargetEdge(e, target.value));
    }
  }

  lemma {:induction false} OnlyFromEvents(rules: NodeRules, base: Graph, events: seq<Event>)
    ensures FromEvents(rules, base, WithEvents(rules, base, events), events)
  {
    if events != [] {
      var some, last := events[..|events| - 1], events[|events| - 1];
      OnlyFromEvents(rules, base, some);
      EventAddsOwn(rules, base, WithEvents(rules, base, some), some, last);
      Seqs.LastApart(events);
    }
  }

  /** An edge between spans: its ends are unambiguous spans, and the child reports the other as its parent. */
  ghost predicate IsParentEdge(spans: seq<VisualSpan>, e: GraphEdge) {
    exists c, p :: ReportsParent(spans, c, p) && JoinsSpans(spans[p].event, spans[c].event, e)
  }

  ghost predicate ReportsParent(spans: seq<VisualSpan>, c: int, p: int) {
    && 0 <= c < |spans| && 0 <= p < |spans| && spans[c].unambiguous && spans[p].unambiguous
    && SpanKey(spans[c].event, MetadataString(spans[c].event, "parentSpanId")) == Some(spans[p].key)
  }

  lemma {:induction false} OnlyParentEdges(g: Graph, spans: seq<VisualSpan>, n: nat)
    requires n <= |spans|
    ensures g.edges <= WithSpans(g, spans, n).edges
    ensures forall i :: |g.edges| <= i < |WithSpans(g, spans, n).edges| ==>
      IsParentEdge(spans, WithSpans(g, spans, n).edges[i])
  {
    if n > 0 {
      OnlyParentEdges(g, spans, n - 1);
      var child := spans[n - 1];
      if ParentOf(spans, child).Some? {
        var p := FindSpan(spans, SpanKey(child.event, MetadataString(child.event, "parentSpanId")).value);
        assert ReportsParent(spans, n - 1, p);
        assert IsParentEdge(spans, SpanEdge(spans[p].event, spans[n - 1].event));
      }
    }
  }

  /** What a graph has beyond its base comes from the events: every new node is that of a shown event, so each span has
      one node; and every new edge leads from a shown event to its target, or joins two unambiguous spans of which one
      reports the other as its parent. */
  ghost predicate AddsOnly(rules: NodeRules, base: Graph, g: Graph, events: seq<Event>) {
    var shown, spans := Canonical(rules, events), Spans(rules, events);
    && base.nodes <= g.nodes && base.edges <= g.edges
    && (forall i :: |base.nodes| <= i < |g.nodes| ==> IsEventNode(rules, shown, g.nodes[i]))
    && (forall i :: |base.edges| <= i < |g.edges| ==>
          IsTargetEdge(rules, base, shown, g.edges[i]) || IsParentEdge(spans, g.edges[i]))
  }

  lemma ProjectionAddsOnly(rules: NodeRules, base: Graph, events: seq<Event>)
    ensures AddsOnly(rules, base, Projected(rules, base, events), events)
  {
    var shown, spans := Canonical(rules, events), Spans(rules, events);
    var middle := WithEvents(rules, base, shown);
    OnlyFromEvents(rules, base, shown);
    OnlyParentEdges(middle, spans, |spans|);
    SameNodes(middle, spans, |spans|);
    EdgesFromBoth(rules, base, middle, WithSpans(middle, spans, |spans|), shown, spans);
  }

  lemma EdgesFromBoth(rules: NodeRules, base: Graph, middle: Graph, g: Graph, shown: seq<Event>, spans: seq<VisualSpan>)
    requires FromEvents(rules, base, middle, shown) && middle.edges <= g.edges
    requires forall i :: |middle.edges| <= i < |g.edges| ==> IsParentEdge(spans, g.edges[i])
    ensures forall i :: |base.edges| <= i < |g.edges| ==>
      IsTargetEdge(rules, base, shown, g.edges[i]) || IsParentEdge(spans, g.edges[i])
  {
    forall i | |base.edges| <= i < |g.edges|
      ensures IsTargetEdge(rules, base, shown, g.edges[i]) || IsParentEdge(spans, g.edges[i])
    {
      if i < |middle.edges| { assert g.edges[i] == middle.edges[i]; }
    }
  }

  lemma {:induction false} SameNodes(g: Graph, spans: seq<VisualSpan>, n: nat)
    requires n <= |spans|
    ensures WithSpans(g, spans, n).nodes == g.nodes
  {
    if n > 0 { SameNodes(g, spans, n - 1); }
  }

  // ---------- nothing is missing ----------

  /** Every event that has a target has its edge. */
  ghost predicate TargetsShown(rules: NodeRules, base: Graph, g: Graph, events: seq<Event>) {
    forall i :: 0 <= i < |events| && MatchingTarget(rules, events[i], base.nodes).Some? ==>
      HasEdge(g, TargetEdge(events[i], MatchingTarget(rules, events[i], base.nodes).value).id)
  }

  /** Every span that reports its parent has its edge. */
  ghost predicate ParentsShown(g: Graph, spans: seq<VisualSpan>, n: nat) {
    forall c, p :: c < n && ReportsParent(spans, c, p) ==> HasEdge(g, SpanEdge(spans[p].event, spans[c].event).id)
  }

  lemma EdgeStillThere(before: Graph, after: Graph, id: string)
    requires before.edges <= after.edges && HasEdge(before, id)
    ensures HasEdge(after, id)
  {
    var i :| 0 <= i < |before.edges| && before.edges[i].id == id;
    assert after.edges[i].id == id;
  }

  lemma EdgeAdded(g: Graph, e: GraphEdge)
    ensures g.edges <= WithEdge(g, e).edges && HasEdge(WithEdge(g, e), e.id)
  {
    if !HasEdge(g, e.id) { assert WithEdge(g, e).edges[|g.edges|].id == e.id; }
  }

  lemma TargetsMore(rules: NodeRules, base: Graph, before: Graph, after: Graph, events: seq<Event>, e: Event)
    requires TargetsShown(rules, base, before, events) && before.edges <= after.edges
    requires TargetsShown(rules, base, after, [e])
    ensures TargetsShown(rules, base, after, events + [e])
  {
    var more := events + [e];
    forall i | 0 <= i < |more| && MatchingTarget(rules, more[i], base.nodes).Some?
      ensures HasEdge(after, TargetEdge(more[i], MatchingTarget(rules, more[i], base.nodes).value).id)
    {
      if i < |events| {
        assert more[i] == events[i];
        EdgeStillThere(before, after, TargetEdge(more[i], MatchingTarget(rules, more[i], base.nodes).value).id);
      } else {
        assert more[i] == [e][0];
      }
    }
  }

  lemma {:induction false} AllTargetsShown(rules: NodeRules, base: Graph, events: seq<Event>)
    ensures TargetsShown(rules, base, WithEvents(rules, base, events), events)
  {
    if events != [] {
      var some, last := events[..|events| - 1], events[|events| - 1];
      var before, target := WithEvents(rules, base, some), MatchingTarget(rules, last, base.nodes);
      AllTargetsShown(rules, base, some);
      if target.Some? { EdgeAdded(WithNode(before, NodeOf(rules, last)), TargetEdge(last, target.value)); }
      TargetsMore(rules, base, before, WithEvents(rules, base, events), some, last);
      Seqs.LastApart(events);
    }
  }

  ghost predicate KeysDiffer(spans: seq<VisualSpan>) {
    forall i, j :: 0 <= i < j < |spans| ==> spans[i].key != spans[j].key
  }

  lemma SpanKeysDiffer(rules: NodeRules, events: seq<Event>)
    ensures KeysDiffer(Spans(rules, events))
  {
    GroupsAreSpans(events);
    var keys := Keys(GroupKey(), Grouped(events));
    assert forall i :: 0 <= i < |keys| ==> keys[i] == Grouped(events)[i].key;
  }

  /** The parent that a span reports is the one that is found. */
  lemma ParentFound(spans: seq<VisualSpan>, c: int, p: int)
    requires KeysDiffer(spans) && ReportsParent(spans, c, p)
    ensures ParentOf(spans, spans[c]) == Some(spans[p])
  {
    var i := FindSpan(spans, spans[p].key);
    assert i == p;
  }

  lemma {:induction false} AllParentsShown(g: Graph, spans: seq<VisualSpan>, n: nat)
    requires KeysDiffer(spans) && n <= |spans|
    ensures g.edges <= WithSpans(g, spans, n).edges && ParentsShown(WithSpans(g, spans, n), spans, n)
  {
    if n > 0 {
      var before, after := WithSpans(g, spans, n - 1), WithSpans(g, spans, n);
      AllParentsShown(g, spans, n - 1);
      forall c, p | c < n && ReportsParent(spans, c, p)
        ensures HasEdge(after, SpanEdge(spans[p].event, spans[c].event).id)
      {
        if c == n - 1 {
          ParentFound(spans, c, p);
          EdgeAdded(before, SpanEdge(spans[p].event, spans[c].event));
        } else {
          EdgeStillThere(before, after, SpanEdge(spans[p].event, spans[c].event).id);
        }
      }
    }
  }

  /** A projection has an edge for every shown event that has a target, and for every span that reports its parent. */
  ghost predicate ShowsAllEdges(rules: NodeRules, base: Graph, g: Graph, events: seq<Event>) {
    && TargetsShown(rules, base, g, Canonical(rules, events))
    && ParentsShown(g, Spans(rules, events), |Spans(rules, events)|)
  }

  lemma TargetsStay(rules: NodeRules, base: Graph, before: Graph, after: Graph, events: seq<Event>)
    requires TargetsShown(rules, base, before, events) && before.edges <= after.edges
    ensures TargetsShown(rules, base, after, events)
  {
    forall i | 0 <= i < |events| && MatchingTarget(rules, events[i], base.nodes).Some?
      ensures HasEdge(after, TargetEdge(events[i], MatchingTarget(rules, events[i], base.nodes).value).id)
    {
      EdgeStillThere(before, after, TargetEdge(events[i], MatchingTarget(rules, events[i], base.nodes).value).id);
    }
  }

  lemma ProjectionShowsAll(rules: NodeRules, base: Graph, events: seq<Event>)
    ensures ShowsAllEdges(rules, base, Projected(rules, base, events), events)
  {
    var shown, spans := Canonical(rules, events), Spans(rules, events);
    var middle := WithEvents(rules, base, shown);
    AllTargetsShown(rules, base, shown);
    SpanKeysDiffer(rules, events);
    AllParentsShown(middle, spans, |spans|);
    TargetsStay(rules, base, middle, WithSpans(middle, spans, |spans|), shown);
  }

  // ---------- what a caller gets ----------

  /** An event that a graph shows: of a trace, when a known protocol reports its span and the kind is accepted; any
      other unless it is output of a process that no node is known for. */
  ghost predicate Matters(rules: NodeRules, e: Event) {
    if |e.kind| >= 6 && e.kind[..6] == "trace." then
      var (protocol, span) := (LookUp(e.metadata, "traceProtocol"), LookUp(e.metadata, "spanId"));
      && (protocol == Some(Text("AONE_TRACE_V1")) || protocol == Some(Text("OTLP_HTTP_JSON"))
          || protocol == Some(Text("W3C_TRACE_CONTEXT")))
      && span.Some? && span.value.Text? && span.value.text != "" && rules.acceptedTraceKind(e.kind)
    else
      e.kind in {"process.stdout", "process.stderr"} ==> e.sourceNodeId.Some? && e.sourceNodeId.value != ""
  }

  ghost function Mattering(rules: NodeRules): Event -> bool {
    (e: Event) => Matters(rules, e)
  }

  lemma RelevantMatters(rules: NodeRules, e: Event)
    ensures IsRelevant(rules, e) <==> Matters(rules, e)
  {
    assert "trace." <= e.kind <==> |e.kind| >= 6 && e.kind[..6] == "trace.";
  }

  lemma {:induction false} RelevantPlaces(rules: NodeRules, events: seq<Event>) returns (places: seq<nat>)
    ensures ArePlaces(events, places, Mattering(rules)) && Picks(Relevant(rules, events), events, places)
  {
    if events == [] {
      places := [];
    } else {
      var n := |events| - 1;
      places := RelevantPlaces(rules, events[..n]);
      PlacesMore(events, places, Mattering(rules));
      PicksMore(Relevant(rules, events[..n]), events, places);
      RelevantMatters(rules, events[n]);
      places := if IsRelevant(rules, events[n]) then places + [n] else places;
    }
  }

  /** Of the events that matter, at these places, the last 80. */
  ghost predicate AreLastMattering(rules: NodeRules, events: seq<Event>, shown: seq<Event>, places: seq<nat>) {
    ArePlaces(events, places, Mattering(rules)) && AreLast80(shown, events, places)
  }

  /** The elements at the last 80 of the places, or at all of them. */
  ghost predicate AreLast80<T>(shown: seq<T>, all: seq<T>, places: seq<nat>) {
    && |shown| == (if |places| <= 80 then |places| else 80)
    && Picks(shown, all, places[|places| - |shown|..])
  }

  lemma ShownAre(rules: NodeRules, events: seq<Event>) returns (places: seq<nat>)
    ensures AreLastMattering(rules, events, Latest(Relevant(rules, events)), places)
  {
    places := RelevantPlaces(rules, events);
    LatestPicks(Relevant(rules, events), events, places);
  }

  lemma LatestPicks<T>(r: seq<T>, all: seq<T>, places: seq<nat>)
    requires Picks(r, all, places)
    ensures AreLast80(Latest(r), all, places)
  {
  }

  /** The result extends its base by exactly what the last 80 events that matter call for. */
  lemma UncachedMeaning(rules: NodeRules, base: Graph, events: seq<Event>) returns (shown: seq<Event>, places: seq<nat>)
    ensures AreLastMattering(rules, events, shown, places)
    ensures var g := Uncached(rules, base, events);
      && Extends(base, g) && EventsShown(g, Canonical(rules, shown))
      && AddsOnly(rules, base, g, shown)
      && ShowsAllEdges(rules, base, g, shown)
  {
    shown := Latest(Relevant(rules, events));
    places := ShownAre(rules, events);
    if shown != [] {
      ProjectionExtends(rules, base, shown);
      ProjectionAddsOnly(rules, base, shown);
      ProjectionShowsAll(rules, base, shown);
    }
  }
}
