/** What one syntax node adds to a file's graph (analyzer/extract.rs, the body of the traversal loop and extract_call).
    Which language constructs are definitions, imports or calls, and what they are named, is decided elsewhere. */
module AstFacts {
  import opened Options
  import StableId
  import opened Occurrences

  datatype Event = Event(operation: string, direction: string)

  datatype Semantic = Semantic(nodeKind: string, edgeKind: string, name: string, event: Option<Event>,
                               handler: Option<string>)

  datatype Action =
    | Definition(kind: string, name: string, signature: string, routes: seq<string>)
    | Import(text: string)
    | Call(callee: Option<string>, semantic: Option<Semantic>, text: string)
    | Plain

  /** A syntax node as the classifiers see it; `searchCut` says that a search for its identifier was cut short. */
  datatype Syntax = Syntax(astKind: string, start: nat, end: nat, action: Action, searchCut: bool)

  datatype Origin = FileFact | Symbol | StaticEvent | AstFact | Endpoint | Handler

  datatype FactNode = FactNode(id: string, origin: Origin, kind: string, text: string)

  datatype Edge = Edge(source: string, target: string, kind: string)

  /** The definition that encloses a node, or the file. */
  datatype Owner = Owner(id: string, scope: string)

  /** What has been extracted; the semantic identities numbered so far are kept in order. */
  datatype Record = Record(nodes: seq<FactNode>, edges: seq<Edge>, facts: nat, definitions: seq<string>,
                           events: seq<string>)

  /** How identifiers are made. */
  datatype Config = Config(
    fileId: string,
    hash: StableId.Hash,
    symbolPrefix: string,
    eventPrefix: string,
    symbol: (string, string, string, string) -> string,
    event: (string, string, Event, string) -> string,
    ast: (string, string, nat, string, Syntax) -> string,
    endpoint: (string, string) -> string,
    handler: (string, string) -> string)

  function Qualified(scope: string, name: string): string {
    if scope == "file" then name else scope + "::" + name
  }

  /** Only functions and methods have routes of their own. */
  function RoutesOf(a: Action): seq<string> {
    if a.Definition? && (a.kind == "function" || a.kind == "method") then a.routes else []
  }

  /** The name of a call: from its meaning, else its callee, else its text. */
  function CallName(a: Action): string
    requires a.Call?
  {
    if a.semantic.Some? then a.semantic.value.name else if a.callee.Some? then a.callee.value else a.text
  }

  function EventOf(a: Action): Option<Event> {
    if a.Call? && a.semantic.Some? then a.semantic.value.event else None
  }

  /** The handler that a call with a name gives. */
  function HandlerOf(a: Action): Option<string> {
    if a.Call? && CallName(a) != "" && a.semantic.Some? then a.semantic.value.handler else None
  }

  function CalleeOf(a: Action, e: Event): string
    requires a.Call?
  {
    if a.callee.Some? then a.callee.value else e.operation
  }

  /** How many facts a node stands for when nothing is dropped. */
  function FactsOf(s: Syntax): nat {
    match s.action
    case Definition(_, _, _, _) => 1 + |RoutesOf(s.action)|
    case Import(text) => if text == "" then 0 else 1
    case Call(_, _, _) => if CallName(s.action) == "" then 0 else 1 + if HandlerOf(s.action).Some? then 1 else 0
    case Plain => 0
  }

  // ---------- what is added ----------

  function Added(r: Record, node: FactNode, edge: Edge): Record {
    r.(nodes := r.nodes + [node], edges := r.edges + [edge], facts := r.facts + 1)
  }

  function RouteAdded(c: Config, r: Record, owner: string, route: string): Record {
    var id := c.endpoint(owner, route);
    Added(r, FactNode(id, Endpoint, "endpoint", route), Edge(owner, id, "handles"))
  }

  function RoutesAdded(c: Config, r: Record, owner: string, routes: seq<string>): Record {
    if routes == [] then r
    else RouteAdded(c, RoutesAdded(c, r, owner, routes[..|routes| - 1]), owner, routes[|routes| - 1])
  }

  ghost function SymbolId(c: Config, r: Record, a: Action, o: Owner): string
    requires a.Definition?
  {
    var semantic := c.symbol(a.kind, Qualified(o.scope, a.name), a.signature, o.id);
    NumberedId(c.hash, c.symbolPrefix, r.definitions + [semantic], |r.definitions|)
  }

  ghost function DefinitionAdded(c: Config, r: Record, a: Action, o: Owner): Record
    requires a.Definition?
  {
    var id := SymbolId(c, r, a, o);
    var named := r.(definitions := r.definitions + [c.symbol(a.kind, Qualified(o.scope, a.name), a.signature, o.id)]);
    RoutesAdded(c, Added(named, FactNode(id, Symbol, a.kind, a.name), Edge(o.id, id, "contains")), id, RoutesOf(a))
  }

  function ImportAdded(c: Config, r: Record, s: Syntax, ordinal: nat): Record
    requires s.action.Import?
  {
    var text := s.action.text;
    var id := c.ast("module", text, ordinal, c.fileId, s);
    if text == "" then r else Added(r, FactNode(id, AstFact, "module", text), Edge(c.fileId, id, "imports"))
  }

  function CallKind(a: Action): string {
    if a.Call? && a.semantic.Some? then a.semantic.value.nodeKind else "callTarget"
  }

  function CallEdge(a: Action): string {
    if a.Call? && a.semantic.Some? then a.semantic.value.edgeKind else "calls"
  }

  /** The events numbered once this call is: one more if the call is a static event. */
  function EventsWith(c: Config, r: Record, a: Action, o: Owner): seq<string>
    requires a.Call?
  {
    match EventOf(a)
    case Some(e) => r.events + [c.event(o.id, CalleeOf(a, e), e, CallName(a))]
    case None => r.events
  }

  ghost function CallId(c: Config, r: Record, s: Syntax, o: Owner, ordinal: nat): string
    requires s.action.Call?
  {
    var a := s.action;
    if EventOf(a).Some? then NumberedId(c.hash, c.eventPrefix, EventsWith(c, r, a, o), |r.events|)
    else c.ast(CallKind(a), CallName(a), ordinal, o.id, s)
  }

  /** A call with its handler, if that is kept: two nodes, then the handler's edge, then the call's own. */
  ghost function CallAdded(c: Config, r: Record, s: Syntax, o: Owner, ordinal: nat, keep: bool): Record
    requires s.action.Call?
  {
    var a := s.action;
    if CallName(a) == "" then r
    else
      var id := CallId(c, r, s, o, ordinal);
      var node := FactNode(id, if EventOf(a).Some? then StaticEvent else AstFact, CallKind(a), CallName(a));
      var edge := Edge(o.id, id, CallEdge(a));
      var named := r.(events := EventsWith(c, r, a, o));
      if keep && HandlerOf(a).Some? then
        var handlerId := c.handler(id, HandlerOf(a).value);
        named.(nodes := r.nodes + [node, FactNode(handlerId, Handler, "handler", HandlerOf(a).value)],
               edges := r.edges + [Edge(handlerId, id, "handles"), edge],
               facts := r.facts + 2)
      else Added(named, node, edge)
  }

  /** What a visit adds, and the owner of the children; `keep` says whether a handler finds room. */
  ghost function Emitted(c: Config, r: Record, s: Syntax, o: Owner, ordinal: nat, keep: bool): (Record, Owner) {
    match s.action
    case Definition(_, name, _, _) =>
      (DefinitionAdded(c, r, s.action, o), Owner(SymbolId(c, r, s.action, o), Qualified(o.scope, name)))
    case Import(_) => (ImportAdded(c, r, s, ordinal), o)
    case Call(_, _, _) => (CallAdded(c, r, s, o, ordinal, keep), o)
    case Plain => (r, o)
  }

  // ---------- what stays true ----------

  ghost predicate HasId(nodes: seq<FactNode>, id: string) {
    exists i :: 0 <= i < |nodes| && nodes[i].id == id
  }

  ghost predicate Closed(r: Record) {
    forall e :: e in r.edges ==> HasId(r.nodes, e.source) && HasId(r.nodes, e.target)
  }

  /** The ids of the nodes of one origin, in order. */
  ghost function IdsOf(nodes: seq<FactNode>, origin: Origin): seq<string> {
    if nodes == [] then []
    else
      var last := nodes[|nodes| - 1];
      IdsOf(nodes[..|nodes| - 1], origin) + if last.origin == origin then [last.id] else []
  }

  ghost function NumberedIds(hash: StableId.Hash, prefix: string, seen: seq<string>): (q: seq<string>)
    ensures |q| == |seen|
  {
    seq(|seen|, k requires 0 <= k < |seen| => NumberedId(hash, prefix, seen, k))
  }

  /** One node for the file and one for each fact, edges between nodes that are there, and every definition and static
      event numbered in its turn. */
  ghost predicate Sound(c: Config, r: Record) {
    && |r.nodes| == r.facts + 1 && r.nodes[0].id == c.fileId
    && Closed(r)
    && IdsOf(r.nodes, Symbol) == NumberedIds(c.hash, c.symbolPrefix, r.definitions)
    && IdsOf(r.nodes, StaticEvent) == NumberedIds(c.hash, c.eventPrefix, r.events)
  }

  lemma HasIdMore(nodes: seq<FactNode>, node: FactNode, id: string)
    ensures HasId(nodes, id) ==> HasId(nodes + [node], id)
    ensures HasId(nodes + [node], node.id)
  {
    assert (nodes + [node])[|nodes|] == node;
    if HasId(nodes, id) {
      var i :| 0 <= i < |nodes| && nodes[i].id == id;
      assert (nodes + [node])[i].id == id;
    }
  }

  lemma IdsOfMore(nodes: seq<FactNode>, node: FactNode, origin: Origin)
    ensures IdsOf(nodes + [node], origin) == IdsOf(nodes, origin) + if node.origin == origin then [node.id] else []
  {
    assert (nodes + [node])[..|nodes|] == nodes;
  }

  lemma NumberedMore(hash: StableId.Hash, prefix: string, seen: seq<string>, s: string)
    ensures NumberedIds(hash, prefix, seen + [s]) ==
      NumberedIds(hash, prefix, seen) + [NumberedId(hash, prefix, seen + [s], |seen|)]
  {
    forall k | 0 <= k < |seen| ensures NumberedId(hash, prefix, seen + [s], k) == NumberedId(hash, prefix, seen, k) {
      assert (seen + [s])[..k] == seen[..k];
    }
  }

  /** One more node and an edge between nodes that are there then. */
  lemma ClosedAdded(r: Record, node: FactNode, edge: Edge)
    requires Closed(r)
    requires edge.source == node.id || HasId(r.nodes, edge.source)
    requires edge.target == node.id || HasId(r.nodes, edge.target)
    ensures Closed(Added(r, node, edge))
  {
    var after := Added(r, node, edge);
    forall e | e in after.edges ensures HasId(after.nodes, e.source) && HasId(after.nodes, e.target) {
      HasIdMore(r.nodes, node, e.source);
      HasIdMore(r.nodes, node, e.target);
    }
  }

  /** A node that is neither a definition nor a static event. */
  lemma SoundAdded(c: Config, r: Record, node: FactNode, edge: Edge)
    requires Sound(c, r) && node.origin != Symbol && node.origin != StaticEvent
    requires edge.source == node.id || HasId(r.nodes, edge.source)
    requires edge.target == node.id || HasId(r.nodes, edge.target)
    ensures Sound(c, Added(r, node, edge)) && HasId(Added(r, node, edge).nodes, node.id)
  {
    ClosedAdded(r, node, edge);
    IdsOfMore(r.nodes, node, Symbol);
    IdsOfMore(r.nodes, node, StaticEvent);
    HasIdMore(r.nodes, node, node.id);
  }

  lemma SoundSymbol(c: Config, r: Record, semantic: string, node: FactNode, owner: string)
    requires Sound(c, r) && HasId(r.nodes, owner) && node.origin == Symbol
    requires node.id == NumberedId(c.hash, c.symbolPrefix, r.definitions + [semantic], |r.definitions|)
    ensures var after := Added(r.(definitions := r.definitions + [semantic]), node, Edge(owner, node.id, "contains"));
      Sound(c, after) && HasId(after.nodes, node.id)
  {
    ClosedAdded(r, node, Edge(owner, node.id, "contains"));
    IdsOfMore(r.nodes, node, Symbol);
    IdsOfMore(r.nodes, node, StaticEvent);
    NumberedMore(c.hash, c.symbolPrefix, r.definitions, semantic);
    HasIdMore(r.nodes, node, node.id);
  }

  lemma SoundEvent(c: Config, r: Record, semantic: string, node: FactNode, edge: Edge)
    requires Sound(c, r) && HasId(r.nodes, edge.source) && edge.target == node.id && node.origin == StaticEvent
    requires node.id == NumberedId(c.hash, c.eventPrefix, r.events + [semantic], |r.events|)
    ensures Sound(c, Added(r.(events := r.events + [semantic]), node, edge))
  {
    ClosedAdded(r, node, edge);
    IdsOfMore(r.nodes, node, Symbol);
    IdsOfMore(r.nodes, node, StaticEvent);
    NumberedMore(c.hash, c.eventPrefix, r.events, semantic);
  }

  lemma {:induction false} SoundRoutes(c: Config, r: Record, owner: string, routes: seq<string>)
    requires Sound(c, r) && HasId(r.nodes, owner)
    ensures Sound(c, RoutesAdded(c, r, owner, routes)) && r.nodes <= RoutesAdded(c, r, owner, routes).nodes
    ensures RoutesAdded(c, r, owner, routes).facts == r.facts + |routes|
  {
    if routes != [] {
      var before := RoutesAdded(c, r, owner, routes[..|routes| - 1]);
      SoundRoutes(c, r, owner, routes[..|routes| - 1]);
      HasIdPrefix(r.nodes, before.nodes, owner);
      var id := c.endpoint(owner, routes[|routes| - 1]);
      SoundAdded(c, before, FactNode(id, Endpoint, "endpoint", routes[|routes| - 1]), Edge(owner, id, "handles"));
    }
  }

  lemma HasIdPrefix(nodes: seq<FactNode>, more: seq<FactNode>, id: string)
    requires nodes <= more && HasId(nodes, id)
    ensures HasId(more, id)
  {
    var i :| 0 <= i < |nodes| && nodes[i].id == id;
    assert more[i].id == id;
  }

  lemma SoundDefinition(c: Config, r: Record, a: Action, o: Owner)
    requires Sound(c, r) && HasId(r.nodes, o.id) && a.Definition?
    ensures var after := DefinitionAdded(c, r, a, o);
      && Sound(c, after) && r.nodes <= after.nodes && HasId(after.nodes, SymbolId(c, r, a, o))
      && after.facts == r.facts + 1 + |RoutesOf(a)|
  {
    var id, semantic := SymbolId(c, r, a, o), c.symbol(a.kind, Qualified(o.scope, a.name), a.signature, o.id);
    var node := FactNode(id, Symbol, a.kind, a.name);
    SoundSymbol(c, r, semantic, node, o.id);
    var named := Added(r.(definitions := r.definitions + [semantic]), node, Edge(o.id, id, "contains"));
    SoundRoutes(c, named, id, RoutesOf(a));
    HasIdPrefix(named.nodes, DefinitionAdded(c, r, a, o).nodes, id);
  }

  lemma SoundCall(c: Config, r: Record, s: Syntax, o: Owner, ordinal: nat, keep: bool)
    requires Sound(c, r) && HasId(r.nodes, o.id) && s.action.Call?
    ensures var after := CallAdded(c, r, s, o, ordinal, keep);
      && Sound(c, after) && r.nodes <= after.nodes
      && after.facts == r.facts + FactsOf(s) - if !keep && HandlerOf(s.action).Some? then 1 else 0
  {
    var a := s.action;
    if CallName(a) != "" {
      var id := CallId(c, r, s, o, ordinal);
      var node := FactNode(id, if EventOf(a).Some? then StaticEvent else AstFact, CallKind(a), CallName(a));
      var edge := Edge(o.id, id, CallEdge(a));
      var named := r.(events := EventsWith(c, r, a, o));
      if EventOf(a).Some? {
        SoundEvent(c, r, EventsWith(c, r, a, o)[|r.events|], node, edge);
      } else {
        SoundAdded(c, r, node, edge);
      }
      if keep && HandlerOf(a).Some? {
        var handlerId := c.handler(id, HandlerOf(a).value);
        SoundHandler(c, Added(named, node, edge), r, node, edge,
                     FactNode(handlerId, Handler, "handler", HandlerOf(a).value));
      }
    }
  }

  /** Adding the handler between a call and its edge. */
  lemma SoundHandler(c: Config, with: Record, r: Record, node: FactNode, edge: Edge, handler: FactNode)
    requires Sound(c, with) && with.nodes == r.nodes + [node] && with.edges == r.edges + [edge]
    requires with.facts == r.facts + 1
    requires handler.origin == Handler
    ensures var handles := Edge(handler.id, node.id, "handles");
      Sound(c, with.(nodes := r.nodes + [node, handler], edges := r.edges + [handles, edge], facts := r.facts + 2))
  {
    var handles := Edge(handler.id, node.id, "handles");
    var more := Added(with, handler, handles);
    HasIdMore(r.nodes, node, node.id);
    SoundAdded(c, with, handler, handles);
    var after :=
      with.(nodes := r.nodes + [node, handler], edges := r.edges + [handles, edge], facts := r.facts + 2);
    assert after.nodes == more.nodes;
    assert forall e :: e in after.edges ==> e in more.edges;
  }

  /** Every visit keeps a sound record sound, adds to its nodes, and gives the children an owner that is there. */
  lemma SoundEmitted(c: Config, r: Record, s: Syntax, o: Owner, ordinal: nat, keep: bool)
    requires Sound(c, r) && HasId(r.nodes, o.id)
    ensures var (after, owner) := Emitted(c, r, s, o, ordinal, keep);
      && Sound(c, after) && r.nodes <= after.nodes && HasId(after.nodes, owner.id)
      && after.facts == r.facts + FactsOf(s) - if !keep && HandlerOf(s.action).Some? then 1 else 0
  {
    match s.action
    case Definition(_, _, _, _) => SoundDefinition(c, r, s.action, o);
    case Import(text) =>
      var id := c.ast("module", text, ordinal, c.fileId, s);
      assert HasId(r.nodes, c.fileId);
      SoundAdded(c, r, FactNode(id, AstFact, "module", text), Edge(c.fileId, id, "imports"));
      HasIdPrefix(r.nodes, ImportAdded(c, r, s, ordinal).nodes, o.id);
    case Call(_, _, _) =>
      SoundCall(c, r, s, o, ordinal, keep);
      HasIdPrefix(r.nodes, CallAdded(c, r, s, o, ordinal, keep).nodes, o.id);
    case Plain =>
  }

  /** With a collision-free hash all definitions of a file have different ids, however often names and signatures
      repeat; and so have all static events. */
  lemma SymbolIdsDistinct(c: Config, r: Record, i: nat, j: nat)
    requires Sound(c, r) && StableId.CollisionFree(c.hash)
    requires StableId.AllFit(r.definitions) && |r.definitions| < StableId.U64 && i < j < |IdsOf(r.nodes, Symbol)|
    ensures IdsOf(r.nodes, Symbol)[i] != IdsOf(r.nodes, Symbol)[j]
  {
    NumberedDistinct(c.hash, c.symbolPrefix, r.definitions, i, j);
  }

  lemma EventIdsDistinct(c: Config, r: Record, i: nat, j: nat)
    requires Sound(c, r) && StableId.CollisionFree(c.hash)
    requires StableId.AllFit(r.events) && |r.events| < StableId.U64 && i < j < |IdsOf(r.nodes, StaticEvent)|
    ensures IdsOf(r.nodes, StaticEvent)[i] != IdsOf(r.nodes, StaticEvent)[j]
  {
    NumberedDistinct(c.hash, c.eventPrefix, r.events, i, j);
  }
}
