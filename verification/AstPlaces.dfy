/** Where things belong in a file, said over the paths of its syntax tree: under the definition that encloses them most
    closely, or under the file. And what a list of visits gives, node by node, without a stack or owners passed on. */
module AstPlaces {
  import opened Options
  import opened TreeWalk
  import opened Occurrences
  import StableId
  import opened AstFacts
  import opened AstProgress
  import Seqs

  // ---------- the enclosing definition ----------

  ghost predicate IsDefinition(root: SyntaxTree, path: Path) {
    NodeAt([root], path).Some? && NodeAt([root], path).value.facts.action.Definition?
  }

  /** The longest proper beginning of a path that leads to a definition. */
  ghost predicate Encloses(root: SyntaxTree, q: Path, path: Path) {
    && q < path && IsDefinition(root, q)
    && forall p :: q < p < path ==> !IsDefinition(root, p)
  }

  ghost function Encloser(root: SyntaxTree, path: Path): Option<Path>
    decreases |path|
  {
    if path == [] then None
    else
      var parent := path[..|path| - 1];
      if IsDefinition(root, parent) then Some(parent) else Encloser(root, parent)
  }

  lemma BeginningOfParent(p: Path, path: Path)
    requires path != []
    ensures var parent := path[..|path| - 1]; p < path <==> p == parent || p < parent
  {
    Seqs.LastApart(path);
  }

  lemma EncloserOfParent(root: SyntaxTree, q: Path, path: Path)
    requires path != []
    ensures var parent := path[..|path| - 1];
      Encloses(root, q, path) <==>
        if IsDefinition(root, parent) then q == parent else Encloses(root, q, parent)
  {
    var parent := path[..|path| - 1];
    BeginningOfParent(q, path);
    BeginningOfParent(parent, path);
    if !Encloses(root, q, path) && IsDefinition(root, q) && q < path {
      var p :| q < p < path && IsDefinition(root, p);
      BeginningOfParent(p, path);
    }
    if Encloses(root, q, path) && q < parent { assert !IsDefinition(root, parent); }
  }

  /** Encloser finds it, and finds nothing only when there is none. */
  lemma {:induction false} EncloserMeaning(root: SyntaxTree, path: Path, q: Path)
    ensures Encloser(root, path) == Some(q) <==> Encloses(root, q, path)
    decreases |path|
  {
    if path != [] {
      EncloserMeaning(root, path[..|path| - 1], q);
      EncloserOfParent(root, q, path);
    }
  }

  lemma {:induction false} NoEncloser(root: SyntaxTree, path: Path, p: Path)
    requires Encloser(root, path) == None && p < path
    ensures !IsDefinition(root, p)
    decreases |path|
  {
    BeginningOfParent(p, path);
    if p < path[..|path| - 1] { NoEncloser(root, path[..|path| - 1], p); }
  }

  /** The names of the definitions on the way to a path, the outermost first, its own included. */
  ghost function Names(root: SyntaxTree, path: Path): seq<string> {
    if path == [] then []
    else
      Names(root, path[..|path| - 1])
      + if IsDefinition(root, path) then [NodeAt([root], path).value.facts.action.name] else []
  }

  function Joined(names: seq<string>): string {
    if names == [] then ""
    else if |names| == 1 then names[0]
    else Joined(names[..|names| - 1]) + "::" + names[|names| - 1]
  }

  /** The names from the first one on that is not "file"; the last name stays in any case. */
  function FromFirstOther(names: seq<string>): seq<string> {
    if |names| > 1 && names[0] == "file" then FromFirstOther(names[1..]) else names
  }

  function QualifiedName(names: seq<string>): string {
    Joined(FromFirstOther(names))
  }

  lemma {:induction false} JoinedIsLong(names: seq<string>)
    ensures |names| > 1 ==> ':' in Joined(names)
  {
    if |names| > 1 {
      var first := Joined(names[..|names| - 1]);
      assert (first + "::" + names[|names| - 1])[|first|] == ':';
    }
  }

  lemma {:induction false} FromFirstOtherNotEmpty(names: seq<string>)
    ensures FromFirstOther(names) == [] <==> names == []
  {
    if |names| > 1 { FromFirstOtherNotEmpty(names[1..]); }
  }

  lemma {:induction false} FromFirstOtherMore(names: seq<string>, name: string)
    requires names != []
    ensures FromFirstOther(names + [name]) ==
      if FromFirstOther(names) == ["file"] then [name] else FromFirstOther(names) + [name]
  {
    var all := names + [name];
    assert all[1..] == names[1..] + [name];
    if names[0] == "file" {
      if |names| > 1 { FromFirstOtherMore(names[1..], name); } else { assert names == ["file"]; }
    }
  }

  /** The scope that is passed on is the qualified name of the definitions around; a scope called "file" counts as
      none. */
  lemma QualifiedIs(names: seq<string>, name: string)
    ensures Qualified(if names == [] then "file" else QualifiedName(names), name) == QualifiedName(names + [name])
  {
    if names == [] {
      assert [] + [name] == [name];
    } else {
      var some := FromFirstOther(names);
      FromFirstOtherMore(names, name);
      FromFirstOtherNotEmpty(names);
      JoinedIsLong(some);
      if |some| == 1 { assert some == [some[0]]; }
      assert (some + [name])[..|some|] == some;
    }
  }

  lemma {:induction false} JoinedLonger(first: string, names: seq<string>)
    requires names != []
    ensures |Joined([first] + names)| > |Joined(names)|
  {
    var all := [first] + names;
    if |names| == 1 {
      assert all[..1] == [first];
    } else {
      JoinedLonger(first, names[..|names| - 1]);
      assert all[..|all| - 1] == [first] + names[..|names| - 1];
    }
  }

  lemma {:induction false} FromFirstOtherShorter(names: seq<string>)
    ensures |QualifiedName(names)| <= |Joined(names)|
  {
    if |names| > 1 && names[0] == "file" {
      FromFirstOtherShorter(names[1..]);
      JoinedLonger(names[0], names[1..]);
      assert names == [names[0]] + names[1..];
    }
  }

  /** So qualified names are the names joined by "::" unless something is defined in a definition called "file". */
  lemma QualifiedIsJoined(names: seq<string>)
    ensures QualifiedName(names) == Joined(names) <==> !(|names| > 1 && names[0] == "file")
  {
    if |names| > 1 && names[0] == "file" {
      FromFirstOtherShorter(names[1..]);
      JoinedLonger(names[0], names[1..]);
      assert names == [names[0]] + names[1..];
    }
  }

  // ---------- what visits give ----------

  /** A record, and the ids of the definitions visited. */
  datatype Account = Account(record: Record, ids: map<Path, string>)

  ghost function OwnerId(c: Config, root: SyntaxTree, ids: map<Path, string>, path: Path): string {
    match Encloser(root, path)
    case None => c.fileId
    case Some(q) => if q in ids then ids[q] else ""
  }

  ghost function RouteNodes(c: Config, id: string, routes: seq<string>): seq<FactNode> {
    seq(|routes|, i requires 0 <= i < |routes| => FactNode(c.endpoint(id, routes[i]), Endpoint, "endpoint", routes[i]))
  }

  ghost function RouteEdges(c: Config, id: string, routes: seq<string>): seq<Edge> {
    seq(|routes|, i requires 0 <= i < |routes| => Edge(id, c.endpoint(id, routes[i]), "handles"))
  }

  /** A definition: its node under the owner, identified by kind, qualified name, signature and owner, then a node for
      each route of a function or method. */
  ghost function WithDefinition(c: Config, t: Account, path: Path, names: seq<string>, owner: string,
                                a: Action): Account
    requires a.Definition?
  {
    var r, routes := t.record, if a.kind in {"function", "method"} then a.routes else [];
    var seen := r.definitions + [c.symbol(a.kind, QualifiedName(names), a.signature, owner)];
    var id := NumberedId(c.hash, c.symbolPrefix, seen, |r.definitions|);
    Account(Record(r.nodes + [FactNode(id, Symbol, a.kind, a.name)] + RouteNodes(c, id, routes),
                   r.edges + [Edge(owner, id, "contains")] + RouteEdges(c, id, routes),
                   r.facts + 1 + |routes|, seen, r.events),
            t.ids[path := id])
  }

  /** An import belongs to the file, wherever it stands. */
  ghost function WithImport(c: Config, r: Record, s: Syntax, ordinal: nat): Record
    requires s.action.Import?
  {
    var id := c.ast("module", s.action.text, ordinal, c.fileId, s);
    if s.action.text == "" then r
    else r.(nodes := r.nodes + [FactNode(id, AstFact, "module", s.action.text)],
            edges := r.edges + [Edge(c.fileId, id, "imports")], facts := r.facts + 1)
  }

  /** What a call is called: what its meaning says, else the callee, else the text. */
  ghost function Caption(a: Action): string
    requires a.Call?
  {
    match (a.semantic, a.callee)
    case (Some(m), _) => m.name
    case (None, Some(callee)) => callee
    case (None, None) => a.text
  }

  /** A call leads from its owner to its target; an event is numbered, anything else is identified by its place. A
      handler comes with it when two more facts fit. */
  ghost function WithCall(c: Config, r: Record, s: Syntax, ordinal: nat, owner: string): Record
    requires s.action.Call?
  {
    var a, name := s.action, Caption(s.action);
    if name == "" then r
    else
      match a.semantic
      case None =>
        var id := c.ast("callTarget", name, ordinal, owner, s);
        r.(nodes := r.nodes + [FactNode(id, AstFact, "callTarget", name)],
           edges := r.edges + [Edge(owner, id, "calls")], facts := r.facts + 1)
      case Some(m) =>
        var events := match m.event
          case Some(e) => r.events + [c.event(owner, if a.callee.Some? then a.callee.value else e.operation, e, name)]
          case None => r.events;
        var id := if m.event.Some? then NumberedId(c.hash, c.eventPrefix, events, |r.events|)
                  else c.ast(m.nodeKind, name, ordinal, owner, s);
        var target := FactNode(id, if m.event.Some? then StaticEvent else AstFact, m.nodeKind, name);
        if m.handler.Some? && r.facts + 2 <= MAX_FACTS_PER_FILE then
          var handler := FactNode(c.handler(id, m.handler.value), Handler, "handler", m.handler.value);
          Record(r.nodes + [target, handler],
                 r.edges + [Edge(handler.id, id, "handles"), Edge(owner, id, m.edgeKind)],
                 r.facts + 2, r.definitions, events)
        else Record(r.nodes + [target], r.edges + [Edge(owner, id, m.edgeKind)], r.facts + 1, r.definitions, events)
  }

  /** What the visit to one node adds. */
  ghost function WithNode(c: Config, root: SyntaxTree, t: Account, path: Path): Account
    requires NodeAt([root], path).Some?
  {
    var s, owner := NodeAt([root], path).value.facts, OwnerId(c, root, t.ids, path);
    match s.action
    case Definition(_, _, _, _) => WithDefinition(c, t, path, Names(root, path), owner, s.action)
    case Import(_) => t.(record := WithImport(c, t.record, s, Ordinal(path)))
    case Call(_, _, _) => t.(record := WithCall(c, t.record, s, Ordinal(path), owner))
    case Plain => t
  }

  ghost predicate AreNodes(root: SyntaxTree, visits: seq<Path>) {
    forall v :: 0 <= v < |visits| ==> NodeAt([root], visits[v]).Some?
  }

  /** What a list of visits gives. */
  ghost function Accounted(c: Config, file: FactNode, root: SyntaxTree, visits: seq<Path>): Account
    requires AreNodes(root, visits)
  {
    if visits == [] then Account(Record([file], [], 0, [], []), map[])
    else
      var n := |visits| - 1;
      WithNode(c, root, Accounted(c, file, root, visits[..n]), visits[n])
  }

  // ---------- the traversal gives that ----------

  lemma {:induction false} RoutesListed(c: Config, r: Record, id: string, routes: seq<string>)
    ensures RoutesAdded(c, r, id, routes) ==
      r.(nodes := r.nodes + RouteNodes(c, id, routes), edges := r.edges + RouteEdges(c, id, routes),
         facts := r.facts + |routes|)
  {
    if routes == [] {
      assert r.nodes + [] == r.nodes && r.edges + [] == r.edges;
    } else {
      var some, last := routes[..|routes| - 1], routes[|routes| - 1];
      RoutesListed(c, r, id, some);
      assert RouteNodes(c, id, routes) ==
        RouteNodes(c, id, some) + [FactNode(c.endpoint(id, last), Endpoint, "endpoint", last)];
      assert RouteEdges(c, id, routes) == RouteEdges(c, id, some) + [Edge(id, c.endpoint(id, last), "handles")];
      Seqs.Associative(r.nodes, RouteNodes(c, id, some), [FactNode(c.endpoint(id, last), Endpoint, "endpoint", last)]);
      Seqs.Associative(r.edges, RouteEdges(c, id, some), [Edge(id, c.endpoint(id, last), "handles")]);
    }
  }

  lemma DefinitionAgrees(c: Config, t: Account, path: Path, names: seq<string>, o: Owner, a: Action)
    requires a.Definition? && Qualified(o.scope, a.name) == QualifiedName(names)
    ensures var after := WithDefinition(c, t, path, names, o.id, a);
      && DefinitionAdded(c, t.record, a, o) == after.record && after.ids == t.ids[path := SymbolId(c, t.record, a, o)]
  {
    var r, id := t.record, SymbolId(c, t.record, a, o);
    var semantic := c.symbol(a.kind, QualifiedName(names), a.signature, o.id);
    var named := r.(definitions := r.definitions + [semantic]);
    RoutesListed(c, Added(named, FactNode(id, Symbol, a.kind, a.name), Edge(o.id, id, "contains")), id, RoutesOf(a));
  }

  lemma CallAgrees(c: Config, r: Record, s: Syntax, o: Owner, ordinal: nat)
    requires s.action.Call?
    ensures CallAdded(c, r, s, o, ordinal, r.facts + 1 < MAX_FACTS_PER_FILE) == WithCall(c, r, s, ordinal, o.id)
  {
  }

  /** The scope at a node: the qualified name of the definitions around it, "file" outside of all. */
  ghost function Scope(root: SyntaxTree, path: Path): string {
    var names := if path == [] then [] else Names(root, path[..|path| - 1]);
    if names == [] then "file" else QualifiedName(names)
  }

  /** A frame waits under the definition that encloses it, and that definition has its id. */
  ghost predicate WaitsUnder(c: Config, root: SyntaxTree, ids: map<Path, string>, item: Frame) {
    && item.path != [] && item.context == Owner(OwnerId(c, root, ids, item.path), Scope(root, item.path))
    && (Encloser(root, item.path).Some? ==> Encloser(root, item.path).value in ids)
  }

  /** Every definition around a visited node was visited before. */
  ghost predicate EnclosersFirst(root: SyntaxTree, visits: seq<Path>) {
    forall v :: 0 <= v < |visits| ==> EncloserIn(root, visits[v], visits[..v])
  }

  ghost predicate EncloserIn(root: SyntaxTree, path: Path, visits: seq<Path>) {
    match Encloser(root, path)
    case None => true
    case Some(q) => q in visits
  }

  /** The record is exactly what the visits give by their places. */
  ghost predicate AsPlaced(c: Config, file: FactNode, root: SyntaxTree, run: Run) {
    && AreNodes(root, run.visits) && EnclosersFirst(root, run.visits)
    && run.record == Accounted(c, file, root, run.visits).record
  }

  /** And every frame waits under its definition. */
  ghost predicate Attached(c: Config, file: FactNode, root: SyntaxTree, run: Run, items: seq<Frame>) {
    && AsPlaced(c, file, root, run)
    && forall i :: 0 <= i < |items| ==> WaitsUnder(c, root, Accounted(c, file, root, run.visits).ids, items[i])
  }

  lemma EncloserFirst(root: SyntaxTree, visits: seq<Path>, path: Path)
    requires EnclosersFirst(root, visits) && EncloserIn(root, path, visits)
    ensures EnclosersFirst(root, visits + [path])
  {
    var more := visits + [path];
    forall v | 0 <= v < |more| ensures EncloserIn(root, more[v], more[..v]) {
      assert more[..v] == visits[..v];
      if v == |visits| { Seqs.TakeAll(visits); } else { assert EncloserIn(root, visits[v], visits[..v]); }
    }
  }

  lemma AttachedStart(c: Config, file: FactNode, root: SyntaxTree)
    ensures Attached(c, file, root, FileOnly(file), [Item(root, Owner(c.fileId, "file"), [0])])
  {
    var path: Path := [0];
    assert path[..0] == [] && NodeAt([root], []) == None;
  }

  /** Only visited paths have ids. */
  lemma {:induction false} IdsAreVisited(c: Config, file: FactNode, root: SyntaxTree, visits: seq<Path>)
    requires AreNodes(root, visits)
    ensures forall p :: p in Accounted(c, file, root, visits).ids <==> p in visits && IsDefinition(root, p)
  {
    if visits != [] {
      IdsAreVisited(c, file, root, visits[..|visits| - 1]);
      Seqs.LastApart(visits);
    }
  }

  /** A visit adds what the place of its node says. */
  lemma RecordAgrees(c: Config, root: SyntaxTree, t: Account, top: Frame)
    requires NodeAt([root], top.path) == Some(top.tree) && WaitsUnder(c, root, t.ids, top)
    ensures Emitted(c, t.record, top.tree.facts, top.context, Ordinal(top.path),
                    t.record.facts + 1 < MAX_FACTS_PER_FILE).0 == WithNode(c, root, t, top.path).record
  {
    var s, o, path := top.tree.facts, top.context, top.path;
    match s.action
    case Definition(_, name, _, _) =>
      QualifiedIs(Names(root, path[..|path| - 1]), name);
      DefinitionAgrees(c, t, path, Names(root, path), o, s.action);
    case Call(_, _, _) => CallAgrees(c, t.record, s, o, Ordinal(path));
    case Import(_) =>
    case Plain =>
  }

  /** The owner that a visit passes on, and the ids after it. */
  ghost predicate PassesOn(root: SyntaxTree, top: Frame, ids: map<Path, string>, ids': map<Path, string>,
                           owner: Owner) {
    if IsDefinition(root, top.path) then
      top.path in ids' && owner == Owner(ids'[top.path], QualifiedName(Names(root, top.path)))
    else ids' == ids && owner == top.context
  }

  lemma OwnerPassedOn(c: Config, root: SyntaxTree, t: Account, top: Frame)
    requires NodeAt([root], top.path) == Some(top.tree) && WaitsUnder(c, root, t.ids, top)
    ensures PassesOn(root, top, t.ids, WithNode(c, root, t, top.path).ids,
                     Emitted(c, t.record, top.tree.facts, top.context, Ordinal(top.path),
                             t.record.facts + 1 < MAX_FACTS_PER_FILE).1)
  {
    var s, o, path := top.tree.facts, top.context, top.path;
    if s.action.Definition? {
      QualifiedIs(Names(root, path[..|path| - 1]), s.action.name);
      DefinitionAgrees(c, t, path, Names(root, path), o, s.action);
    }
  }

  /** It is the owner that the place of a child says. */
  lemma ChildWaits(c: Config, root: SyntaxTree, ids: map<Path, string>, ids': map<Path, string>, top: Frame,
                   child: Frame, k: nat)
    requires WaitsUnder(c, root, ids, top) && PassesOn(root, top, ids, ids', child.context)
    requires child.path == top.path + [k]
    ensures WaitsUnder(c, root, ids', child)
  {
    assert child.path[..|child.path| - 1] == top.path;
    if !IsDefinition(root, top.path) {
      assert Names(root, top.path) == Names(root, top.path[..|top.path| - 1]);
    }
  }

  lemma StillWaits(c: Config, root: SyntaxTree, ids: map<Path, string>, ids': map<Path, string>, item: Frame)
    requires WaitsUnder(c, root, ids, item) && forall p :: p in ids ==> p in ids' && ids'[p] == ids[p]
    ensures WaitsUnder(c, root, ids', item)
  {
  }

  lemma FramesWait(c: Config, root: SyntaxTree, ids: map<Path, string>, ids': map<Path, string>, items: seq<Frame>,
                   owner: Owner, n: nat)
    requires items != [] && n <= |items[|items| - 1].tree.children|
    requires forall i :: 0 <= i < |items| ==> WaitsUnder(c, root, ids, items[i])
    requires PassesOn(root, items[|items| - 1], ids, ids', owner)
    requires forall p :: p in ids ==> p in ids' && ids'[p] == ids[p]
    ensures forall i :: 0 <= i < |Next(items, owner, n)| ==> WaitsUnder(c, root, ids', Next(items, owner, n)[i])
  {
    var top, next, rest := items[|items| - 1], Next(items, owner, n), |items| - 1;
    PushedAt(top.tree.children[..n], owner, top.path, 0);
    forall i | 0 <= i < |next| ensures WaitsUnder(c, root, ids', next[i]) {
      if i < rest {
        assert next[i] == items[i];
        StillWaits(c, root, ids, ids', items[i]);
      } else {
        ChildWaits(c, root, ids, ids', top, next[i], n - 1 - (i - rest));
      }
    }
  }

  /** What an account has more once a visit is added. */
  lemma AccountedNext(c: Config, file: FactNode, root: SyntaxTree, visits: seq<Path>, path: Path)
    requires AreNodes(root, visits) && NodeAt([root], path).Some?
    ensures AreNodes(root, visits + [path])
    ensures Accounted(c, file, root, visits + [path]) == WithNode(c, root, Accounted(c, file, root, visits), path)
  {
    var more := visits + [path];
    assert more[..|visits|] == visits && more[|visits|] == path;
  }

  lemma AsPlacedStep(c: Config, file: FactNode, root: SyntaxTree, run: Run, after: Run, top: Frame)
    requires AsPlaced(c, file, root, run) && NodeAt([root], top.path) == Some(top.tree)
    requires WaitsUnder(c, root, Accounted(c, file, root, run.visits).ids, top)
    requires after.record == Emitted(c, run.record, top.tree.facts, top.context, Ordinal(top.path),
                                     run.record.facts + 1 < MAX_FACTS_PER_FILE).0
    requires after.visits == run.visits + [top.path]
    ensures AsPlaced(c, file, root, after)
  {
    IdsAreVisited(c, file, root, run.visits);
    EncloserFirst(root, run.visits, top.path);
    RecordAgrees(c, root, Accounted(c, file, root, run.visits), top);
    AccountedNext(c, file, root, run.visits, top.path);
  }

  /** Visiting the top frame and scheduling any first part of its children keeps everything attached. */
  lemma AttachedStep(c: Config, file: FactNode, root: SyntaxTree, run: Run, items: seq<Frame>, after: Run, owner: Owner,
                     n: nat)
    requires Attached(c, file, root, run, items) && Ordered([root], run.visits, items)
    requires items != [] && n <= |items[|items| - 1].tree.children|
    requires var top := items[|items| - 1];
      && (after.record, owner) == Emitted(c, run.record, top.tree.facts, top.context, Ordinal(top.path),
                                          run.record.facts + 1 < MAX_FACTS_PER_FILE)
      && after.visits == run.visits + [top.path]
    ensures Attached(c, file, root, after, Next(items, owner, n))
  {
    var top, t := items[|items| - 1], Accounted(c, file, root, run.visits);
    assert WaitsUnder(c, root, t.ids, top);
    AsPlacedStep(c, file, root, run, after, top);
    AccountedNext(c, file, root, run.visits, top.path);
    NotVisited(root, run.visits, items);
    IdsAreVisited(c, file, root, run.visits);
    GrownByNode(c, root, t, top.path);
    OwnerPassedOn(c, root, t, top);
    FramesWait(c, root, t.ids, WithNode(c, root, t, top.path).ids, items, owner, n);
  }

  lemma NotVisited(root: SyntaxTree, visits: seq<Path>, items: seq<Frame>)
    requires items != [] && Ordered([root], visits, items)
    ensures items[|items| - 1].path !in visits
    ensures NodeAt([root], items[|items| - 1].path) == Some(items[|items| - 1].tree)
  {
    PrecedesIrreflexive(items[|items| - 1].path);
  }

  // ---------- what that says of one node ----------

  /** An account with more in it: what was there keeps its place. */
  ghost predicate Grown(t: Account, u: Account) {
    && t.record.nodes <= u.record.nodes && t.record.edges <= u.record.edges
    && t.record.definitions <= u.record.definitions && t.record.events <= u.record.events
    && forall p :: p in t.ids ==> p in u.ids && u.ids[p] == t.ids[p]
  }

  lemma GrownByNode(c: Config, root: SyntaxTree, t: Account, path: Path)
    requires NodeAt([root], path).Some? && path !in t.ids
    ensures Grown(t, WithNode(c, root, t, path))
  {
  }

  lemma NotYetVisited(visits: seq<Path>, n: nat)
    requires InReadingOrder(visits) && n < |visits|
    ensures visits[n] !in visits[..n]
  {
    PrecedesIrreflexive(visits[n]);
  }

  lemma {:induction false} AccountGrows(c: Config, file: FactNode, root: SyntaxTree, visits: seq<Path>, v: nat)
    requires AreNodes(root, visits) && InReadingOrder(visits) && v <= |visits|
    ensures Grown(Accounted(c, file, root, visits[..v]), Accounted(c, file, root, visits))
  {
    if v == |visits| {
      Seqs.TakeAll(visits);
    } else {
      var n := |visits| - 1;
      AccountGrows(c, file, root, visits[..n], v);
      Seqs.TakeTwice(visits, n, v);
      NotYetVisited(visits, n);
      IdsAreVisited(c, file, root, visits[..n]);
      GrownByNode(c, root, Accounted(c, file, root, visits[..n]), visits[n]);
    }
  }

  lemma SameNumber(hash: StableId.Hash, prefix: string, seen: seq<string>, more: seq<string>, k: nat)
    requires seen <= more && k < |seen|
    ensures NumberedId(hash, prefix, more, k) == NumberedId(hash, prefix, seen, k)
  {
    assert more[..k] == seen[..k];
  }

  /** The definition at a path: its node, its edge from the owner, and the number of its identity, which is made from
      its kind, the names around it, its signature and the owner. */
  ghost predicate DefinitionPlaced(c: Config, root: SyntaxTree, t: Account, path: Path)
    requires IsDefinition(root, path)
  {
    var a, owner := NodeAt([root], path).value.facts.action, OwnerId(c, root, t.ids, path);
    && path in t.ids && FactNode(t.ids[path], Symbol, a.kind, a.name) in t.record.nodes
    && Edge(owner, t.ids[path], "contains") in t.record.edges
    && exists k :: 0 <= k < |t.record.definitions|
         && t.record.definitions[k] == c.symbol(a.kind, QualifiedName(Names(root, path)), a.signature, owner)
         && t.ids[path] == NumberedId(c.hash, c.symbolPrefix, t.record.definitions, k)
  }

  lemma PlacedAtOnce(c: Config, root: SyntaxTree, t: Account, path: Path)
    requires IsDefinition(root, path) && path !in t.ids
    ensures DefinitionPlaced(c, root, WithNode(c, root, t, path), path)
  {
    var a, owner := NodeAt([root], path).value.facts.action, OwnerId(c, root, t.ids, path);
    var u := WithNode(c, root, t, path);
    assert u.record.nodes[|t.record.nodes|] == FactNode(u.ids[path], Symbol, a.kind, a.name);
    assert u.record.edges[|t.record.edges|] == Edge(owner, u.ids[path], "contains");
    assert u.record.definitions[|t.record.definitions|] ==
      c.symbol(a.kind, QualifiedName(Names(root, path)), a.signature, owner);
    ProperBeginning(root, path);
  }

  lemma ProperBeginning(root: SyntaxTree, path: Path)
    ensures Encloser(root, path) != Some(path)
  {
    EncloserMeaning(root, path, path);
  }

  lemma StillPlaced(c: Config, root: SyntaxTree, t: Account, u: Account, path: Path)
    requires IsDefinition(root, path) && DefinitionPlaced(c, root, t, path) && Grown(t, u)
    requires Encloser(root, path).Some? ==> Encloser(root, path).value in t.ids
    ensures DefinitionPlaced(c, root, u, path)
  {
    var a, owner := NodeAt([root], path).value.facts.action, OwnerId(c, root, t.ids, path);
    var k :| 0 <= k < |t.record.definitions|
      && t.record.definitions[k] == c.symbol(a.kind, QualifiedName(Names(root, path)), a.signature, owner)
      && t.ids[path] == NumberedId(c.hash, c.symbolPrefix, t.record.definitions, k);
    SameNumber(c.hash, c.symbolPrefix, t.record.definitions, u.record.definitions, k);
  }

  /** The owner of a visited node, now and later. */
  lemma OwnerKnown(c: Config, file: FactNode, root: SyntaxTree, visits: seq<Path>, v: nat)
    requires AreNodes(root, visits) && EnclosersFirst(root, visits) && v < |visits|
    ensures var ids := Accounted(c, file, root, visits[..v]).ids;
      Encloser(root, visits[v]).Some? ==> Encloser(root, visits[v]).value in ids
  {
    assert EncloserIn(root, visits[v], visits[..v]);
    IdsAreVisited(c, file, root, visits[..v]);
    if Encloser(root, visits[v]).Some? {
      EncloserMeaning(root, visits[v], Encloser(root, visits[v]).value);
    }
  }

  lemma GrownAfter(c: Config, file: FactNode, root: SyntaxTree, visits: seq<Path>, v: nat)
    requires AreNodes(root, visits) && InReadingOrder(visits) && v < |visits|
    ensures Grown(WithNode(c, root, Accounted(c, file, root, visits[..v]), visits[v]), Accounted(c, file, root, visits))
  {
    AccountGrows(c, file, root, visits, v + 1);
    Seqs.TakeOneMore(visits, v);
    AccountedNext(c, file, root, visits[..v], visits[v]);
  }

  lemma PlacedFromThenOn(c: Config, root: SyntaxTree, t: Account, u: Account, path: Path)
    requires IsDefinition(root, path) && path !in t.ids && Grown(WithNode(c, root, t, path), u)
    requires Encloser(root, path).Some? ==> Encloser(root, path).value in t.ids
    ensures DefinitionPlaced(c, root, u, path)
  {
    PlacedAtOnce(c, root, t, path);
    GrownByNode(c, root, t, path);
    StillPlaced(c, root, WithNode(c, root, t, path), u, path);
  }

  /** Every visited definition lies under the definition that encloses it most closely, or under the file. */
  lemma EveryDefinition(c: Config, file: FactNode, root: SyntaxTree, visits: seq<Path>, v: nat)
    requires AreNodes(root, visits) && InReadingOrder(visits) && EnclosersFirst(root, visits)
    requires v < |visits| && IsDefinition(root, visits[v])
    ensures DefinitionPlaced(c, root, Accounted(c, file, root, visits), visits[v])
  {
    NotYetVisited(visits, v);
    IdsAreVisited(c, file, root, visits[..v]);
    OwnerKnown(c, file, root, visits, v);
    GrownAfter(c, file, root, visits, v);
    PlacedFromThenOn(c, root, Accounted(c, file, root, visits[..v]), Accounted(c, file, root, visits), visits[v]);
  }

  ghost predicate IsNamedCall(root: SyntaxTree, path: Path) {
    && NodeAt([root], path).Some? && NodeAt([root], path).value.facts.action.Call?
    && Caption(NodeAt([root], path).value.facts.action) != ""
  }

  /** The call at a path: an edge leads from its owner to a target of its name; the target of an event is numbered by
      an identity made from the owner, any other is identified by its place and the owner. */
  ghost predicate CallPlaced(c: Config, root: SyntaxTree, t: Account, path: Path)
    requires IsNamedCall(root, path)
  {
    var s, owner := NodeAt([root], path).value.facts, OwnerId(c, root, t.ids, path);
    exists e :: e in t.record.edges && e.source == owner && IsCallEdge(c, t.record, s, Ordinal(path), owner, e)
  }

  ghost predicate IsCallEdge(c: Config, r: Record, s: Syntax, ordinal: nat, owner: string, e: Edge)
    requires s.action.Call?
  {
    var name := Caption(s.action);
    match s.action.semantic
    case None =>
      && e.kind == "calls" && e.target == c.ast("callTarget", name, ordinal, owner, s)
      && FactNode(e.target, AstFact, "callTarget", name) in r.nodes
    case Some(m) =>
      && e.kind == m.edgeKind
      && match m.event
         case None =>
           && e.target == c.ast(m.nodeKind, name, ordinal, owner, s)
           && FactNode(e.target, AstFact, m.nodeKind, name) in r.nodes
         case Some(v) =>
           && FactNode(e.target, StaticEvent, m.nodeKind, name) in r.nodes
           && exists k :: 0 <= k < |r.events|
                && r.events[k] ==
                     c.event(owner, if s.action.callee.Some? then s.action.callee.value else v.operation, v, name)
                && e.target == NumberedId(c.hash, c.eventPrefix, r.events, k)
  }

  lemma CallPlacedAtOnce(c: Config, root: SyntaxTree, t: Account, path: Path)
    requires IsNamedCall(root, path)
    ensures CallPlaced(c, root, WithNode(c, root, t, path), path)
  {
    var s, owner := NodeAt([root], path).value.facts, OwnerId(c, root, t.ids, path);
    var u := WithNode(c, root, t, path);
    var e := u.record.edges[|u.record.edges| - 1];
    var target := u.record.nodes[|t.record.nodes|];
    assert e in u.record.edges && target in u.record.nodes && e.source == owner && e.target == target.id;
    if s.action.semantic.Some? && s.action.semantic.value.event.Some? {
      assert u.record.events[|t.record.events|] == c.event(owner,
        if s.action.callee.Some? then s.action.callee.value else s.action.semantic.value.event.value.operation,
        s.action.semantic.value.event.value, Caption(s.action));
    }
    assert IsCallEdge(c, u.record, s, Ordinal(path), owner, e);
  }

  lemma StillCallEdge(c: Config, r: Record, r': Record, s: Syntax, ordinal: nat, owner: string, e: Edge)
    requires s.action.Call? && IsCallEdge(c, r, s, ordinal, owner, e)
    requires r.nodes <= r'.nodes && r.events <= r'.events
    ensures IsCallEdge(c, r', s, ordinal, owner, e)
  {
    if s.action.semantic.Some? && s.action.semantic.value.event.Some? {
      var event := s.action.semantic.value.event.value;
      var k :| 0 <= k < |r.events| && e.target == NumberedId(c.hash, c.eventPrefix, r.events, k)
        && r.events[k] == c.event(owner, if s.action.callee.Some? then s.action.callee.value else event.operation,
                                  event, Caption(s.action));
      SameNumber(c.hash, c.eventPrefix, r.events, r'.events, k);
      assert r'.events[k] == r.events[k];
    }
  }

  lemma CallStillPlaced(c: Config, root: SyntaxTree, t: Account, u: Account, path: Path)
    requires IsNamedCall(root, path) && CallPlaced(c, root, t, path) && Grown(t, u)
    requires Encloser(root, path).Some? ==> Encloser(root, path).value in t.ids
    ensures CallPlaced(c, root, u, path)
  {
    var s, owner := NodeAt([root], path).value.facts, OwnerId(c, root, t.ids, path);
    var e :| e in t.record.edges && e.source == owner && IsCallEdge(c, t.record, s, Ordinal(path), owner, e);
    StillCallEdge(c, t.record, u.record, s, Ordinal(path), owner, e);
  }

  lemma CallPlacedFromThenOn(c: Config, root: SyntaxTree, t: Account, u: Account, path: Path)
    requires IsNamedCall(root, path) && Grown(WithNode(c, root, t, path), u)
    requires Encloser(root, path).Some? ==> Encloser(root, path).value in t.ids
    ensures CallPlaced(c, root, u, path)
  {
    CallPlacedAtOnce(c, root, t, path);
    CallStillPlaced(c, root, WithNode(c, root, t, path), u, path);
  }

  /** Every visited call with a name starts at the definition that encloses it most closely, or at the file. */
  lemma EveryCall(c: Config, file: FactNode, root: SyntaxTree, visits: seq<Path>, v: nat)
    requires AreNodes(root, visits) && InReadingOrder(visits) && EnclosersFirst(root, visits)
    requires v < |visits| && IsNamedCall(root, visits[v])
    ensures CallPlaced(c, root, Accounted(c, file, root, visits), visits[v])
  {
    OwnerKnown(c, file, root, visits, v);
    GrownAfter(c, file, root, visits, v);
    CallPlacedFromThenOn(c, root, Accounted(c, file, root, visits[..v]), Accounted(c, file, root, visits), visits[v]);
  }
}
