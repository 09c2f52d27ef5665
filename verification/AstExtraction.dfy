/** The traversal of a file's syntax tree with an explicit stack and budgets (analyzer/extract.rs, Extractor). */
module AstExtraction {
  import opened Options
  import opened TreeWalk
  import opened AstFacts
  import opened AstProgress
  import opened PartialWalk
  import AstPlaces
  import Occurrences
  import Seqs

  datatype Reason = VisitLimit | DepthLimit | FactLimit | IdentifierLimit

  datatype VisitFrame = VisitFrame(node: SyntaxTree, ownerId: string, scope: string, siblingOrdinal: nat, depth: nat)

  ghost function FrameOf(item: Frame): VisitFrame {
    VisitFrame(item.tree, item.context.id, item.context.scope, Ordinal(item.path), Depth(item.path))
  }

  /** The stack, and the same frames with the paths of their nodes. */
  ghost predicate Mirrors(stack: seq<VisitFrame>, items: seq<Frame>) {
    && |stack| == |items|
    && forall i :: 0 <= i < |items| ==> stack[i] == FrameOf(items[i])
  }

  class Extractor {
    const config: Config
    const definitionOccurrences: Occurrences.Counter
    const eventOccurrences: Occurrences.Counter
    var nodes: seq<FactNode>
    var edges: seq<Edge>
    var factCount: nat
    var visitedNodeCount: nat
    var truncationReasons: set<Reason>
    ghost var visits: seq<Path>

    ghost function Built(): Record
      reads this, definitionOccurrences, eventOccurrences
    {
      Record(nodes, edges, factCount, definitionOccurrences.seen, eventOccurrences.seen)
    }

    ghost predicate Counting()
      reads this, definitionOccurrences, eventOccurrences
    {
      definitionOccurrences != eventOccurrences && definitionOccurrences.Valid() && eventOccurrences.Valid()
    }

    constructor (config: Config, file: FactNode)
      ensures Counting() && fresh(definitionOccurrences) && fresh(eventOccurrences)
      ensures this.config == config && Built() == FileOnly(file).record
      ensures visitedNodeCount == 0 && truncationReasons == {} && visits == []
    {
      this.config := config;
      definitionOccurrences := new Occurrences.Counter();
      eventOccurrences := new Occurrences.Counter();
      nodes, edges, factCount, visitedNodeCount, truncationReasons := [file], [], 0, 0, {};
      visits := [];
    }

    method AddFact(node: FactNode, edge: Edge)
      modifies this`nodes, this`edges, this`factCount
      ensures Built() == Added(old(Built()), node, edge)
    {
      nodes := nodes + [node];
      edges := edges + [edge];
      factCount := factCount + 1;
    }

    method AddRoutes(owner: string, routes: seq<string>)
      modifies this`nodes, this`edges, this`factCount
      ensures Built() == RoutesAdded(config, old(Built()), owner, routes)
    {
      for i := 0 to |routes|
        invariant Built() == RoutesAdded(config, old(Built()), owner, routes[..i])
      {
        assert routes[..i + 1][..i] == routes[..i];
        AddFact(FactNode(config.endpoint(owner, routes[i]), Endpoint, "endpoint", routes[i]),
                Edge(owner, config.endpoint(owner, routes[i]), "handles"));
      }
      assert routes[..|routes|] == routes;
    }

    method ExtractDefinition(a: Action, o: Owner) returns (children: Owner)
      requires Counting() && a.Definition?
      modifies this`nodes, this`edges, this`factCount, definitionOccurrences
      ensures Counting() && Built() == DefinitionAdded(config, old(Built()), a, o)
      ensures children == Owner(SymbolId(config, old(Built()), a, o), Qualified(o.scope, a.name))
    {
      var qualified := Qualified(o.scope, a.name);
      var semantic := config.symbol(a.kind, qualified, a.signature, o.id);
      var id := definitionOccurrences.Next(config.hash, config.symbolPrefix, semantic);
      AddFact(FactNode(id, Symbol, a.kind, a.name), Edge(o.id, id, "contains"));
      AddRoutes(id, RoutesOf(a));
      children := Owner(id, qualified);
    }

    method ExtractImport(s: Syntax, ordinal: nat)
      requires s.action.Import?
      modifies this`nodes, this`edges, this`factCount
      ensures Built() == ImportAdded(config, old(Built()), s, ordinal)
    {
      var text := s.action.text;
      if text != "" {
        var id := config.ast("module", text, ordinal, config.fileId, s);
        AddFact(FactNode(id, AstFact, "module", text), Edge(config.fileId, id, "imports"));
      }
    }

    method CallIdentity(s: Syntax, o: Owner, ordinal: nat) returns (id: string)
      requires Counting() && s.action.Call? && CallName(s.action) != ""
      modifies eventOccurrences
      ensures Counting() && id == CallId(config, old(Built()), s, o, ordinal)
      ensures eventOccurrences.seen == EventsWith(config, old(Built()), s.action, o)
    {
      var a := s.action;
      match EventOf(a)
      case Some(e) =>
        var semantic := config.event(o.id, CalleeOf(a, e), e, CallName(a));
        id := eventOccurrences.Next(config.hash, config.eventPrefix, semantic);
      case None =>
        id := config.ast(CallKind(a), CallName(a), ordinal, o.id, s);
    }

    /** A call and, when two facts fit, its handler; a handler that does not fit is a reason. */
    method ExtractCall(s: Syntax, o: Owner, ordinal: nat)
      requires Counting() && s.action.Call?
      modifies this`nodes, this`edges, this`factCount, this`truncationReasons, eventOccurrences
      ensures Counting()
      ensures var keep := old(factCount) + 1 < MAX_FACTS_PER_FILE;
        && Built() == CallAdded(config, old(Built()), s, o, ordinal, keep)
        && truncationReasons == old(truncationReasons) + if Drops(s, keep) > 0 then {FactLimit} else {}
    {
      var a := s.action;
      if CallName(a) == "" { return; }
      var id := CallIdentity(s, o, ordinal);
      nodes := nodes + [FactNode(id, if EventOf(a).Some? then StaticEvent else AstFact, CallKind(a), CallName(a))];
      if HandlerOf(a).Some? {
        if factCount + 1 < MAX_FACTS_PER_FILE {
          var handlerId := config.handler(id, HandlerOf(a).value);
          nodes := nodes + [FactNode(handlerId, Handler, "handler", HandlerOf(a).value)];
          edges := edges + [Edge(handlerId, id, "handles")];
          factCount := factCount + 1;
        } else {
          truncationReasons := truncationReasons + {FactLimit};
        }
      }
      edges := edges + [Edge(o.id, id, CallEdge(a))];
      factCount := factCount + 1;
    }

    /** What one node adds, and the owner of its children. */
    method VisitNode(s: Syntax, o: Owner, ordinal: nat) returns (children: Owner)
      requires Counting()
      modifies this`nodes, this`edges, this`factCount, this`truncationReasons, definitionOccurrences, eventOccurrences
      ensures Counting()
      ensures var keep := old(factCount) + 1 < MAX_FACTS_PER_FILE;
        && (Built(), children) == Emitted(config, old(Built()), s, o, ordinal, keep)
        && truncationReasons == old(truncationReasons) + (if Drops(s, keep) > 0 then {FactLimit} else {})
                                + (if s.searchCut then {IdentifierLimit} else {})
    {
      children := o;
      match s.action {
        case Definition(_, _, _, _) => children := ExtractDefinition(s.action, o);
        case Import(_) => ExtractImport(s, ordinal);
        case Call(_, _, _) => ExtractCall(s, o, ordinal);
        case Plain =>
      }
      if s.searchCut { truncationReasons := truncationReasons + {IdentifierLimit}; }
    }

    ghost function Current(): Run
      reads this, definitionOccurrences, eventOccurrences
    {
      Run(Built(), visits)
    }

    /** After a node is extracted: whether the fact limit ends the run, and how many of its children fit. */
    method Budget(count: nat, depth: nat, waiting: nat) returns (stop: bool, scheduled: nat)
      requires visitedNodeCount + waiting <= MAX_AST_NODE_VISITS
      modifies this`truncationReasons
      ensures stop <==> factCount >= MAX_FACTS_PER_FILE
      ensures AsManyAsFit(scheduled, stop, depth, count, visitedNodeCount + waiting)
      ensures truncationReasons == old(truncationReasons) + Overrun(stop, depth, count, waiting, scheduled)
    {
      scheduled := 0;
      stop := factCount >= MAX_FACTS_PER_FILE;
      if stop {
        if count > 0 || waiting > 0 { truncationReasons := truncationReasons + {FactLimit}; }
        return;
      }
      if depth >= MAX_AST_DEPTH {
        if count > 0 { truncationReasons := truncationReasons + {DepthLimit}; }
        return;
      }
      var remaining := MAX_AST_NODE_VISITS - visitedNodeCount - waiting;
      scheduled := if count <= remaining then count else remaining;
      if scheduled < count { truncationReasons := truncationReasons + {VisitLimit}; }
    }

    /** Extracts the node of a frame and asks the budgets about its children. */
    method ExtractFrame(frame: VisitFrame, ghost path: Path, waiting: nat)
      returns (owner: Owner, stop: bool, scheduled: nat)
      requires Counting() && visitedNodeCount + waiting < MAX_AST_NODE_VISITS
      requires frame.siblingOrdinal == Ordinal(path) && frame.depth == Depth(path)
      modifies this, definitionOccurrences, eventOccurrences
      ensures Counting() && visits == old(visits) + [path] && visitedNodeCount == old(visitedNodeCount) + 1
      ensures stop <==> factCount >= MAX_FACTS_PER_FILE
      ensures AsManyAsFit(scheduled, stop, frame.depth, |frame.node.children|, visitedNodeCount + waiting)
      ensures var keep := old(factCount) + 1 < MAX_FACTS_PER_FILE;
        && (Built(), owner) == Emitted(config, old(Built()), frame.node.facts, Owner(frame.ownerId, frame.scope),
                                       Ordinal(path), keep)
        && truncationReasons ==
             ReasonsAfter(old(truncationReasons), frame.node, keep, stop, frame.depth, waiting, scheduled)
    {
      visitedNodeCount := visitedNodeCount + 1;
      owner := VisitNode(frame.node.facts, Owner(frame.ownerId, frame.scope), frame.siblingOrdinal);
      stop, scheduled := Budget(|frame.node.children|, frame.depth, waiting);
      visits := visits + [path];
    }

    /** One visit: the top frame is taken, its node extracted, and its first children, as many as fit, are scheduled.
        Both guards of the loop are unreachable. */
    method VisitTop(stack: seq<VisitFrame>, ghost items: seq<Frame>)
      returns (rest: seq<VisitFrame>, stop: bool, ghost owner: Owner, ghost n: nat)
      requires stack != [] && Mirrors(stack, items) && Shallow(items)
      requires Counting() && visitedNodeCount == |visits| && visitedNodeCount + |stack| <= MAX_AST_NODE_VISITS
      modifies this, definitionOccurrences, eventOccurrences
      ensures Counting() && visitedNodeCount == |visits| && (stop <==> factCount >= MAX_FACTS_PER_FILE)
      ensures Visits(config, old(Current()), items[|items| - 1], Current(), owner)
      ensures var (tree, depth) := (items[|items| - 1].tree, Depth(items[|items| - 1].path));
        && AsManyAsFit(n, stop, depth, |tree.children|, |old(visits)| + |items|)
        && truncationReasons ==
             ReasonsAfter(old(truncationReasons), tree, old(factCount) + 1 < MAX_FACTS_PER_FILE, stop, depth,
                          |items| - 1, n)
        && Mirrors(rest, Next(items, owner, n))
    {
      var frame := stack[|stack| - 1];
      rest := stack[..|stack| - 1];
      Seqs.LastApart(stack);
      ghost var top := items[|items| - 1];
      assert frame == FrameOf(top);
      if visitedNodeCount >= MAX_AST_NODE_VISITS { assert false; }
      if frame.depth > MAX_AST_DEPTH { assert false; }
      var children, scheduled;
      children, stop, scheduled := ExtractFrame(frame, top.path, |rest|);
      rest := Schedule(rest, items, children, frame, scheduled);
      owner, n := children, scheduled;
    }

    /** Visits the tree in preorder within the budgets. It is silent about limits exactly when it has done all that the
        recursive extraction does; every other run still visits nodes of the tree in reading order, once each, none
        without its parent and its earlier siblings. What it records is in any case exactly what the visited nodes give
        by their places. Only the routes of the definition visited last can pass the limit on facts. */
    method Extract(root: SyntaxTree, file: FactNode)
      requires Counting() && Built() == FileOnly(file).record && visits == []
      requires visitedNodeCount == 0 && truncationReasons == {}
      requires file.id == config.fileId && file.origin == FileFact
      modifies this, definitionOccurrences, eventOccurrences
      ensures Bounded(config, root, Current()) && FromTheFront(visits) && visitedNodeCount == |visits|
      ensures AstPlaces.AsPlaced(config, file, root, Current()) && ReasonsTrue(root, Current(), truncationReasons)
      ensures Silent(truncationReasons) <==> Current() == Complete(config, file, root)
      ensures Silent(truncationReasons) <==> DoesAll(root, Current())
      ensures IdentifierLimit in truncationReasons <==> AnyCut(root, visits)
    {
      ghost var items, stop := TraverseTree(root, file);
      AtTheEnd(config, file, root, Current(), truncationReasons, items, stop);
    }

    /** From the root of the tree on. */
    method TraverseTree(root: SyntaxTree, file: FactNode) returns (ghost items: seq<Frame>, ghost stop: bool)
      requires Counting() && Built() == FileOnly(file).record && visits == []
      requires visitedNodeCount == 0 && truncationReasons == {}
      requires file.id == config.fileId && file.origin == FileFact
      modifies this, definitionOccurrences, eventOccurrences
      ensures visitedNodeCount == |visits| <= MAX_AST_NODE_VISITS && (items == [] || stop)
      ensures OnTheWay(config, file, root, Current(), truncationReasons, items, stop)
    {
      var stack := [VisitFrame(root, file.id, "file", 0, 0)];
      ghost var first := MidwayStart(config, file, root, Current(), stack);
      items, stop := Traverse(file, root, stack, first);
    }

    /** The loop, up to an empty stack or the limit on facts. */
    method Traverse(ghost file: FactNode, ghost root: SyntaxTree, frames: seq<VisitFrame>, ghost first: seq<Frame>)
      returns (ghost items: seq<Frame>, ghost stop: bool)
      requires Counting() && visitedNodeCount == |visits| && visitedNodeCount + |frames| <= MAX_AST_NODE_VISITS
      requires Mirrors(frames, first) && OnTheWay(config, file, root, Current(), truncationReasons, first, false)
      modifies this, definitionOccurrences, eventOccurrences
      ensures Counting() && visitedNodeCount == |visits| <= MAX_AST_NODE_VISITS && (items == [] || stop)
      ensures OnTheWay(config, file, root, Current(), truncationReasons, items, stop)
    {
      var stack, ended := frames, false;
      items := first;
      while stack != [] && !ended
        invariant Counting() && visitedNodeCount == |visits|
        invariant OnTheWay(config, file, root, Current(), truncationReasons, items, ended)
        invariant Mirrors(stack, items) && visitedNodeCount + |stack| <= MAX_AST_NODE_VISITS
        decreases MAX_AST_NODE_VISITS - visitedNodeCount
      {
        stack, ended, items := VisitNext(file, root, stack, items);
      }
      stop := ended;
    }

    method VisitNext(ghost file: FactNode, ghost root: SyntaxTree, stack: seq<VisitFrame>, ghost items: seq<Frame>)
      returns (rest: seq<VisitFrame>, stop: bool, ghost items': seq<Frame>)
      requires stack != [] && Mirrors(stack, items) && visitedNodeCount + |stack| <= MAX_AST_NODE_VISITS
      requires Counting() && visitedNodeCount == |visits|
      requires OnTheWay(config, file, root, Current(), truncationReasons, items, false)
      modifies this, definitionOccurrences, eventOccurrences
      ensures Counting() && visitedNodeCount == |visits| == |old(visits)| + 1
      ensures OnTheWay(config, file, root, Current(), truncationReasons, items', stop)
      ensures Mirrors(rest, items') && visitedNodeCount + |rest| <= MAX_AST_NODE_VISITS
    {
      ghost var before, reasons := Current(), truncationReasons;
      ghost var lost: nat, dropped: nat :| Midway(config, file, root, before, reasons, items, lost, dropped, false);
      ghost var owner, n;
      rest, stop, owner, n := VisitTop(stack, items);
      items', lost, dropped :=
        MidwayStep(config, file, root, before, reasons, items, lost, dropped, Current(), owner, stop, n);
    }
  }

  // ---------- what a bounded run keeps ----------

  /** The facts that the visited nodes stand for when nothing is dropped. */
  ghost function FactsVisited(root: SyntaxTree, visits: seq<Path>): nat {
    if visits == [] then 0
    else
      var last := NodeAt([root], visits[|visits| - 1]);
      FactsVisited(root, visits[..|visits| - 1]) + if last.Some? then FactsOf(last.value.facts) else 0
  }

  /** The node visited last is a function or method whose routes lead past the limit. */
  ghost predicate RoutesPassLimit(root: SyntaxTree, visits: seq<Path>)
    requires visits != []
  {
    var n := |visits| - 1;
    var last := NodeAt([root], visits[n]);
    last.Some? && var a := last.value.facts.action;
      && a.Definition? && (a.kind == "function" || a.kind == "method")
      && FactsVisited(root, visits[..n]) + 1 + |a.routes| > MAX_FACTS_PER_FILE
  }

  /** All visits but the last stay below the limit and drop nothing, and only the routes of the last can pass it. */
  ghost predicate FactsBounded(root: SyntaxTree, run: Run)
    requires run.visits != []
  {
    var n := |run.visits| - 1;
    var earlier, last := FactsVisited(root, run.visits[..n]), NodeAt([root], run.visits[n]);
    && earlier < MAX_FACTS_PER_FILE && last.Some?
    && run.record.facts == earlier + FactsOf(last.value.facts)
                           - Drops(last.value.facts, earlier + 1 < MAX_FACTS_PER_FILE)
    && (run.record.facts > MAX_FACTS_PER_FILE <==> RoutesPassLimit(root, run.visits))
  }

  /** What every run gives: a sound record, visits to nodes of the tree in reading order, and all budgets kept. */
  ghost predicate Bounded(c: Config, root: SyntaxTree, run: Run) {
    && Sound(c, run.record)
    && InReadingOrder(run.visits) && (forall v :: 0 <= v < |run.visits| ==> NodeAt([root], run.visits[v]).Some?)
    && 0 < |run.visits| <= MAX_AST_NODE_VISITS && WithinDepth(run.visits) && FactsBounded(root, run)
  }

  /** All nodes are visited, and all that they stand for is added. */
  ghost predicate DoesAll(root: SyntaxTree, run: Run) {
    run.visits == AllPaths(root) && run.record.facts == Sum(Weight(), [root])
  }

  /** A run between two visits, or stopped by the limit on facts: every visit begins below that limit. */
  ghost predicate Underway(c: Config, file: FactNode, root: SyntaxTree, run: Run, reasons: set<Reason>,
                           items: seq<Frame>, lost: nat, dropped: nat, stop: bool) {
    && Progress(c, file, root, run, items, lost, dropped)
    && Told(reasons, root, run.visits, lost, dropped, if stop then |items| else 0)
    && FactsFit(root, run, items != [], stop)
  }

  /** Every visit begins below the limit on facts, and there is a first one. */
  ghost predicate FactsFit(root: SyntaxTree, run: Run, waiting: bool, stop: bool) {
    && (!stop ==> run.record.facts == FactsVisited(root, run.visits) < MAX_FACTS_PER_FILE)
    && (if run.visits == [] then waiting && !stop else FactsBounded(root, run))
  }

  /** A visit that begins below the limit passes it only by routes. */
  lemma OnlyRoutesPass(earlier: nat, s: Syntax)
    requires earlier < MAX_FACTS_PER_FILE
    ensures var (a, facts) := (s.action, earlier + FactsOf(s) - Drops(s, earlier + 1 < MAX_FACTS_PER_FILE));
      && (facts > MAX_FACTS_PER_FILE <==>
            a.Definition? && (a.kind == "function" || a.kind == "method")
            && earlier + 1 + |a.routes| > MAX_FACTS_PER_FILE)
      && (Drops(s, earlier + 1 < MAX_FACTS_PER_FILE) > 0 ==> facts == MAX_FACTS_PER_FILE)
  {
  }

  lemma FactsStep(c: Config, root: SyntaxTree, run: Run, after: Run, top: Frame, owner: Owner)
    requires Sound(c, run.record) && HasId(run.record.nodes, top.context.id)
    requires run.record.facts == FactsVisited(root, run.visits) < MAX_FACTS_PER_FILE
    requires NodeAt([root], top.path) == Some(top.tree) && Visits(c, run, top, after, owner)
    ensures forall waiting, stop :: (stop <==> after.record.facts >= MAX_FACTS_PER_FILE) ==>
      FactsFit(root, after, waiting, stop)
  {
    var keep := run.record.facts + 1 < MAX_FACTS_PER_FILE;
    SoundEmitted(c, run.record, top.tree.facts, top.context, Ordinal(top.path), keep);
    assert after.visits[..|run.visits|] == run.visits;
    OnlyRoutesPass(run.record.facts, top.tree.facts);
  }

  /** One visit, as values. */
  lemma VisitStep(c: Config, file: FactNode, root: SyntaxTree, run: Run, reasons: set<Reason>, items: seq<Frame>,
                  lost: nat, dropped: nat, after: Run, owner: Owner, stop: bool, n: nat)
    returns (items': seq<Frame>, lost': nat, dropped': nat)
    requires Underway(c, file, root, run, reasons, items, lost, dropped, false)
    requires items != [] && n <= |items[|items| - 1].tree.children|
    requires n == 0 || Depth(items[|items| - 1].path) < MAX_AST_DEPTH
    requires (stop <==> after.record.facts >= MAX_FACTS_PER_FILE) && (stop ==> n == 0)
    requires Visits(c, run, items[|items| - 1], after, owner)
    ensures items' == Next(items, owner, n) && |items'| == |items| - 1 + n
    ensures var (tree, depth) := (items[|items| - 1].tree, Depth(items[|items| - 1].path));
      Underway(c, file, root, after,
               ReasonsAfter(reasons, tree, run.record.facts + 1 < MAX_FACTS_PER_FILE, stop, depth, |items| - 1, n),
               items', lost', dropped', stop)
  {
    var top, keep := items[|items| - 1], run.record.facts + 1 < MAX_FACTS_PER_FILE;
    items', lost', dropped' :=
      Next(items, owner, n), lost + Sum(Each(), top.tree.children[n..]), dropped + Drops(top.tree.facts, keep);
    ProgressStep(c, file, root, run, items, lost, dropped, after, owner, n, keep);
    ToldStep(reasons, root, run.visits, top, lost, dropped, stop, n, |items| - 1, keep);
    TopFacts(c, file, root, run, reasons, items, lost, dropped, after, owner);
  }

  lemma TopFacts(c: Config, file: FactNode, root: SyntaxTree, run: Run, reasons: set<Reason>, items: seq<Frame>,
                 lost: nat, dropped: nat, after: Run, owner: Owner)
    requires Underway(c, file, root, run, reasons, items, lost, dropped, false) && items != []
    requires Visits(c, run, items[|items| - 1], after, owner)
    ensures forall waiting, stop :: (stop <==> after.record.facts >= MAX_FACTS_PER_FILE) ==>
      FactsFit(root, after, waiting, stop)
  {
    FactsStep(c, root, run, after, items[|items| - 1], owner);
  }

  /** One visit: what its node adds, and that it is visited. */
  ghost predicate Visits(c: Config, run: Run, top: Frame, after: Run, owner: Owner) {
    && (after.record, owner) == Emitted(c, run.record, top.tree.facts, top.context, Ordinal(top.path),
                                        run.record.facts + 1 < MAX_FACTS_PER_FILE)
    && after.visits == run.visits + [top.path]
  }

  /** All that is known of a run between two visits. */
  ghost predicate Midway(c: Config, file: FactNode, root: SyntaxTree, run: Run, reasons: set<Reason>, items: seq<Frame>,
                         lost: nat, dropped: nat, stop: bool) {
    && Underway(c, file, root, run, reasons, items, lost, dropped, stop)
    && AstPlaces.Attached(c, file, root, run, items) && ReasonsHold(root, run, reasons, items) && Led(run.visits, items)
    && (stop ==> run.record.facts >= MAX_FACTS_PER_FILE && (items != [] ==> FactLimit in reasons))
  }

  ghost predicate OnTheWay(c: Config, file: FactNode, root: SyntaxTree, run: Run, reasons: set<Reason>,
                           items: seq<Frame>, stop: bool) {
    exists lost: nat, dropped: nat :: Midway(c, file, root, run, reasons, items, lost, dropped, stop)
  }

  lemma MidwayStart(c: Config, file: FactNode, root: SyntaxTree, run: Run, stack: seq<VisitFrame>)
    returns (items: seq<Frame>)
    requires file.id == c.fileId && file.origin == FileFact
    requires run == FileOnly(file) && stack == [VisitFrame(root, file.id, "file", 0, 0)]
    ensures Mirrors(stack, items) && OnTheWay(c, file, root, run, {}, items, false)
  {
    items := [Item(root, Owner(c.fileId, "file"), [0])];
    ProgressStart(c, file, root);
    UnderwayStart(c, file, root, run, items);
    AstPlaces.AttachedStart(c, file, root);
    ReasonsStart(root, run, items[0]);
    MidwayFirst(c, file, root, run, items);
  }

  lemma ReasonsStart(root: SyntaxTree, run: Run, item: Frame)
    requires run.visits == [] && item == Item(root, item.context, [0])
    ensures ReasonsHold(root, run, {}, [item]) && Led(run.visits, [item])
  {
    ReachesFirst(root, MAX_AST_DEPTH, item.context);
    LedStart(item);
  }

  lemma MidwayFirst(c: Config, file: FactNode, root: SyntaxTree, run: Run, items: seq<Frame>)
    requires Underway(c, file, root, run, {}, items, 0, 0, false) && AstPlaces.Attached(c, file, root, run, items)
    requires ReasonsHold(root, run, {}, items) && Led(run.visits, items)
    ensures OnTheWay(c, file, root, run, {}, items, false)
  {
    assert Midway(c, file, root, run, {}, items, 0, 0, false);
  }

  lemma UnderwayStart(c: Config, file: FactNode, root: SyntaxTree, run: Run, items: seq<Frame>)
    requires Progress(c, file, root, run, items, 0, 0) && items != [] && run.visits == [] && run.record.facts == 0
    ensures Underway(c, file, root, run, {}, items, 0, 0, false)
  {
  }

  lemma TrueAtTheEnd(root: SyntaxTree, run: Run, reasons: set<Reason>, items: seq<Frame>)
    requires ReasonsHold(root, run, reasons, items) && (items != [] ==> FactLimit in reasons)
    requires items != [] ==> run.record.facts >= MAX_FACTS_PER_FILE
    ensures ReasonsTrue(root, run, reasons)
  {
  }

  lemma MidwayStep(c: Config, file: FactNode, root: SyntaxTree, run: Run, reasons: set<Reason>, items: seq<Frame>,
                   lost: nat, dropped: nat, after: Run, owner: Owner, stop: bool, n: nat)
    returns (items': seq<Frame>, lost': nat, dropped': nat)
    requires Midway(c, file, root, run, reasons, items, lost, dropped, false)
    requires items != [] && (stop <==> after.record.facts >= MAX_FACTS_PER_FILE)
    requires var top := items[|items| - 1];
      && Visits(c, run, top, after, owner)
      && AsManyAsFit(n, stop, Depth(top.path), |top.tree.children|, |run.visits| + |items|)
    ensures items' == Next(items, owner, n) && |items'| == |items| - 1 + n
    ensures var (tree, depth) := (items[|items| - 1].tree, Depth(items[|items| - 1].path));
      Midway(c, file, root, after,
             ReasonsAfter(reasons, tree, run.record.facts + 1 < MAX_FACTS_PER_FILE, stop, depth, |items| - 1, n),
             items', lost', dropped', stop)
  {
    items', lost', dropped' := VisitStep(c, file, root, run, reasons, items, lost, dropped, after, owner, stop, n);
    AstPlaces.AttachedStep(c, file, root, run, items, after, owner, n);
    DropUsesFacts(c, run, items[|items| - 1], after, owner);
    LedStep([root], run.visits, items, owner, n, items');
    ReasonsStep(root, run, reasons, items, after, owner, stop, n, run.record.facts + 1 < MAX_FACTS_PER_FILE);
  }

  lemma AtTheEnd(c: Config, file: FactNode, root: SyntaxTree, run: Run, reasons: set<Reason>, items: seq<Frame>,
                 stop: bool)
    requires OnTheWay(c, file, root, run, reasons, items, stop) && (items == [] || stop)
    requires file.id == c.fileId && file.origin == FileFact && |run.visits| <= MAX_AST_NODE_VISITS
    ensures Bounded(c, root, run) && FromTheFront(run.visits)
    ensures AstPlaces.AsPlaced(c, file, root, run) && ReasonsTrue(root, run, reasons)
    ensures Silent(reasons) <==> run == Complete(c, file, root)
    ensures Silent(reasons) <==> DoesAll(root, run)
    ensures IdentifierLimit in reasons <==> AnyCut(root, run.visits)
  {
    var lost: nat, dropped: nat :| Midway(c, file, root, run, reasons, items, lost, dropped, stop);
    TrueAtTheEnd(root, run, reasons, items);
    Finished(c, file, root, run, items, lost, dropped);
    CompleteMeaning(c, file, root);
    if items == [] { assert SumStack(Weight(), items) == 0; }
  }

  /** The limit is passed without a word: of one function with 5,000 routes or more, and nothing else, everything is
      extracted. */
  lemma RoutesPassInSilence(c: Config, root: SyntaxTree, run: Run)
    requires root.children == [] && root.facts.action.Definition? && root.facts.action.kind == "function"
    requires |root.facts.action.routes| >= MAX_FACTS_PER_FILE && Bounded(c, root, run)
    ensures run.record.facts == 1 + |root.facts.action.routes| > MAX_FACTS_PER_FILE && DoesAll(root, run)
  {
    AllPathsAreNodes(root);
    var here: Path := [] + [0];
    assert [root][1..] == [] && here == [0];
    assert AllPaths(root) == [here] + Preorder(root.children, here, 0) + Preorder([root][1..], [], 1) == [[0]];
    forall v | 0 <= v < |run.visits| ensures run.visits[v] == [0] {
      assert run.visits[v] in AllPaths(root);
    }
    PrecedesIrreflexive([0]);
    assert run.visits == [[0]] && run.visits[..0] == [];
    SumOne(Weight(), root);
  }

  /** No limit but that of an identifier search was met. */
  predicate Silent(reasons: set<Reason>) {
    VisitLimit !in reasons && DepthLimit !in reasons && FactLimit !in reasons
  }

  /** What the reasons say: nodes lost, handlers dropped, frames abandoned, searches cut. */
  ghost predicate Told(reasons: set<Reason>, root: SyntaxTree, visits: seq<Path>, lost: nat, dropped: nat,
                       abandoned: nat) {
    && (Silent(reasons) <==> lost + dropped + abandoned == 0)
    && (IdentifierLimit in reasons <==> AnyCut(root, visits))
  }

  /** The reason that a budget gives for what it cuts. */
  ghost function Overrun(stop: bool, depth: nat, count: nat, waiting: nat, scheduled: nat): set<Reason> {
    if stop then if count > 0 || waiting > 0 then {FactLimit} else {}
    else if scheduled == count then {}
    else if depth >= MAX_AST_DEPTH then {DepthLimit}
    else {VisitLimit}
  }

  ghost function ReasonsAfter(reasons: set<Reason>, tree: SyntaxTree, keep: bool, stop: bool, depth: nat, waiting: nat,
                              scheduled: nat): set<Reason> {
    reasons + (if Drops(tree.facts, keep) > 0 then {FactLimit} else {})
    + (if tree.facts.searchCut then {IdentifierLimit} else {})
    + Overrun(stop, depth, |tree.children|, waiting, scheduled)
  }

  lemma ToldStep(reasons: set<Reason>, root: SyntaxTree, visits: seq<Path>, top: Frame, lost: nat, dropped: nat,
                 stop: bool, scheduled: nat, waiting: nat, keep: bool)
    requires Told(reasons, root, visits, lost, dropped, 0) && NodeAt([root], top.path) == Some(top.tree)
    requires scheduled <= |top.tree.children| && (stop ==> scheduled == 0)
    ensures Told(ReasonsAfter(reasons, top.tree, keep, stop, Depth(top.path), waiting, scheduled),
                 root, visits + [top.path], lost + Sum(Each(), top.tree.children[scheduled..]),
                 dropped + Drops(top.tree.facts, keep), if stop then waiting + scheduled else 0)
  {
    CutMore(root, visits, top);
    LossCounts(top.tree.children, scheduled);
  }

  /** Whether the identifier search of a visited node was cut short. */
  ghost predicate AnyCut(root: SyntaxTree, visits: seq<Path>) {
    exists v :: 0 <= v < |visits| && NodeAt([root], visits[v]).Some? && NodeAt([root], visits[v]).value.facts.searchCut
  }

  lemma CutMore(root: SyntaxTree, visits: seq<Path>, top: Frame)
    requires NodeAt([root], top.path) == Some(top.tree)
    ensures AnyCut(root, visits + [top.path]) <==> AnyCut(root, visits) || top.tree.facts.searchCut
  {
    var more := visits + [top.path];
    assert more[|visits|] == top.path;
    assert forall v :: 0 <= v < |visits| ==> more[v] == visits[v];
  }

  /** None once the facts or the depth are used up; else all that the visits left allow. */
  ghost predicate AsManyAsFit(scheduled: nat, stop: bool, depth: nat, count: nat, taken: nat) {
    if stop || depth >= MAX_AST_DEPTH then scheduled == 0
    else
      && scheduled <= count && taken + scheduled <= MAX_AST_NODE_VISITS
      && (scheduled < count ==> taken + scheduled == MAX_AST_NODE_VISITS)
  }

  /** A visited node at the greatest depth that has children. */
  ghost predicate MeetsDepth(root: SyntaxTree, visits: seq<Path>) {
    exists v :: 0 <= v < |visits| && Depth(visits[v]) == MAX_AST_DEPTH && NodeAt([root], visits[v]).Some?
      && NodeAt([root], visits[v]).value.children != []
  }

  /** No reason is given without its limit being met: all visits were used, or the facts were first; a node was too deep
      for its children; the facts were used. And unless visits or facts were used up, every node down to the greatest
      depth was visited. */
  ghost predicate ReasonsTrue(root: SyntaxTree, run: Run, reasons: set<Reason>) {
    && (VisitLimit in reasons ==> |run.visits| == MAX_AST_NODE_VISITS || run.record.facts >= MAX_FACTS_PER_FILE)
    && (DepthLimit in reasons ==> MeetsDepth(root, run.visits))
    && (FactLimit in reasons ==> run.record.facts >= MAX_FACTS_PER_FILE)
    && (VisitLimit !in reasons && FactLimit !in reasons ==> ReachesAll(root, MAX_AST_DEPTH, run.visits))
  }

  /** Before the end: once children were left out for want of visits, what waits uses up all visits. */
  ghost predicate ReasonsHold(root: SyntaxTree, run: Run, reasons: set<Reason>, items: seq<Frame>) {
    && (VisitLimit in reasons ==> |run.visits| + |items| == MAX_AST_NODE_VISITS)
    && (DepthLimit in reasons ==> MeetsDepth(root, run.visits))
    && (FactLimit in reasons ==> run.record.facts >= MAX_FACTS_PER_FILE)
    && (VisitLimit !in reasons && FactLimit !in reasons ==> Reaches(root, MAX_AST_DEPTH, run.visits, items))
  }

  lemma DepthMetMore(root: SyntaxTree, visits: seq<Path>, path: Path)
    requires NodeAt([root], path).Some?
    ensures MeetsDepth(root, visits + [path]) <==>
      MeetsDepth(root, visits) || (Depth(path) == MAX_AST_DEPTH && NodeAt([root], path).value.children != [])
  {
    var more := visits + [path];
    assert more[|visits|] == path;
    assert forall v :: 0 <= v < |visits| ==> more[v] == visits[v];
  }

  /** A handler is dropped only by the last fact that fits. */
  lemma DropUsesFacts(c: Config, run: Run, top: Frame, after: Run, owner: Owner)
    requires Sound(c, run.record) && HasId(run.record.nodes, top.context.id) && run.record.facts < MAX_FACTS_PER_FILE
    requires Visits(c, run, top, after, owner)
    ensures Drops(top.tree.facts, run.record.facts + 1 < MAX_FACTS_PER_FILE) > 0 ==>
      after.record.facts >= MAX_FACTS_PER_FILE
    ensures after.record.facts >= run.record.facts
  {
    SoundEmitted(c, run.record, top.tree.facts, top.context, Ordinal(top.path),
                 run.record.facts + 1 < MAX_FACTS_PER_FILE);
    OnlyRoutesPass(run.record.facts, top.tree.facts);
  }

  lemma ReasonsStep(root: SyntaxTree, run: Run, reasons: set<Reason>, items: seq<Frame>, after: Run, owner: Owner,
                    stop: bool, n: nat, keep: bool)
    requires items != [] && ReasonsHold(root, run, reasons, items)
    requires var top := items[|items| - 1];
      && NodeAt([root], top.path) == Some(top.tree) && top.path != [] && Depth(top.path) <= MAX_AST_DEPTH
      && after.visits == run.visits + [top.path] && n <= |top.tree.children|
      && AsManyAsFit(n, stop, Depth(top.path), |top.tree.children|, |run.visits| + |items|)
      && (Drops(top.tree.facts, keep) > 0 ==> after.record.facts >= MAX_FACTS_PER_FILE)
    requires after.record.facts >= run.record.facts && (stop <==> after.record.facts >= MAX_FACTS_PER_FILE)
    requires |Next(items, owner, n)| == |items| - 1 + n
    ensures var (tree, depth) := (items[|items| - 1].tree, Depth(items[|items| - 1].path));
      ReasonsHold(root, after, ReasonsAfter(reasons, tree, keep, stop, depth, |items| - 1, n), Next(items, owner, n))
  {
    var top := items[|items| - 1];
    DepthMetMore(root, run.visits, top.path);
    var all := ReasonsAfter(reasons, top.tree, keep, stop, Depth(top.path), |items| - 1, n);
    if VisitLimit !in all && FactLimit !in all {
      ReachesNext(root, MAX_AST_DEPTH, run.visits, items, owner, n, Next(items, owner, n));
    }
  }

  /** Pushes the first n children, the last of them first. */
  method Schedule(rest: seq<VisitFrame>, ghost items: seq<Frame>, owner: Owner, frame: VisitFrame, n: nat)
    returns (stack: seq<VisitFrame>)
    requires items != [] && Mirrors(rest + [frame], items) && n <= |frame.node.children| && Shallow(items)
    ensures Mirrors(stack, Next(items, owner, n))
  {
    ghost var top := items[|items| - 1];
    assert (rest + [frame])[|rest|] == frame == FrameOf(top);
    stack := rest;
    PushedAt(frame.node.children[..n], owner, top.path, 0);
    ghost var pushed := Pushed(frame.node.children[..n], owner, top.path, 0);
    for index := n downto 0
      invariant |stack| == |rest| + n - index && rest <= stack
      invariant forall i :: |rest| <= i < |stack| ==> stack[i] == FrameOf(pushed[i - |rest|])
    {
      stack := stack + [VisitFrame(frame.node.children[index], owner.id, owner.scope, index, frame.depth + 1)];
      assert pushed[n - 1 - index] == Item(frame.node.children[index], owner, top.path + [index]);
    }
    forall i | 0 <= i < |rest| ensures stack[i] == FrameOf(items[i]) { assert (rest + [frame])[i] == rest[i]; }
  }
}
