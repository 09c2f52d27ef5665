/** The state of a bounded traversal between two visits, as values: what was visited, what is on the stack, what was
    lost. */
module AstProgress {
  import opened Options
  import opened TreeWalk
  import opened AstFacts

  const MAX_FACTS_PER_FILE: nat := 5_000
  const MAX_AST_DEPTH: nat := 512
  const MAX_AST_NODE_VISITS: nat := 250_000

  type SyntaxTree = Tree<Syntax>
  type Frame = Item<Syntax, Owner>

  /** A traversal so far: what was extracted, and the nodes visited. */
  datatype Run = Run(record: Record, visits: seq<Path>)

  function Ordinal(path: Path): nat {
    if path == [] then 0 else path[|path| - 1]
  }

  function Depth(path: Path): nat {
    if path == [] then 0 else |path| - 1
  }

  /** One visit without limits. */
  ghost function Visit(c: Config, run: Run, s: Syntax, o: Owner, path: Path): (Run, Owner) {
    var (record, owner) := Emitted(c, run.record, s, o, Ordinal(path), true);
    (Run(record, run.visits + [path]), owner)
  }

  ghost function Unlimited(c: Config): Step<Run, Syntax, Owner> {
    (run, s, o, path) => Visit(c, run, s, o, path)
  }

  ghost function FileOnly(file: FactNode): Run {
    Run(Record([file], [], 0, [], []), [])
  }

  /** The recursive extraction that knows no limits. */
  ghost function Complete(c: Config, file: FactNode, root: SyntaxTree): Run {
    Walk(Unlimited(c), FileOnly(file), root, Owner(c.fileId, "file"), [0])
  }

  ghost function Weight(): Syntax -> nat {
    (s: Syntax) => FactsOf(s)
  }

  ghost predicate OwnersKnown(r: Record, items: seq<Frame>) {
    forall i :: 0 <= i < |items| ==> HasId(r.nodes, items[i].context.id)
  }

  ghost predicate Shallow(items: seq<Frame>) {
    forall i :: 0 <= i < |items| ==> items[i].path != [] && Depth(items[i].path) <= MAX_AST_DEPTH
  }

  ghost predicate WithinDepth(visits: seq<Path>) {
    forall v :: 0 <= v < |visits| ==> Depth(visits[v]) <= MAX_AST_DEPTH
  }

  /** The record is sound, and visits and frames lie in the tree in order and within the depth. */
  ghost predicate Placed(c: Config, root: SyntaxTree, run: Run, items: seq<Frame>) {
    && Sound(c, run.record) && OwnersKnown(run.record, items)
    && Ordered([root], run.visits, items) && Shallow(items) && WithinDepth(run.visits)
  }

  /** Nodes visited, waiting and lost make up the tree, and without loss so do their facts. */
  ghost predicate Balanced(root: SyntaxTree, run: Run, items: seq<Frame>, lost: nat, dropped: nat) {
    && |run.visits| + SumStack(Each(), items) + lost == Sum(Each(), [root])
    && (lost == 0 ==> run.record.facts + dropped + SumStack(Weight(), items) == Sum(Weight(), [root]))
  }

  /** A traversal in mid-walk; with nothing lost or dropped it is on its way to the complete one. */
  ghost predicate Progress(c: Config, file: FactNode, root: SyntaxTree, run: Run, items: seq<Frame>, lost: nat,
                           dropped: nat) {
    && Placed(c, root, run, items) && Balanced(root, run, items, lost, dropped)
    && (lost == 0 && dropped == 0 ==> WalkStack(Unlimited(c), run, items) == Complete(c, file, root))
  }

  lemma ProgressStart(c: Config, file: FactNode, root: SyntaxTree)
    requires file.id == c.fileId && file.origin == FileFact
    ensures Progress(c, file, root, FileOnly(file), [Item(root, Owner(c.fileId, "file"), [0])], 0, 0)
  {
    var item := Item(root, Owner(c.fileId, "file"), [0]);
    PlacedStart(c, file, root);
    BalancedStart(root, FileOnly(file), item);
    OneItem(Unlimited(c), FileOnly(file), Weight(), Each(), item);
  }

  lemma PlacedStart(c: Config, file: FactNode, root: SyntaxTree)
    requires file.id == c.fileId && file.origin == FileFact
    ensures Placed(c, root, FileOnly(file), [Item(root, Owner(c.fileId, "file"), [0])])
  {
    SoundFile(c, file);
    OrderedStart(root, Owner(c.fileId, "file"));
  }

  lemma BalancedStart(root: SyntaxTree, run: Run, item: Frame)
    requires run.visits == [] && run.record.facts == 0 && item.tree == root
    ensures Balanced(root, run, [item], 0, 0)
  {
    assert [item][..0] == [];
  }

  lemma OrderedStart(root: SyntaxTree, owner: Owner)
    ensures Ordered([root], [], [Item(root, owner, [0])])
  {
    assert NodeAt([root], [0]) == Some(root);
  }

  lemma SoundFile(c: Config, file: FactNode)
    requires file.id == c.fileId && file.origin == FileFact
    ensures Sound(c, FileOnly(file).record) && HasId(FileOnly(file).record.nodes, c.fileId)
  {
    var nodes := [file];
    assert nodes[0].id == c.fileId && nodes[..0] == [];
    assert IdsOf(nodes[..0], Symbol) == [] && IdsOf(nodes[..0], StaticEvent) == [];
  }

  /** The frames after a visit that schedules the first n children. */
  ghost function Next(items: seq<Frame>, owner: Owner, n: nat): seq<Frame>
    requires items != [] && n <= |items[|items| - 1].tree.children|
  {
    var top := items[|items| - 1];
    items[..|items| - 1] + Pushed(top.tree.children[..n], owner, top.path, 0)
  }

  lemma StackSums(weight: Syntax -> nat, items: seq<Frame>, owner: Owner, n: nat)
    requires items != [] && n <= |items[|items| - 1].tree.children|
    ensures var tree := items[|items| - 1].tree;
      SumStack(weight, items) ==
        weight(tree.facts) + SumStack(weight, Next(items, owner, n)) + Sum(weight, tree.children[n..])
  {
    var top := items[|items| - 1];
    SumOne(weight, top.tree);
    SumPushed(weight, items[..|items| - 1], top.tree.children[..n], owner, top.path, 0);
    SumSplit(weight, top.tree.children[..n], top.tree.children[n..]);
    assert top.tree.children == top.tree.children[..n] + top.tree.children[n..];
  }

  /** A visit that drops nothing and schedules all children goes on to the same end. */
  lemma SameEnd(c: Config, run: Run, items: seq<Frame>)
    requires items != []
    ensures var top := items[|items| - 1];
      var (after, owner) := Visit(c, run, top.tree.facts, top.context, top.path);
      WalkStack(Unlimited(c), run, items) == WalkStack(Unlimited(c), after, Next(items, owner, |top.tree.children|))
  {
    var top := items[|items| - 1];
    var (after, owner) := Visit(c, run, top.tree.facts, top.context, top.path);
    assert Unlimited(c)(run, top.tree.facts, top.context, top.path) == (after, owner);
    assert top.tree.children[..|top.tree.children|] == top.tree.children;
    WalkPushed(Unlimited(c), after, items[..|items| - 1], top.tree.children, owner, top.path, 0);
  }

  lemma FramesStep(before: Record, after: Record, items: seq<Frame>, owner: Owner, n: nat)
    requires items != [] && n <= |items[|items| - 1].tree.children| && Shallow(items) && OwnersKnown(before, items)
    requires before.nodes <= after.nodes && HasId(after.nodes, owner.id)
    requires n == 0 || Depth(items[|items| - 1].path) < MAX_AST_DEPTH
    ensures OwnersKnown(after, Next(items, owner, n)) && Shallow(Next(items, owner, n))
    ensures |Next(items, owner, n)| == |items| - 1 + n
  {
    var top, next := items[|items| - 1], Next(items, owner, n);
    PushedAt(top.tree.children[..n], owner, top.path, 0);
    forall i | 0 <= i < |next|
      ensures HasId(after.nodes, next[i].context.id) && next[i].path != [] && Depth(next[i].path) <= MAX_AST_DEPTH
    {
      if i < |items| - 1 {
        assert next[i] == items[i];
        HasIdPrefix(before.nodes, after.nodes, items[i].context.id);
      }
    }
  }

  /** Whether a visit drops a handler: the code keeps one only when two more facts fit. */
  ghost function Drops(s: Syntax, keep: bool): nat {
    if !keep && HandlerOf(s.action).Some? then 1 else 0
  }

  lemma PlacedStep(c: Config, root: SyntaxTree, run: Run, items: seq<Frame>, after: Run, owner: Owner, n: nat,
                   keep: bool)
    requires Placed(c, root, run, items)
    requires items != [] && n <= |items[|items| - 1].tree.children|
    requires n == 0 || Depth(items[|items| - 1].path) < MAX_AST_DEPTH
    requires var top := items[|items| - 1];
      && (after.record, owner) == Emitted(c, run.record, top.tree.facts, top.context, Ordinal(top.path), keep)
      && after.visits == run.visits + [top.path]
    ensures Placed(c, root, after, Next(items, owner, n)) && |Next(items, owner, n)| == |items| - 1 + n
    ensures var s := items[|items| - 1].tree.facts;
      after.record.facts == run.record.facts + FactsOf(s) - Drops(s, keep)
  {
    var top := items[|items| - 1];
    SoundEmitted(c, run.record, top.tree.facts, top.context, Ordinal(top.path), keep);
    FramesStep(run.record, after.record, items, owner, n);
    OrderedStep([root], run.visits, items, owner, n);
  }

  lemma BalancedStep(root: SyntaxTree, run: Run, items: seq<Frame>, lost: nat, dropped: nat, after: Run, owner: Owner,
                     n: nat, drops: nat)
    requires Balanced(root, run, items, lost, dropped)
    requires items != [] && n <= |items[|items| - 1].tree.children| && |after.visits| == |run.visits| + 1
    requires after.record.facts == run.record.facts + FactsOf(items[|items| - 1].tree.facts) - drops
    ensures Balanced(root, after, Next(items, owner, n), lost + Sum(Each(), items[|items| - 1].tree.children[n..]),
                     dropped + drops)
  {
    StackSums(Each(), items, owner, n);
    StackSums(Weight(), items, owner, n);
    LossCounts(items[|items| - 1].tree.children, n);
  }

  /** Visiting the top frame and scheduling its first n children: the others are lost with all below them. */
  lemma ProgressStep(c: Config, file: FactNode, root: SyntaxTree, run: Run, items: seq<Frame>, lost: nat, dropped: nat,
                     after: Run, owner: Owner, n: nat, keep: bool)
    requires Progress(c, file, root, run, items, lost, dropped)
    requires items != [] && n <= |items[|items| - 1].tree.children|
    requires n == 0 || Depth(items[|items| - 1].path) < MAX_AST_DEPTH
    requires var top := items[|items| - 1];
      && (after.record, owner) == Emitted(c, run.record, top.tree.facts, top.context, Ordinal(top.path), keep)
      && after.visits == run.visits + [top.path]
    ensures var tree := items[|items| - 1].tree;
      Progress(c, file, root, after, Next(items, owner, n),
               lost + Sum(Each(), tree.children[n..]), dropped + Drops(tree.facts, keep))
    ensures |Next(items, owner, n)| == |items| - 1 + n
  {
    var tree := items[|items| - 1].tree;
    PlacedStep(c, root, run, items, after, owner, n, keep);
    BalancedStep(root, run, items, lost, dropped, after, owner, n, Drops(tree.facts, keep));
    LossCounts(tree.children, n);
    if n == |tree.children| && Drops(tree.facts, keep) == 0 { SameEndKept(c, run, items, after, owner, keep); }
  }

  lemma SameEndKept(c: Config, run: Run, items: seq<Frame>, after: Run, owner: Owner, keep: bool)
    requires items != []
    requires var top := items[|items| - 1];
      && (after.record, owner) == Emitted(c, run.record, top.tree.facts, top.context, Ordinal(top.path), keep)
      && after.visits == run.visits + [top.path] && Drops(top.tree.facts, keep) == 0
    ensures WalkStack(Unlimited(c), run, items) ==
      WalkStack(Unlimited(c), after, Next(items, owner, |items[|items| - 1].tree.children|))
  {
    KeepingIsVisiting(c, run, items[|items| - 1], keep);
    SameEnd(c, run, items);
  }

  /** Something is lost exactly when a child is not scheduled. */
  lemma LossCounts(trees: seq<SyntaxTree>, n: nat)
    requires n <= |trees|
    ensures Sum(Each(), trees[n..]) == 0 <==> n == |trees|
    ensures n == |trees| ==> Sum(Weight(), trees[n..]) == 0
  {
  }

  lemma KeepingIsVisiting(c: Config, run: Run, top: Frame, keep: bool)
    requires Drops(top.tree.facts, keep) == 0
    ensures var (record, owner) := Emitted(c, run.record, top.tree.facts, top.context, Ordinal(top.path), keep);
      Visit(c, run, top.tree.facts, top.context, top.path) == (Run(record, run.visits + [top.path]), owner)
  {
  }

  // ---------- the end ----------

  /** From one run to a later one: so many facts more, and these visits. */
  ghost predicate Extends(c: Config, run: Run, end: Run, facts: nat, visits: seq<Path>) {
    && Sound(c, end.record) && run.record.nodes <= end.record.nodes
    && end.record.facts == run.record.facts + facts && end.visits == run.visits + visits
  }

  lemma ExtendsTwice(c: Config, run: Run, mid: Run, end: Run, f: nat, g: nat, v: seq<Path>, w: seq<Path>)
    requires Extends(c, run, mid, f, v) && Extends(c, mid, end, g, w)
    ensures Extends(c, run, end, f + g, v + w)
  {
  }

  lemma VisitMeaning(c: Config, run: Run, s: Syntax, o: Owner, path: Path)
    requires Sound(c, run.record) && HasId(run.record.nodes, o.id)
    ensures var (after, owner) := Visit(c, run, s, o, path);
      && Unlimited(c)(run, s, o, path) == (after, owner)
      && Extends(c, run, after, Weight()(s), [path]) && HasId(after.record.nodes, owner.id)
  {
    SoundEmitted(c, run.record, s, o, Ordinal(path), true);
  }

  /** The facts of the complete extraction, and its visits. */
  lemma {:induction false} WalkFacts(c: Config, run: Run, trees: seq<SyntaxTree>, o: Owner, parent: Path, ordinal: nat)
    requires Sound(c, run.record) && HasId(run.record.nodes, o.id)
    ensures Extends(c, run, WalkAll(Unlimited(c), run, trees, o, parent, ordinal), Sum(Weight(), trees),
                    Preorder(trees, parent, ordinal))
    decreases trees
  {
    if trees == [] {
      assert Extends(c, run, run, 0, []);
    } else {
      var here, tree := parent + [ordinal], trees[0];
      var (after, owner) := Visit(c, run, tree.facts, o, here);
      VisitMeaning(c, run, tree.facts, o, here);
      WalkFacts(c, after, tree.children, owner, here, 0);
      var first := Walk(Unlimited(c), run, tree, o, here);
      assert first == WalkAll(Unlimited(c), after, tree.children, owner, here, 0);
      ExtendsTwice(c, run, after, first, Weight()(tree.facts), Sum(Weight(), tree.children), [here],
                   Preorder(tree.children, here, 0));
      HasIdPrefix(run.record.nodes, first.record.nodes, o.id);
      WalkFacts(c, first, trees[1..], o, parent, ordinal + 1);
      ExtendsTwice(c, run, first, WalkAll(Unlimited(c), first, trees[1..], o, parent, ordinal + 1),
        Weight()(tree.facts) + Sum(Weight(), tree.children), Sum(Weight(), trees[1..]),
        [here] + Preorder(tree.children, here, 0), Preorder(trees[1..], parent, ordinal + 1));
    }
  }

  lemma CompleteMeaning(c: Config, file: FactNode, root: SyntaxTree)
    requires file.id == c.fileId && file.origin == FileFact
    ensures var end := Complete(c, file, root);
      && Sound(c, end.record) && end.record.facts == Sum(Weight(), [root]) && end.visits == AllPaths(root)
  {
    SoundFile(c, file);
    WalkFacts(c, FileOnly(file), [root], Owner(c.fileId, "file"), [], 0);
    var first := Walk(Unlimited(c), FileOnly(file), root, Owner(c.fileId, "file"), [] + [0]);
    assert WalkAll(Unlimited(c), first, [root][1..], Owner(c.fileId, "file"), [], 1) == first;
    assert [] + [0] == [0];
  }

  lemma {:induction false} WaitingCounts(items: seq<Frame>)
    ensures SumStack(Each(), items) == 0 <==> items == []
  {
    if items != [] { SumOne(Each(), items[|items| - 1].tree); }
  }

  /** Nothing lost and nothing waiting means that every node was visited; and if in addition no handler was dropped, and
      only then, the result is the complete extraction. */
  lemma Finished(c: Config, file: FactNode, root: SyntaxTree, run: Run, items: seq<Frame>, lost: nat, dropped: nat)
    requires Progress(c, file, root, run, items, lost, dropped) && file.id == c.fileId && file.origin == FileFact
    ensures lost == 0 && items == [] <==> run.visits == AllPaths(root)
    ensures lost == 0 && items == [] && dropped == 0 <==> run == Complete(c, file, root)
  {
    AllPathsAreNodes(root);
    CompleteMeaning(c, file, root);
    WaitingCounts(items);
    if run.visits == AllPaths(root) || run == Complete(c, file, root) {
      assert |run.visits| == Sum(Each(), [root]);
    }
    if lost == 0 && items == [] {
      AllVisited(root, run.visits);
      assert SumStack(Weight(), items) == 0;
    }
  }

  /** As many nodes as there are, in reading order, are all the nodes in reading order. */
  lemma AllVisited(root: SyntaxTree, visits: seq<Path>)
    requires InReadingOrder(visits) && |visits| == |AllPaths(root)|
    requires forall v :: 0 <= v < |visits| ==> NodeAt([root], visits[v]).Some?
    ensures visits == AllPaths(root)
  {
    AllPathsAreNodes(root);
    SameList(visits, AllPaths(root));
  }

  /** An ordered list with all its elements in another ordered list of the same length is that list. */
  lemma {:induction false} SameList(p: seq<Path>, q: seq<Path>)
    requires InReadingOrder(p) && InReadingOrder(q) && |p| == |q|
    requires forall i :: 0 <= i < |p| ==> p[i] in q
    ensures p == q
  {
    if p != [] {
      var n := |p| - 1;
      LastIsLast(p, q);
      forall i | 0 <= i < n ensures p[i] in q[..n] {
        var j :| 0 <= j < |q| && q[j] == p[i];
        if j == n { PrecedesIrreflexive(p[n]); }
        assert q[j] == q[..n][j];
      }
      SameList(p[..n], q[..n]);
      assert p == p[..n] + [p[n]] && q == q[..n] + [q[n]];
    }
  }

  lemma LastIsLast(p: seq<Path>, q: seq<Path>)
    requires InReadingOrder(p) && InReadingOrder(q) && |p| == |q| > 0
    requires forall i :: 0 <= i < |p| ==> p[i] in q
    ensures p[|p| - 1] == q[|q| - 1]
  {
    PlacesAdvance(p, q, |p| - 1);
  }

  /** The k-th element of the shorter list is at place k or later. */
  lemma {:induction false} PlacesAdvance(p: seq<Path>, q: seq<Path>, k: nat)
    requires InReadingOrder(p) && InReadingOrder(q) && k < |p|
    requires forall i :: 0 <= i < |p| ==> p[i] in q
    ensures forall j :: 0 <= j < |q| && q[j] == p[k] ==> j >= k
  {
    if k > 0 {
      PlacesAdvance(p, q, k - 1);
      assert p[k - 1] in q;
      var before :| 0 <= before < |q| && q[before] == p[k - 1];
      forall j | 0 <= j < |q| && q[j] == p[k] ensures j >= k {
        if j < before { PrecedesTransitive(q[j], q[before], q[j]); PrecedesIrreflexive(q[j]); }
        if j == before { PrecedesIrreflexive(p[k]); }
      }
    }
  }
}
