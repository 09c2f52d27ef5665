/** The bounded search for the first identifier below a syntax node (analyzer/syntax.rs, first_identifier). */
module IdentifierSearch {
  import opened Options
  import opened TreeWalk
  import opened PartialWalk
  import Seqs

  const MAX_IDENTIFIER_NODE_VISITS: nat := 4_096
  const MAX_IDENTIFIER_DEPTH: nat := 128

  /** A node of an identifier kind with its compacted text, or another node. */
  datatype Word = Identifier(text: string) | Other

  function Named(w: Word): Option<string> {
    if w.Identifier? && w.text != "" then Some(w.text) else None
  }

  function Or<T>(first: Option<T>, second: Option<T>): Option<T> {
    if first.Some? then first else second
  }

  /** The first named identifier in preorder. */
  ghost function First(trees: seq<Tree<Word>>): Option<string> {
    if trees == [] then None else Or(Named(trees[0].facts), Or(First(trees[0].children), First(trees[1..])))
  }

  /** The first named identifier among everything on the stack, from the top. */
  ghost function FirstOnStack(stack: seq<(Tree<Word>, nat)>): Option<string> {
    if stack == [] then None else Or(First([stack[|stack| - 1].0]), FirstOnStack(stack[..|stack| - 1]))
  }

  ghost function Height(trees: seq<Tree<Word>>): nat {
    if trees == [] then 0
    else
      var here, later := 1 + Height(trees[0].children), Height(trees[1..]);
      if here > later then here else later
  }

  ghost function SizeOnStack(stack: seq<(Tree<Word>, nat)>): nat {
    if stack == [] then 0 else Sum(Each(), [stack[|stack| - 1].0]) + SizeOnStack(stack[..|stack| - 1])
  }

  /** The name of the node at a path below a parent. */
  ghost function NameBelow(trees: seq<Tree<Word>>, parent: Path, ordinal: nat, path: Path): Option<string> {
    if IsBelow(parent, ordinal, path) then
      match NodeAt(trees, [path[|parent|] - ordinal] + path[|parent| + 1..])
      case Some(tree) => Named(tree.facts)
      case None => None
    else None
  }

  /** The names of the nodes in preorder. */
  ghost function NamesOf(trees: seq<Tree<Word>>, parent: Path, ordinal: nat): (names: seq<Option<string>>)
    ensures |names| == |Preorder(trees, parent, ordinal)|
  {
    Seqs.Mapped(Naming(trees, parent, ordinal), Preorder(trees, parent, ordinal))
  }

  ghost function Naming(trees: seq<Tree<Word>>, parent: Path, ordinal: nat): Path -> Option<string> {
    path => NameBelow(trees, parent, ordinal, path)
  }

  /** A name at place i and none before it; or none at all. */
  ghost predicate IsFirstAt(names: seq<Option<string>>, first: Option<string>, i: nat) {
    && (first.Some? ==> i < |names| && names[i] == first)
    && forall j :: 0 <= j < |names| && (first == None || j < i) ==> names[j] == None
  }

  lemma FirstJoined(head: Option<string>, inner: seq<Option<string>>, later: seq<Option<string>>,
                    first: Option<string>, second: Option<string>, a: nat, b: nat)
    requires IsFirstAt(inner, first, a) && IsFirstAt(later, second, b)
    ensures IsFirstAt([head] + inner + later, Or(head, Or(first, second)),
                      if head.Some? then 0 else if first.Some? then 1 + a else 1 + |inner| + b)
  {
    var all := [head] + inner + later;
    assert forall j :: 0 <= j < |all| ==>
      all[j] == if j == 0 then head else if j <= |inner| then inner[j - 1] else later[j - 1 - |inner|];
  }

  lemma NamesJoined(trees: seq<Tree<Word>>, parent: Path, ordinal: nat)
    requires trees != []
    ensures NamesOf(trees, parent, ordinal) ==
      [Named(trees[0].facts)] + NamesOf(trees[0].children, parent + [ordinal], 0)
      + NamesOf(trees[1..], parent, ordinal + 1)
  {
    var here := parent + [ordinal];
    var inner, later := Preorder(trees[0].children, here, 0), Preorder(trees[1..], parent, ordinal + 1);
    NamesBelow(trees, parent, ordinal);
    NamesConcat(Naming(trees, parent, ordinal), Naming(trees[0].children, here, 0),
                Naming(trees[1..], parent, ordinal + 1), here, inner, later);
  }

  /** Names given to a list of paths, when its parts are named by functions that agree there. */
  lemma NamesConcat(all: Path -> Option<string>, below: Path -> Option<string>, after: Path -> Option<string>,
                    here: Path, inner: seq<Path>, later: seq<Path>)
    requires forall p :: p in inner ==> all(p) == below(p)
    requires forall p :: p in later ==> all(p) == after(p)
    ensures Seqs.Mapped(all, [here] + inner + later)
      == [all(here)] + Seqs.Mapped(below, inner) + Seqs.Mapped(after, later)
  {
  }

  /** First is what it is called: the text of an identifier with a name that no other precedes in preorder. */
  lemma {:induction false} FirstInPreorder(trees: seq<Tree<Word>>, parent: Path, ordinal: nat) returns (i: nat)
    ensures IsFirstAt(NamesOf(trees, parent, ordinal), First(trees), i)
    decreases trees
  {
    i := 0;
    if trees != [] {
      var inner := NamesOf(trees[0].children, parent + [ordinal], 0);
      var later := NamesOf(trees[1..], parent, ordinal + 1);
      var a := FirstInPreorder(trees[0].children, parent + [ordinal], 0);
      var b := FirstInPreorder(trees[1..], parent, ordinal + 1);
      var head, first := Named(trees[0].facts), First(trees[0].children);
      NamesJoined(trees, parent, ordinal);
      FirstJoined(head, inner, later, first, First(trees[1..]), a, b);
      i := if head.Some? then 0 else if first.Some? then 1 + a else 1 + |inner| + b;
    }
  }

  lemma NameInFirst(trees: seq<Tree<Word>>, parent: Path, ordinal: nat, p: Path)
    requires trees != [] && IsBelow(parent + [ordinal], 0, p)
    ensures NameBelow(trees, parent, ordinal, p) == NameBelow(trees[0].children, parent + [ordinal], 0, p)
  {
    var here, n := parent + [ordinal], |parent|;
    assert p[..n + 1] == here && p[n] == here[n] == ordinal;
    assert p[..n] == here[..n] == parent;
    assert ([0] + p[n + 1..])[1..] == p[n + 1..] == [p[n + 1]] + p[n + 2..];
  }

  lemma NameInLater(trees: seq<Tree<Word>>, parent: Path, ordinal: nat, p: Path)
    requires trees != [] && IsBelow(parent, ordinal + 1, p)
    ensures NameBelow(trees, parent, ordinal, p) == NameBelow(trees[1..], parent, ordinal + 1, p)
  {
    var n := |parent|;
    assert ([p[n] - ordinal] + p[n + 1..])[1..] == p[n + 1..] == ([p[n] - (ordinal + 1)] + p[n + 1..])[1..];
  }

  /** Where the names of a forest's nodes come from. */
  lemma NamesBelow(trees: seq<Tree<Word>>, parent: Path, ordinal: nat)
    requires trees != []
    ensures var here := parent + [ordinal];
      && NameBelow(trees, parent, ordinal, here) == Named(trees[0].facts)
      && (forall p :: p in Preorder(trees[0].children, here, 0) ==>
            NameBelow(trees, parent, ordinal, p) == NameBelow(trees[0].children, here, 0, p))
      && (forall p :: p in Preorder(trees[1..], parent, ordinal + 1) ==>
            NameBelow(trees, parent, ordinal, p) == NameBelow(trees[1..], parent, ordinal + 1, p))
  {
    var here := parent + [ordinal];
    assert here[|parent| + 1..] == [] && [0] + [] == [0];
    PreorderBelow(trees[0].children, here, 0);
    PreorderBelow(trees[1..], parent, ordinal + 1);
    forall p | p in Preorder(trees[0].children, here, 0)
      ensures NameBelow(trees, parent, ordinal, p) == NameBelow(trees[0].children, here, 0, p)
    {
      NameInFirst(trees, parent, ordinal, p);
    }
    forall p | p in Preorder(trees[1..], parent, ordinal + 1)
      ensures NameBelow(trees, parent, ordinal, p) == NameBelow(trees[1..], parent, ordinal + 1, p)
    {
      NameInLater(trees, parent, ordinal, p);
    }
  }

  // ---------- the loop ----------

  function Scheduled(children: seq<Tree<Word>>, depth: nat, n: nat): seq<(Tree<Word>, nat)>
    requires n <= |children|
  {
    seq(n, i requires 0 <= i < n => (children[n - 1 - i], depth + 1))
  }

  lemma OneTree(tree: Tree<Word>)
    ensures First([tree]) == Or(Named(tree.facts), First(tree.children))
    ensures Sum(Each(), [tree]) == 1 + Sum(Each(), tree.children)
    ensures Height([tree]) == 1 + Height(tree.children)
  {
    assert [tree][1..] == [];
  }

  /** Pushing all children puts what is below them on the stack. */
  lemma {:induction false} PushedAll(stack: seq<(Tree<Word>, nat)>, children: seq<Tree<Word>>, depth: nat)
    ensures var pushed := stack + Scheduled(children, depth, |children|);
      && FirstOnStack(pushed) == Or(First(children), FirstOnStack(stack))
      && SizeOnStack(pushed) == Sum(Each(), children) + SizeOnStack(stack)
  {
    var pushed := stack + Scheduled(children, depth, |children|);
    if children == [] {
      assert pushed == stack;
    } else {
      PushedAll(stack, children[1..], depth);
      assert pushed[|pushed| - 1] == (children[0], depth + 1);
      assert pushed[..|pushed| - 1] == stack + Scheduled(children[1..], depth, |children| - 1);
      OneTree(children[0]);
    }
  }

  ghost predicate Low(stack: seq<(Tree<Word>, nat)>) {
    forall i :: 0 <= i < |stack| ==> stack[i].1 + Height([stack[i].0]) <= MAX_IDENTIFIER_DEPTH + 1
  }

  lemma {:induction false} HeightOfOne(trees: seq<Tree<Word>>, k: nat)
    requires k < |trees|
    ensures Height([trees[k]]) <= Height(trees)
  {
    OneTree(trees[0]);
    if k > 0 {
      HeightOfOne(trees[1..], k - 1);
      OneTree(trees[k]);
    }
  }

  lemma {:induction false} StackFits(stack: seq<(Tree<Word>, nat)>)
    ensures |stack| <= SizeOnStack(stack)
  {
    if stack != [] {
      StackFits(stack[..|stack| - 1]);
      OneTree(stack[|stack| - 1].0);
    }
  }

  /** A tree that the budgets can hold. */
  ghost predicate IsSmall(root: Tree<Word>) {
    Sum(Each(), [root]) <= MAX_IDENTIFIER_NODE_VISITS && Height([root]) <= MAX_IDENTIFIER_DEPTH + 1
  }

  /** The name of the node at a path. */
  ghost function NameAt(root: Tree<Word>, p: Path): Option<string> {
    if NodeAt([root], p).Some? then Named(NodeAt([root], p).value.facts) else None
  }

  type Frame = Item<Word, ()>

  /** The stack, with the paths of its nodes. */
  ghost predicate Mirrors(stack: seq<(Tree<Word>, nat)>, items: seq<Frame>) {
    |stack| == |items| && forall i :: 0 <= i < |items| ==> FrameFits(stack[i], items[i])
  }

  ghost predicate FrameFits(frame: (Tree<Word>, nat), item: Frame) {
    item.path != [] && frame == (item.tree, |item.path| - 1)
  }

  ghost predicate AllNameless(root: Tree<Word>, visits: seq<Path>) {
    forall v :: 0 <= v < |visits| ==> NameAt(root, visits[v]) == None
  }

  ghost predicate WithinDepth(visits: seq<Path>) {
    forall v :: 0 <= v < |visits| ==> |visits[v]| <= MAX_IDENTIFIER_DEPTH + 1
  }

  /** Between two visits: visits without names, in order; and unless what waits uses up all visits, everything down to
      the greatest depth is visited or waits. */
  ghost predicate OnPaths(root: Tree<Word>, visits: seq<Path>, items: seq<Frame>) {
    && Ordered([root], visits, items) && Led(visits, items) && WithinDepth(visits) && AllNameless(root, visits)
    && (|visits| + |items| < MAX_IDENTIFIER_NODE_VISITS ==> Reaches(root, MAX_IDENTIFIER_DEPTH, visits, items))
  }

  /** The next items: the first n children of the top in place of it. */
  ghost function Next(items: seq<Frame>, n: nat): seq<Frame>
    requires items != [] && n <= |items[|items| - 1].tree.children|
  {
    var top := items[|items| - 1];
    items[..|items| - 1] + Pushed(top.tree.children[..n], (), top.path, 0)
  }

  lemma PathsStart(root: Tree<Word>) returns (items: seq<Frame>)
    ensures Mirrors([(root, 0)], items) && |items| == 1 && OnPaths(root, [], items)
  {
    items := [Item(root, (), [0])];
    assert NodeAt([root], [0]) == Some(root);
    LedStart(items[0]);
    ReachesFirst(root, MAX_IDENTIFIER_DEPTH, ());
  }

  lemma MirrorsJoined(stack: seq<(Tree<Word>, nat)>, items: seq<Frame>, stack': seq<(Tree<Word>, nat)>,
                      items': seq<Frame>)
    requires Mirrors(stack, items) && Mirrors(stack', items')
    ensures Mirrors(stack + stack', items + items')
  {
  }

  lemma StackNext(stack: seq<(Tree<Word>, nat)>, items: seq<Frame>, n: nat)
    requires stack != [] && Mirrors(stack, items) && n <= |stack[|stack| - 1].0.children|
    ensures n <= |items[|items| - 1].tree.children| && |Next(items, n)| == |items| - 1 + n
    ensures var (tree, depth) := stack[|stack| - 1];
      Mirrors(stack[..|stack| - 1] + Scheduled(tree.children, depth, n), Next(items, n))
  {
    var (tree, depth) := stack[|stack| - 1];
    var top, m := items[|items| - 1], |items| - 1;
    assert FrameFits(stack[m], top);
    var more, scheduled := Pushed(tree.children[..n], (), top.path, 0), Scheduled(tree.children, depth, n);
    PushedAt(tree.children[..n], (), top.path, 0);
    assert Next(items, n) == items[..m] + more;
    assert forall i :: 0 <= i < m ==> FrameFits(stack[..m][i], items[..m][i]) by {
      assert forall i :: 0 <= i < m ==> FrameFits(stack[i], items[i]);
    }
    assert forall i :: 0 <= i < n ==> FrameFits(scheduled[i], more[i]);
    MirrorsJoined(stack[..m], items[..m], scheduled, more);
  }

  lemma NamelessMore(root: Tree<Word>, visits: seq<Path>, p: Path)
    requires AllNameless(root, visits) && NameAt(root, p) == None
    ensures AllNameless(root, visits + [p])
  {
  }

  /** Visiting a node without a name. */
  lemma PathsStep(root: Tree<Word>, visits: seq<Path>, items: seq<Frame>, n: nat)
    requires items != [] && OnPaths(root, visits, items) && |visits| + |items| <= MAX_IDENTIFIER_NODE_VISITS
    requires var top := items[|items| - 1];
      && Named(top.tree.facts) == None && n <= |top.tree.children| && |top.path| <= MAX_IDENTIFIER_DEPTH + 1
      && top.path != [] && (n == |top.tree.children| || |top.path| > MAX_IDENTIFIER_DEPTH
                            || |visits| + |items| + n == MAX_IDENTIFIER_NODE_VISITS)
    requires |Next(items, n)| == |items| - 1 + n
    ensures OnPaths(root, visits + [items[|items| - 1].path], Next(items, n))
  {
    var top := items[|items| - 1];
    OrderedStep([root], visits, items, (), n);
    LedStep([root], visits, items, (), n, Next(items, n));
    NamelessMore(root, visits, top.path);
    if |visits| + |items| + n < MAX_IDENTIFIER_NODE_VISITS {
      ReachesNext(root, MAX_IDENTIFIER_DEPTH, visits, items, (), n, Next(items, n));
    }
  }

  /** Between two visits: nodes visited, waiting and lost make up the tree; without loss nothing that comes first is
      missed, and a tree within the budgets loses nothing. */
  ghost predicate Searching(root: Tree<Word>, stack: seq<(Tree<Word>, nat)>, visited: nat, lost: nat) {
    && visited + |stack| <= MAX_IDENTIFIER_NODE_VISITS
    && (forall i :: 0 <= i < |stack| ==> stack[i].1 <= MAX_IDENTIFIER_DEPTH)
    && visited + SizeOnStack(stack) + lost == Sum(Each(), [root])
    && (lost == 0 ==> FirstOnStack(stack) == First([root]))
    && (IsSmall(root) ==> lost == 0 && Low(stack))
  }

  lemma SearchStart(root: Tree<Word>)
    ensures Searching(root, [(root, 0)], 0, 0)
  {
    var stack := [(root, 0)];
    assert stack[..0] == [];
    OneTree(root);
    assert FirstOnStack(stack[..0]) == None && SizeOnStack(stack[..0]) == 0;
  }

  /** How many nodes are lost with the children that are not scheduled. */
  lemma LossCounts(children: seq<Tree<Word>>, n: nat)
    requires n <= |children|
    ensures Sum(Each(), children) == Sum(Each(), children[..n]) + Sum(Each(), children[n..])
    ensures Sum(Each(), children[n..]) > 0 <==> n < |children|
  {
    assert children == children[..n] + children[n..];
    SumSplit(Each(), children[..n], children[n..]);
  }

  lemma SameScheduled(children: seq<Tree<Word>>, depth: nat, n: nat)
    requires n <= |children|
    ensures Scheduled(children[..n], depth, n) == Scheduled(children, depth, n)
  {
  }

  lemma AllWouldFit(rest: seq<(Tree<Word>, nat)>, children: seq<Tree<Word>>, depth: nat)
    ensures |rest| + |children| <= Sum(Each(), children) + SizeOnStack(rest)
  {
    PushedAll(rest, children, depth);
    StackFits(rest + Scheduled(children, depth, |children|));
  }

  /** The stack after the first n children are pushed, and after all of them. */
  lemma PushedFirst(rest: seq<(Tree<Word>, nat)>, tree: Tree<Word>, depth: nat, n: nat)
    requires n <= |tree.children|
    ensures SizeOnStack(rest + Scheduled(tree.children, depth, n)) + Sum(Each(), tree.children[n..])
      == Sum(Each(), tree.children) + SizeOnStack(rest)
    ensures |rest| + |tree.children| <= Sum(Each(), tree.children) + SizeOnStack(rest)
  {
    LossCounts(tree.children, n);
    PushedAll(rest, tree.children[..n], depth);
    SameScheduled(tree.children, depth, n);
    AllWouldFit(rest, tree.children, depth);
  }

  lemma DepthsNext(stack: seq<(Tree<Word>, nat)>, n: nat, small: bool)
    requires stack != [] && n <= |stack[|stack| - 1].0.children|
    requires forall i :: 0 <= i < |stack| ==> stack[i].1 <= MAX_IDENTIFIER_DEPTH
    requires (small ==> Low(stack)) && (n > 0 ==> stack[|stack| - 1].1 < MAX_IDENTIFIER_DEPTH)
    ensures var (tree, depth) := stack[|stack| - 1];
      var next := stack[..|stack| - 1] + Scheduled(tree.children, depth, n);
      && (forall i :: 0 <= i < |next| ==> next[i].1 <= MAX_IDENTIFIER_DEPTH)
      && (small ==> Low(next))
  {
    var (tree, depth) := stack[|stack| - 1];
    var m := |stack| - 1;
    var next := stack[..m] + Scheduled(tree.children, depth, n);
    assert small ==> depth + Height([tree]) <= MAX_IDENTIFIER_DEPTH + 1;
    OneTree(tree);
    forall i | 0 <= i < |next|
      ensures next[i].1 <= MAX_IDENTIFIER_DEPTH
      ensures small ==> next[i].1 + Height([next[i].0]) <= MAX_IDENTIFIER_DEPTH + 1
    {
      if i < m {
        assert next[i] == stack[i];
      } else {
        HeightOfOne(tree.children, n - 1 - (i - m));
      }
    }
  }

  lemma {:induction false} FirstNext(stack: seq<(Tree<Word>, nat)>)
    requires stack != [] && Named(stack[|stack| - 1].0.facts) == None
    ensures var (tree, depth) := stack[|stack| - 1];
      FirstOnStack(stack[..|stack| - 1] + Scheduled(tree.children, depth, |tree.children|)) == FirstOnStack(stack)
  {
    var (tree, depth) := stack[|stack| - 1];
    OneTree(tree);
    PushedAll(stack[..|stack| - 1], tree.children, depth);
  }

  lemma SearchStep(root: Tree<Word>, stack: seq<(Tree<Word>, nat)>, visited: nat, lost: nat, n: nat)
    requires stack != [] && Searching(root, stack, visited, lost)
    requires var (tree, depth) := stack[|stack| - 1];
      && Named(tree.facts) == None && n <= |tree.children| && visited + |stack| + n <= MAX_IDENTIFIER_NODE_VISITS
      && (n > 0 ==> depth < MAX_IDENTIFIER_DEPTH)
      && (n < |tree.children| ==>
            depth == MAX_IDENTIFIER_DEPTH || visited + |stack| + |tree.children| > MAX_IDENTIFIER_NODE_VISITS)
    ensures var (tree, depth) := stack[|stack| - 1];
      Searching(root, stack[..|stack| - 1] + Scheduled(tree.children, depth, n), visited + 1,
                lost + Sum(Each(), tree.children[n..]))
  {
    var (tree, depth) := stack[|stack| - 1];
    OneTree(tree);
    PushedFirst(stack[..|stack| - 1], tree, depth, n);
    DepthsNext(stack, n, IsSmall(root));
    LossCounts(tree.children, n);
    FirstNext(stack);
    if IsSmall(root) && n < |tree.children| {
      assert Low(stack) && depth + Height([tree]) <= MAX_IDENTIFIER_DEPTH + 1;
      TallTree(tree.children);
    }
  }

  lemma TallTree(trees: seq<Tree<Word>>)
    requires trees != []
    ensures Height(trees) >= 1
  {
  }

  /** The nodes that a search visits: in reading order, none without its parent and its earlier siblings, all nameless
      before the last, which has the name found. */
  ghost predicate IsSearch(root: Tree<Word>, visits: seq<Path>, found: Option<string>) {
    && InReadingOrder(visits) && (forall v :: 0 <= v < |visits| ==> NodeAt([root], visits[v]).Some?)
    && FromTheFront(visits) && WithinDepth(visits) && 0 < |visits| <= MAX_IDENTIFIER_NODE_VISITS
    && AllNameless(root, visits[..|visits| - 1]) && NameAt(root, visits[|visits| - 1]) == found
  }

  lemma NothingFound(root: Tree<Word>, visits: seq<Path>, items: seq<Frame>)
    requires OnPaths(root, visits, items) && items == [] && 0 < |visits| <= MAX_IDENTIFIER_NODE_VISITS
    ensures IsSearch(root, visits, None)
    ensures |visits| < MAX_IDENTIFIER_NODE_VISITS ==> ReachesAll(root, MAX_IDENTIFIER_DEPTH, visits)
  {
  }

  lemma NameFound(root: Tree<Word>, visits: seq<Path>, items: seq<Frame>)
    requires items != [] && OnPaths(root, visits, items) && |visits| + |items| <= MAX_IDENTIFIER_NODE_VISITS
    requires var top := items[|items| - 1];
      Named(top.tree.facts).Some? && top.path != [] && |top.path| <= MAX_IDENTIFIER_DEPTH + 1
    ensures IsSearch(root, visits + [items[|items| - 1].path], Named(items[|items| - 1].tree.facts))
  {
    var top := items[|items| - 1];
    var all := visits + [top.path];
    OrderedStep([root], visits, items, (), 0);
    LedStep([root], visits, items, (), 0, Next(items, 0));
    assert all[..|all| - 1] == visits;
  }

  /** All that is known between two visits. */
  ghost predicate Midway(root: Tree<Word>, stack: seq<(Tree<Word>, nat)>, visits: seq<Path>, items: seq<Frame>,
                         lost: nat) {
    && Searching(root, stack, |visits|, lost) && Mirrors(stack, items) && OnPaths(root, visits, items)
    && (visits != [] || stack != [])
  }

  lemma MidwayStart(root: Tree<Word>) returns (items: seq<Frame>)
    ensures Midway(root, [(root, 0)], [], items, 0)
  {
    items := PathsStart(root);
    SearchStart(root);
  }

  /** How many children are scheduled: none at the greatest depth, else all that the visits left allow. */
  ghost predicate AsManyAsFit(n: nat, depth: nat, count: nat, taken: nat) {
    if depth >= MAX_IDENTIFIER_DEPTH then n == 0
    else
      && n <= count && taken + n <= MAX_IDENTIFIER_NODE_VISITS
      && (n < count ==> taken + n == MAX_IDENTIFIER_NODE_VISITS)
  }

  lemma LossNext(root: Tree<Word>, stack: seq<(Tree<Word>, nat)>, visited: nat, lost: nat, n: nat) returns (lost': nat)
    requires stack != [] && Searching(root, stack, visited, lost)
    requires var (tree, depth) := stack[|stack| - 1];
      Named(tree.facts) == None && AsManyAsFit(n, depth, |tree.children|, visited + |stack|)
    ensures var (tree, depth) := stack[|stack| - 1];
      && Searching(root, stack[..|stack| - 1] + Scheduled(tree.children, depth, n), visited + 1, lost')
      && (lost' > 0 <==> lost > 0 || n < |tree.children|)
  {
    var (tree, depth) := stack[|stack| - 1];
    SearchStep(root, stack, visited, lost, n);
    LossCounts(tree.children, n);
    lost' := lost + Sum(Each(), tree.children[n..]);
  }

  lemma PathsNext(root: Tree<Word>, stack: seq<(Tree<Word>, nat)>, visits: seq<Path>, items: seq<Frame>, n: nat)
    returns (visits': seq<Path>, items': seq<Frame>)
    requires stack != [] && Mirrors(stack, items) && OnPaths(root, visits, items)
    requires stack[|stack| - 1].1 <= MAX_IDENTIFIER_DEPTH && |visits| + |stack| <= MAX_IDENTIFIER_NODE_VISITS
    requires var (tree, depth) := stack[|stack| - 1];
      Named(tree.facts) == None && AsManyAsFit(n, depth, |tree.children|, |visits| + |stack|)
    ensures |visits'| == |visits| + 1 && OnPaths(root, visits', items')
    ensures var (tree, depth) := stack[|stack| - 1];
      Mirrors(stack[..|stack| - 1] + Scheduled(tree.children, depth, n), items')
  {
    var top := items[|items| - 1];
    assert FrameFits(stack[|stack| - 1], top);
    StackNext(stack, items, n);
    PathsStep(root, visits, items, n);
    visits', items' := visits + [top.path], Next(items, n);
  }

  lemma MidwayStep(root: Tree<Word>, stack: seq<(Tree<Word>, nat)>, visits: seq<Path>, items: seq<Frame>, lost: nat,
                   n: nat)
    returns (visits': seq<Path>, items': seq<Frame>, lost': nat)
    requires stack != [] && Midway(root, stack, visits, items, lost)
    requires var (tree, depth) := stack[|stack| - 1];
      Named(tree.facts) == None && AsManyAsFit(n, depth, |tree.children|, |visits| + |stack|)
    ensures |visits'| == |visits| + 1
    ensures var (tree, depth) := stack[|stack| - 1];
      && Midway(root, stack[..|stack| - 1] + Scheduled(tree.children, depth, n), visits', items', lost')
      && (lost' > 0 <==> lost > 0 || n < |tree.children|)
  {
    visits', items' := PathsNext(root, stack, visits, items, n);
    lost' := LossNext(root, stack, |visits|, lost, n);
  }

  lemma NameOnTop(stack: seq<(Tree<Word>, nat)>)
    requires stack != []
    ensures SizeOnStack(stack) >= 1
    ensures Named(stack[|stack| - 1].0.facts).Some? ==> FirstOnStack(stack) == Named(stack[|stack| - 1].0.facts)
  {
    OneTree(stack[|stack| - 1].0);
  }

  lemma MidwayFound(root: Tree<Word>, stack: seq<(Tree<Word>, nat)>, visits: seq<Path>, items: seq<Frame>, lost: nat)
    returns (visits': seq<Path>)
    requires stack != [] && Midway(root, stack, visits, items, lost)
    requires Named(stack[|stack| - 1].0.facts).Some?
    ensures IsSearch(root, visits', Named(stack[|stack| - 1].0.facts)) && |visits'| + lost <= Sum(Each(), [root])
    ensures lost == 0 ==> First([root]) == Named(stack[|stack| - 1].0.facts)
  {
    assert FrameFits(stack[|stack| - 1], items[|items| - 1]);
    NameFound(root, visits, items);
    NameOnTop(stack);
    visits' := visits + [items[|items| - 1].path];
  }

  /** What is found is the name of the first node with one among those visited. Without the flag it is the first
      identifier in preorder. When nothing is found, all visits were used or every node down to the greatest depth was
      visited, and the flag is set exactly when some node was not. A tree within the budgets never sets the flag. */
  method FirstIdentifier(root: Tree<Word>) returns (found: Option<string>, truncated: bool, ghost visits: seq<Path>)
    ensures IsSearch(root, visits, found)
    ensures !truncated ==> found == First([root])
    ensures found == None ==>
      |visits| == MAX_IDENTIFIER_NODE_VISITS || ReachesAll(root, MAX_IDENTIFIER_DEPTH, visits)
    ensures truncated ==> |visits| < Sum(Each(), [root])
    ensures found == None && !truncated ==> |visits| == Sum(Each(), [root])
    ensures IsSmall(root) ==> !truncated
  {
    truncated, visits := false, [];
    var visited, stack := 0, [(root, 0)];
    ghost var lost: nat := 0;
    ghost var items := MidwayStart(root);
    while stack != []
      invariant visited == |visits| && (truncated <==> lost > 0)
      invariant Midway(root, stack, visits, items, lost)
      decreases MAX_IDENTIFIER_NODE_VISITS - visited
    {
      ghost var before := stack;
      var (current, depth) := stack[|stack| - 1];
      stack := stack[..|stack| - 1];
      if visited >= MAX_IDENTIFIER_NODE_VISITS { assert false; }
      if depth > MAX_IDENTIFIER_DEPTH { assert false; }
      if current.facts.Identifier? && current.facts.text != "" {
        visits := MidwayFound(root, before, visits, items, lost);
        return Some(current.facts.text), truncated, visits;
      }
      visited := visited + 1;
      var count, scheduled := |current.children|, 0;
      if depth < MAX_IDENTIFIER_DEPTH {
        var remaining := MAX_IDENTIFIER_NODE_VISITS - visited - |stack|;
        scheduled := if count <= remaining then count else remaining;
      }
      visits, items, lost := MidwayStep(root, before, visits, items, lost, scheduled);
      if scheduled < count { truncated := true; }
      stack := Schedule(stack, current.children, depth, scheduled);
    }
    NothingFound(root, visits, items);
    found := None;
  }

  method Schedule(stack: seq<(Tree<Word>, nat)>, children: seq<Tree<Word>>, depth: nat, n: nat)
    returns (pushed: seq<(Tree<Word>, nat)>)
    requires n <= |children|
    ensures pushed == stack + Scheduled(children, depth, n)
  {
    pushed := stack;
    for index := n downto 0
      invariant pushed == stack + Scheduled(children, depth, n)[..n - index]
    {
      pushed := pushed + [(children[index], depth + 1)];
      assert Scheduled(children, depth, n)[n - 1 - index] == (children[index], depth + 1);
    }
  }
}
