/** Ordered trees: walking them by recursion, and walking them with an explicit stack. */
module TreeWalk {
  import opened Options

  datatype Tree<F> = Node(facts: F, children: seq<Tree<F>>)

  /** Where a node is: the ordinals to follow from a list of trees. */
  type Path = seq<nat>

  /** What a visit does to the state, and the context it passes to the children of the node. */
  type Step<!S, !F, !C> = (S, F, C, Path) -> (S, C)

  ghost function Walk<S, F, C>(step: Step<S, F, C>, s: S, tree: Tree<F>, c: C, path: Path): S
    decreases tree
  {
    var (after, context) := step(s, tree.facts, c, path);
    WalkAll(step, after, tree.children, context, path, 0)
  }

  ghost function WalkAll<S, F, C>(step: Step<S, F, C>, s: S, trees: seq<Tree<F>>, c: C, parent: Path, ordinal: nat): S
    decreases trees
  {
    if trees == [] then s
    else WalkAll(step, Walk(step, s, trees[0], c, parent + [ordinal]), trees[1..], c, parent, ordinal + 1)
  }

  // ---------- the stack ----------

  datatype Item<F, C> = Item(tree: Tree<F>, context: C, path: Path)

  /** Walking what is on the stack, from the top. */
  ghost function WalkStack<S, F, C>(step: Step<S, F, C>, s: S, items: seq<Item<F, C>>): S {
    if items == [] then s
    else
      var n := |items| - 1;
      WalkStack(step, Walk(step, s, items[n].tree, items[n].context, items[n].path), items[..n])
  }

  /** Children in the order they are pushed: the first one ends on top. */
  ghost function Pushed<F, C>(trees: seq<Tree<F>>, c: C, parent: Path, ordinal: nat): seq<Item<F, C>> {
    if trees == [] then [] else Pushed(trees[1..], c, parent, ordinal + 1) + [Item(trees[0], c, parent + [ordinal])]
  }

  /** Pushing the children and going on with the stack is walking the children and then the stack. */
  lemma {:induction false} WalkPushed<S, F, C>(step: Step<S, F, C>, s: S, items: seq<Item<F, C>>,
                                               trees: seq<Tree<F>>, c: C, parent: Path, ordinal: nat)
    ensures WalkStack(step, s, items + Pushed(trees, c, parent, ordinal))
         == WalkStack(step, WalkAll(step, s, trees, c, parent, ordinal), items)
    decreases |trees|
  {
    if trees == [] {
      assert items + Pushed(trees, c, parent, ordinal) == items;
    } else {
      var rest := Pushed(trees[1..], c, parent, ordinal + 1);
      var all := items + Pushed(trees, c, parent, ordinal);
      assert all == (items + rest) + [Item(trees[0], c, parent + [ordinal])];
      assert all[..|all| - 1] == items + rest;
      WalkPushed(step, Walk(step, s, trees[0], c, parent + [ordinal]), items, trees[1..], c, parent, ordinal + 1);
    }
  }

  lemma {:induction false} PushedAt<F, C>(trees: seq<Tree<F>>, c: C, parent: Path, ordinal: nat)
    ensures |Pushed(trees, c, parent, ordinal)| == |trees|
    ensures forall i :: 0 <= i < |trees| ==>
      Pushed(trees, c, parent, ordinal)[i] == Item(trees[|trees| - 1 - i], c, parent + [ordinal + |trees| - 1 - i])
    decreases |trees|
  {
    if trees != [] {
      PushedAt(trees[1..], c, parent, ordinal + 1);
      var rest, all := Pushed(trees[1..], c, parent, ordinal + 1), Pushed(trees, c, parent, ordinal);
      forall i | 0 <= i < |trees|
        ensures all[i] == Item(trees[|trees| - 1 - i], c, parent + [ordinal + |trees| - 1 - i])
      {
        if i < |trees| - 1 { assert all[i] == rest[i]; }
      }
    }
  }

  // ---------- sums over nodes ----------

  /** One for each node. */
  ghost function Each<F>(): F -> nat {
    (f: F) => 1
  }

  ghost function Sum<F>(weight: F -> nat, trees: seq<Tree<F>>): nat {
    if trees == [] then 0 else weight(trees[0].facts) + Sum(weight, trees[0].children) + Sum(weight, trees[1..])
  }

  ghost function SumStack<F, C>(weight: F -> nat, items: seq<Item<F, C>>): nat {
    if items == [] then 0 else SumStack(weight, items[..|items| - 1]) + Sum(weight, [items[|items| - 1].tree])
  }

  lemma {:induction false} SumSplit<F>(weight: F -> nat, a: seq<Tree<F>>, b: seq<Tree<F>>)
    ensures Sum(weight, a + b) == Sum(weight, a) + Sum(weight, b)
    decreases |a|
  {
    if a == [] {
      assert a + b == b;
    } else {
      SumSplit(weight, a[1..], b);
      assert (a + b)[1..] == a[1..] + b;
    }
  }

  lemma SumOne<F>(weight: F -> nat, tree: Tree<F>)
    ensures Sum(weight, [tree]) == weight(tree.facts) + Sum(weight, tree.children)
  {
    assert [tree][1..] == [];
  }

  /** A stack of one frame. */
  lemma OneItem<S, F, C>(step: Step<S, F, C>, s: S, weight: F -> nat, each: F -> nat, item: Item<F, C>)
    ensures WalkStack(step, s, [item]) == Walk(step, s, item.tree, item.context, item.path)
    ensures SumStack(weight, [item]) == Sum(weight, [item.tree]) && SumStack(each, [item]) == Sum(each, [item.tree])
  {
    assert [item][..0] == [];
  }

  lemma {:induction false} SumPushed<F, C>(weight: F -> nat, items: seq<Item<F, C>>, trees: seq<Tree<F>>, c: C,
                                           parent: Path, ordinal: nat)
    ensures SumStack(weight, items + Pushed(trees, c, parent, ordinal)) == SumStack(weight, items) + Sum(weight, trees)
    decreases |trees|
  {
    var all := items + Pushed(trees, c, parent, ordinal);
    if trees == [] {
      assert all == items;
    } else {
      SumPushed(weight, items, trees[1..], c, parent, ordinal + 1);
      assert all[..|all| - 1] == items + Pushed(trees[1..], c, parent, ordinal + 1);
      SumOne(weight, trees[0]);
    }
  }

  // ---------- preorder ----------

  /** The node that a path leads to. */
  ghost function NodeAt<F>(trees: seq<Tree<F>>, path: Path): Option<Tree<F>> {
    if path == [] || path[0] >= |trees| then None
    else if |path| == 1 then Some(trees[path[0]])
    else NodeAt(trees[path[0]].children, path[1..])
  }

  /** The paths of all nodes: a node, then everything below it, then its later siblings. */
  ghost function Preorder<F>(trees: seq<Tree<F>>, parent: Path, ordinal: nat): seq<Path> {
    if trees == [] then []
    else
      [parent + [ordinal]] + Preorder(trees[0].children, parent + [ordinal], 0)
      + Preorder(trees[1..], parent, ordinal + 1)
  }

  ghost function AllPaths<F>(tree: Tree<F>): seq<Path> {
    Preorder([tree], [], 0)
  }

  /** Reading order: a node comes before what is below it, and an earlier sibling before a later one. */
  predicate Precedes(p: Path, q: Path) {
    if q == [] then false
    else if p == [] then true
    else if p[0] != q[0] then p[0] < q[0]
    else Precedes(p[1..], q[1..])
  }

  ghost predicate InReadingOrder(paths: seq<Path>) {
    forall i, j :: 0 <= i < j < |paths| ==> Precedes(paths[i], paths[j])
  }

  lemma {:induction false} PrecedesTransitive(p: Path, q: Path, r: Path)
    requires Precedes(p, q) && Precedes(q, r)
    ensures Precedes(p, r)
  {
    if p != [] && p[0] == q[0] == r[0] { PrecedesTransitive(p[1..], q[1..], r[1..]); }
  }

  lemma {:induction false} PrecedesIrreflexive(p: Path)
    ensures !Precedes(p, p)
  {
    if p != [] { PrecedesIrreflexive(p[1..]); }
  }

  /** Below one node: the order is that of the first ordinals, and the node itself comes first. */
  lemma {:induction false} PrecedesBelow(parent: Path, a: nat, b: nat, p: Path, q: Path)
    ensures Precedes(parent, parent + [b] + q)
    ensures a < b ==> Precedes(parent + [a] + p, parent + [b] + q)
    ensures a < b ==> !(parent + [a] <= parent + [b] + q)
  {
    var x, y := parent + [a] + p, parent + [b] + q;
    if parent != [] {
      PrecedesBelow(parent[1..], a, b, p, q);
      assert x[1..] == parent[1..] + [a] + p && y[1..] == parent[1..] + [b] + q;
      assert parent + [a] == [parent[0]] + (parent[1..] + [a]);
      assert y == [parent[0]] + (parent[1..] + [b] + q);
      assert parent + [a] <= y ==> parent[1..] + [a] <= parent[1..] + [b] + q by {
        if parent + [a] <= y { assert (parent + [a])[1..] == y[1..][..|parent|]; }
      }
    } else {
      assert y[0] == b && x[0] == a && (parent + [a])[0] == a;
      assert parent + [a] <= y ==> (parent + [a])[0] == y[0];
    }
  }

  /** What follows a node without being below it also follows everything below the node. */
  lemma {:induction false} PrecedesFromBelow(p: Path, q: Path, more: Path)
    requires Precedes(p, q) && !(p <= q)
    ensures Precedes(p + more, q) && !(p + more <= q)
  {
    PrefixByHead(p, q);
    PrefixByHead(p + more, q);
    if p != [] {
      assert (p + more)[1..] == p[1..] + more;
      if p[0] == q[0] { PrecedesFromBelow(p[1..], q[1..], more); }
    }
  }

  lemma PrefixByHead(p: Path, q: Path)
    requires q != []
    ensures p <= q <==> p == [] || (p[0] == q[0] && p[1..] <= q[1..])
  {
    if p != [] {
      assert p == [p[0]] + p[1..] && q == [q[0]] + q[1..];
      if p <= q { assert p[1..] == q[1..][..|p| - 1]; }
    }
  }

  /** Preorder lists the paths below a parent from an ordinal on, in reading order, and no others. */
  ghost predicate IsBelow(parent: Path, ordinal: nat, path: Path) {
    parent < path && path[|parent|] >= ordinal
  }

  lemma {:induction false} PreorderBelow<F>(trees: seq<Tree<F>>, parent: Path, ordinal: nat)
    ensures forall i :: 0 <= i < |Preorder(trees, parent, ordinal)| ==>
      IsBelow(parent, ordinal, Preorder(trees, parent, ordinal)[i])
  {
    if trees != [] {
      var here := parent + [ordinal];
      PreorderBelow(trees[0].children, here, 0);
      PreorderBelow(trees[1..], parent, ordinal + 1);
      var inner, later := Preorder(trees[0].children, here, 0), Preorder(trees[1..], parent, ordinal + 1);
      forall i | 0 <= i < |inner| ensures IsBelow(parent, ordinal, inner[i]) {
        assert IsBelow(here, 0, inner[i]);
        assert inner[i][..|parent| + 1] == here;
      }
      forall i | 0 <= i < |later| ensures IsBelow(parent, ordinal, later[i]) {
        assert IsBelow(parent, ordinal + 1, later[i]);
      }
    }
  }

  lemma {:induction false} PreorderInOrder<F>(trees: seq<Tree<F>>, parent: Path, ordinal: nat)
    ensures InReadingOrder(Preorder(trees, parent, ordinal))
  {
    if trees != [] {
      var here := parent + [ordinal];
      var inner, later := Preorder(trees[0].children, here, 0), Preorder(trees[1..], parent, ordinal + 1);
      PreorderInOrder(trees[0].children, here, 0);
      PreorderInOrder(trees[1..], parent, ordinal + 1);
      PreorderBelow(trees[0].children, here, 0);
      PreorderBelow(trees[1..], parent, ordinal + 1);
      forall i | 0 <= i < |inner| ensures Precedes(here, inner[i]) { BelowFollows(here, 0, inner[i]); }
      forall i, j | 0 <= i < |inner| && 0 <= j < |later| ensures Precedes(inner[i], later[j]) {
        SiblingsOrdered(parent, ordinal, inner[i], later[j]);
      }
      forall j | 0 <= j < |later| ensures Precedes(here, later[j]) { SiblingFollows(parent, ordinal, later[j]); }
      Concatenated(here, inner, later);
    }
  }

  lemma {:induction false} BelowFollows(parent: Path, ordinal: nat, path: Path)
    requires IsBelow(parent, ordinal, path)
    ensures Precedes(parent, path)
  {
    assert path == parent + [path[|parent|]] + path[|parent| + 1..];
    PrecedesBelow(parent, 0, path[|parent|], [], path[|parent| + 1..]);
  }

  lemma SiblingFollows(parent: Path, ordinal: nat, path: Path)
    requires IsBelow(parent, ordinal + 1, path)
    ensures Precedes(parent + [ordinal], path)
  {
    assert path == parent + [path[|parent|]] + path[|parent| + 1..];
    PrecedesBelow(parent, ordinal, path[|parent|], [], path[|parent| + 1..]);
    assert parent + [ordinal] + [] == parent + [ordinal];
  }

  lemma SiblingsOrdered(parent: Path, ordinal: nat, p: Path, q: Path)
    requires IsBelow(parent + [ordinal], 0, p) && IsBelow(parent, ordinal + 1, q)
    ensures Precedes(p, q)
  {
    var n := |parent|;
    assert p[..n + 1] == parent + [ordinal];
    assert p == parent + [ordinal] + p[n + 1..] && q == parent + [q[n]] + q[n + 1..];
    PrecedesBelow(parent, ordinal, q[n], p[n + 1..], q[n + 1..]);
  }

  lemma Concatenated(here: Path, inner: seq<Path>, later: seq<Path>)
    requires InReadingOrder(inner) && InReadingOrder(later)
    requires forall i :: 0 <= i < |inner| ==> Precedes(here, inner[i])
    requires forall j :: 0 <= j < |later| ==> Precedes(here, later[j])
    requires forall i, j :: 0 <= i < |inner| && 0 <= j < |later| ==> Precedes(inner[i], later[j])
    ensures InReadingOrder([here] + inner + later)
  {
    var all := [here] + inner + later;
    assert forall i :: 0 <= i < |all| ==>
      all[i] == if i == 0 then here else if i <= |inner| then inner[i - 1] else later[i - 1 - |inner|];
  }

  /** A path below the parent is in the list of a forest when it is the first tree's own, or in that tree, or in a later
      one. */
  lemma InPreorder<F>(trees: seq<Tree<F>>, parent: Path, ordinal: nat, path: Path)
    requires trees != [] && path != []
    ensures parent + path in Preorder(trees, parent, ordinal) <==>
      if path[0] == ordinal then
        |path| == 1 || parent + [ordinal] + path[1..] in Preorder(trees[0].children, parent + [ordinal], 0)
      else parent + path in Preorder(trees[1..], parent, ordinal + 1)
  {
    var here, whole := parent + [ordinal], parent + path;
    var inner, later := Preorder(trees[0].children, here, 0), Preorder(trees[1..], parent, ordinal + 1);
    PreorderBelow(trees[0].children, here, 0);
    PreorderBelow(trees[1..], parent, ordinal + 1);
    assert whole[|parent|] == path[0];
    assert path[0] == ordinal ==> whole == here + path[1..];
    assert whole in inner ==> whole[..|parent| + 1][|parent|] == ordinal;
    assert whole == here <==> path[0] == ordinal && |path| == 1 by {
      if whole == here { assert path == whole[|parent|..] == [ordinal]; }
    }
  }

  /** Where the first number of a path leads. */
  lemma NodeAtFirst<F>(trees: seq<Tree<F>>, k: nat, rest: Path)
    requires trees != []
    ensures k > 0 ==> NodeAt(trees, [k] + rest) == NodeAt(trees[1..], [k - 1] + rest)
    ensures k == 0 && rest != [] ==> NodeAt(trees, [k] + rest) == NodeAt(trees[0].children, rest)
  {
    assert ([k] + rest)[1..] == rest;
    if k > 0 { assert ([k - 1] + rest)[1..] == rest; }
  }

  /** Everything listed is a node and every node is listed. */
  lemma {:induction false} PreorderComplete<F>(trees: seq<Tree<F>>, parent: Path, ordinal: nat, path: Path)
    requires path != []
    ensures parent + path in Preorder(trees, parent, ordinal) <==>
      path[0] >= ordinal && NodeAt(trees, [path[0] - ordinal] + path[1..]).Some?
  {
    if trees != [] {
      InPreorder(trees, parent, ordinal, path);
      if path[0] >= ordinal { NodeAtFirst(trees, path[0] - ordinal, path[1..]); }
      if path[0] == ordinal {
        if |path| > 1 {
          PreorderComplete(trees[0].children, parent + [ordinal], 0, path[1..]);
          assert [path[1]] + path[1..][1..] == path[1..];
        }
      } else {
        PreorderComplete(trees[1..], parent, ordinal + 1, path);
      }
    }
  }

  /** The list of all paths: each node of the tree once, in reading order. */
  lemma AllPathsAreNodes<F>(tree: Tree<F>)
    ensures InReadingOrder(AllPaths(tree))
    ensures forall p :: p in AllPaths(tree) <==> NodeAt([tree], p).Some?
    ensures |AllPaths(tree)| == Sum(Each(), [tree])
  {
    PreorderInOrder([tree], [], 0);
    PreorderCount([tree], [], 0);
    forall p: Path ensures p in AllPaths(tree) <==> NodeAt([tree], p).Some? {
      PreorderBelow([tree], [], 0);
      if p != [] {
        PreorderComplete([tree], [], 0, p);
        assert [] + p == p == [p[0]] + p[1..];
      }
    }
  }

  lemma {:induction false} PreorderCount<F>(trees: seq<Tree<F>>, parent: Path, ordinal: nat)
    ensures |Preorder(trees, parent, ordinal)| == Sum(Each(), trees)
  {
    if trees != [] {
      PreorderCount(trees[0].children, parent + [ordinal], 0);
      PreorderCount(trees[1..], parent, ordinal + 1);
    }
  }

  // ---------- a stack in mid-walk ----------

  /** What was visited is in reading order, what is on the stack comes later, and every item is the node at its path. */
  ghost predicate Ordered<F, C>(roots: seq<Tree<F>>, visits: seq<Path>, items: seq<Item<F, C>>) {
    && InReadingOrder(visits)
    && (forall v :: 0 <= v < |visits| ==> NodeAt(roots, visits[v]).Some?)
    && (forall i :: 0 <= i < |items| ==> NodeAt(roots, items[i].path) == Some(items[i].tree))
    && (forall v, i :: 0 <= v < |visits| && 0 <= i < |items| ==> Precedes(visits[v], items[i].path))
    && Descending(items)
  }

  /** From the top down, items come one after the other and none is below another. */
  ghost predicate Descending<F, C>(items: seq<Item<F, C>>) {
    forall i, j :: 0 <= i < j < |items| ==> Precedes(items[j].path, items[i].path) && !(items[j].path <= items[i].path)
  }

  lemma {:induction false} NodeAtChild<F>(roots: seq<Tree<F>>, path: Path, k: nat)
    requires NodeAt(roots, path).Some? && k < |NodeAt(roots, path).value.children|
    ensures NodeAt(roots, path + [k]) == Some(NodeAt(roots, path).value.children[k])
  {
    if |path| == 1 {
      assert (path + [k])[1..] == [k];
    } else {
      NodeAtChild(roots[path[0]].children, path[1..], k);
      assert (path + [k])[1..] == path[1..] + [k];
    }
  }

  /** What is below a node is below one of its children. */
  lemma {:induction false} NodeBelow<F>(roots: seq<Tree<F>>, path: Path, k: nat, rest: Path)
    requires NodeAt(roots, path).Some? && NodeAt(roots, path + [k] + rest).Some?
    ensures k < |NodeAt(roots, path).value.children|
  {
    var whole := path + [k] + rest;
    assert whole[1..] == path[1..] + [k] + rest;
    if |path| > 1 { NodeBelow(roots[path[0]].children, path[1..], k, rest); }
  }

  /** A pushed item is the node at its path and comes after what was visited, before the rest of the stack, and after
      the items pushed later. */
  ghost predicate ItemFits<F, C>(roots: seq<Tree<F>>, visits: seq<Path>, rest: seq<Item<F, C>>,
                                 pushed: seq<Item<F, C>>, i: nat)
    requires i < |pushed|
  {
    && NodeAt(roots, pushed[i].path) == Some(pushed[i].tree)
    && (forall v :: 0 <= v < |visits| ==> Precedes(visits[v], pushed[i].path))
    && (forall k :: 0 <= k < |rest| ==> Precedes(pushed[i].path, rest[k].path) && !(pushed[i].path <= rest[k].path))
    && forall j :: i < j < |pushed| ==>
         Precedes(pushed[j].path, pushed[i].path) && !(pushed[j].path <= pushed[i].path)
  }

  /** Visiting the top item and pushing any first part of its children keeps the order. */
  lemma OrderedStep<F, C>(roots: seq<Tree<F>>, visits: seq<Path>, items: seq<Item<F, C>>, c: C, n: nat)
    requires items != [] && Ordered(roots, visits, items) && n <= |items[|items| - 1].tree.children|
    ensures var top := items[|items| - 1];
      Ordered(roots, visits + [top.path], items[..|items| - 1] + Pushed(top.tree.children[..n], c, top.path, 0))
  {
    var top, rest := items[|items| - 1], items[..|items| - 1];
    var pushed := Pushed(top.tree.children[..n], c, top.path, 0);
    PushedAt(top.tree.children[..n], c, top.path, 0);
    assert items == rest + [top];
    TopVisited(roots, visits, rest, top);
    forall i | 0 <= i < n ensures ItemFits(roots, visits + [top.path], rest, pushed, i) {
      PushedItem(roots, visits, rest, top, pushed[i], n - 1 - i);
      forall j | i < j < n ensures Precedes(pushed[j].path, pushed[i].path) && !(pushed[j].path <= pushed[i].path) {
        SiblingsInOrder(top.path, n - 1 - j, n - 1 - i);
      }
    }
    StackedOrdered(roots, visits + [top.path], rest, pushed);
  }

  lemma TopVisited<F, C>(roots: seq<Tree<F>>, visits: seq<Path>, rest: seq<Item<F, C>>, top: Item<F, C>)
    requires Ordered(roots, visits, rest + [top])
    ensures Ordered(roots, visits + [top.path], rest)
  {
    var items, more := rest + [top], visits + [top.path];
    assert items[|rest|] == top && more[|visits|] == top.path;
    assert forall i :: 0 <= i < |rest| ==> items[i] == rest[i];
    assert forall v :: 0 <= v < |visits| ==> more[v] == visits[v];
  }

  lemma SiblingsInOrder(parent: Path, i: nat, j: nat)
    requires i < j
    ensures Precedes(parent + [i], parent + [j]) && !(parent + [i] <= parent + [j])
  {
    PrecedesBelow(parent, i, j, [], []);
    assert parent + [i] + [] == parent + [i] && parent + [j] + [] == parent + [j];
    assert (parent + [i])[|parent|] == i && (parent + [j])[|parent|] == j;
  }

  lemma PushedItem<F, C>(roots: seq<Tree<F>>, visits: seq<Path>, rest: seq<Item<F, C>>, top: Item<F, C>,
                         child: Item<F, C>, k: nat)
    requires Ordered(roots, visits, rest + [top])
    requires k < |top.tree.children| && child.tree == top.tree.children[k] && child.path == top.path + [k]
    ensures NodeAt(roots, child.path) == Some(child.tree)
    ensures forall v :: 0 <= v < |visits + [top.path]| ==> Precedes((visits + [top.path])[v], child.path)
    ensures forall i :: 0 <= i < |rest| ==> Precedes(child.path, rest[i].path) && !(child.path <= rest[i].path)
  {
    var items := rest + [top];
    assert items[|rest|] == top;
    NodeAtChild(roots, top.path, k);
    PrecedesBelow(top.path, k, k, [], []);
    assert top.path + [k] + [] == child.path;
    forall v | 0 <= v < |visits|
      ensures Precedes(visits[v], child.path)
    {
      PrecedesTransitive(visits[v], top.path, child.path);
    }
    forall i | 0 <= i < |rest| ensures Precedes(child.path, rest[i].path) && !(child.path <= rest[i].path) {
      assert items[i] == rest[i];
      PrecedesFromBelow(top.path, rest[i].path, [k]);
    }
  }

  lemma StackedOrdered<F, C>(roots: seq<Tree<F>>, visits: seq<Path>, rest: seq<Item<F, C>>, pushed: seq<Item<F, C>>)
    requires Ordered(roots, visits, rest)
    requires forall i :: 0 <= i < |pushed| ==> ItemFits(roots, visits, rest, pushed, i)
    ensures Ordered(roots, visits, rest + pushed)
  {
    var all := rest + pushed;
    assert forall i :: 0 <= i < |rest| ==> all[i] == rest[i];
    assert forall i :: 0 <= i < |pushed| ==> all[|rest| + i] == pushed[i];
    forall i, j | 0 <= i < j < |all| ensures Precedes(all[j].path, all[i].path) && !(all[j].path <= all[i].path) {
      if i >= |rest| {
        assert ItemFits(roots, visits, rest, pushed, i - |rest|);
      } else if j >= |rest| {
        assert ItemFits(roots, visits, rest, pushed, j - |rest|);
      }
    }
    forall i | |rest| <= i < |all| ensures NodeAt(roots, all[i].path) == Some(all[i].tree) {
      assert ItemFits(roots, visits, rest, pushed, i - |rest|);
    }
    forall v, i | 0 <= v < |visits| && 0 <= i < |all| ensures Precedes(visits[v], all[i].path) {
      if i >= |rest| { assert ItemFits(roots, visits, rest, pushed, i - |rest|); }
    }
  }
}
