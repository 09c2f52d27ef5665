/** What a walk with a stack reaches when some children are never scheduled. */
module PartialWalk {
  import opened Options
  import opened TreeWalk
  import Seqs

  // ---------- everything down to a depth ----------

  /** Every node down to the greatest depth is visited, or is waiting or below something that waits. */
  ghost predicate Reaches<F, C>(root: Tree<F>, deepest: nat, visits: seq<Path>, items: seq<Item<F, C>>) {
    forall p :: NodeAt([root], p).Some? && |p| <= deepest + 1 ==> p in visits || IsAwaited(items, p)
  }

  ghost predicate IsAwaited<F, C>(items: seq<Item<F, C>>, p: Path) {
    exists i :: 0 <= i < |items| && items[i].path <= p
  }

  ghost predicate ReachesAll<F>(root: Tree<F>, deepest: nat, visits: seq<Path>) {
    forall p :: NodeAt([root], p).Some? && |p| <= deepest + 1 ==> p in visits
  }

  lemma ReachesFirst<F, C>(root: Tree<F>, deepest: nat, c: C)
    ensures Reaches(root, deepest, [], [Item(root, c, [0])])
  {
    var items := [Item(root, c, [0])];
    forall p | NodeAt([root], p).Some? && |p| <= deepest + 1 ensures p in [] || IsAwaited(items, p) {
      assert items[0].path <= p;
    }
  }

  lemma AwaitedBelow<F, C>(root: Tree<F>, top: Item<F, C>, pushed: seq<Item<F, C>>, c: C, p: Path)
    requires NodeAt([root], top.path) == Some(top.tree) && NodeAt([root], p).Some? && top.path < p
    requires pushed == Pushed(top.tree.children, c, top.path, 0)
    ensures IsAwaited(pushed, p)
  {
    var m := |top.path|;
    var k, count := p[m], |top.tree.children|;
    assert p == top.path + [k] + p[m + 1..];
    NodeBelow([root], top.path, k, p[m + 1..]);
    PushedAt(top.tree.children, c, top.path, 0);
    assert pushed[count - 1 - k].path == top.path + [k];
  }

  /** A visit keeps reaching everything if all children are scheduled or none of them is shallow enough. */
  lemma ReachesNext<F, C>(root: Tree<F>, deepest: nat, visits: seq<Path>, items: seq<Item<F, C>>, c: C, n: nat,
                          next: seq<Item<F, C>>)
    requires items != [] && Reaches(root, deepest, visits, items)
    requires var top := items[|items| - 1];
      && NodeAt([root], top.path) == Some(top.tree) && top.path != [] && n <= |top.tree.children|
      && (n == |top.tree.children| || |top.path| > deepest)
      && next == items[..|items| - 1] + Pushed(top.tree.children[..n], c, top.path, 0)
    ensures Reaches(root, deepest, visits + [items[|items| - 1].path], next)
  {
    var top, rest := items[|items| - 1], items[..|items| - 1];
    forall p | NodeAt([root], p).Some? && |p| <= deepest + 1
      ensures p in visits + [top.path] || IsAwaited(next, p)
    {
      if p !in visits && p != top.path {
        if top.path <= p {
          var pushed := Pushed(top.tree.children, c, top.path, 0);
          Seqs.TakeAll(top.tree.children);
          AwaitedBelow(root, top, pushed, c, p);
          var i :| 0 <= i < |pushed| && pushed[i].path <= p;
          assert next[|rest| + i] == pushed[i];
        } else {
          var i :| 0 <= i < |items| && items[i].path <= p;
          assert next[i] == items[i];
        }
      }
    }
  }

  // ---------- children from the first on ----------

  function Parent(p: Path): Path
    requires p != []
  {
    p[..|p| - 1]
  }

  function LastOrdinal(p: Path): nat
    requires p != []
  {
    p[|p| - 1]
  }

  function EarlierSibling(p: Path): Path
    requires p != [] && LastOrdinal(p) > 0
  {
    Parent(p) + [LastOrdinal(p) - 1]
  }

  ghost predicate ParentVisited(visits: seq<Path>, p: Path)
    requires p != []
  {
    |p| > 1 ==> Parent(p) in visits
  }

  ghost predicate EarlierVisited(visits: seq<Path>, p: Path)
    requires p != []
  {
    LastOrdinal(p) > 0 ==> EarlierSibling(p) in visits
  }

  /** With a node its parent and the sibling before it are visited. */
  ghost predicate FromTheFront(visits: seq<Path>) {
    forall v :: 0 <= v < |visits| ==>
      visits[v] != [] && ParentVisited(visits, visits[v]) && EarlierVisited(visits, visits[v])
  }

  ghost predicate IsWaiting<F, C>(items: seq<Item<F, C>>, p: Path) {
    exists i :: 0 <= i < |items| && items[i].path == p
  }

  ghost predicate EarlierKnown<F, C>(visits: seq<Path>, items: seq<Item<F, C>>, p: Path)
    requires p != []
  {
    EarlierVisited(visits, p) || IsWaiting(items, EarlierSibling(p))
  }

  /** The parent of what waits is visited, and the sibling before it is visited or waits too. */
  ghost predicate LedTo<F, C>(visits: seq<Path>, items: seq<Item<F, C>>) {
    forall i :: 0 <= i < |items| ==>
      items[i].path != [] && ParentVisited(visits, items[i].path) && EarlierKnown(visits, items, items[i].path)
  }

  /** A sibling before a path comes first in reading order, so it does not come after. */
  lemma EarlierComesFirst(p: Path)
    requires p != [] && LastOrdinal(p) > 0
    ensures EarlierSibling(p) != p && !Precedes(p, EarlierSibling(p))
  {
    var q := EarlierSibling(p);
    SiblingsInOrder(Parent(p), LastOrdinal(p) - 1, LastOrdinal(p));
    assert Parent(p) + [LastOrdinal(p)] == p;
    PrecedesIrreflexive(q);
    if Precedes(p, q) { PrecedesTransitive(q, p, q); }
  }

  lemma TopComesFirst<F, C>(items: seq<Item<F, C>>, j: nat)
    requires j < |items| && Descending(items)
    ensures items[j].path == items[|items| - 1].path || Precedes(items[|items| - 1].path, items[j].path)
  {
  }

  /** The sibling before the top of the stack does not wait: it comes first in reading order. */
  lemma TopIsLed<F, C>(visits: seq<Path>, items: seq<Item<F, C>>)
    requires items != [] && Descending(items) && LedTo(visits, items)
    ensures items[|items| - 1].path != [] && EarlierVisited(visits, items[|items| - 1].path)
  {
    var p := items[|items| - 1].path;
    if LastOrdinal(p) > 0 && !EarlierVisited(visits, p) {
      EarlierComesFirst(p);
      var j :| 0 <= j < |items| && items[j].path == EarlierSibling(p);
      TopComesFirst(items, j);
    }
  }

  lemma FrontNext(visits: seq<Path>, p: Path)
    requires FromTheFront(visits) && p != [] && ParentVisited(visits, p) && EarlierVisited(visits, p)
    ensures FromTheFront(visits + [p])
  {
  }

  lemma StillLed<F, C>(visits: seq<Path>, items: seq<Item<F, C>>, next: seq<Item<F, C>>, p: Path)
    requires items != [] && p != [] && ParentVisited(visits, p) && EarlierKnown(visits, items, p)
    requires items[..|items| - 1] <= next
    ensures ParentVisited(visits + [items[|items| - 1].path], p)
    ensures EarlierKnown(visits + [items[|items| - 1].path], next, p)
  {
    var more := visits + [items[|items| - 1].path];
    assert more[|visits|] == items[|items| - 1].path;
    if !EarlierVisited(visits, p) {
      var j :| 0 <= j < |items| && items[j].path == EarlierSibling(p);
      if j < |items| - 1 { assert next[j] == items[j]; }
    }
  }

  lemma ChildLed<F, C>(visits: seq<Path>, rest: seq<Item<F, C>>, top: Item<F, C>, c: C, n: nat, i: nat)
    requires i < n <= |top.tree.children|
    ensures var pushed := Pushed(top.tree.children[..n], c, top.path, 0);
      && |pushed| == n && pushed[i].path != [] && ParentVisited(visits + [top.path], pushed[i].path)
      && EarlierKnown(visits + [top.path], rest + pushed, pushed[i].path)
  {
    var pushed := Pushed(top.tree.children[..n], c, top.path, 0);
    PushedAt(top.tree.children[..n], c, top.path, 0);
    var p := pushed[i].path;
    assert p == top.path + [n - 1 - i] && Parent(p) == top.path && LastOrdinal(p) == n - 1 - i;
    assert (visits + [top.path])[|visits|] == top.path;
    if i < n - 1 {
      assert pushed[i + 1].path == EarlierSibling(p);
      assert (rest + pushed)[|rest| + i + 1] == pushed[i + 1];
    }
  }

  /** Visiting the top and scheduling its first n children. */
  lemma LedNext<F, C>(visits: seq<Path>, items: seq<Item<F, C>>, c: C, n: nat, next: seq<Item<F, C>>)
    requires items != [] && LedTo(visits, items) && n <= |items[|items| - 1].tree.children|
    requires var top := items[|items| - 1];
      next == items[..|items| - 1] + Pushed(top.tree.children[..n], c, top.path, 0)
    ensures LedTo(visits + [items[|items| - 1].path], next)
  {
    var top, rest := items[|items| - 1], items[..|items| - 1];
    PushedAt(top.tree.children[..n], c, top.path, 0);
    forall i | 0 <= i < |next|
      ensures next[i].path != [] && ParentVisited(visits + [top.path], next[i].path)
        && EarlierKnown(visits + [top.path], next, next[i].path)
    {
      if i < |rest| {
        assert next[i] == items[i];
        StillLed(visits, items, next, items[i].path);
      } else {
        ChildLed(visits, rest, top, c, n, i - |rest|);
      }
    }
  }

  ghost predicate Led<F, C>(visits: seq<Path>, items: seq<Item<F, C>>) {
    FromTheFront(visits) && LedTo(visits, items)
  }

  lemma LedStart<F, C>(item: Item<F, C>)
    requires item.path == [0]
    ensures Led([], [item])
  {
  }

  lemma LedStep<F, C>(roots: seq<Tree<F>>, visits: seq<Path>, items: seq<Item<F, C>>, c: C, n: nat,
                      next: seq<Item<F, C>>)
    requires items != [] && Ordered(roots, visits, items) && Led(visits, items)
    requires n <= |items[|items| - 1].tree.children|
    requires var top := items[|items| - 1];
      next == items[..|items| - 1] + Pushed(top.tree.children[..n], c, top.path, 0)
    ensures Led(visits + [items[|items| - 1].path], next)
  {
    TopIsLed(visits, items);
    FrontNext(visits, items[|items| - 1].path);
    LedNext(visits, items, c, n, next);
  }
}
