/** Passes over a fixed list of nodes, repeated until a pass changes nothing.
    A step at one node either leaves the state alone or lowers a pair of natural numbers. */
module Sweeps {

  datatype System<!S, !K> = System(
    nodes: seq<K>,
    step: (S, K) -> S,
    keeps: S -> bool,
    room: S -> nat,
    rank: S -> nat)

  ghost predicate Lower<S, K>(y: System<S, K>, after: S, before: S) {
    || y.room(after) < y.room(before)
    || (y.room(after) == y.room(before) && y.rank(after) < y.rank(before))
  }

  ghost predicate StepSound<S, K>(y: System<S, K>, s: S, k: K) {
    && y.keeps(y.step(s, k))
    && (y.step(s, k) == s || Lower(y, y.step(s, k), s))
  }

  ghost predicate Sound<S(!new), K(!new)>(y: System<S, K>) {
    forall s, k {:trigger StepSound(y, s, k)} :: y.keeps(s) && k in y.nodes ==> StepSound(y, s, k)
  }

  ghost function Pass<S, K>(y: System<S, K>, s: S, q: seq<K>): S {
    if q == [] then s else y.step(Pass(y, s, q[..|q| - 1]), q[|q| - 1])
  }

  ghost function Round<S, K>(y: System<S, K>, s: S): S {
    Pass(y, s, y.nodes)
  }

  ghost predicate Stable<S, K>(y: System<S, K>, s: S) {
    Round(y, s) == s
  }

  /** At most `cap` rounds, ending early when a round changes nothing. */
  ghost function Run<S, K>(y: System<S, K>, s: S, cap: nat): S {
    if cap == 0 || Stable(y, s) then s else Run(y, Round(y, s), cap - 1)
  }

  /** A pass changes nothing exactly when no step of it would; otherwise it lowers the measure. */
  lemma {:induction false} PassLowers<S(!new), K(!new)>(y: System<S, K>, s: S, q: seq<K>)
    requires Sound(y) && y.keeps(s) && forall i :: 0 <= i < |q| ==> q[i] in y.nodes
    ensures y.keeps(Pass(y, s, q))
    ensures Pass(y, s, q) == s <==> forall i :: 0 <= i < |q| ==> y.step(s, q[i]) == s
    ensures Pass(y, s, q) == s || Lower(y, Pass(y, s, q), s)
  {
    if q != [] {
      var rest, k := q[..|q| - 1], q[|q| - 1];
      PassLowers(y, s, rest);
      assert StepSound(y, Pass(y, s, rest), k);
    }
  }

  lemma RoundLowers<S(!new), K(!new)>(y: System<S, K>, s: S)
    requires Sound(y) && y.keeps(s)
    ensures y.keeps(Round(y, s))
    ensures Stable(y, s) || Lower(y, Round(y, s), s)
    ensures Stable(y, s) <==> forall k :: k in y.nodes ==> y.step(s, k) == s
  {
    PassLowers(y, s, y.nodes);
  }

  /** One more step of a pass: what had changed since the pass began does not change back. */
  lemma PassAdvances<S(!new), K(!new)>(y: System<S, K>, s: S, i: nat)
    requires Sound(y) && y.keeps(s) && i < |y.nodes|
    ensures y.keeps(Pass(y, s, y.nodes[..i + 1]))
    ensures Pass(y, s, y.nodes[..i + 1]) == y.step(Pass(y, s, y.nodes[..i]), y.nodes[i])
    ensures Pass(y, s, y.nodes[..i]) != s ==> Pass(y, s, y.nodes[..i + 1]) != s
  {
    var p, q := y.nodes[..i], y.nodes[..i + 1];
    assert q[..i] == p;
    PassLowers(y, s, p);
    PassLowers(y, s, q);
    if Pass(y, s, p) != s {
      var k :| 0 <= k < i && y.step(s, p[k]) != s;
      assert q[k] == p[k];
    }
  }

  /** Rounds without any cap: that Dafny accepts this recursion is the proof that they come to an end. */
  ghost function Settle<S(!new), K(!new)>(y: System<S, K>, s: S): (after: S)
    requires Sound(y) && y.keeps(s)
    ensures y.keeps(after) && Stable(y, after)
    decreases y.room(s), y.rank(s)
  {
    RoundLowers(y, s);
    if Stable(y, s) then s else Settle(y, Round(y, s))
  }

  /** A capped run gives the uncapped result exactly when its own result is at rest. */
  lemma {:induction false} RunSettles<S(!new), K(!new)>(y: System<S, K>, s: S, cap: nat)
    requires Sound(y) && y.keeps(s)
    ensures y.keeps(Run(y, s, cap))
    ensures Stable(y, Run(y, s, cap)) <==> Run(y, s, cap) == Settle(y, s)
    decreases cap
  {
    RoundLowers(y, s);
    if cap != 0 && !Stable(y, s) {
      RunSettles(y, Round(y, s), cap - 1);
    }
  }

  /** Some number of rounds is always enough, and so is every larger one. */
  lemma {:induction false} EnoughRounds<S(!new), K(!new)>(y: System<S, K>, s: S) returns (enough: nat)
    requires Sound(y) && y.keeps(s)
    ensures forall cap :: cap >= enough ==> Run(y, s, cap) == Settle(y, s)
    decreases y.room(s), y.rank(s)
  {
    RoundLowers(y, s);
    enough := 0;
    if !Stable(y, s) {
      enough := EnoughRounds(y, Round(y, s));
      enough := enough + 1;
    }
  }

  /** A property that every step keeps holds after any number of rounds. */
  lemma {:induction false} PassKeeps<S(!new), K(!new)>(y: System<S, K>, s: S, q: seq<K>, p: S -> bool)
    requires Sound(y) && y.keeps(s) && p(s) && forall i :: 0 <= i < |q| ==> q[i] in y.nodes
    requires forall t, k :: y.keeps(t) && p(t) && k in y.nodes ==> p(y.step(t, k))
    ensures p(Pass(y, s, q))
  {
    if q != [] {
      PassKeeps(y, s, q[..|q| - 1], p);
      PassLowers(y, s, q[..|q| - 1]);
    }
  }

  lemma {:induction false} RunKeeps<S(!new), K(!new)>(y: System<S, K>, s: S, cap: nat, p: S -> bool)
    requires Sound(y) && y.keeps(s) && p(s)
    requires forall t, k :: y.keeps(t) && p(t) && k in y.nodes ==> p(y.step(t, k))
    ensures p(Run(y, s, cap))
    decreases cap
  {
    if cap != 0 && !Stable(y, s) {
      PassKeeps(y, s, y.nodes, p);
      RoundLowers(y, s);
      RunKeeps(y, Round(y, s), cap - 1, p);
    }
  }
}
