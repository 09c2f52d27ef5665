/** Weighted label propagation over an undirected graph (graph_algorithms/communities.rs):
    what one visit, one round and a whole run do, and why a run settles. */
module LabelPropagation {
  import opened Lex
  import opened Sweeps
  import Seqs
  import Grouping
  import opened Options

  type Graph = map<string, set<string>>
  type Labels = map<string, string>

  /** What `adjacency` builds: no self-loops, no dangling ends, both directions present. */
  ghost predicate Undirected(g: Graph) {
    forall a, b {:trigger b in g[a]} :: a in g && b in g[a] ==> b != a && b in g && a in g[b]
  }

  ghost predicate Labelled(g: Graph, labels: Labels) {
    labels.Keys == g.Keys
  }

  function StructuralWeight(g: Graph, source: string, target: string): (w: nat)
    ensures w >= 1
  {
    if source !in g || target !in g then 1 else 1 + |g[source] * g[target]|
  }

  /** The votes that the nodes of q, as neighbours of u, give to a label. */
  ghost function Votes(g: Graph, labels: Labels, q: seq<string>, u: string, tag: string): nat
    requires u in g
  {
    if q == [] then 0
    else
      var v := q[|q| - 1];
      Votes(g, labels, q[..|q| - 1], u, tag)
      + if v in g[u] && v in labels && labels[v] == tag then StructuralWeight(g, u, v) else 0
  }

  ghost function Score(g: Graph, labels: Labels, u: string, tag: string): nat
    requires u in g
  {
    Votes(g, labels, Sorted(g.Keys), u, tag)
  }

  ghost predicate NeighbourLabel(g: Graph, labels: Labels, u: string, tag: string)
    requires u in g
  {
    exists v {:trigger v in g[u]} :: v in g[u] && v in labels && labels[v] == tag
  }

  /** The label with most votes; among equals the least. */
  ghost predicate IsWinner(g: Graph, labels: Labels, u: string, tag: string)
    requires u in g
  {
    && NeighbourLabel(g, labels, u, tag)
    && forall m :: NeighbourLabel(g, labels, u, m) ==>
         || Score(g, labels, u, m) < Score(g, labels, u, tag)
         || (Score(g, labels, u, m) == Score(g, labels, u, tag) && AtMost(tag, m))
  }

  lemma WinnerUnique(g: Graph, labels: Labels, u: string, l: string, m: string)
    requires u in g && IsWinner(g, labels, u, l) && IsWinner(g, labels, u, m)
    ensures l == m
  {
    Trichotomy(l, m);
  }

  ghost predicate Tallied(g: Graph, labels: Labels, q: seq<string>, u: string, scores: map<string, nat>)
    requires u in g
  {
    forall l :: Votes(g, labels, q, u, l) == if l in scores then scores[l] else 0
  }

  ghost predicate Positive(scores: map<string, nat>) {
    forall l :: l in scores ==> scores[l] > 0
  }

  /** The sum of the weights voted for each label that some neighbour of u carries. */
  method Tally(g: Graph, order: seq<string>, labels: Labels, u: string) returns (scores: map<string, nat>)
    requires u in g
    ensures Tallied(g, labels, order, u, scores) && Positive(scores)
  {
    scores := map[];
    for i := 0 to |order|
      invariant Tallied(g, labels, order[..i], u, scores) && Positive(scores)
    {
      var v := order[i];
      assert order[..i + 1][..i] == order[..i];
      if v in g[u] && v in labels {
        var sum := if labels[v] in scores then scores[labels[v]] else 0;
        scores := scores[labels[v] := sum + StructuralWeight(g, u, v)];
      }
    }
    assert order[..|order|] == order;
  }

  datatype Entry = Entry(tag: string, score: nat)

  /** The comparison handed to `max_by`: more votes, then the smaller label. */
  predicate NotWorse(a: Entry, b: Entry) {
    b.score < a.score || (b.score == a.score && AtMost(a.tag, b.tag))
  }

  lemma NotWorseOrders()
    ensures Grouping.TotalPreorder(NotWorse)
  {
    forall a: Entry, b: Entry ensures NotWorse(a, b) || NotWorse(b, a) { Trichotomy(a.tag, b.tag); }
    forall a: Entry, b: Entry, c: Entry | NotWorse(a, b) && NotWorse(b, c) ensures NotWorse(a, c) {
      if Less(a.tag, b.tag) && Less(b.tag, c.tag) { Transitive(a.tag, b.tag, c.tag); }
    }
  }

  /** The best entry of a tally, met in ascending order of its labels. */
  method BestEntry(scores: map<string, nat>) returns (best: string)
    requires |scores| > 0
    ensures best in scores
    ensures forall l :: l in scores ==> NotWorse(Entry(best, scores[best]), Entry(l, scores[l]))
  {
    var tags := Ascend(scores.Keys);
    assert forall k :: 0 <= k < |tags| ==> tags[k] in tags;
    var entries := seq(|tags|, k requires 0 <= k < |tags| => Entry(tags[k], scores[tags[k]]));
    NotWorseOrders();
    var entry := Grouping.MaxBy(entries, NotWorse);
    best := entry.tag;
    forall l | l in scores ensures NotWorse(entry, Entry(l, scores[l])) {
      assert l in tags;
      var k :| 0 <= k < |tags| && tags[k] == l;
      assert NotWorse(entry, entries[k]);
    }
  }

  method Elect(g: Graph, order: seq<string>, labels: Labels, u: string) returns (best: string)
    requires Undirected(g) && Labelled(g, labels) && order == Sorted(g.Keys)
    requires u in g && g[u] != {}
    ensures IsWinner(g, labels, u, best)
  {
    var scores := Tally(g, order, labels, u);
    forall l ensures NeighbourLabel(g, labels, u, l) <==> l in scores {
      VotersLeaveVotes(g, labels, u, l);
    }
    var v :| v in g[u];
    assert NeighbourLabel(g, labels, u, labels[v]);
    best := BestEntry(scores);
    assert forall l :: NeighbourLabel(g, labels, u, l) ==> NotWorse(Entry(best, scores[best]), Entry(l, scores[l]));
  }

  lemma VotersLeaveVotes(g: Graph, labels: Labels, u: string, l: string)
    requires Undirected(g) && Labelled(g, labels) && u in g
    ensures NeighbourLabel(g, labels, u, l) <==> Score(g, labels, u, l) > 0
  {
    var q := Sorted(g.Keys);
    if NeighbourLabel(g, labels, u, l) {
      var v :| v in g[u] && v in labels && labels[v] == l;
      SomeVotes(g, labels, q, u, v);
    } else {
      NoVotes(g, labels, q, u, l);
    }
  }

  ghost function Scored(g: Graph, labels: Labels, u: string, tag: string): Entry
    requires u in g
  {
    Entry(tag, Score(g, labels, u, tag))
  }

  /** The labels of the neighbours of u in q, with their scores. */
  ghost function Entries(g: Graph, labels: Labels, q: seq<string>, u: string): seq<Entry>
    requires u in g
  {
    if q == [] then []
    else
      var v := q[|q| - 1];
      Entries(g, labels, q[..|q| - 1], u)
      + if v in g[u] && v in labels then [Scored(g, labels, u, labels[v])] else []
  }

  lemma {:induction false} EntriesAre(g: Graph, labels: Labels, q: seq<string>, u: string)
    requires u in g
    ensures forall e :: e in Entries(g, labels, q, u) ==>
      NeighbourLabel(g, labels, u, e.tag) && e == Scored(g, labels, u, e.tag)
    ensures forall v :: v in q && v in g[u] && v in labels ==>
      Scored(g, labels, u, labels[v]) in Entries(g, labels, q, u)
  {
    if q != [] {
      EntriesAre(g, labels, q[..|q| - 1], u);
      Seqs.LastApart(q);
    }
  }

  ghost function Best(entries: seq<Entry>): Option<Entry> {
    if entries == [] then None
    else
      var best, e := Best(entries[..|entries| - 1]), entries[|entries| - 1];
      if best == None || !NotWorse(best.value, e) then Some(e) else best
  }

  lemma {:induction false} BestIsBest(entries: seq<Entry>)
    ensures entries != [] ==> Best(entries).Some? && Best(entries).value in entries
    ensures forall e :: e in entries ==> NotWorse(Best(entries).value, e)
  {
    if entries != [] {
      BestIsBest(entries[..|entries| - 1]);
      Seqs.LastApart(entries);
      NotWorseOrders();
    }
  }

  ghost function Winner(g: Graph, labels: Labels, u: string): string
    requires u in g
  {
    var best := Best(Entries(g, labels, Sorted(g.Keys), u));
    if best.Some? then best.value.tag else ""
  }

  lemma WinnerWins(g: Graph, labels: Labels, u: string)
    requires Undirected(g) && Labelled(g, labels) && u in g && g[u] != {}
    ensures IsWinner(g, labels, u, Winner(g, labels, u))
  {
    var q := Sorted(g.Keys);
    var entries := Entries(g, labels, q, u);
    EntriesAre(g, labels, q, u);
    BestIsBest(entries);
    forall l | NeighbourLabel(g, labels, u, l) ensures Scored(g, labels, u, l) in entries {
      var v :| v in g[u] && v in labels && labels[v] == l;
      assert v in q;
    }
    var v :| v in g[u];
    assert NeighbourLabel(g, labels, u, labels[v]);
  }

  /** One visit: a node that has a neighbour takes the label its neighbours elect. */
  ghost function Visit(g: Graph, labels: Labels, u: string): Labels {
    if u in g && g[u] != {} then labels[u := Winner(g, labels, u)] else labels
  }

  ghost predicate HoldsWinner(g: Graph, labels: Labels, u: string)
    requires Labelled(g, labels) && u in g
  {
    g[u] != {} ==> IsWinner(g, labels, u, labels[u])
  }

  /** Every node that has a neighbour holds the label its neighbours elect. */
  ghost predicate AllHoldWinners(g: Graph, labels: Labels)
    requires Labelled(g, labels)
  {
    forall u :: u in g ==> HoldsWinner(g, labels, u)
  }

  lemma SortedKeys(g: Graph)
    ensures forall i :: 0 <= i < |Sorted(g.Keys)| ==> Sorted(g.Keys)[i] in g
    ensures Distinct(Sorted(g.Keys))
  {
    var q := Sorted(g.Keys);
    assert forall i :: 0 <= i < |q| ==> q[i] in q;
    AscendingDistinct(q);
  }

  // ---------- the energy argument ----------

  ghost predicate Distinct(q: seq<string>) {
    forall i, j :: 0 <= i < j < |q| ==> q[i] != q[j]
  }

  /** Twice the weight of the edges whose ends share a label. */
  ghost function Energy(g: Graph, labels: Labels, rows: seq<string>, columns: seq<string>): nat
    requires Labelled(g, labels) && forall i :: 0 <= i < |rows| ==> rows[i] in g
  {
    if rows == [] then 0
    else
      var u := rows[|rows| - 1];
      Energy(g, labels, rows[..|rows| - 1], columns) + Votes(g, labels, columns, u, labels[u])
  }

  ghost function Agreement(g: Graph, labels: Labels): nat
    requires Labelled(g, labels)
  {
    SortedKeys(g);
    Energy(g, labels, Sorted(g.Keys), Sorted(g.Keys))
  }

  lemma {:induction false} VotesAfterChange(g: Graph, labels: Labels, q: seq<string>, x: string, to: string, u: string,
                                            l: string)
    requires Undirected(g) && Labelled(g, labels) && x in g && u in g && Distinct(q)
    ensures Votes(g, labels[x := to], q, u, l) == Votes(g, labels, q, u, l)
      + (if x in q && x in g[u] && l == to then StructuralWeight(g, u, x) else 0)
      - (if x in q && x in g[u] && l == labels[x] then StructuralWeight(g, u, x) else 0)
  {
    if q != [] {
      var rest, v := q[..|q| - 1], q[|q| - 1];
      VotesAfterChange(g, labels, rest, x, to, u, l);
      assert q == rest + [v];
      assert v !in rest;
    }
  }

  /** What the change of x adds to one row of the energy. */
  lemma RowAfterChange(g: Graph, labels: Labels, columns: seq<string>, x: string, to: string, u: string)
    requires Undirected(g) && Labelled(g, labels) && x in g && u in g && Distinct(columns) && x in columns
    ensures var after := labels[x := to];
      Votes(g, after, columns, u, after[u]) == Votes(g, labels, columns, u, labels[u])
      + (if u == x then Votes(g, labels, columns, x, to) - Votes(g, labels, columns, x, labels[x]) else 0)
      + (if u in g[x] && labels[u] == to then StructuralWeight(g, x, u) else 0)
      - (if u in g[x] && labels[u] == labels[x] then StructuralWeight(g, x, u) else 0)
  {
    VotesAfterChange(g, labels, columns, x, to, u, labels[x := to][u]);
    assert g[u] * g[x] == g[x] * g[u];
  }

  /** Moving x from its label to another changes the energy by twice the difference of the two scores. */
  lemma {:induction false} EnergyAfterChange(g: Graph, labels: Labels, rows: seq<string>, columns: seq<string>,
                                             x: string, to: string)
    requires Undirected(g) && Labelled(g, labels) && x in g
    requires Distinct(rows) && Distinct(columns) && x in columns
    requires forall i :: 0 <= i < |rows| ==> rows[i] in g
    ensures Energy(g, labels[x := to], rows, columns) == Energy(g, labels, rows, columns)
      + Votes(g, labels, rows, x, to) - Votes(g, labels, rows, x, labels[x])
      + if x in rows then Votes(g, labels, columns, x, to) - Votes(g, labels, columns, x, labels[x]) else 0
  {
    if rows != [] {
      var rest, u := rows[..|rows| - 1], rows[|rows| - 1];
      EnergyAfterChange(g, labels, rest, columns, x, to);
      RowAfterChange(g, labels, columns, x, to, u);
      assert x in rows <==> x in rest || x == u;
      assert x == u ==> x !in rest;
    }
  }

  ghost function Rank(g: Graph, tag: string): nat {
    |set x | x in g && Less(x, tag)|
  }

  ghost function RankSum(g: Graph, labels: Labels, q: seq<string>): nat
    requires forall i :: 0 <= i < |q| ==> q[i] in labels
  {
    if q == [] then 0 else RankSum(g, labels, q[..|q| - 1]) + Rank(g, labels[q[|q| - 1]])
  }

  lemma RankGrows(g: Graph, l: string, m: string)
    requires Less(l, m) && l in g
    ensures Rank(g, l) < Rank(g, m)
  {
    var below, more := set x | x in g && Less(x, l), set x | x in g && Less(x, m);
    forall x | x in below ensures x in more { Transitive(x, l, m); }
    Trichotomy(l, l);
    assert l in more && l !in below;
    Seqs.SubsetSize(below + {l}, more);
  }

  lemma {:induction false} RankSumAfterChange(g: Graph, labels: Labels, q: seq<string>, x: string, to: string)
    requires Distinct(q) && x in labels && forall i :: 0 <= i < |q| ==> q[i] in labels
    ensures RankSum(g, labels[x := to], q) == RankSum(g, labels, q)
      + if x in q then Rank(g, to) - Rank(g, labels[x]) else 0
  {
    if q != [] {
      var rest, v := q[..|q| - 1], q[|q| - 1];
      RankSumAfterChange(g, labels, rest, x, to);
      assert q == rest + [v];
      assert v !in rest;
    }
  }

  /** Every change of label strictly raises the energy, or keeps it and takes a smaller label. */
  lemma ChangeRaisesAgreement(g: Graph, labels: Labels, u: string)
    requires Undirected(g) && Labelled(g, labels) && u in g
    requires Visit(g, labels, u) != labels
    ensures var after := Visit(g, labels, u);
      || Agreement(g, labels) < Agreement(g, after)
      || (Agreement(g, labels) == Agreement(g, after) && Less(after[u], labels[u]))
  {
    SortedKeys(g);
    var q := Sorted(g.Keys);
    var to := Winner(g, labels, u);
    assert u in q;
    EnergyAfterChange(g, labels, q, q, u, to);
    assert to != labels[u];
    Trichotomy(to, labels[u]);
    WinnerWins(g, labels, u);
    VotersLeaveVotes(g, labels, u, labels[u]);
    VotersLeaveVotes(g, labels, u, to);
  }

  lemma {:induction false} NoVotes(g: Graph, labels: Labels, q: seq<string>, u: string, l: string)
    requires u in g && !NeighbourLabel(g, labels, u, l)
    ensures Votes(g, labels, q, u, l) == 0
  {
    if q != [] { NoVotes(g, labels, q[..|q| - 1], u, l); }
  }

  lemma {:induction false} SomeVotes(g: Graph, labels: Labels, q: seq<string>, u: string, v: string)
    requires u in g && v in g[u] && v in labels && v in q
    ensures Votes(g, labels, q, u, labels[v]) >= 1
  {
    if v != q[|q| - 1] {
      assert q == q[..|q| - 1] + [q[|q| - 1]];
      SomeVotes(g, labels, q[..|q| - 1], u, v);
    }
  }

  // ---------- a measure that every change lowers ----------

  /** The labelling under which all edges agree. */
  ghost function Uniform(g: Graph): (labels: Labels)
    ensures Labelled(g, labels)
  {
    map u | u in g :: ""
  }

  lemma {:induction false} EnergyBounded(g: Graph, labels: Labels, rows: seq<string>, columns: seq<string>)
    requires Labelled(g, labels) && forall i :: 0 <= i < |rows| ==> rows[i] in g
    ensures Energy(g, labels, rows, columns) <= Energy(g, Uniform(g), rows, columns)
  {
    if rows != [] {
      EnergyBounded(g, labels, rows[..|rows| - 1], columns);
      VotesBounded(g, labels, columns, rows[|rows| - 1], labels[rows[|rows| - 1]]);
    }
  }

  lemma {:induction false} VotesBounded(g: Graph, labels: Labels, q: seq<string>, u: string, l: string)
    requires Labelled(g, labels) && u in g
    ensures Votes(g, labels, q, u, l) <= Votes(g, Uniform(g), q, u, "")
  {
    if q != [] { VotesBounded(g, labels, q[..|q| - 1], u, l); }
  }

  /** How far the energy is from its maximum. */
  ghost function Room(g: Graph, labels: Labels): nat
    requires Labelled(g, labels)
  {
    SortedKeys(g);
    EnergyBounded(g, labels, Sorted(g.Keys), Sorted(g.Keys));
    Agreement(g, Uniform(g)) - Agreement(g, labels)
  }

  ghost function LabelRanks(g: Graph, labels: Labels): nat
    requires Labelled(g, labels)
  {
    SortedKeys(g);
    RankSum(g, labels, Sorted(g.Keys))
  }

  /** Labels are names of nodes. */
  ghost predicate Owned(g: Graph, labels: Labels) {
    labels.Values <= g.Keys
  }

  lemma VisitKeepsShape(g: Graph, labels: Labels, u: string)
    requires Undirected(g) && Labelled(g, labels) && Owned(g, labels) && u in g
    ensures Labelled(g, Visit(g, labels, u)) && Owned(g, Visit(g, labels, u))
  {
    if g[u] != {} {
      WinnerIsOwned(g, labels, u);
      SetKeepsShape(g, labels, u, Winner(g, labels, u));
    }
  }

  lemma WinnerIsOwned(g: Graph, labels: Labels, u: string)
    requires Undirected(g) && Labelled(g, labels) && Owned(g, labels) && u in g && g[u] != {}
    ensures Winner(g, labels, u) in g
  {
    WinnerWins(g, labels, u);
    NeighbourLabelOwned(g, labels, u, Winner(g, labels, u));
  }

  lemma NeighbourLabelOwned(g: Graph, labels: Labels, u: string, tag: string)
    requires u in g && Owned(g, labels) && NeighbourLabel(g, labels, u, tag)
    ensures tag in g
  {
    var v :| v in g[u] && v in labels && labels[v] == tag;
    assert labels[v] in labels.Values;
  }

  lemma SetKeepsShape(g: Graph, labels: Labels, u: string, tag: string)
    requires Labelled(g, labels) && Owned(g, labels) && u in g && tag in g
    ensures Labelled(g, labels[u := tag]) && Owned(g, labels[u := tag])
  {
  }

  ghost predicate Lowers(g: Graph, after: Labels, before: Labels)
    requires Labelled(g, after) && Labelled(g, before)
  {
    || Room(g, after) < Room(g, before)
    || (Room(g, after) == Room(g, before) && LabelRanks(g, after) < LabelRanks(g, before))
  }

  lemma SmallerLabelLowersRanks(g: Graph, labels: Labels, u: string, to: string)
    requires Labelled(g, labels) && u in g && to in g && Less(to, labels[u])
    ensures LabelRanks(g, labels[u := to]) < LabelRanks(g, labels)
  {
    SortedKeys(g);
    assert u in Sorted(g.Keys);
    RankSumAfterChange(g, labels, Sorted(g.Keys), u, to);
    RankGrows(g, to, labels[u]);
  }

  lemma VisitLowers(g: Graph, labels: Labels, u: string)
    requires Undirected(g) && Labelled(g, labels) && Owned(g, labels) && u in g
    ensures Labelled(g, Visit(g, labels, u)) && Owned(g, Visit(g, labels, u))
    ensures Visit(g, labels, u) == labels || Lowers(g, Visit(g, labels, u), labels)
  {
    var after := Visit(g, labels, u);
    VisitKeepsShape(g, labels, u);
    if after != labels {
      ChangeRaisesAgreement(g, labels, u);
      if Less(after[u], labels[u]) { SmallerLabelLowersRanks(g, labels, u, after[u]); }
    }
  }

  lemma QuietIffHoldsWinner(g: Graph, labels: Labels, u: string)
    requires Undirected(g) && Labelled(g, labels) && u in g
    ensures Visit(g, labels, u) == labels <==> HoldsWinner(g, labels, u)
  {
    if g[u] != {} {
      WinnerWins(g, labels, u);
      OnlyWinner(g, labels, u, labels[u]);
      SetToSame(labels, u, Winner(g, labels, u));
    }
  }

  /** The label that wins is the one that is computed. */
  lemma OnlyWinner(g: Graph, labels: Labels, u: string, l: string)
    requires u in g && IsWinner(g, labels, u, Winner(g, labels, u))
    ensures IsWinner(g, labels, u, l) <==> l == Winner(g, labels, u)
  {
    if IsWinner(g, labels, u, l) { WinnerUnique(g, labels, u, l, Winner(g, labels, u)); }
  }

  lemma SetToSame(labels: Labels, u: string, l: string)
    requires u in labels
    ensures labels[u := l] == labels <==> labels[u] == l
  {
    assert labels[u := l][u] == l;
  }

  // ---------- whole runs ----------

  /** Propagation over g: visits in ascending order of the nodes, and the measure that they lower. */
  ghost function Propagation(g: Graph): System<Labels, string> {
    System(
      Sorted(g.Keys),
      (labels, u) => Visit(g, labels, u),
      labels => Labelled(g, labels) && Owned(g, labels),
      labels => if Labelled(g, labels) then Room(g, labels) else 0,
      labels => if Labelled(g, labels) then LabelRanks(g, labels) else 0)
  }

  lemma PropagationSound(g: Graph)
    requires Undirected(g)
    ensures Sound(Propagation(g))
  {
    var y := Propagation(g);
    forall labels, u | y.keeps(labels) && u in y.nodes ensures StepSound(y, labels, u) {
      VisitLowers(g, labels, u);
    }
  }

  /** The labels that propagation would reach without its cap: a fixed point in which every node holds its winner. */
  ghost function Settled(g: Graph): (labels: Labels)
    requires Undirected(g)
    ensures Labelled(g, labels) && Owned(g, labels)
  {
    PropagationSound(g);
    Settle(Propagation(g), OwnLabels(g))
  }

  /** The labels after at most `cap` rounds. */
  ghost function After(g: Graph, cap: nat): (labels: Labels)
    requires Undirected(g)
    ensures Labelled(g, labels) && Owned(g, labels)
  {
    PropagationSound(g);
    RunSettles(Propagation(g), OwnLabels(g), cap);
    Run(Propagation(g), OwnLabels(g), cap)
  }

  lemma StableIffQuiet(g: Graph, labels: Labels)
    requires Undirected(g) && Labelled(g, labels) && Owned(g, labels)
    ensures Stable(Propagation(g), labels) <==> forall u :: u in g ==> Visit(g, labels, u) == labels
  {
    var y := Propagation(g);
    PropagationSound(g);
    RoundLowers(y, labels);
    if Stable(y, labels) {
      forall u | u in g ensures Visit(g, labels, u) == labels { assert u in y.nodes && y.step(labels, u) == labels; }
    } else {
      var k :| k in y.nodes && y.step(labels, k) != labels;
      assert k in g;
    }
  }

  lemma StableIffAllHoldWinners(g: Graph, labels: Labels)
    requires Undirected(g) && Labelled(g, labels) && Owned(g, labels)
    ensures Stable(Propagation(g), labels) <==> AllHoldWinners(g, labels)
  {
    StableIffQuiet(g, labels);
    forall u | u in g ensures Visit(g, labels, u) == labels <==> HoldsWinner(g, labels, u) {
      QuietIffHoldsWinner(g, labels, u);
    }
  }

  /** Propagation without a cap comes to rest with every node holding its winner, after some number of rounds;
      a capped run gives that same result exactly when all nodes hold their winners in it. */
  lemma PropagationSettles(g: Graph, cap: nat) returns (enough: nat)
    requires Undirected(g)
    ensures AllHoldWinners(g, Settled(g))
    ensures AllHoldWinners(g, After(g, cap)) <==> After(g, cap) == Settled(g)
    ensures forall more :: more >= enough ==> After(g, more) == Settled(g)
  {
    enough := RunsSettle(g, cap);
    StableIffAllHoldWinners(g, Settled(g));
    StableIffAllHoldWinners(g, After(g, cap));
  }

  lemma RunsSettle(g: Graph, cap: nat) returns (enough: nat)
    requires Undirected(g)
    ensures Stable(Propagation(g), Settled(g))
    ensures Stable(Propagation(g), After(g, cap)) <==> After(g, cap) == Settled(g)
    ensures forall more :: more >= enough ==> After(g, more) == Settled(g)
  {
    PropagationSound(g);
    RunSettles(Propagation(g), OwnLabels(g), cap);
    enough := EnoughRounds(Propagation(g), OwnLabels(g));
  }

  // ---------- the loops ----------

  const MAX_LABEL_PROPAGATION_ROUNDS: nat := 64

  function OwnLabels(g: Graph): (labels: Labels)
    ensures Labelled(g, labels) && Owned(g, labels)
  {
    map u | u in g :: u
  }

  method VisitNode(g: Graph, order: seq<string>, before: Labels, u: string) returns (labels: Labels)
    requires Undirected(g) && Labelled(g, before) && order == Sorted(g.Keys) && u in g
    ensures labels == Visit(g, before, u)
  {
    labels := before;
    if g[u] != {} {
      var next := Elect(g, order, labels, u);
      WinnerWins(g, labels, u);
      OnlyWinner(g, labels, u, next);
      SetToSame(labels, u, next);
      if labels[u] != next { labels := labels[u := next]; }
    }
  }

  /** The labels after visiting the nodes of q in order. */
  ghost function VisitAll(g: Graph, start: Labels, q: seq<string>): Labels {
    if q == [] then start else Visit(g, VisitAll(g, start, q[..|q| - 1]), q[|q| - 1])
  }

  lemma {:induction false} VisitAllIsPass(g: Graph, start: Labels, q: seq<string>)
    ensures VisitAll(g, start, q) == Pass(Propagation(g), start, q)
  {
    if q != [] { VisitAllIsPass(g, start, q[..|q| - 1]); }
  }

  lemma VisitAllIsRound(g: Graph, start: Labels)
    ensures var q := Sorted(g.Keys); VisitAll(g, start, q[..|q|]) == Round(Propagation(g), start)
  {
    Seqs.TakeAll(Sorted(g.Keys));
    VisitAllIsPass(g, start, Sorted(g.Keys));
  }

  lemma VisitAllAdvances(g: Graph, start: Labels, q: seq<string>, i: nat)
    requires i < |q|
    ensures VisitAll(g, start, q[..i + 1]) == Visit(g, VisitAll(g, start, q[..i]), q[i])
  {
    assert q[..i + 1][..i] == q[..i];
  }

  lemma VisitAllKeeps(g: Graph, start: Labels, i: nat)
    requires Undirected(g) && Labelled(g, start) && Owned(g, start) && i < |Sorted(g.Keys)|
    ensures var q := Sorted(g.Keys);
      && Labelled(g, VisitAll(g, start, q[..i + 1])) && Owned(g, VisitAll(g, start, q[..i + 1]))
      && (VisitAll(g, start, q[..i]) != start ==> VisitAll(g, start, q[..i + 1]) != start)
  {
    var y := Propagation(g);
    PropagationSound(g);
    PassAdvances(y, start, i);
    VisitAllIsPass(g, start, y.nodes[..i]);
    VisitAllIsPass(g, start, y.nodes[..i + 1]);
    assert y.keeps(VisitAll(g, start, y.nodes[..i + 1]));
  }

  method VisitNext(g: Graph, order: seq<string>, ghost start: Labels, i: nat, before: Labels) returns (next: Labels)
    requires Undirected(g) && Labelled(g, start) && Owned(g, start) && order == Sorted(g.Keys) && i < |order|
    requires Labelled(g, before) && before == VisitAll(g, start, order[..i])
    ensures next == VisitAll(g, start, order[..i + 1]) && Labelled(g, next) && Owned(g, next)
    ensures before != start ==> next != start
  {
    VisitAllKeeps(g, start, i);
    VisitAllAdvances(g, start, order, i);
    assert order[i] in order;
    next := VisitNode(g, order, before, order[i]);
  }

  method RunRound(g: Graph, order: seq<string>, start: Labels) returns (labels: Labels, changed: bool)
    requires Undirected(g) && Labelled(g, start) && Owned(g, start) && order == Sorted(g.Keys)
    ensures labels == Round(Propagation(g), start) && Labelled(g, labels) && Owned(g, labels)
    ensures changed == (labels != start)
  {
    labels, changed := start, false;
    for i := 0 to |order|
      invariant Labelled(g, labels) && Owned(g, labels)
      invariant labels == VisitAll(g, start, order[..i])
      invariant changed == (labels != start)
    {
      var next := VisitNext(g, order, start, i, labels);
      if labels != next { changed := true; }
      labels := next;
    }
    VisitAllIsRound(g, start);
  }

  /** The labels that each number of further rounds leads to. */
  ghost predicate LeadsTo(g: Graph, ahead: (Labels, nat) -> Labels) {
    forall labels, more {:trigger Run(Propagation(g), labels, more)} ::
      ahead(labels, more) == Run(Propagation(g), labels, more)
  }

  /** One round of those still allowed: it gives the labels to go on from, or those at which the run ends. */
  method NextRound(
    g: Graph, order: seq<string>, start: Labels, ghost more: nat, ghost ahead: (Labels, nat) -> Labels,
    ghost goal: Labels
  ) returns (labels: Labels, changed: bool)
    requires Undirected(g) && Labelled(g, start) && Owned(g, start) && order == Sorted(g.Keys)
    requires LeadsTo(g, ahead) && more > 0 && ahead(start, more) == goal
    ensures Labelled(g, labels) && Owned(g, labels)
    ensures if changed then ahead(labels, more - 1) == goal else labels == goal
    ensures ahead(labels, 0) == labels
  {
    labels, changed := RunRound(g, order, start);
    assert ahead(start, more) == Run(Propagation(g), start, more);
    assert ahead(labels, more - 1) == Run(Propagation(g), labels, more - 1);
    NoneAhead(g, labels, ahead);
  }

  /** The loop for any labels to start from and any bound on the rounds. */
  method PropagateFrom(g: Graph, start: Labels, cap: nat, ghost ahead: (Labels, nat) -> Labels) returns (labels: Labels)
    requires Undirected(g) && Labelled(g, start) && Owned(g, start) && LeadsTo(g, ahead)
    ensures labels == ahead(start, cap)
  {
    labels := start;
    var order := Ascend(g.Keys);
    ghost var goal, more := ahead(start, cap), cap;
    NoneAhead(g, labels, ahead);
    for round := 0 to cap
      invariant Labelled(g, labels) && Owned(g, labels)
      invariant more == cap - round && ahead(labels, more) == goal && ahead(labels, 0) == labels
    {
      var changed;
      labels, changed := NextRound(g, order, labels, more, ahead, goal);
      if !changed { break; }
      more := more - 1;
    }
  }

  lemma NoneAhead(g: Graph, labels: Labels, ahead: (Labels, nat) -> Labels)
    requires LeadsTo(g, ahead)
    ensures ahead(labels, 0) == labels
  {
    assert ahead(labels, 0) == Run(Propagation(g), labels, 0);
  }

  lemma AfterIsAhead(g: Graph, cap: nat) returns (ahead: (Labels, nat) -> Labels)
    requires Undirected(g)
    ensures LeadsTo(g, ahead) && ahead(OwnLabels(g), cap) == After(g, cap)
  {
    ahead := (labels: Labels, more: nat) => Run(Propagation(g), labels, more);
  }

  method Propagate(g: Graph) returns (labels: Labels)
    requires Undirected(g)
    ensures labels == After(g, MAX_LABEL_PROPAGATION_ROUNDS)
  {
    ghost var ahead := AfterIsAhead(g, MAX_LABEL_PROPAGATION_ROUNDS);
    labels := PropagateFrom(g, OwnLabels(g), MAX_LABEL_PROPAGATION_ROUNDS, ahead);
  }
}
