/** Folding a list into the best entry, and keyed lists into groups. */
module Grouping {
  import Seqs

  // ---------- max_by ----------

  ghost predicate TotalPreorder<T(!new)>(notWorse: (T, T) -> bool) {
    && (forall a, b {:trigger notWorse(a, b)} :: notWorse(a, b) || notWorse(b, a))
    && (forall a, b, c {:trigger notWorse(a, b), notWorse(b, c)} :: notWorse(a, b) && notWorse(b, c) ==> notWorse(a, c))
  }

  /** `Iterator::max_by`: an entry that is not worse than the best so far replaces it. */
  method MaxBy<T(!new)>(entries: seq<T>, notWorse: (T, T) -> bool) returns (best: T)
    requires entries != [] && TotalPreorder(notWorse)
    ensures best in entries
    ensures forall k :: 0 <= k < |entries| ==> notWorse(best, entries[k])
  {
    best := entries[0];
    assert notWorse(best, best);
    for i := 1 to |entries|
      invariant best in entries
      invariant forall k :: 0 <= k < i ==> notWorse(best, entries[k])
    {
      var next := entries[i];
      assert notWorse(next, next);
      if notWorse(next, best) { best := next; }
    }
  }

  // ---------- groups ----------

  /** The members of q that carry a tag, in the order of q. */
  ghost function Carriers<K, L>(tags: map<K, L>, q: seq<K>, l: L): seq<K> {
    if q == [] then []
    else
      var v := q[|q| - 1];
      Carriers(tags, q[..|q| - 1], l) + if v in tags && tags[v] == l then [v] else []
  }

  lemma {:induction false} CarriersElements<K, L>(tags: map<K, L>, q: seq<K>, l: L)
    ensures forall x :: x in Carriers(tags, q, l) <==> x in q && x in tags && tags[x] == l
  {
    if q != [] {
      CarriersElements(tags, q[..|q| - 1], l);
      assert q == q[..|q| - 1] + [q[|q| - 1]];
    }
  }

  /** The carriers keep the order of the list they are taken from. */
  lemma {:induction false} CarriersKeepOrder<K(!new), L>(tags: map<K, L>, q: seq<K>, l: L, less: (K, K) -> bool)
    requires forall i, j :: 0 <= i < j < |q| ==> less(q[i], q[j])
    ensures forall i, j :: 0 <= i < j < |Carriers(tags, q, l)| ==>
      less(Carriers(tags, q, l)[i], Carriers(tags, q, l)[j])
  {
    if q != [] {
      var rest := q[..|q| - 1];
      CarriersKeepOrder(tags, rest, l, less);
      CarriersElements(tags, rest, l);
      var c := Carriers(tags, rest, l);
      forall i | 0 <= i < |c| ensures less(c[i], q[|q| - 1]) {
        assert c[i] in c;
        var k :| 0 <= k < |rest| && rest[k] == c[i];
      }
    }
  }

  ghost predicate Grouped<K, L(!new)>(tags: map<K, L>, q: seq<K>, groups: map<L, seq<K>>) {
    && (forall l :: Carriers(tags, q, l) == if l in groups then groups[l] else [])
    && (forall l :: l in groups ==> groups[l] != [])
  }

  /** Pushes every key onto the list of its tag. */
  method GroupBy<K(==), L(==,!new)>(order: seq<K>, tags: map<K, L>) returns (groups: map<L, seq<K>>)
    requires forall i :: 0 <= i < |order| ==> order[i] in tags
    ensures Grouped(tags, order, groups)
  {
    groups := map[];
    for i := 0 to |order|
      invariant Grouped(tags, order[..i], groups)
    {
      var v := order[i];
      assert order[..i + 1][..i] == order[..i];
      groups := groups[tags[v] := (if tags[v] in groups then groups[tags[v]] else []) + [v]];
    }
    Seqs.TakeAll(order);
  }

  ghost predicate Assigned<K, L, N>(naming: seq<K> -> N, order: seq<K>, tags: map<K, L>, assignment: map<K, (N, nat)>) {
    forall u :: u in assignment ==>
      u in tags && assignment[u] == (naming(Carriers(tags, order, tags[u])), |Carriers(tags, order, tags[u])|)
  }

  method AssignAll<K(==), V>(before: map<K, V>, members: seq<K>, value: V) returns (after: map<K, V>)
    ensures after == before + map u | u in members :: value
  {
    after := before;
    for j := 0 to |members|
      invariant after == before + map u | u in members[..j] :: value
    {
      Seqs.TakeOneMore(members, j);
      after := after[members[j] := value];
    }
    Seqs.TakeAll(members);
  }

  /** Every member of a group receives the name and the size of the group. The order of the groups does not matter. */
  method AssignGroups<K(==), L(==,!new), N>(naming: seq<K> -> N, order: seq<K>, tags: map<K, L>)
    returns (assignment: map<K, (N, nat)>)
    requires forall i :: 0 <= i < |order| ==> order[i] in tags
    ensures Assigned(naming, order, tags, assignment)
    ensures forall u :: u in order ==> u in assignment
  {
    var groups := GroupBy(order, tags);
    var rest := groups.Keys;
    assignment := map[];
    while rest != {}
      invariant rest <= groups.Keys
      invariant Assigned(naming, order, tags, assignment)
      invariant forall u :: u in order && tags[u] in groups.Keys - rest ==> u in assignment
      decreases |rest|
    {
      var tag :| tag in rest;
      CarriersElements(tags, order, tag);
      assignment := AssignAll(assignment, groups[tag], (naming(groups[tag]), |groups[tag]|));
      rest := rest - {tag};
    }
    forall u | u in order ensures tags[u] in groups { CarriersElements(tags, order, tags[u]); }
  }
}
