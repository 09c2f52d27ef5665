/** Runtime events as a graph shows them: the events of one span become one (lib/runtimeGraph.ts,
    canonicalRuntimeEvents). */
module RuntimeEvents {
  import opened Options
  import opened InsertionOrder
  import Seqs

  datatype Meta = Text(text: string) | Numeral(text: string) | OtherMeta

  datatype Event = Event(id: string, kind: string, caption: string, timestamp: string,
                         traceId: Option<string>, sourceNodeId: Option<string>, metadata: map<string, Meta>)

  /** What depends on locale, regular expressions and URL parsing. */
  datatype Rules<!N> = Rules(
    compare: (string, string) -> int,
    acceptedTraceKind: string -> bool,
    requestPath: string -> Option<string>,
    upper: string -> string,
    nodeRoute: N -> Option<string>,
    nodeMethod: N -> Option<string>,
    routeMatches: (string, string) -> bool,
    flowStage: Event -> string)

  predicate Truthy(s: Option<string>) {
    s.Some? && s.value != ""
  }

  function MetadataString(e: Event, key: string): Option<string> {
    if key in e.metadata && !e.metadata[key].OtherMeta? then Some(e.metadata[key].text) else None
  }

  ghost function LookUp(m: map<string, Meta>, key: string): Option<Meta> {
    if key in m then Some(m[key]) else None
  }

  /** The metadata has this text, or a number with this text, under the key. */
  ghost predicate Reports(e: Event, key: string, text: string) {
    LookUp(e.metadata, key) == Some(Text(text)) || LookUp(e.metadata, key) == Some(Numeral(text))
  }

  lemma MetadataStringIs(e: Event, key: string)
    ensures forall text :: MetadataString(e, key) == Some(text) <==> Reports(e, key, text)
    ensures MetadataString(e, key) == None <==> forall text :: !Reports(e, key, text)
  {
    if MetadataString(e, key).Some? { assert Reports(e, key, MetadataString(e, key).value); }
  }

  /** Trace and span, joined by a NUL; events without both belong to no span. */
  function SpanKey(e: Event, spanId: Option<string>): Option<string> {
    if Truthy(e.traceId) && Truthy(spanId) then Some(e.traceId.value + "\0" + spanId.value) else None
  }

  lemma FirstNul(trace: string, span: string)
    requires '\0' !in trace
    ensures var key := trace + "\0" + span;
      key[|trace|] == '\0' && forall i :: 0 <= i < |trace| ==> key[i] != '\0'
  {
    var key := trace + "\0" + span;
    assert forall i :: 0 <= i < |trace| ==> key[i] == trace[i] && trace[i] in trace;
  }

  /** Keys tell spans apart when no trace id holds a NUL. */
  lemma SpanKeyTells(a: Event, b: Event, spanA: Option<string>, spanB: Option<string>)
    requires SpanKey(a, spanA).Some? && SpanKey(b, spanB).Some?
    requires '\0' !in a.traceId.value && '\0' !in b.traceId.value
    ensures SpanKey(a, spanA) == SpanKey(b, spanB) <==> a.traceId == b.traceId && spanA == spanB
  {
    var s, t := a.traceId.value, b.traceId.value;
    var k, l := SpanKey(a, spanA).value, SpanKey(b, spanB).value;
    FirstNul(s, spanA.value);
    FirstNul(t, spanB.value);
    if k == l {
      assert |s| == |t|;
      assert s == k[..|s|] == t;
      assert spanA.value == k[|s| + 1..] == spanB.value;
    }
  }

  function OwnSpan(e: Event): Option<string> {
    SpanKey(e, MetadataString(e, "spanId"))
  }

  /** An event belongs to a span when it has a trace and reports a span id. */
  lemma OwnSpanIs(e: Event, key: string)
    ensures OwnSpan(e) == Some(key) <==>
      e.traceId.Some? && e.traceId.value != ""
      && exists span :: span != "" && Reports(e, "spanId", span) && key == e.traceId.value + "\0" + span
  {
    MetadataStringIs(e, "spanId");
  }

  predicate IsRelevant<N>(rules: Rules<N>, e: Event) {
    if "trace." <= e.kind then
      && "traceProtocol" in e.metadata
      && e.metadata["traceProtocol"] in {Text("AONE_TRACE_V1"), Text("OTLP_HTTP_JSON"), Text("W3C_TRACE_CONTEXT")}
      && "spanId" in e.metadata && e.metadata["spanId"].Text? && e.metadata["spanId"].text != ""
      && rules.acceptedTraceKind(e.kind)
    else (e.kind != "process.stdout" && e.kind != "process.stderr") || Truthy(e.sourceNodeId)
  }

  // ---------- groups ----------

  datatype Group = Group(key: string, events: seq<Event>)

  function GroupKey(): Group -> string {
    (g: Group) => g.key
  }

  function JoinGroups(): (Group, Group) -> Group {
    (a: Group, b: Group) => Group(a.key, a.events + b.events)
  }

  function Added(groups: seq<Group>, e: Event): seq<Group> {
    match OwnSpan(e)
    case None => groups
    case Some(key) => Put(GroupKey(), JoinGroups(), groups, Group(key, [e]))
  }

  ghost function Grouped(events: seq<Event>): seq<Group> {
    if events == [] then [] else Added(Grouped(events[..|events| - 1]), events[|events| - 1])
  }

  ghost function Ordinary(events: seq<Event>): seq<Event> {
    if events == [] then []
    else Ordinary(events[..|events| - 1]) + if OwnSpan(events[|events| - 1]) == None then [events[|events| - 1]] else []
  }

  /** The events of one span, in order. */
  ghost function OfSpan(events: seq<Event>, key: string): seq<Event> {
    if events == [] then []
    else
      var last := events[|events| - 1];
      OfSpan(events[..|events| - 1], key) + if OwnSpan(last) == Some(key) then [last] else []
  }

  ghost predicate GroupsFit(groups: seq<Group>, events: seq<Event>) {
    && Distinct(Keys(GroupKey(), groups))
    && (forall i :: 0 <= i < |groups| ==> groups[i].events == OfSpan(events, groups[i].key) && groups[i].events != [])
    && (forall key :: OfSpan(events, key) != [] ==> key in KeySet(GroupKey(), groups))
  }

  lemma GroupsKeepKey()
    ensures KeepsKey(GroupKey(), JoinGroups())
  {
  }

  lemma OfSpanMore(events: seq<Event>, e: Event, key: string)
    ensures OfSpan(events + [e], key) == OfSpan(events, key) + if OwnSpan(e) == Some(key) then [e] else []
  {
    assert (events + [e])[..|events|] == events;
  }

  lemma AddedFits(groups: seq<Group>, events: seq<Event>, e: Event)
    requires GroupsFit(groups, events)
    ensures GroupsFit(Added(groups, e), events + [e])
  {
    forall key
      ensures OfSpan(events + [e], key) == OfSpan(events, key) + if OwnSpan(e) == Some(key) then [e] else []
    {
      OfSpanMore(events, e, key);
    }
    if OwnSpan(e).Some? {
      GroupsKeepKey();
      PutKeys(GroupKey(), JoinGroups(), groups, Group(OwnSpan(e).value, [e]));
      PutFits(groups, events, e, OwnSpan(e).value);
    }
  }

  lemma PutFits(groups: seq<Group>, events: seq<Event>, e: Event, key: string)
    requires GroupsFit(groups, events) && OwnSpan(e) == Some(key)
    ensures var after := Put(GroupKey(), JoinGroups(), groups, Group(key, [e]));
      forall i :: 0 <= i < |after| ==> after[i].events == OfSpan(events + [e], after[i].key) && after[i].events != []
  {
    var after, at := Put(GroupKey(), JoinGroups(), groups, Group(key, [e])), IndexOf(GroupKey(), groups, key);
    forall i | 0 <= i < |after| ensures after[i].events == OfSpan(events + [e], after[i].key) && after[i].events != [] {
      OfSpanMore(events, e, after[i].key);
      if i != at {
        assert after[i] == groups[i] && Keys(GroupKey(), groups)[i] == groups[i].key;
        if at < |groups| { assert Keys(GroupKey(), groups)[at] == key; }
      } else if at == |groups| {
        assert key !in KeySet(GroupKey(), groups);
      }
    }
  }

  /** There is one group for each span that occurs, with exactly its events in their order. */
  lemma {:induction false} GroupsAreSpans(events: seq<Event>)
    ensures GroupsFit(Grouped(events), events)
  {
    if events != [] {
      GroupsAreSpans(events[..|events| - 1]);
      AddedFits(Grouped(events[..|events| - 1]), events[..|events| - 1], events[|events| - 1]);
      Seqs.LastApart(events);
    }
  }

  /** The place of the first event of a span, or the number of events when there is none. */
  ghost function FirstAt(events: seq<Event>, key: string): (i: nat)
    ensures i <= |events| && (i < |events| ==> OwnSpan(events[i]) == Some(key))
    ensures forall j :: 0 <= j < i ==> OwnSpan(events[j]) != Some(key)
  {
    if events == [] then 0 else if OwnSpan(events[0]) == Some(key) then 0 else 1 + FirstAt(events[1..], key)
  }

  ghost predicate ByFirstEvent(groups: seq<Group>, events: seq<Event>) {
    && (forall i :: 0 <= i < |groups| ==> FirstAt(events, groups[i].key) < |events|)
    && (forall i, j :: 0 <= i < j < |groups| ==> FirstAt(events, groups[i].key) < FirstAt(events, groups[j].key))
  }

  lemma FirstAtMore(events: seq<Event>, e: Event, key: string)
    ensures FirstAt(events, key) < |events| ==> FirstAt(events + [e], key) == FirstAt(events, key)
    ensures FirstAt(events, key) == |events| && OwnSpan(e) == Some(key) ==> FirstAt(events + [e], key) == |events|
  {
    var i, more := FirstAt(events, key), events + [e];
    assert forall j :: 0 <= j < |events| ==> more[j] == events[j];
    assert more[|events|] == e;
  }

  lemma AddedByFirstEvent(groups: seq<Group>, events: seq<Event>, e: Event)
    requires GroupsFit(groups, events) && ByFirstEvent(groups, events)
    ensures ByFirstEvent(Added(groups, e), events + [e])
  {
    var after, more := Added(groups, e), events + [e];
    forall i | 0 <= i < |groups|
      ensures after[i].key == groups[i].key && FirstAt(more, groups[i].key) == FirstAt(events, groups[i].key)
    {
      FirstAtMore(events, e, groups[i].key);
    }
    if |after| > |groups| {
      var key := OwnSpan(e).value;
      if FirstAt(events, key) < |events| { OfSpanHolds(events, FirstAt(events, key), key); }
      FirstAtMore(events, e, key);
    }
  }

  lemma {:induction false} OfSpanHolds(events: seq<Event>, i: nat, key: string)
    requires i < |events| && OwnSpan(events[i]) == Some(key)
    ensures OfSpan(events, key) != []
  {
    if i < |events| - 1 { OfSpanHolds(events[..|events| - 1], i, key); }
  }

  lemma {:induction false} GroupsByFirstEvent(events: seq<Event>)
    ensures ByFirstEvent(Grouped(events), events)
  {
    if events != [] {
      var some, last := events[..|events| - 1], events[|events| - 1];
      GroupsByFirstEvent(some);
      GroupsAreSpans(some);
      AddedByFirstEvent(Grouped(some), some, last);
      Seqs.LastApart(events);
    }
  }

  // ---------- the events of a span in order ----------

  predicate IsBefore<N>(rules: Rules<N>, a: Event, b: Event) {
    var byTime := rules.compare(a.timestamp, b.timestamp);
    byTime < 0 || (byTime == 0 && rules.compare(a.id, b.id) < 0)
  }

  /** Inserts behind everything that it is not before. */
  function Inserted<N>(rules: Rules<N>, q: seq<Event>, e: Event): (r: seq<Event>)
    ensures multiset(r) == multiset(q) + multiset{e}
  {
    if q == [] || !IsBefore(rules, e, q[|q| - 1]) then q + [e]
    else
      assert q == q[..|q| - 1] + [q[|q| - 1]];
      Inserted(rules, q[..|q| - 1], e) + [q[|q| - 1]]
  }

  /** The stable sort by time and then id. */
  function Ordered<N>(rules: Rules<N>, q: seq<Event>): (r: seq<Event>)
    ensures multiset(r) == multiset(q)
  {
    if q == [] then []
    else
      assert q == q[..|q| - 1] + [q[|q| - 1]];
      Inserted(rules, Ordered(rules, q[..|q| - 1]), q[|q| - 1])
  }

  /** The comparison is an order in which texts may tie. */
  ghost predicate IsOrder(compare: (string, string) -> int) {
    && (forall a, b :: compare(a, b) < 0 <==> compare(b, a) > 0)
    && (forall a, b, c :: compare(a, b) <= 0 && compare(b, c) <= 0 ==> compare(a, c) <= 0)
  }

  lemma BeforeIsOrder<N>(rules: Rules<N>, a: Event, b: Event, c: Event)
    requires IsOrder(rules.compare)
    ensures !(IsBefore(rules, a, b) && IsBefore(rules, b, a))
    ensures !IsBefore(rules, b, a) && !IsBefore(rules, c, b) ==> !IsBefore(rules, c, a)
  {
    var compare := rules.compare;
    assert compare(a.timestamp, b.timestamp) <= 0 && compare(b.timestamp, c.timestamp) <= 0 ==>
      compare(a.timestamp, c.timestamp) <= 0;
    assert compare(a.id, b.id) <= 0 && compare(b.id, c.id) <= 0 ==> compare(a.id, c.id) <= 0;
    assert compare(c.timestamp, a.timestamp) <= 0 && compare(a.timestamp, b.timestamp) <= 0 ==>
      compare(c.timestamp, b.timestamp) <= 0;
    assert compare(b.timestamp, c.timestamp) <= 0 && compare(c.timestamp, a.timestamp) <= 0 ==>
      compare(b.timestamp, a.timestamp) <= 0;
  }

  ghost predicate IsOrdered<N>(rules: Rules<N>, q: seq<Event>) {
    forall i, j :: 0 <= i < j < |q| ==> !IsBefore(rules, q[j], q[i])
  }

  predicate Ties<N>(rules: Rules<N>, a: Event, b: Event) {
    !IsBefore(rules, a, b) && !IsBefore(rules, b, a)
  }

  /** The events that tie with a given one, in their order. */
  ghost function Tied<N>(rules: Rules<N>, q: seq<Event>, e: Event): seq<Event> {
    if q == [] then []
    else Tied(rules, q[..|q| - 1], e) + if Ties(rules, q[|q| - 1], e) then [q[|q| - 1]] else []
  }

  lemma TiedMore<N>(rules: Rules<N>, q: seq<Event>, x: Event, e: Event)
    ensures Tied(rules, q + [x], e) == Tied(rules, q, e) + if Ties(rules, x, e) then [x] else []
  {
    assert (q + [x])[..|q|] == q;
  }

  lemma {:induction false} InsertedInOrder<N>(rules: Rules<N>, q: seq<Event>, x: Event)
    requires IsOrder(rules.compare) && IsOrdered(rules, q)
    ensures IsOrdered(rules, Inserted(rules, q, x))
  {
    if q != [] && IsBefore(rules, x, q[|q| - 1]) {
      var n := |q| - 1;
      InsertedInOrder(rules, q[..n], x);
      forall y | y in Inserted(rules, q[..n], x) ensures !IsBefore(rules, q[n], y) {
        assert y in multiset(q[..n]) + multiset{x};
        BeforeIsOrder(rules, x, q[n], q[n]);
      }
      OrderedMore(rules, Inserted(rules, q[..n], x), q[n]);
    } else {
      NotBeforeAny(rules, q, x);
      OrderedMore(rules, q, x);
    }
  }

  lemma NotBeforeAny<N>(rules: Rules<N>, q: seq<Event>, x: Event)
    requires IsOrder(rules.compare) && IsOrdered(rules, q) && (q == [] || !IsBefore(rules, x, q[|q| - 1]))
    ensures forall y :: y in q ==> !IsBefore(rules, x, y)
  {
    forall y | y in q ensures !IsBefore(rules, x, y) {
      var i :| 0 <= i < |q| && q[i] == y;
      BeforeIsOrder(rules, y, q[|q| - 1], x);
    }
  }

  lemma OrderedMore<N>(rules: Rules<N>, q: seq<Event>, x: Event)
    requires IsOrdered(rules, q) && forall y :: y in q ==> !IsBefore(rules, x, y)
    ensures IsOrdered(rules, q + [x])
  {
    var more := q + [x];
    forall i, j | 0 <= i < j < |more| ensures !IsBefore(rules, more[j], more[i]) {
      assert more[i] == q[i];
      if j < |q| { assert more[j] == q[j]; }
    }
  }

  lemma OneTies<N>(rules: Rules<N>, x: Event, y: Event, e: Event)
    requires IsOrder(rules.compare) && IsBefore(rules, x, y)
    ensures !Ties(rules, x, e) || !Ties(rules, y, e)
  {
    BeforeIsOrder(rules, y, e, x);
  }

  lemma OneIsEmpty<T>(q: seq<T>, a: seq<T>, b: seq<T>)
    requires a == [] || b == []
    ensures q + a + b == q + b + a
  {
  }

  lemma {:induction false} InsertedTies<N>(rules: Rules<N>, q: seq<Event>, x: Event, e: Event)
    requires IsOrder(rules.compare)
    ensures Tied(rules, Inserted(rules, q, x), e) == Tied(rules, q, e) + if Ties(rules, x, e) then [x] else []
  {
    if q == [] || !IsBefore(rules, x, q[|q| - 1]) {
      TiedMore(rules, q, x, e);
    } else {
      var n := |q| - 1;
      InsertedTies(rules, q[..n], x, e);
      TiedMore(rules, Inserted(rules, q[..n], x), q[n], e);
      OneTies(rules, x, q[n], e);
      OneIsEmpty(Tied(rules, q[..n], e), if Ties(rules, x, e) then [x] else [],
                 if Ties(rules, q[n], e) then [q[n]] else []);
    }
  }

  /** When the comparison is an order, the events are sorted, and those that tie keep their order. */
  lemma OrderedIsStableSort<N>(rules: Rules<N>, q: seq<Event>)
    requires IsOrder(rules.compare)
    ensures var r := Ordered(rules, q);
      && multiset(r) == multiset(q)
      && (forall i, j :: 0 <= i < j < |r| ==> NoLater(rules, r[i], r[j]))
      && forall e :: Tied(rules, r, e) == Tied(rules, q, e)
  {
    OrderedIsOrdered(rules, q);
    var r := Ordered(rules, q);
    forall i, j | 0 <= i < j < |r| ensures NoLater(rules, r[i], r[j]) { NotBeforeIs(rules, r[i], r[j]); }
  }

  /** The earlier time first; among equal times the smaller id. */
  ghost predicate NoLater<N>(rules: Rules<N>, a: Event, b: Event) {
    || rules.compare(a.timestamp, b.timestamp) < 0
    || (rules.compare(a.timestamp, b.timestamp) == 0 && rules.compare(a.id, b.id) <= 0)
  }

  lemma NotBeforeIs<N>(rules: Rules<N>, a: Event, b: Event)
    requires IsOrder(rules.compare)
    ensures !IsBefore(rules, b, a) <==> NoLater(rules, a, b)
    ensures Ties(rules, a, b) <==> NoLater(rules, a, b) && NoLater(rules, b, a)
  {
    var compare := rules.compare;
    assert compare(a.timestamp, b.timestamp) < 0 <==> compare(b.timestamp, a.timestamp) > 0;
    assert compare(b.timestamp, a.timestamp) < 0 <==> compare(a.timestamp, b.timestamp) > 0;
    assert compare(a.id, b.id) < 0 <==> compare(b.id, a.id) > 0;
    assert compare(b.id, a.id) < 0 <==> compare(a.id, b.id) > 0;
  }

  lemma {:induction false} OrderedIsOrdered<N>(rules: Rules<N>, q: seq<Event>)
    requires IsOrder(rules.compare)
    ensures IsOrdered(rules, Ordered(rules, q)) && multiset(Ordered(rules, q)) == multiset(q)
    ensures forall e :: Tied(rules, Ordered(rules, q), e) == Tied(rules, q, e)
  {
    if q != [] {
      var n := |q| - 1;
      OrderedIsOrdered(rules, q[..n]);
      InsertedInOrder(rules, Ordered(rules, q[..n]), q[n]);
      forall e ensures Tied(rules, Ordered(rules, q), e) == Tied(rules, q, e) {
        InsertedTies(rules, Ordered(rules, q[..n]), q[n], e);
      }
    }
  }

  // ---------- one event for a span ----------

  function Phase(e: Event): string {
    var phase := MetadataString(e, "phase");
    if phase.Some? then phase.value else "single"
  }

  /** No two events report the same phase. */
  ghost predicate PhasesDiffer(q: seq<Event>) {
    forall i, j :: 0 <= i < j < |q| ==> Phase(q[i]) != Phase(q[j])
  }

  predicate Starts(e: Event) {
    MetadataString(e, "phase") == Some("start")
  }

  function FirstStart(q: seq<Event>): (i: nat)
    ensures i <= |q| && (i < |q| ==> Starts(q[i]))
    ensures forall j :: 0 <= j < i ==> !Starts(q[j])
  {
    if q == [] || Starts(q[0]) then 0 else 1 + FirstStart(q[1..])
  }

  function Anchor(q: seq<Event>): (e: Event)
    requires q != []
    ensures e in q
  {
    if FirstStart(q) < |q| then q[FirstStart(q)] else q[0]
  }

  function AllMetadata(q: seq<Event>): map<string, Meta> {
    if q == [] then map[] else AllMetadata(q[..|q| - 1]) + q[|q| - 1].metadata
  }

  datatype VisualSpan = VisualSpan(key: string, event: Event, unambiguous: bool)

  ghost function SpanOf<N>(rules: Rules<N>, g: Group): VisualSpan
    requires g.events != []
  {
    OrderedNotEmpty(rules, g.events);
    var q := Ordered(rules, g.events);
    VisualSpan(g.key, Anchor(q).(metadata := AllMetadata(q)), PhasesDiffer(q))
  }

  lemma OrderedNotEmpty<N>(rules: Rules<N>, q: seq<Event>)
    requires q != []
    ensures Ordered(rules, q) != []
  {
    assert q[0] in multiset(q);
    assert |multiset(Ordered(rules, q))| > 0;
  }

  ghost function Spans<N>(rules: Rules<N>, events: seq<Event>): (s: seq<VisualSpan>)
    ensures |s| == |Grouped(events)|
    ensures forall i :: 0 <= i < |s| ==> s[i].key == Grouped(events)[i].key
  {
    GroupsAreSpans(events);
    var groups := Grouped(events);
    seq(|groups|, i requires 0 <= i < |groups| => SpanOf(rules, groups[i]))
  }

  function EventsOf(spans: seq<VisualSpan>): (e: seq<Event>)
    ensures |e| == |spans|
  {
    seq(|spans|, i requires 0 <= i < |spans| => spans[i].event)
  }

  /** What is shown: events of no span as they are, and one event for each span. */
  ghost function Canonical<N>(rules: Rules<N>, events: seq<Event>): seq<Event> {
    Ordinary(events) + EventsOf(Spans(rules, events))
  }

  /** Spans are shown in the order of their first events. */
  lemma SpansByFirstEvent<N>(rules: Rules<N>, events: seq<Event>)
    ensures var spans := Spans(rules, events);
      && (forall i :: 0 <= i < |spans| ==> FirstAt(events, spans[i].key) < |events|)
      && (forall i, j :: 0 <= i < j < |spans| ==> FirstAt(events, spans[i].key) < FirstAt(events, spans[j].key))
  {
    GroupsByFirstEvent(events);
  }

  /** The event that stands for a span: the first that reports its start, or the first of all when none does. */
  ghost predicate IsAnchor(q: seq<Event>, a: int) {
    && 0 <= a < |q|
    && (forall j :: 0 <= j < a ==> !Reports(q[j], "phase", "start"))
    && (Reports(q[a], "phase", "start") || (a == 0 && forall j :: 0 <= j < |q| ==> !Reports(q[j], "phase", "start")))
  }

  /** An event that reports no phase is a span by itself. */
  ghost predicate HasPhase(e: Event, phase: string) {
    Reports(e, "phase", phase) || (phase == "single" && forall text :: !Reports(e, "phase", text))
  }

  ghost predicate NoPhaseTwice(q: seq<Event>) {
    forall i, j, phase :: 0 <= i < j < |q| && HasPhase(q[i], phase) ==> !HasPhase(q[j], phase)
  }

  lemma PhaseIs(e: Event, phase: string)
    ensures Phase(e) == phase <==> HasPhase(e, phase)
  {
    MetadataStringIs(e, "phase");
  }

  lemma PhasesDifferIs(q: seq<Event>)
    ensures PhasesDiffer(q) <==> NoPhaseTwice(q)
  {
    if PhasesDiffer(q) {
      forall i, j, phase | 0 <= i < j < |q| && HasPhase(q[i], phase) ensures !HasPhase(q[j], phase) {
        PhaseIs(q[i], phase);
        PhaseIs(q[j], phase);
      }
    }
    if NoPhaseTwice(q) {
      forall i, j | 0 <= i < j < |q| ensures Phase(q[i]) != Phase(q[j]) {
        PhaseIs(q[i], Phase(q[i]));
        PhaseIs(q[j], Phase(q[i]));
      }
    }
  }

  /** The last event that reports a key of metadata. */
  ghost predicate ReportsLast(q: seq<Event>, i: int, key: string) {
    0 <= i < |q| && key in q[i].metadata && forall j :: i < j < |q| ==> key !in q[j].metadata
  }

  ghost predicate LastWins(q: seq<Event>, metadata: map<string, Meta>) {
    && metadata.Keys == MetadataKeys(q)
    && forall i, key :: ReportsLast(q, i, key) ==> metadata[key] == q[i].metadata[key]
  }

  /** Each span becomes one event: with its events in order, the first one that starts the span, else the first of all,
      keeps everything but its metadata; of each key of metadata the last value counts. The span is unambiguous exactly
      when its events report different phases. */
  lemma SpanIsOneEvent<N>(rules: Rules<N>, events: seq<Event>, key: string) returns (i: nat, a: nat)
    requires OfSpan(events, key) != []
    ensures var spans, q := Spans(rules, events), Ordered(rules, OfSpan(events, key));
      && i < |spans| && spans[i].key == key
      && (forall j :: 0 <= j < |spans| && spans[j].key == key ==> j == i)
      && IsAnchor(q, a) && spans[i].event == q[a].(metadata := spans[i].event.metadata)
      && LastWins(q, spans[i].event.metadata)
      && (spans[i].unambiguous <==> NoPhaseTwice(OfSpan(events, key)))
  {
    var groups, spans := Grouped(events), Spans(rules, events);
    GroupsAreSpans(events);
    i :| 0 <= i < |groups| && groups[i].key == key;
    forall j | 0 <= j < |spans| && spans[j].key == key ensures j == i {
      assert Keys(GroupKey(), groups)[i] == key && Keys(GroupKey(), groups)[j] == key;
    }
    a := SpanOfGroup(rules, groups[i]);
  }

  lemma SpanOfGroup<N>(rules: Rules<N>, g: Group) returns (a: nat)
    requires g.events != []
    ensures var span, q := SpanOf(rules, g), Ordered(rules, g.events);
      && IsAnchor(q, a) && span.event == q[a].(metadata := span.event.metadata)
      && LastWins(q, span.event.metadata)
      && (span.unambiguous <==> NoPhaseTwice(g.events))
  {
    OrderedNotEmpty(rules, g.events);
    var q := Ordered(rules, g.events);
    a := AnchorAt(q);
    LastCounts(q);
    SamePhasesBoth(q, g.events);
    PhasesDifferIs(g.events);
  }

  lemma AnchorAt(q: seq<Event>) returns (a: nat)
    requires q != []
    ensures IsAnchor(q, a) && Anchor(q) == q[a]
  {
    a := if FirstStart(q) < |q| then FirstStart(q) else 0;
    forall j | 0 <= j < |q| ensures Starts(q[j]) <==> Reports(q[j], "phase", "start") {
      MetadataStringIs(q[j], "phase");
    }
  }

  ghost function MetadataKeys(q: seq<Event>): set<string> {
    set i, k | 0 <= i < |q| && k in q[i].metadata :: k
  }

  lemma MoreKeys(q: seq<Event>)
    requires q != []
    ensures MetadataKeys(q) == MetadataKeys(q[..|q| - 1]) + q[|q| - 1].metadata.Keys
  {
  }

  lemma {:induction false} LastCounts(q: seq<Event>)
    ensures LastWins(q, AllMetadata(q))
  {
    if q != [] {
      LastCounts(q[..|q| - 1]);
      OneMoreCounts(q, AllMetadata(q[..|q| - 1]));
    }
  }

  lemma OneMoreCounts(q: seq<Event>, before: map<string, Meta>)
    requires q != [] && LastWins(q[..|q| - 1], before)
    ensures LastWins(q, before + q[|q| - 1].metadata)
  {
    var n, all := |q| - 1, before + q[|q| - 1].metadata;
    assert all.Keys == before.Keys + q[n].metadata.Keys;
    MoreKeys(q);
    forall i, key | ReportsLast(q, i, key) ensures key in all && all[key] == q[i].metadata[key] {
      if i < n {
        assert key !in q[n].metadata;
        assert ReportsLast(q[..n], i, key);
      }
    }
  }

  lemma SamePhasesBoth(p: seq<Event>, q: seq<Event>)
    requires multiset(p) == multiset(q)
    ensures PhasesDiffer(p) <==> PhasesDiffer(q)
  {
    if PhasesDiffer(p) { SamePhases(p, q); }
    if PhasesDiffer(q) { SamePhases(q, p); }
  }

  /** Reordering does not change whether phases differ. */
  lemma {:induction false} SamePhases(p: seq<Event>, q: seq<Event>)
    requires multiset(p) == multiset(q) && PhasesDiffer(p)
    ensures PhasesDiffer(q)
  {
    forall i, j | 0 <= i < j < |q| ensures Phase(q[i]) != Phase(q[j]) {
      assert q[i] in multiset(p) && q[j] in multiset(p);
      var k :| 0 <= k < |p| && p[k] == q[i];
      var l :| 0 <= l < |p| && p[l] == q[j];
      if k == l {
        TwiceIn(q, i, j);
        OnceIn(p, k);
      }
    }
  }

  lemma TwiceIn(q: seq<Event>, i: nat, j: nat)
    requires i < j < |q| && q[i] == q[j]
    ensures multiset(q)[q[i]] >= 2
  {
    assert q == q[..i] + [q[i]] + q[i + 1..j] + [q[j]] + q[j + 1..];
  }

  lemma OnceIn(p: seq<Event>, k: nat)
    requires k < |p| && PhasesDiffer(p)
    ensures multiset(p)[p[k]] == 1
  {
    var a, b := p[..k], p[k + 1..];
    assert p == a + [p[k]] + b;
    forall i | 0 <= i < |a| ensures a[i] != p[k] { assert Phase(p[i]) != Phase(p[k]); }
    forall i | 0 <= i < |b| ensures b[i] != p[k] { assert b[i] == p[k + 1 + i]; }
    assert p[k] !in multiset(a) && p[k] !in multiset(b);
  }

  // ---------- the loops ----------

  /** How many events report a phase. */
  ghost function Count(q: seq<Event>, phase: string): nat {
    if q == [] then 0 else Count(q[..|q| - 1], phase) + if Phase(q[|q| - 1]) == phase then 1 else 0
  }

  ghost predicate Counted(phases: map<string, nat>, q: seq<Event>) {
    forall p :: Count(q, p) == if p in phases then phases[p] else 0
  }

  lemma CountMore(q: seq<Event>, e: Event, phase: string)
    ensures Count(q + [e], phase) == Count(q, phase) + if Phase(e) == phase then 1 else 0
  {
    assert (q + [e])[..|q|] == q;
  }

  lemma CountedMore(phases: map<string, nat>, q: seq<Event>, e: Event)
    requires Counted(phases, q)
    ensures Counted(phases[Phase(e) := (if Phase(e) in phases then phases[Phase(e)] else 0) + 1], q + [e])
  {
    var after := phases[Phase(e) := (if Phase(e) in phases then phases[Phase(e)] else 0) + 1];
    forall p ensures Count(q + [e], p) == if p in after then after[p] else 0 {
      CountMore(q, e, p);
    }
  }

  lemma {:induction false} SomeCounted(q: seq<Event>, phase: string)
    ensures Count(q, phase) > 0 ==> exists j :: 0 <= j < |q| && Phase(q[j]) == phase
  {
    if q != [] {
      SomeCounted(q[..|q| - 1], phase);
      assert Phase(q[|q| - 1]) == phase || Count(q[..|q| - 1], phase) == Count(q, phase);
    }
  }

  lemma {:induction false} AllCounted(q: seq<Event>, j: nat)
    requires j < |q|
    ensures Count(q, Phase(q[j])) > 0
  {
    if j < |q| - 1 { AllCounted(q[..|q| - 1], j); }
  }

  lemma CountsDiffer(q: seq<Event>, e: Event)
    requires PhasesDiffer(q) && Count(q, Phase(e)) == 0
    ensures PhasesDiffer(q + [e])
  {
    var more := q + [e];
    forall i, j | 0 <= i < j < |more| ensures Phase(more[i]) != Phase(more[j]) {
      assert more[i] == q[i];
      if j < |q| { assert more[j] == q[j]; } else { AllCounted(q, i); }
    }
  }

  lemma {:induction false} CountedOnce(q: seq<Event>)
    ensures (forall p :: Count(q, p) <= 1) ==> PhasesDiffer(q)
  {
    if q != [] && forall p :: Count(q, p) <= 1 {
      var some, last := q[..|q| - 1], q[|q| - 1];
      assert forall p :: Count(some, p) <= Count(q, p);
      CountedOnce(some);
      CountsDiffer(some, last);
      Seqs.LastApart(q);
    }
  }

  lemma {:induction false} CountedTwice(q: seq<Event>, phase: string)
    requires PhasesDiffer(q)
    ensures Count(q, phase) <= 1
  {
    if q != [] {
      var some := q[..|q| - 1];
      CountedTwice(some, phase);
      SomeCounted(some, phase);
      assert forall j :: 0 <= j < |some| ==> some[j] == q[j] && Phase(q[j]) != Phase(q[|q| - 1]);
    }
  }

  /** Counts the phases of a span's events; each must be reported once. */
  method CountPhases(q: seq<Event>) returns (differ: bool)
    ensures differ <==> PhasesDiffer(q)
  {
    var phases: map<string, nat> := map[];
    for i := 0 to |q|
      invariant Counted(phases, q[..i]) && forall p :: p in phases ==> phases[p] >= 1
    {
      CountedMore(phases, q[..i], q[i]);
      Seqs.TakeOneMore(q, i);
      var phase := Phase(q[i]);
      phases := phases[phase := (if phase in phases then phases[phase] else 0) + 1];
    }
    Seqs.TakeAll(q);
    CountedOnce(q);
    forall p | PhasesDiffer(q) ensures Count(q, p) <= 1 { CountedTwice(q, p); }
    assert forall p :: p in phases ==> phases[p] == Count(q, p);
    differ := forall p :: p in phases ==> phases[p] == 1;
  }

  method SpanFrom<N>(rules: Rules<N>, g: Group) returns (span: VisualSpan)
    requires g.events != []
    ensures span == SpanOf(rules, g)
  {
    OrderedNotEmpty(rules, g.events);
    var ordered := Ordered(rules, g.events);
    var differ := CountPhases(ordered);
    span := VisualSpan(g.key, Anchor(ordered).(metadata := AllMetadata(ordered)), differ);
  }

  method CanonicalRuntimeEvents<N>(rules: Rules<N>, events: seq<Event>)
    returns (shown: seq<Event>, spans: seq<VisualSpan>)
    ensures shown == Canonical(rules, events) && spans == Spans(rules, events)
  {
    var grouped, ordinary := GroupEvents(events);
    GroupsAreSpans(events);
    spans := [];
    for i := 0 to |grouped|
      invariant spans == Spans(rules, events)[..i]
    {
      var span := SpanFrom(rules, grouped[i]);
      Seqs.TakeOneMore(Spans(rules, events), i);
      spans := spans + [span];
    }
    Seqs.TakeAll(Spans(rules, events));
    shown := ordinary + EventsOf(spans);
  }

  method GroupEvents(events: seq<Event>) returns (grouped: seq<Group>, ordinary: seq<Event>)
    ensures grouped == Grouped(events) && ordinary == Ordinary(events)
  {
    grouped, ordinary := [], [];
    for i := 0 to |events|
      invariant grouped == Grouped(events[..i]) && ordinary == Ordinary(events[..i])
    {
      assert events[..i + 1][..i] == events[..i];
      var key := OwnSpan(events[i]);
      if key.Some? {
        grouped := Put(GroupKey(), JoinGroups(), grouped, Group(key.value, [events[i]]));
      } else {
        ordinary := ordinary + [events[i]];
      }
    }
    assert events[..|events|] == events;
  }
}
