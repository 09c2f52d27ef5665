/** Every interleaving of requests, replies and workspace switches (app/useWorkspaceGraphs.ts). */
module WorkspaceRuns {
  import opened Options
  import InsertionOrder
  import opened ExecutionFlow
  import opened WorkspaceGraphs
  import RequestLine

  /** A request on its way, with the flow that was shown when it was started. */
  datatype Pending = Pending(call: Call, flow: Flow)

  /** A page that was merged, with the root and the cursor that it was asked for. */
  datatype Fetched = Fetched(asked: string, cursor: string, page: Page)

  /** The hook with everything on its way, and where its flow comes from: a first flow and the pages merged into it. */
  datatype Machine = Machine(hook: Hook, pending: map<nat, Pending>, tickets: nat, base: Flow, pages: seq<Fetched>,
                             flowStarted: nat, searchStarted: nat)

  datatype Move =
    | Switch
    | ReplaceGraphs(overview: Page, detail: Page, flow: Flow)
    | Trace(root: string, fallback: Option<string>)
    | LoadNext
    | Search(query: string)
    | Reply(ticket: nat, outcome: Outcome)

  ghost function Sent(m: Machine, hook: Hook, call: Call): Machine {
    m.(hook := hook, pending := m.pending[m.tickets := Pending(call, m.hook.view.flow)], tickets := m.tickets + 1)
  }

  ghost function FlowSent(m: Machine, hook: Hook, call: Call): Machine {
    Sent(m, hook, call).(flowStarted := m.hook.generation)
  }

  ghost function Replied(c: Client, m: Machine, ticket: nat, outcome: Outcome): Machine
    requires ticket in m.pending
  {
    var h, p, rest := m.hook, m.pending[ticket], m.pending - {ticket};
    match p.call
    case TraceCall(_, _, _, _, _) =>
      var (after, again) := TraceReplied(c, h, p.call, outcome);
      if again.Some? then m.(pending := m.pending[ticket := Pending(again.value, p.flow)])
      else if outcome.Answer? && Current(h, p.call) then
        m.(hook := after, pending := rest, base := after.view.flow, pages := [])
      else m.(hook := after, pending := rest)
    case NextCall(_, _, asked, cursor) =>
      var after := m.(hook := NextReplied(c, h, p.call, outcome), pending := rest);
      if outcome.Answer? && Current(h, p.call) then after.(pages := m.pages + [Fetched(asked, cursor, outcome.page)])
      else after
    case SearchCall(_, _) => m.(hook := SearchReplied(h, p.call, outcome), pending := rest)
  }

  ghost function Next(c: Client, m: Machine, move: Move): Machine {
    match move
    case Switch => m.(hook := m.hook.(generation := m.hook.generation + 1))
    case ReplaceGraphs(overview, detail, flow) =>
      m.(hook := Replaced(m.hook, overview, detail, flow), base := flow, pages := [],
         flowStarted := m.hook.generation, searchStarted := m.hook.generation)
    case Trace(root, fallback) =>
      var (after, call) := TraceStarted(m.hook, root, fallback);
      FlowSent(m, after, call)
    case LoadNext =>
      if !MayLoadNext(m.hook.view) then m
      else
        var (after, call) := NextStarted(m.hook);
        FlowSent(m, after, call)
    case Search(query) =>
      var (after, call) := SearchStarted(m.hook, query);
      if call.Some? then Sent(m, after, call.value).(searchStarted := m.hook.generation)
      else m.(hook := after, searchStarted := m.hook.generation)
    case Reply(ticket, outcome) => if ticket in m.pending then Replied(c, m, ticket, outcome) else m
  }

  ghost function Start(): Machine {
    Machine(Initial(), map[], 0, Initial().view.flow, [], 0, 0)
  }

  ghost function After(c: Client, m: Machine, moves: seq<Move>): Machine {
    if moves == [] then m else Next(c, After(c, m, moves[..|moves| - 1]), moves[|moves| - 1])
  }

  /** Flows given to `replace` come from a page of the backend, so they have at most 1,000 nodes. */
  ghost predicate Lawful(move: Move) {
    move.ReplaceGraphs? ==> |move.flow.page.nodes| <= MAX_EXECUTION_FLOW_NODES
  }

  // ---------- the invariant ----------

  /** The number of the last request of the kind of a call. */
  function LastNumber(h: Hook, call: Call): nat {
    if call.SearchCall? then h.searchRequest else h.flowRequest
  }

  ghost function Started(m: Machine, search: bool): nat {
    if search then m.searchStarted else m.flowStarted
  }

  ghost function Loading(h: Hook, search: bool): bool {
    if search then h.view.searchLoading else h.view.flowLoading
  }

  ghost function Number(h: Hook, search: bool): nat {
    if search then h.searchRequest else h.flowRequest
  }

  /** The requests of one kind, flows or searches. */
  ghost function LineOf(m: Machine, search: bool): RequestLine.Line {
    RequestLine.Line(m.hook.generation, Number(m.hook, search), Started(m, search), Loading(m.hook, search),
      map t | t in m.pending && m.pending[t].call.SearchCall? == search ::
        RequestLine.Stamp(m.pending[t].call.generation, m.pending[t].call.request))
  }

  ghost predicate TicketsFit(m: Machine) {
    forall t :: t in m.pending ==> t < m.tickets
  }

  /** A page request that is still the last one was made by the very flow that is shown. */
  ghost predicate FromShownFlow(m: Machine, p: Pending) {
    p.call.NextCall? && p.call.request == m.hook.flowRequest ==>
      && p.flow == m.hook.view.flow
      && m.hook.view.flowQueryRootId == Some(p.call.asked)
      && m.hook.view.flow.page.nextCursor == Cursor(p.call.cursor)
  }

  ghost predicate PagesFit(m: Machine) {
    forall t :: t in m.pending ==> FromShownFlow(m, m.pending[t])
  }

  ghost function Fold(c: Client, base: Flow, pages: seq<Fetched>): Flow {
    if pages == [] then base else c.merge(Fold(c, base, pages[..|pages| - 1]), pages[|pages| - 1].page)
  }

  /** Page n was fetched for this root, with the cursor that the flow had just then. */
  ghost predicate IsNextPage(c: Client, base: Flow, pages: seq<Fetched>, root: Option<string>, n: nat)
    requires n < |pages|
  {
    && Some(pages[n].asked) == root
    && Fold(c, base, pages[..n]).page.nextCursor == Cursor(pages[n].cursor)
  }

  ghost predicate IsChain(c: Client, base: Flow, pages: seq<Fetched>, root: Option<string>) {
    forall n :: 0 <= n < |pages| ==> IsNextPage(c, base, pages, root, n)
  }

  /** The shown flow is its first flow with pages merged in one after the other, each fetched for the shown root with
      the cursor that the flow had just then. */
  ghost predicate FlowFits(c: Client, m: Machine) {
    && m.hook.view.flow == Fold(c, m.base, m.pages)
    && IsChain(c, m.base, m.pages, m.hook.view.flowQueryRootId)
  }

  /** A further page lengthens a chain. */
  lemma ChainGrows(c: Client, base: Flow, pages: seq<Fetched>, root: Option<string>, more: Fetched)
    requires IsChain(c, base, pages, root)
    requires Some(more.asked) == root && Fold(c, base, pages).page.nextCursor == Cursor(more.cursor)
    ensures IsChain(c, base, pages + [more], root)
    ensures Fold(c, base, pages + [more]) == c.merge(Fold(c, base, pages), more.page)
  {
    var all := pages + [more];
    assert all[..|pages|] == pages;
    forall n | 0 <= n < |all| ensures IsNextPage(c, base, all, root, n) {
      if n < |pages| {
        assert all[..n] == pages[..n];
        assert IsNextPage(c, base, pages, root, n);
      }
    }
  }

  /** The reply to the last request of a kind is still to come. */
  ghost predicate Awaited(m: Machine, search: bool) {
    RequestLine.Awaited(LineOf(m, search))
  }

  ghost predicate IsLast(m: Machine, ticket: nat, search: bool) {
    RequestLine.IsLast(LineOf(m, search), ticket)
  }

  /** Loading is shown although no reply will end it. */
  ghost predicate Stranded(m: Machine, search: bool) {
    RequestLine.Stranded(LineOf(m, search))
  }

  ghost predicate LinesFit(m: Machine) {
    TicketsFit(m) && RequestLine.Fits(LineOf(m, false)) && RequestLine.Fits(LineOf(m, true))
  }

  /** The flow is small enough to be merged into without losing a node, and its shown root is one of its nodes. */
  ghost predicate RootFits(m: Machine) {
    && |m.hook.view.flow.page.nodes| <= MAX_EXECUTION_FLOW_NODES
    && (m.hook.view.flowRootId.Some? ==> HasNode(m.hook.view.flow.page.nodes, m.hook.view.flowRootId.value))
  }

  ghost predicate Inv(c: Client, m: Machine) {
    LinesFit(m) && PagesFit(m) && FlowFits(c, m)
  }

  /** A client under which no node of a small flow is lost, and whose flows are small. */
  ghost predicate KeepsNodes(c: Client) {
    && (forall page: Page :: |c.first(page).page.nodes| <= MAX_EXECUTION_FLOW_NODES)
    && forall flow: Flow, page: Page :: |flow.page.nodes| <= MAX_EXECUTION_FLOW_NODES ==>
         && |c.merge(flow, page).page.nodes| <= MAX_EXECUTION_FLOW_NODES
         && forall id :: HasNode(flow.page.nodes, id) ==> HasNode(c.merge(flow, page).page.nodes, id)
  }

  lemma {:induction false} MapIsShorter(xs: seq<FlowNode>)
    ensures |InsertionOrder.PutAll(NodeId(), InsertionOrder.Replace(), [], xs)| <= |xs|
  {
    if xs != [] { MapIsShorter(xs[..|xs| - 1]); }
  }

  /** Merging loses no node of a flow within the bound. */
  lemma NodesStay(current: Flow, page: Flow)
    requires |current.page.nodes| <= MAX_EXECUTION_FLOW_NODES
    ensures forall id :: HasNode(current.page.nodes, id) ==> HasNode(Merged(current, page).page.nodes, id)
    ensures |Merged(current, page).page.nodes| <= MAX_EXECUTION_FLOW_NODES
  {
    JoiningKeepsId();
    var own := InsertionOrder.PutAll(NodeId(), InsertionOrder.Replace(), [], current.page.nodes);
    MapIsShorter(current.page.nodes);
    InsertionOrder.PutAllKeys(NodeId(), InsertionOrder.Replace(), [], current.page.nodes);
    InsertionOrder.PutAllKeys(NodeId(), JoinNodes(), own, page.page.nodes);
    var all, kept := AllNodes(current, page), BoundedNodes(current, page);
    forall id | HasNode(current.page.nodes, id) ensures HasNode(kept, id) {
      assert id in InsertionOrder.KeySet(NodeId(), current.page.nodes);
      var i :| 0 <= i < |own| && own[i].id == id;
      assert InsertionOrder.Keys(NodeId(), own)[i] == InsertionOrder.Keys(NodeId(), all)[i] == id;
      assert kept[i].id == id;
    }
  }

  lemma QueryClientKeepsNodes()
    ensures KeepsNodes(QueryClient())
  {
    var c := QueryClient();
    forall flow: Flow, page: Page | |flow.page.nodes| <= MAX_EXECUTION_FLOW_NODES
      ensures |c.merge(flow, page).page.nodes| <= MAX_EXECUTION_FLOW_NODES
      ensures forall id :: HasNode(flow.page.nodes, id) ==> HasNode(c.merge(flow, page).page.nodes, id)
    {
      NodesStay(flow, FromPage(page));
    }
  }

  // ---------- every step keeps it ----------

  /** What a move does to the requests of one kind. */
  ghost function StepOf(c: Client, m: Machine, move: Move, search: bool): RequestLine.Step {
    match move
    case Switch => RequestLine.Leave
    case ReplaceGraphs(_, _, _) => RequestLine.Drop
    case Trace(_, _) => if search then RequestLine.Stay else RequestLine.Send(m.tickets)
    case LoadNext => if search || !MayLoadNext(m.hook.view) then RequestLine.Stay else RequestLine.Send(m.tickets)
    case Search(query) =>
      if !search then RequestLine.Stay else if query == "" then RequestLine.Drop else RequestLine.Send(m.tickets)
    case Reply(t, _) => if Answers(c, m, move, search) then RequestLine.Answer(t) else RequestLine.Stay
  }

  /** A reply that ends its request; the failure of a trace with a fallback only sends it again. */
  ghost predicate Answers(c: Client, m: Machine, move: Move, search: bool) {
    && move.Reply? && move.ticket in m.pending && m.pending[move.ticket].call.SearchCall? == search
    && move.ticket !in Next(c, m, move).pending
  }

  lemma ReplyStep(c: Client, m: Machine, ticket: nat, outcome: Outcome, search: bool)
    requires ticket in m.pending
    ensures LineOf(Replied(c, m, ticket, outcome), search)
      == RequestLine.Stepped(LineOf(m, search), StepOf(c, m, Reply(ticket, outcome), search))
  {
    RepliedWaiting(c, m, ticket, outcome, search);
  }

  lemma RepliedWaiting(c: Client, m: Machine, ticket: nat, outcome: Outcome, search: bool)
    requires ticket in m.pending
    ensures var after, waiting := Replied(c, m, ticket, outcome), LineOf(m, search).waiting;
      LineOf(after, search).waiting == if ticket in after.pending then waiting else waiting - {ticket}
  {
    var after := Replied(c, m, ticket, outcome);
    if ticket !in after.pending { assert after.pending == m.pending - {ticket}; }
  }

  lemma SentWaiting(m: Machine, hook: Hook, call: Call, search: bool)
    requires TicketsFit(m)
    ensures LineOf(Sent(m, hook, call), search).waiting ==
      if call.SearchCall? == search then
        LineOf(m, search).waiting[m.tickets := RequestLine.Stamp(call.generation, call.request)]
      else LineOf(m, search).waiting
  {
    assert m.tickets !in m.pending;
  }

  /** Both kinds of requests follow their steps in every move. */
  lemma LineStep(c: Client, m: Machine, move: Move, search: bool)
    requires TicketsFit(m)
    ensures LineOf(Next(c, m, move), search) == RequestLine.Stepped(LineOf(m, search), StepOf(c, m, move, search))
  {
    match move
    case Trace(root, fallback) =>
      var (after, call) := TraceStarted(m.hook, root, fallback);
      SentWaiting(m, after, call, search);
    case LoadNext =>
      if MayLoadNext(m.hook.view) {
        var (after, call) := NextStarted(m.hook);
        SentWaiting(m, after, call, search);
      }
    case Search(query) =>
      var (after, call) := SearchStarted(m.hook, query);
      if call.Some? { SentWaiting(m, after, call.value, search); }
    case Reply(ticket, outcome) => if ticket in m.pending { ReplyStep(c, m, ticket, outcome, search); }
    case _ =>
  }

  lemma RequestsNumbered(m: Machine)
    requires LinesFit(m)
    ensures forall t :: t in m.pending ==> m.pending[t].call.request <= LastNumber(m.hook, m.pending[t].call)
  {
    forall t | t in m.pending ensures m.pending[t].call.request <= LastNumber(m.hook, m.pending[t].call) {
      var line := LineOf(m, m.pending[t].call.SearchCall?);
      assert t in line.waiting && RequestLine.StampFits(line, t);
    }
  }

  lemma LinesKept(c: Client, m: Machine, move: Move)
    requires LinesFit(m)
    ensures LinesFit(Next(c, m, move))
  {
    LineKept(c, m, move, false);
    LineKept(c, m, move, true);
    TicketsKept(c, m, move);
  }

  lemma LineKept(c: Client, m: Machine, move: Move, search: bool)
    requires LinesFit(m)
    ensures RequestLine.Fits(LineOf(Next(c, m, move), search))
  {
    var line, step := LineOf(m, search), StepOf(c, m, move, search);
    LineStep(c, m, move, search);
    assert RequestLine.Fits(line);
    assert step.Send? ==> step.ticket !in line.waiting;
    RequestLine.StepKeeps(line, step);
  }

  lemma TicketsKept(c: Client, m: Machine, move: Move)
    requires TicketsFit(m)
    ensures TicketsFit(Next(c, m, move))
  {
  }

  /** The flow and its root stay, and no request is sent that claims them. */
  lemma PagesStay(m: Machine, after: Machine)
    requires PagesFit(m)
    requires after.hook.flowRequest == m.hook.flowRequest ==>
      && after.hook.view.flow == m.hook.view.flow && after.hook.view.flowQueryRootId == m.hook.view.flowQueryRootId
    requires after.hook.flowRequest >= m.hook.flowRequest
    requires forall t :: t in after.pending ==> after.pending[t].call.NextCall? ==>
      || FromShownFlow(after, after.pending[t])
      || (t in m.pending && after.pending[t] == m.pending[t] && m.pending[t].call.request <= m.hook.flowRequest)
    ensures PagesFit(after)
  {
    forall t | t in after.pending ensures FromShownFlow(after, after.pending[t]) {
      if t in m.pending && after.pending[t] == m.pending[t] { assert FromShownFlow(m, m.pending[t]); }
    }
  }

  lemma PagesAfterReply(c: Client, m: Machine, ticket: nat, outcome: Outcome)
    requires LinesFit(m) && PagesFit(m) && ticket in m.pending
    ensures PagesFit(Replied(c, m, ticket, outcome))
  {
    var after, call := Replied(c, m, ticket, outcome), m.pending[ticket].call;
    forall t | t in after.pending ensures FromShownFlow(after, after.pending[t]) {
      assert FromShownFlow(m, m.pending[t]);
      if t != ticket && !call.SearchCall? && Current(m.hook, call) {
        var line := LineOf(m, false);
        assert ticket in line.waiting && !m.pending[t].call.SearchCall? ==> t in line.waiting;
      }
    }
  }

  lemma PagesKept(c: Client, m: Machine, move: Move)
    requires LinesFit(m) && PagesFit(m)
    ensures PagesFit(Next(c, m, move))
  {
    if move.Reply? {
      if move.ticket in m.pending { PagesAfterReply(c, m, move.ticket, move.outcome); }
    } else {
      RequestsNumbered(m);
      PagesStay(m, Next(c, m, move));
    }
  }

  /** Nothing about the flow changes. */
  ghost predicate SameFlow(m: Machine, after: Machine) {
    && after.hook.view.flow == m.hook.view.flow && after.hook.view.flowQueryRootId == m.hook.view.flowQueryRootId
    && after.base == m.base && after.pages == m.pages
  }

  lemma FlowStays(c: Client, m: Machine, after: Machine)
    requires FlowFits(c, m)
    requires SameFlow(m, after) || (after.pages == [] && after.hook.view.flow == after.base)
    ensures FlowFits(c, after)
  {
  }

  lemma FlowAfterReply(c: Client, m: Machine, ticket: nat, outcome: Outcome)
    requires PagesFit(m) && FlowFits(c, m) && ticket in m.pending
    ensures FlowFits(c, Replied(c, m, ticket, outcome))
  {
    var after, p := Replied(c, m, ticket, outcome), m.pending[ticket];
    if p.call.NextCall? && outcome.Answer? && Current(m.hook, p.call) {
      assert FromShownFlow(m, p);
      PageMerged(c, m, after, p, outcome.page);
    } else {
      FlowStays(c, m, after);
    }
  }

  /** Merging the awaited page extends the chain of pages by that page. */
  lemma PageMerged(c: Client, m: Machine, after: Machine, p: Pending, page: Page)
    requires FlowFits(c, m) && FromShownFlow(m, p) && p.call.NextCall? && Current(m.hook, p.call)
    requires after.base == m.base && after.pages == m.pages + [Fetched(p.call.asked, p.call.cursor, page)]
    requires after.hook.view.flow == c.merge(m.hook.view.flow, page)
    requires after.hook.view.flowQueryRootId == m.hook.view.flowQueryRootId
    ensures FlowFits(c, after)
  {
    ChainGrows(c, m.base, m.pages, m.hook.view.flowQueryRootId, Fetched(p.call.asked, p.call.cursor, page));
  }

  lemma FlowKept(c: Client, m: Machine, move: Move)
    requires PagesFit(m) && FlowFits(c, m)
    ensures FlowFits(c, Next(c, m, move))
  {
    if move.Reply? {
      if move.ticket in m.pending { FlowAfterReply(c, m, move.ticket, move.outcome); }
    } else {
      FlowStays(c, m, Next(c, m, move));
    }
  }

  lemma RootKept(c: Client, m: Machine, move: Move)
    requires RootFits(m) && Lawful(move) && KeepsNodes(c)
    ensures RootFits(Next(c, m, move))
  {
  }

  lemma StepKeepsInv(c: Client, m: Machine, move: Move)
    requires Inv(c, m)
    ensures Inv(c, Next(c, m, move))
  {
    LinesKept(c, m, move);
    PagesKept(c, m, move);
    FlowKept(c, m, move);
  }

  lemma {:induction false} RunKeepsInv(c: Client, moves: seq<Move>)
    ensures Inv(c, After(c, Start(), moves))
  {
    if moves != [] {
      RunKeepsInv(c, moves[..|moves| - 1]);
      StepKeepsInv(c, After(c, Start(), moves[..|moves| - 1]), moves[|moves| - 1]);
    }
  }

  lemma {:induction false} RunKeepsRoot(c: Client, moves: seq<Move>)
    requires KeepsNodes(c) && forall i :: 0 <= i < |moves| ==> Lawful(moves[i])
    ensures RootFits(After(c, Start(), moves))
  {
    if moves != [] {
      RunKeepsRoot(c, moves[..|moves| - 1]);
      RootKept(c, After(c, Start(), moves[..|moves| - 1]), moves[|moves| - 1]);
    }
  }

  // ---------- what that means ----------

  ghost predicate CountersAtLeast(after: Hook, before: Hook) {
    && after.generation >= before.generation
    && after.flowRequest >= before.flowRequest && after.searchRequest >= before.searchRequest
  }

  lemma CountersGrowNext(c: Client, m: Machine, move: Move)
    ensures CountersAtLeast(Next(c, m, move).hook, m.hook)
  {
  }

  lemma {:induction false} CountersGrow(c: Client, m: Machine, moves: seq<Move>)
    ensures CountersAtLeast(After(c, m, moves).hook, m.hook)
  {
    if moves != [] {
      CountersGrow(c, m, moves[..|moves| - 1]);
      CountersGrowNext(c, After(c, m, moves[..|moves| - 1]), moves[|moves| - 1]);
    }
  }

  /** What makes earlier requests of a kind obsolete: a newer one of that kind, new graphs, another workspace. */
  ghost predicate Overtakes(m: Machine, move: Move, search: bool) {
    match move
    case Switch => true
    case ReplaceGraphs(_, _, _) => true
    case Trace(_, _) => !search
    case LoadNext => !search && MayLoadNext(m.hook.view)
    case Search(_) => search
    case Reply(_, _) => false
  }

  /** Once a request is overtaken its reply changes nothing that is shown, however much later it comes; of a trace it
      may only be that the fallback is asked for. */
  lemma OvertakenReply(c: Client, m: Machine, call: Call, move: Move, moves: seq<Move>, ticket: nat, outcome: Outcome)
    requires Overtakes(m, move, call.SearchCall?)
    requires call.generation <= m.hook.generation && call.request <= LastNumber(m.hook, call)
    requires var late := After(c, Next(c, m, move), moves);
      && ticket in late.pending && late.pending[ticket].call.SearchCall? == call.SearchCall?
      && late.pending[ticket].call.generation == call.generation && late.pending[ticket].call.request == call.request
    ensures var late := After(c, Next(c, m, move), moves);
      Next(c, late, Reply(ticket, outcome)).hook == late.hook
  {
    CountersGrow(c, Next(c, m, move), moves);
  }

  /** What a reply to a page request does: it merges its page into the very flow, with the root and the cursor, that the
      request was made for, or it changes no flow. */
  ghost predicate MeetsItsFlow(c: Client, m: Machine, ticket: nat, page: Page)
    requires ticket in m.pending && m.pending[ticket].call.NextCall?
  {
    var (p, shown) := (m.pending[ticket], Next(c, m, Reply(ticket, Answer(page))).hook.view.flow);
    if Current(m.hook, p.call) then
      && shown == c.merge(p.flow, page) && p.flow == m.hook.view.flow
      && m.hook.view.flowQueryRootId == Some(p.call.asked) && p.flow.page.nextCursor == Cursor(p.call.cursor)
    else shown == m.hook.view.flow
  }

  lemma AcceptedPage(c: Client, m: Machine, ticket: nat, page: Page)
    requires Inv(c, m) && ticket in m.pending && m.pending[ticket].call.NextCall?
    ensures MeetsItsFlow(c, m, ticket, page)
  {
    assert FromShownFlow(m, m.pending[ticket]);
  }

  /** In every run a page meets the flow that it was fetched for, or none. */
  lemma PageMeetsItsFlow(moves: seq<Move>, ticket: nat, page: Page)
    requires var m := After(QueryClient(), Start(), moves);
      ticket in m.pending && m.pending[ticket].call.NextCall?
    ensures MeetsItsFlow(QueryClient(), After(QueryClient(), Start(), moves), ticket, page)
  {
    RunKeepsInv(QueryClient(), moves);
    AcceptedPage(QueryClient(), After(QueryClient(), Start(), moves), ticket, page);
  }

  /** Always: the shown flow is one first flow with pages of the shown root merged in, each fetched with the cursor then
      current; while a reply is awaited loading is shown, and without a switch since the last request only then. */
  lemma ShownFlowIsOneFlow(moves: seq<Move>)
    ensures var m := After(QueryClient(), Start(), moves);
      && FlowFits(QueryClient(), m)
      && (Awaited(m, false) ==> m.hook.view.flowLoading)
      && (Awaited(m, true) ==> m.hook.view.searchLoading)
      && (m.flowStarted == m.hook.generation ==> (m.hook.view.flowLoading <==> Awaited(m, false)))
      && (m.searchStarted == m.hook.generation ==> (m.hook.view.searchLoading <==> Awaited(m, true)))
  {
    RunKeepsInv(QueryClient(), moves);
  }

  /** When the flows given to `replace` come from pages, the shown root is always a node of the shown flow. */
  lemma ShownRootIsNode(moves: seq<Move>)
    requires forall i :: 0 <= i < |moves| ==> Lawful(moves[i])
    ensures RootFits(After(QueryClient(), Start(), moves))
  {
    QueryClientKeepsNodes();
    RunKeepsRoot(QueryClient(), moves);
  }

  // ---------- loading after a switch ----------

  /** The reply to the last request of a kind leaves its loading flag set if and only if the workspace was left since
      the request was started; nothing is awaited then. */
  lemma SwitchStrandsLoading(c: Client, m: Machine, ticket: nat, outcome: Outcome, search: bool)
    requires Inv(c, m) && IsLast(m, ticket, search) && Answers(c, m, Reply(ticket, outcome), search)
    ensures var after := Next(c, m, Reply(ticket, outcome));
      && (Loading(after.hook, search) <==> Started(m, search) != m.hook.generation)
      && (Stranded(after, search) <==> Started(m, search) != m.hook.generation)
  {
    LineStep(c, m, Reply(ticket, outcome), search);
    RequestLine.LastAnswer(LineOf(m, search), ticket);
  }

  /** The moves that end loading for one kind or start it anew. */
  predicate Restarts(move: Move, search: bool) {
    move.ReplaceGraphs? || (if search then move.Search? else move.Trace?)
  }

  lemma StrandedMove(c: Client, m: Machine, move: Move, search: bool)
    requires Inv(c, m) && Stranded(m, search)
    ensures Stranded(Next(c, m, move), search) <==> !Restarts(move, search)
  {
    LineStep(c, m, move, search);
    RequestLine.StrandedStep(LineOf(m, search), StepOf(c, m, move, search));
  }

  /** Loading that no reply will end stays through any moves but new graphs and a new trace or, for searches, a new
      search. */
  lemma {:induction false} StrandedForGood(c: Client, m: Machine, moves: seq<Move>, search: bool)
    requires Inv(c, m) && Stranded(m, search)
    requires forall i :: 0 <= i < |moves| ==> !Restarts(moves[i], search)
    ensures Inv(c, After(c, m, moves)) && Stranded(After(c, m, moves), search)
  {
    if moves != [] {
      var some, last := moves[..|moves| - 1], moves[|moves| - 1];
      StrandedForGood(c, m, some, search);
      StepKeepsInv(c, After(c, m, some), last);
      StrandedMove(c, After(c, m, some), last, search);
    }
  }

  /** While flow loading is stranded no further page can be asked for. */
  lemma StrandedBlocksPaging(c: Client, m: Machine)
    requires Stranded(m, false)
    ensures Next(c, m, LoadNext) == m
  {
  }

  /** Such states are reached: a request, a workspace switch, the reply. */
  lemma StrandedRun(c: Client, root: string, query: string, outcome: Outcome)
    requires query != ""
    ensures Stranded(After(c, Start(), [Trace(root, None), Switch, Reply(0, outcome)]), false)
    ensures Stranded(After(c, Start(), [Search(query), Switch, Reply(0, outcome)]), true)
  {
    StrandedAfter(c, Trace(root, None), outcome, false);
    StrandedAfter(c, Search(query), outcome, true);
  }

  lemma StrandedAfter(c: Client, request: Move, outcome: Outcome, search: bool)
    requires if search then request.Search? && request.query != "" else request.Trace? && request.fallback == None
    ensures Stranded(After(c, Start(), [request, Switch, Reply(0, outcome)]), search)
  {
    var moves := [request, Switch, Reply(0, outcome)];
    assert moves[..2][..1] == [request] && moves[..2] == [request, Switch] && [request][..0] == [];
    RunKeepsInv(c, moves[..2]);
    var sent := Next(c, Start(), request);
    var left := Next(c, sent, Switch);
    assert After(c, Start(), [request]) == Next(c, After(c, Start(), []), request) == sent;
    assert After(c, Start(), moves[..2]) == left;
    assert LineOf(left, search).waiting[0] == RequestLine.Stamp(0, 1);
    SwitchStrandsLoading(c, left, 0, outcome, search);
  }
}
