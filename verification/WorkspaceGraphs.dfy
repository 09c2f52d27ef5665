/** The graph state of a workspace under racing requests (app/useWorkspaceGraphs.ts). Each run between two awaits is one
    step and sees the last committed state. */
module WorkspaceGraphs {
  import opened Options
  import opened ExecutionFlow

  /** What is shown. */
  datatype View = View(overview: Page, detail: Page, flow: Flow, flowRootId: Option<string>,
                       flowQueryRootId: Option<string>, flowLoading: bool, flowError: Option<string>,
                       searchResult: Page, searchQuery: string, searchLoading: bool, searchError: Option<string>)

  /** What is shown, and the counters behind it: the workspace generation and the number of the last request of each
      kind. */
  datatype Hook = Hook(view: View, generation: nat, flowRequest: nat, searchRequest: nat)

  /** A request on its way, with the counters it was started under. */
  datatype Call =
    | TraceCall(generation: nat, request: nat, asked: string, fallback: Option<string>, resorted: bool)
    | NextCall(generation: nat, request: nat, asked: string, cursor: string)
    | SearchCall(generation: nat, request: nat)

  datatype Outcome = Answer(page: Page) | Failure(message: string)

  /** How a page becomes a flow, and how a page is merged into one. */
  datatype Client = Client(first: Page -> Flow, merge: (Flow, Page) -> Flow)

  ghost function QueryClient(): Client {
    Client((page: Page) => FromPage(page), (flow: Flow, page: Page) => Merged(flow, FromPage(page)))
  }

  const EMPTY_GRAPH: Page := Page([], [], false, Absent, None, None)

  function Unpaged(page: Page): Flow {
    Flow(page, None, None)
  }

  predicate Current(h: Hook, call: Call) {
    call.generation == h.generation && call.request == if call.SearchCall? then h.searchRequest else h.flowRequest
  }

  // ---------- which node is shown as the root ----------

  predicate IsFlowRoot(n: FlowNode): (marked: bool)
    ensures marked <==> ("flowRoot", "true") in n.metadata.Items
  {
    "flowRoot" in n.metadata && n.metadata["flowRoot"] == "true"
  }

  predicate HasNode(nodes: seq<FlowNode>, id: string) {
    exists i :: 0 <= i < |nodes| && nodes[i].id == id
  }

  lemma LaterNode(nodes: seq<FlowNode>)
    requires nodes != []
    ensures forall id :: HasNode(nodes[1..], id) ==> HasNode(nodes, id)
  {
    forall id | HasNode(nodes[1..], id) ensures HasNode(nodes, id) {
      var i :| 0 <= i < |nodes[1..]| && nodes[1..][i].id == id;
      assert nodes[i + 1].id == id;
    }
  }

  function FirstFlowRoot(nodes: seq<FlowNode>): (r: Option<string>)
    ensures r.Some? ==> HasNode(nodes, r.value)
  {
    if nodes == [] then None
    else if IsFlowRoot(nodes[0]) then Some(nodes[0].id)
    else
      LaterNode(nodes);
      FirstFlowRoot(nodes[1..])
  }

  function DefaultRoot(nodes: seq<FlowNode>): (r: Option<string>)
    ensures r.Some? <==> nodes != []
    ensures r.Some? ==> HasNode(nodes, r.value)
  {
    if FirstFlowRoot(nodes).Some? then FirstFlowRoot(nodes) else if nodes != [] then Some(nodes[0].id) else None
  }

  /** The root that was asked for if the flow has it, else the fallback, else the flow's own root. */
  function DisplayRoot(nodes: seq<FlowNode>, asked: string, fallback: Option<string>): (r: Option<string>)
    ensures r.Some? <==> nodes != []
    ensures r.Some? ==> HasNode(nodes, r.value)
  {
    if HasNode(nodes, asked) then Some(asked)
    else if fallback.Some? && fallback.value != "" && HasNode(nodes, fallback.value) then fallback
    else DefaultRoot(nodes)
  }

  ghost predicate SomeFlowRoot(nodes: seq<FlowNode>) {
    exists k :: 0 <= k < |nodes| && IsFlowRoot(nodes[k])
  }

  /** The first node that is marked as the flow's root, else the first node. */
  ghost predicate IsDefaultRoot(nodes: seq<FlowNode>, i: nat) {
    i < |nodes|
    && if SomeFlowRoot(nodes) then
         IsFlowRoot(nodes[i]) && forall k :: 0 <= k < i ==> !IsFlowRoot(nodes[k])
       else i == 0
  }

  lemma SomeFlowRootLater(nodes: seq<FlowNode>)
    requires nodes != [] && !IsFlowRoot(nodes[0])
    ensures SomeFlowRoot(nodes) <==> SomeFlowRoot(nodes[1..])
  {
    assert forall k :: 1 <= k < |nodes| ==> nodes[k] == nodes[1..][k - 1];
    if SomeFlowRoot(nodes) {
      var k :| 0 <= k < |nodes| && IsFlowRoot(nodes[k]);
      assert IsFlowRoot(nodes[1..][k - 1]);
    }
  }

  lemma {:induction false} FirstFlowRootIs(nodes: seq<FlowNode>) returns (i: nat)
    ensures if SomeFlowRoot(nodes) then IsDefaultRoot(nodes, i) && FirstFlowRoot(nodes) == Some(nodes[i].id)
      else FirstFlowRoot(nodes) == None
  {
    i := 0;
    if nodes != [] && !IsFlowRoot(nodes[0]) {
      i := FirstFlowRootIs(nodes[1..]);
      SomeFlowRootLater(nodes);
      assert forall k :: 1 <= k < |nodes| ==> nodes[k] == nodes[1..][k - 1];
      i := i + 1;
    }
  }

  lemma DefaultRootIs(nodes: seq<FlowNode>) returns (i: nat)
    requires nodes != []
    ensures IsDefaultRoot(nodes, i) && DefaultRoot(nodes) == Some(nodes[i].id)
  {
    i := FirstFlowRootIs(nodes);
    if FirstFlowRoot(nodes) == None { i := 0; }
  }

  /** Which root is shown: the one that was asked for if it is a node of the flow; else the fallback if that is; else
      the first node marked as a root; else the first node. An empty flow has none. */
  ghost predicate IsShownRoot(nodes: seq<FlowNode>, asked: string, fallback: Option<string>, root: Option<string>) {
    if exists n :: n in nodes && n.id == asked then root == Some(asked)
    else if fallback.Some? && fallback.value != "" && exists n :: n in nodes && n.id == fallback.value then
      root == fallback
    else if nodes != [] then exists i: nat :: IsDefaultRoot(nodes, i) && root == Some(nodes[i].id)
    else root == None
  }

  lemma DisplayRootIs(nodes: seq<FlowNode>, asked: string, fallback: Option<string>)
    ensures IsShownRoot(nodes, asked, fallback, DisplayRoot(nodes, asked, fallback))
  {
    assert forall k :: 0 <= k < |nodes| ==> nodes[k] in nodes;
    HasNodeIs(nodes, asked);
    if fallback.Some? { HasNodeIs(nodes, fallback.value); }
    if nodes != [] { var i := DefaultRootIs(nodes); }
  }

  lemma HasNodeIs(nodes: seq<FlowNode>, id: string)
    ensures HasNode(nodes, id) <==> exists n :: n in nodes && n.id == id
  {
    if n :| n in nodes && n.id == id {
      var k :| 0 <= k < |nodes| && nodes[k] == n;
    }
    if HasNode(nodes, id) {
      var k :| 0 <= k < |nodes| && nodes[k].id == id;
      assert nodes[k] in nodes;
    }
  }

  // ---------- the steps ----------

  function Replaced(h: Hook, overview: Page, detail: Page, flow: Flow): Hook {
    var root := DefaultRoot(flow.page.nodes);
    Hook(View(overview, detail, flow, root, root, false, None, EMPTY_GRAPH, "", false, None),
         h.generation, h.flowRequest + 1, h.searchRequest + 1)
  }

  function FlowStarted(h: Hook): Hook {
    h.(flowRequest := h.flowRequest + 1, view := h.view.(flowLoading := true, flowError := None))
  }

  function TraceStarted(h: Hook, root: string, fallback: Option<string>): (Hook, Call) {
    (FlowStarted(h), TraceCall(h.generation, h.flowRequest + 1, root, fallback, false))
  }

  /** The reply to a trace: a failure is first tried again with the fallback, whatever has happened meanwhile. */
  ghost function TraceReplied(c: Client, h: Hook, call: Call, outcome: Outcome): (Hook, Option<Call>)
    requires call.TraceCall?
  {
    var f := call.fallback;
    if outcome.Failure? && !call.resorted && f.Some? && f.value != "" && f.value != call.asked then
      (h, Some(call.(asked := f.value, resorted := true)))
    else if !Current(h, call) then (h, None)
    else
      match outcome
      case Answer(page) =>
        var next := c.first(page);
        (h.(view := h.view.(flow := next, flowRootId := DisplayRoot(next.page.nodes, call.asked, call.fallback),
                            flowQueryRootId := Some(call.asked), flowLoading := false)), None)
      case Failure(message) => (h.(view := h.view.(flowError := Some(message), flowLoading := false)), None)
  }

  /** Whether loadNext does anything. */
  predicate MayLoadNext(v: View) {
    v.flowQueryRootId.Some? && v.flowQueryRootId.value != "" && CanLoad(v.flow) && !v.flowLoading
  }

  function NextStarted(h: Hook): (Hook, Call)
    requires MayLoadNext(h.view)
  {
    var call :=
      NextCall(h.generation, h.flowRequest + 1, h.view.flowQueryRootId.value, h.view.flow.page.nextCursor.text);
    (FlowStarted(h), call)
  }

  ghost function NextReplied(c: Client, h: Hook, call: Call, outcome: Outcome): Hook {
    if !Current(h, call) then h
    else
      match outcome
      case Answer(page) => h.(view := h.view.(flow := c.merge(h.view.flow, page), flowLoading := false))
      case Failure(message) => h.(view := h.view.(flowError := Some(message), flowLoading := false))
  }

  /** A search for a query from which white space was trimmed; the empty query only clears. */
  function SearchStarted(h: Hook, query: string): (Hook, Option<Call>) {
    var started := h.(searchRequest := h.searchRequest + 1);
    if query == "" then
      var cleared :=
        h.view.(searchQuery := "", searchResult := EMPTY_GRAPH, searchError := None, searchLoading := false);
      (started.(view := cleared), None)
    else
      (started.(view := h.view.(searchQuery := query, searchLoading := true, searchError := None)),
       Some(SearchCall(h.generation, h.searchRequest + 1)))
  }

  function SearchReplied(h: Hook, call: Call, outcome: Outcome): Hook {
    if !Current(h, call) then h
    else
      match outcome
      case Answer(page) => h.(view := h.view.(searchResult := page, searchLoading := false))
      case Failure(message) => h.(view := h.view.(searchError := Some(message), searchLoading := false))
  }

  // ---------- what is shown after them ----------

  /** A current answer to a trace shows its flow, remembers the root that was asked for, and shows a root. */
  lemma TraceShows(c: Client, h: Hook, call: Call, page: Page)
    requires call.TraceCall? && Current(h, call)
    ensures var (after, again) := TraceReplied(c, h, call, Answer(page));
      && again == None && after.view.flow == c.first(page) && after.view.flowQueryRootId == Some(call.asked)
      && IsShownRoot(c.first(page).page.nodes, call.asked, call.fallback, after.view.flowRootId)
  {
    DisplayRootIs(c.first(page).page.nodes, call.asked, call.fallback);
  }

  /** A failed trace is tried once more, with the fallback, if there is one and it was not what failed. */
  lemma FailureTriesFallback(c: Client, h: Hook, call: Call, message: string, again: Call)
    requires call.TraceCall?
    ensures var r := TraceReplied(c, h, call, Failure(message));
      && (r.1 == Some(again) <==>
            && !call.resorted && again.TraceCall?
            && call.fallback == Some(again.asked) && again.fallback == call.fallback
            && again.asked != "" && again.asked != call.asked && again.resorted
            && again.generation == call.generation && again.request == call.request)
      && (r.1 == Some(again) ==> r.0 == h)
  {
  }

  /** Nothing of a kind is touched but that it failed. */
  ghost predicate OnlyFails(before: View, after: View) {
    after == before.(flowError := after.flowError, flowLoading := after.flowLoading,
                     searchError := after.searchError, searchLoading := after.searchLoading)
  }

  ghost predicate SameSearch(before: View, after: View) {
    && after.searchResult == before.searchResult && after.searchQuery == before.searchQuery
    && after.searchLoading == before.searchLoading && after.searchError == before.searchError
  }

  ghost predicate SameFlowView(before: View, after: View) {
    && after.flow == before.flow && after.flowRootId == before.flowRootId
    && after.flowQueryRootId == before.flowQueryRootId
    && after.flowLoading == before.flowLoading && after.flowError == before.flowError
  }

  ghost predicate SameGraphs(before: View, after: View) {
    after.overview == before.overview && after.detail == before.detail
  }

  /** Failures leave every graph and root as they are; flows leave searches alone, and searches flows; neither touches
      the overview or the detail. */
  lemma RepliesKeepToTheirKind(c: Client, h: Hook, call: Call, outcome: Outcome)
    ensures var after := if call.TraceCall? then TraceReplied(c, h, call, outcome).0
                         else if call.NextCall? then NextReplied(c, h, call, outcome)
                         else SearchReplied(h, call, outcome);
      && SameGraphs(h.view, after.view) && (outcome.Failure? ==> OnlyFails(h.view, after.view))
      && (if call.SearchCall? then SameFlowView(h.view, after.view) else SameSearch(h.view, after.view))
  {
  }

  /** New graphs take the place of everything shown; the flow's own root is shown and asked for. */
  lemma ReplaceShows(h: Hook, overview: Page, detail: Page, flow: Flow)
    ensures var after := Replaced(h, overview, detail, flow);
      && after.generation == h.generation
      && after.flowRequest == h.flowRequest + 1 && after.searchRequest == h.searchRequest + 1
      && after.view.overview == overview && after.view.detail == detail && after.view.flow == flow
      && after.view.flowQueryRootId == after.view.flowRootId
      && (if flow.page.nodes == [] then after.view.flowRootId == None
          else exists i: nat ::
            IsDefaultRoot(flow.page.nodes, i) && after.view.flowRootId == Some(flow.page.nodes[i].id))
      && !after.view.flowLoading && !after.view.searchLoading
      && after.view.flowError == None && after.view.searchError == None
      && after.view.searchQuery == "" && after.view.searchResult == Page([], [], false, Absent, None, None)
  {
    if flow.page.nodes != [] { var i := DefaultRootIs(flow.page.nodes); }
  }

  /** Another page can be asked for when the flow has a root and a cursor, its paging is not limited, and nothing is
      loading. */
  lemma MayLoadMeaning(v: View)
    ensures MayLoadNext(v) <==>
      && (exists root :: root != "" && v.flowQueryRootId == Some(root))
      && (exists cursor :: cursor != "" && v.flow.page.nextCursor == Cursor(cursor))
      && v.flow.clientPagingLimited != Some(true) && !v.flowLoading
  {
  }

  /** The same holds of requests, and a search for nothing clears what was found. */
  lemma RequestsKeepToTheirKind(h: Hook, root: string, fallback: Option<string>, query: string)
    ensures var after := TraceStarted(h, root, fallback).0.view;
      && SameGraphs(h.view, after) && SameSearch(h.view, after) && OnlyFails(h.view, after) && after.flowLoading
    ensures MayLoadNext(h.view) ==>
      var after := NextStarted(h).0.view;
      && SameGraphs(h.view, after) && SameSearch(h.view, after) && OnlyFails(h.view, after) && after.flowLoading
    ensures var (after, call) := (SearchStarted(h, query).0.view, SearchStarted(h, query).1);
      && SameGraphs(h.view, after) && SameFlowView(h.view, after) && after.searchQuery == query
      && after.searchError == None && after.searchLoading == (query != "") && (call.Some? <==> query != "")
      && after.searchResult == if query == "" then Page([], [], false, Absent, None, None) else h.view.searchResult
  {
  }

  // ---------- the hook itself ----------

  class GraphHook {
    var view: View
    var generation: nat
    var flowRequest: nat
    var searchRequest: nat

    function State(): Hook
      reads this
    {
      Hook(view, generation, flowRequest, searchRequest)
    }

    constructor ()
      ensures State() == Initial()
    {
      view, generation, flowRequest, searchRequest := Initial().view, 0, 0, 0;
    }

    /** The workspace is left for another. */
    method SwitchWorkspace()
      modifies this
      ensures State() == old(State()).(generation := old(generation) + 1)
    {
      generation := generation + 1;
    }

    method Replace(overview: Page, detail: Page, flow: Flow)
      modifies this
      ensures State() == Replaced(old(State()), overview, detail, flow)
    {
      flowRequest := flowRequest + 1;
      var root := DefaultRoot(flow.page.nodes);
      view := view.(overview := overview, detail := detail, flow := flow, flowRootId := root, flowQueryRootId := root,
                    flowError := None, flowLoading := false);
      searchRequest := searchRequest + 1;
      view := view.(searchResult := EMPTY_GRAPH, searchQuery := "", searchError := None, searchLoading := false);
    }

    method TraceRoot(root: string, fallback: Option<string>) returns (call: Call)
      modifies this
      ensures (State(), call) == TraceStarted(old(State()), root, fallback)
    {
      flowRequest := flowRequest + 1;
      call := TraceCall(generation, flowRequest, root, fallback, false);
      view := view.(flowLoading := true, flowError := None);
    }

    method ReceiveTrace(call: Call, outcome: Outcome) returns (again: Option<Call>)
      requires call.TraceCall?
      modifies this
      ensures (State(), again) == TraceReplied(QueryClient(), old(State()), call, outcome)
    {
      var f := call.fallback;
      if outcome.Failure? && !call.resorted && f.Some? && f.value != "" && f.value != call.asked {
        return Some(call.(asked := f.value, resorted := true));
      }
      again := None;
      if call.generation != generation || call.request != flowRequest { return; }
      match outcome {
        case Answer(page) =>
          var next := FromPage(page);
          var root := DisplayRoot(next.page.nodes, call.asked, call.fallback);
          view := view.(flow := next, flowRootId := root, flowQueryRootId := Some(call.asked));
        case Failure(message) => view := view.(flowError := Some(message));
      }
      view := view.(flowLoading := false);
    }

    method LoadNext() returns (call: Option<Call>)
      modifies this
      ensures if MayLoadNext(old(view)) then call.Some? && (State(), call.value) == NextStarted(old(State()))
        else call == None && State() == old(State())
    {
      if !MayLoadNext(view) { return None; }
      flowRequest := flowRequest + 1;
      call := Some(NextCall(generation, flowRequest, view.flowQueryRootId.value, view.flow.page.nextCursor.text));
      view := view.(flowLoading := true, flowError := None);
    }

    method ReceiveNext(call: Call, outcome: Outcome)
      requires call.NextCall?
      modifies this
      ensures State() == NextReplied(QueryClient(), old(State()), call, outcome)
    {
      if call.generation != generation || call.request != flowRequest { return; }
      match outcome {
        case Answer(page) =>
          var merged := MergeExecutionFlow(view.flow, FromPage(page));
          view := view.(flow := merged);
        case Failure(message) => view := view.(flowError := Some(message));
      }
      view := view.(flowLoading := false);
    }

    method Search(query: string) returns (call: Option<Call>)
      modifies this
      ensures (State(), call) == SearchStarted(old(State()), query)
    {
      searchRequest := searchRequest + 1;
      if query == "" {
        view := view.(searchQuery := "", searchResult := EMPTY_GRAPH, searchError := None, searchLoading := false);
        return None;
      }
      view := view.(searchQuery := query, searchLoading := true, searchError := None);
      call := Some(SearchCall(generation, searchRequest));
    }

    method ReceiveSearch(call: Call, outcome: Outcome)
      requires call.SearchCall?
      modifies this
      ensures State() == SearchReplied(old(State()), call, outcome)
    {
      if call.generation != generation || call.request != searchRequest { return; }
      match outcome {
        case Answer(page) => view := view.(searchResult := page);
        case Failure(message) => view := view.(searchError := Some(message));
      }
      view := view.(searchLoading := false);
    }
  }

  function Initial(): Hook {
    var nothing :=
      View(EMPTY_GRAPH, EMPTY_GRAPH, Unpaged(EMPTY_GRAPH), None, None, false, None, EMPTY_GRAPH, "", false, None);
    Hook(nothing, 0, 0, 0)
  }
}
