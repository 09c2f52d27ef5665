/** The cooperative debug adapter (fixtures/trace-demo/src/aone-debug.js) as a machine of atomic steps.
    Each step is one synchronous run of the script between two awaits, or the handling of one control line;
    any enabled step may come next. Every workflow awaits its safe points one at a time. */
module DebugProtocol {
  import opened Options

  datatype Mode = Running | InitialPause | Paused | Step

  datatype Terminal = WorkflowCompleted | WorkflowFailed

  datatype PointState = AtRun | AtPause | AtEnd(how: Terminal)

  datatype Event = Event(
    workflow: nat, sequence: nat, controlEpoch: int, stepId: string, parentStepId: Option<string>, state: PointState)

  /** What happened, in order. Begun and Ended frame a workflow; the others are emitted safe points and controls that
      took effect. */
  datatype Entry =
    | Begun(workflow: nat)
    | Emit(event: Event)
    | PauseArmed
    | PauseTaken
    | Resumed
    | Stepped
    | Ended(workflow: nat)

  /** A number in a JSON control, if it is an integer at all. */
  datatype Number = Integer(value: int) | NotAnInteger

  datatype Action = Pause | Resume | StepInto | StepOver | Stop | Unknown

  /** A control line that parsed; `authentic` says that nonce and session match. */
  datatype Control = Control(authentic: bool, controlEpoch: Number, expectedSequence: Number, action: Action)

  /** Where a workflow is. Waiting: for its turn. Blocked: for the paused resolver. Released: resolver called, not yet
      continued. Yielding: one turn of the event loop. Closing: its own terminal event is out, cleanup is next. */
  datatype Pc = Waiting | Executing | Blocked | Released | Yielding | Closing | Done

  /** A call of withDebugWorkflow: the promise it awaits first, and the workflow number it gets later. */
  datatype Flow = Flow(pc: Pc, turn: nat, workflow: nat)

  datatype State = State(
    sequence: nat,
    controlEpoch: int,
    workflowNumber: nat,
    activeWorkflow: Option<nat>,
    mode: Mode,
    pendingPause: Option<int>,
    pausedResolver: Option<nat>,
    workflowTail: nat,
    resolvedTurns: set<nat>,
    lastStepId: Option<string>,
    workflowTerminalEmitted: bool,
    exited: bool,
    flows: seq<Flow>,
    history: seq<Entry>)

  const INITIAL: State := State(0, 0, 0, None, Running, None, None, 0, {0}, None, false, false, [], [])

  const MAX_SAFE_INTEGER: int := 0x1F_FFFF_FFFF_FFFF

  predicate IsSafeInteger(n: Number) {
    n.Integer? && -MAX_SAFE_INTEGER <= n.value <= MAX_SAFE_INTEGER
  }

  // ---------- the steps ----------

  datatype Move =
    | Arrive
    | TakeTurn(flow: nat)
    | SafePoint(flow: nat, stepId: string, parentStepId: Option<string>, terminal: Option<Terminal>)
    | Continue(flow: nat)
    | Return(flow: nat, failed: bool)
    | Close(flow: nat)
    | Receive(control: Control)

  predicate At(s: State, flow: nat, pc: Pc) {
    flow < |s.flows| && s.flows[flow].pc == pc
  }

  predicate Enabled(s: State, m: Move) {
    !s.exited &&
    match m
    case Arrive => true
    case TakeTurn(t) => At(s, t, Waiting) && s.flows[t].turn in s.resolvedTurns
    case SafePoint(t, _, _, _) => At(s, t, Executing)
    case Continue(t) => At(s, t, Released) || At(s, t, Yielding)
    case Return(t, _) => At(s, t, Executing)
    case Close(t) => At(s, t, Closing)
    case Receive(_) => true
  }

  function MoveTo(flows: seq<Flow>, t: nat, pc: Pc): seq<Flow>
    requires t < |flows|
  {
    flows[t := flows[t].(pc := pc)]
  }

  predicate WillStop(s: State) {
    s.pendingPause.Some? || s.mode == InitialPause || s.mode == Step
  }

  function PointStateOf(s: State, terminal: Option<Terminal>): PointState {
    match terminal
    case Some(how) => AtEnd(how)
    case None => if WillStop(s) then AtPause else AtRun
  }

  /** An event has no parent step when the name of that step is empty. */
  function Given(parent: Option<string>): Option<string> {
    if parent == Some("") then None else parent
  }

  /** debugSafePoint up to its await; `after` is where an event that is not a pause leaves the workflow. */
  function Point(s: State, t: nat, stepId: string, parent: Option<string>, terminal: Option<Terminal>, after: Pc): State
    requires t < |s.flows|
  {
    var epoch := if s.pendingPause.Some? then s.pendingPause.value else s.controlEpoch;
    var taken := if s.pendingPause.Some? then [PauseTaken] else [];
    var state := PointStateOf(s, terminal);
    s.(controlEpoch := epoch,
       pendingPause := None,
       mode := if WillStop(s) then Paused else s.mode,
       sequence := s.sequence + 1,
       lastStepId := Some(stepId),
       workflowTerminalEmitted := terminal.Some?,
       pausedResolver := if state == AtPause then Some(t) else s.pausedResolver,
       flows := MoveTo(s.flows, t, if state == AtPause then Blocked else after),
       history := s.history + taken
         + [Emit(Event(s.flows[t].workflow, s.sequence + 1, epoch, stepId, Given(parent), state))])
  }

  /** The finally block of withDebugWorkflow: clean up and hand the turn on. */
  function Finish(s: State, t: nat): State
    requires t < |s.flows|
  {
    s.(activeWorkflow := None,
       pendingPause := None,
       mode := Running,
       resolvedTurns := s.resolvedTurns + {t + 1},
       flows := MoveTo(s.flows, t, Done),
       history := s.history + [Ended(s.flows[t].workflow)])
  }

  predicate Admitted(s: State, c: Control) {
    && c.authentic
    && IsSafeInteger(c.controlEpoch) && c.controlEpoch.value == s.controlEpoch + 1
    && IsSafeInteger(c.expectedSequence) && c.expectedSequence.value <= s.sequence
  }

  predicate Releases(s: State, c: Control) {
    && Admitted(s, c)
    && c.expectedSequence.value == s.sequence
    && (c.action == Resume || c.action == StepInto || c.action == StepOver)
  }

  function Received(s: State, c: Control, ignoreStop: bool): State {
    if !Admitted(s, c) then s
    else if c.action == Pause && s.mode == Running then
      s.(pendingPause := Some(c.controlEpoch.value), history := s.history + [PauseArmed])
    else if c.action == Stop then s.(exited := !ignoreStop)
    else if s.mode != Paused || !Releases(s, c) then s
    else
      s.(controlEpoch := c.controlEpoch.value,
         mode := if c.action == Resume then Running else Step,
         pausedResolver := None,
         flows := if s.pausedResolver.Some? && s.pausedResolver.value < |s.flows|
                  then MoveTo(s.flows, s.pausedResolver.value, Released) else s.flows,
         history := s.history + [if c.action == Resume then Resumed else Stepped])
  }

  function Next(s: State, m: Move, ignoreStop: bool): State
    requires Enabled(s, m)
  {
    match m
    case Arrive =>
      s.(flows := s.flows + [Flow(Waiting, s.workflowTail, 0)], workflowTail := |s.flows| + 1)
    case TakeTurn(t) =>
      var n := s.workflowNumber + 1;
      s.(workflowNumber := n, activeWorkflow := Some(n), mode := InitialPause, lastStepId := None,
         workflowTerminalEmitted := false,
         flows := s.flows[t := Flow(Executing, s.flows[t].turn, n)],
         history := s.history + [Begun(n)])
    case SafePoint(t, stepId, parent, terminal) => Point(s, t, stepId, parent, terminal, Yielding)
    case Continue(t) => s.(flows := MoveTo(s.flows, t, Executing))
    case Return(t, failed) =>
      if s.workflowTerminalEmitted then Finish(s, t)
      else Point(s, t, if failed then "adapter-failed" else "adapter-completed", s.lastStepId,
                 Some(if failed then WorkflowFailed else WorkflowCompleted), Closing)
    case Close(t) => Finish(s, t)
    case Receive(c) => Received(s, c, ignoreStop)
  }

  // ---------- what a log may look like ----------

  /** What a log says so far. `mustStop`: the next safe point has to pause unless it is terminal.
      `halted`: controls that continue are accepted. `held`: the last event paused its workflow and nothing released it.
      `last`: the last event of the workflow in progress. */
  datatype Summary = Summary(
    emitted: nat, accepted: nat, begun: nat, current: Option<nat>,
    armed: bool, mustStop: bool, halted: bool, held: bool, last: Option<Event>)

  function Extend(y: Summary, e: Entry): Summary {
    match e
    case Begun(w) =>
      y.(begun := y.begun + 1, current := Some(w), mustStop := true, halted := false, held := false, last := None)
    case Emit(v) =>
      y.(emitted := y.emitted + 1, mustStop := false, halted := y.halted || y.mustStop,
         held := v.state == AtPause, last := Some(v))
    case PauseArmed => y.(armed := true, mustStop := true)
    case PauseTaken => y.(accepted := y.accepted + 1, armed := false)
    case Resumed => y.(accepted := y.accepted + 1, halted := false, held := false)
    case Stepped => y.(accepted := y.accepted + 1, halted := false, held := false, mustStop := true)
    case Ended(_) => y.(current := None, armed := false, mustStop := false, halted := false, held := false)
  }

  function Summarize(h: seq<Entry>): Summary {
    if h == [] then Summary(0, 0, 0, None, false, false, false, false, None)
    else Extend(Summarize(h[..|h| - 1]), h[|h| - 1])
  }

  predicate Allowed(y: Summary, e: Entry) {
    match e
    case Begun(w) => y.current == None && w == y.begun + 1
    case Emit(v) =>
      && y.current == Some(v.workflow)
      && v.sequence == y.emitted + 1
      && v.controlEpoch == y.accepted
      && !y.held && !y.armed
      && (v.state == AtPause ==> y.mustStop)
      && (v.state == AtRun ==> !y.mustStop)
    case PauseArmed => !y.halted
    case PauseTaken => y.armed
    case Resumed => y.halted && !y.armed
    case Stepped => y.halted && !y.armed
    case Ended(w) => y.current == Some(w) && !y.held && y.last.Some? && y.last.value.state.AtEnd?
  }

  /** Every entry was allowed by the log before it. */
  ghost predicate LawfulLog(h: seq<Entry>) {
    forall j :: 0 <= j < |h| ==> Allowed(Summarize(h[..j]), h[j])
  }

  // ---------- what holds in every reachable state ----------

  /** Workflows that have ended. */
  function Finished(s: State): int {
    if s.activeWorkflow.Some? then s.workflowNumber - 1 else s.workflowNumber
  }

  /** The place of the i-th arrival: turns are taken, numbered and handed on in order of arrival. */
  ghost predicate InLine(s: State, i: nat)
    requires i < |s.flows|
  {
    var f := s.flows[i];
    && f.turn == i
    && (f.pc == Waiting <==> s.workflowNumber <= i)
    && (f.pc == Done <==> i < Finished(s))
    && (i < s.workflowNumber ==> f.workflow == i + 1)
    && (f.pc == Blocked <==> s.pausedResolver == Some(i))
    && (f.pc == Closing ==> s.workflowTerminalEmitted)
  }

  ghost predicate Queue(s: State) {
    && s.workflowNumber <= |s.flows| == s.workflowTail
    && (s.activeWorkflow.Some? ==> s.activeWorkflow.value == s.workflowNumber >= 1)
    && (forall p: nat :: p in s.resolvedTurns <==> p <= Finished(s))
    && (forall i {:trigger InLine(s, i)} :: 0 <= i < |s.flows| ==> InLine(s, i))
    && (s.pausedResolver.Some? ==> s.pausedResolver.value < |s.flows|)
  }

  ghost predicate Controls(s: State) {
    && (s.pendingPause.Some? ==>
          s.pendingPause.value == s.controlEpoch + 1 && (s.mode == Running || s.mode == InitialPause))
    && (s.activeWorkflow == None ==> s.mode == Running)
    && (s.pausedResolver.Some? ==> s.mode == Paused && s.activeWorkflow.Some?)
  }

  /** What a log says about a state. */
  ghost predicate Shows(y: Summary, s: State) {
    && y.emitted == s.sequence && y.accepted == s.controlEpoch
    && y.begun == s.workflowNumber && y.current == s.activeWorkflow
    && y.armed == s.pendingPause.Some? && y.mustStop == WillStop(s)
    && y.halted == (s.mode == Paused) && y.held == s.pausedResolver.Some?
    && (s.activeWorkflow.Some? ==>
          && (s.workflowTerminalEmitted <==> y.last.Some? && y.last.value.state.AtEnd?)
          && s.lastStepId == if y.last.Some? then Some(y.last.value.stepId) else None)
    && (y.held ==> y.last.Some? && y.last.value.state == AtPause && y.last.value.sequence == s.sequence
                   && s.activeWorkflow == Some(y.last.value.workflow))
  }

  ghost predicate Logged(s: State) {
    LawfulLog(s.history) && Shows(Summarize(s.history), s)
  }

  ghost predicate Inv(s: State) {
    Queue(s) && Controls(s) && Logged(s)
  }

  lemma LogExtended(h: seq<Entry>, e: Entry)
    requires LawfulLog(h) && Allowed(Summarize(h), e)
    ensures LawfulLog(h + [e]) && Summarize(h + [e]) == Extend(Summarize(h), e)
  {
    var g := h + [e];
    assert g[..|h|] == h;
    forall j | 0 <= j < |g| ensures Allowed(Summarize(g[..j]), g[j]) {
      if j < |h| { assert g[..j] == h[..j]; }
    }
  }

  lemma InitialInv()
    ensures Inv(INITIAL)
  {
  }

  /** A step that adds one entry is logged when the entry is allowed and shows the state after it. */
  lemma LoggedNext(s: State, t: State, e: Entry)
    requires Logged(s) && t.history == s.history + [e]
    requires Allowed(Summarize(s.history), e) && Shows(Extend(Summarize(s.history), e), t)
    ensures Logged(t)
  {
    LogExtended(s.history, e);
  }

  lemma SameLog(s: State, t: State)
    requires Logged(s) && t.history == s.history && Shows(Summarize(s.history), t)
    ensures Logged(t)
  {
  }

  lemma ArriveKeepsQueue(s: State)
    requires Queue(s) && Enabled(s, Arrive)
    ensures Queue(Next(s, Arrive, false))
  {
    var t := Next(s, Arrive, false);
    forall i | 0 <= i < |t.flows| ensures InLine(t, i) {
      if i < |s.flows| { assert InLine(s, i); }
    }
  }

  lemma ArriveKeepsInv(s: State)
    requires Inv(s) && Enabled(s, Arrive)
    ensures Inv(Next(s, Arrive, false))
  {
    ArriveKeepsQueue(s);
    SameLog(s, Next(s, Arrive, false));
  }

  lemma TakeTurnInOrder(s: State, f: nat)
    requires Inv(s) && Enabled(s, TakeTurn(f))
    ensures s.activeWorkflow == None && f == s.workflowNumber && s.pausedResolver == None
  {
    assert InLine(s, f);
  }

  lemma TakeTurnKeepsQueue(s: State, f: nat)
    requires Queue(s) && s.activeWorkflow == None && f == s.workflowNumber < |s.flows| && s.pausedResolver == None
    requires Enabled(s, TakeTurn(f))
    ensures Queue(Next(s, TakeTurn(f), false))
  {
    assert InLine(s, f);
    var t := Next(s, TakeTurn(f), false);
    forall i | 0 <= i < |t.flows| ensures InLine(t, i) { assert InLine(s, i); }
  }

  lemma TakeTurnShows(s: State, f: nat, y: Summary)
    requires Controls(s) && Shows(y, s) && s.activeWorkflow == None && s.pausedResolver == None
    requires Enabled(s, TakeTurn(f))
    ensures var t, e := Next(s, TakeTurn(f), false), Begun(s.workflowNumber + 1);
      Controls(t) && Allowed(y, e) && Shows(Extend(y, e), t)
  {
  }

  lemma TakeTurnKeepsInv(s: State, f: nat)
    requires Inv(s) && Enabled(s, TakeTurn(f))
    ensures Inv(Next(s, TakeTurn(f), false))
  {
    TakeTurnInOrder(s, f);
    TakeTurnKeepsQueue(s, f);
    TakeTurnShows(s, f, Summarize(s.history));
    LoggedNext(s, Next(s, TakeTurn(f), false), Begun(s.workflowNumber + 1));
  }

  lemma LiveFlow(s: State, f: nat)
    requires Queue(s) && f < |s.flows| && s.flows[f].pc != Waiting && s.flows[f].pc != Done
    ensures s.activeWorkflow == Some(f + 1) && s.workflowNumber == f + 1 && s.flows[f].workflow == f + 1
    ensures s.pausedResolver.Some? ==> s.pausedResolver == Some(f) && s.flows[f].pc == Blocked
  {
    assert InLine(s, f);
    assert s.pausedResolver.Some? ==> InLine(s, s.pausedResolver.value);
  }

  lemma PointKeepsQueue(s: State, f: nat, stepId: string, parent: Option<string>, terminal: Option<Terminal>, after: Pc)
    requires Queue(s) && At(s, f, Executing)
    requires after == Yielding || (after == Closing && terminal.Some?)
    ensures Queue(Point(s, f, stepId, parent, terminal, after))
  {
    var t := Point(s, f, stepId, parent, terminal, after);
    LiveFlow(s, f);
    forall i | 0 <= i < |t.flows| ensures InLine(t, i) { assert InLine(s, i); }
  }

  /** A pending pause is taken: the state between the two entries of such a safe point. */
  ghost function PauseIsTaken(s: State): State {
    if s.pendingPause == None then s
    else s.(controlEpoch := s.pendingPause.value, pendingPause := None, mode := Paused,
            history := s.history + [PauseTaken])
  }

  /** The event of a safe point. */
  ghost function PointEvent(s: State, f: nat, stepId: string, parent: Option<string>, terminal: Option<Terminal>): Event
    requires f < |s.flows|
  {
    var epoch := if s.pendingPause.Some? then s.pendingPause.value else s.controlEpoch;
    Event(s.flows[f].workflow, s.sequence + 1, epoch, stepId, Given(parent), PointStateOf(s, terminal))
  }

  /** What the log says once a pending pause is taken. */
  ghost function Taken(y: Summary, s: State): Summary {
    if s.pendingPause.Some? then Extend(y, PauseTaken) else y
  }

  lemma TakenLogged(s: State)
    requires Controls(s) && Logged(s)
    ensures var p := PauseIsTaken(s);
      LawfulLog(p.history) && Summarize(p.history) == Taken(Summarize(s.history), s)
  {
    if s.pendingPause.Some? { LogExtended(s.history, PauseTaken); }
  }

  lemma PointShows(s: State, f: nat, stepId: string, parent: Option<string>, terminal: Option<Terminal>, after: Pc,
                   y: Summary)
    requires Controls(s) && Shows(y, s) && f < |s.flows| && s.pausedResolver == None
    requires s.activeWorkflow == Some(s.flows[f].workflow)
    ensures var t, e := Point(s, f, stepId, parent, terminal, after), Emit(PointEvent(s, f, stepId, parent, terminal));
      Controls(t) && Allowed(Taken(y, s), e) && Shows(Extend(Taken(y, s), e), t)
  {
  }

  lemma PointHistory(s: State, f: nat, stepId: string, parent: Option<string>, terminal: Option<Terminal>, after: Pc)
    requires f < |s.flows|
    ensures Point(s, f, stepId, parent, terminal, after).history ==
      PauseIsTaken(s).history + [Emit(PointEvent(s, f, stepId, parent, terminal))]
  {
  }

  lemma PointKeepsLog(s: State, f: nat, stepId: string, parent: Option<string>, terminal: Option<Terminal>, after: Pc)
    requires Controls(s) && Logged(s) && f < |s.flows| && s.pausedResolver == None
    requires s.activeWorkflow == Some(s.flows[f].workflow)
    ensures var t := Point(s, f, stepId, parent, terminal, after); Logged(t) && Controls(t)
  {
    PointShows(s, f, stepId, parent, terminal, after, Summarize(s.history));
    PointHistory(s, f, stepId, parent, terminal, after);
    TakenLogged(s);
    LogExtended(PauseIsTaken(s).history, Emit(PointEvent(s, f, stepId, parent, terminal)));
  }

  lemma PointKeepsInv(s: State, f: nat, stepId: string, parent: Option<string>, terminal: Option<Terminal>, after: Pc)
    requires Inv(s) && At(s, f, Executing)
    requires after == Yielding || (after == Closing && terminal.Some?)
    ensures Inv(Point(s, f, stepId, parent, terminal, after))
  {
    LiveFlow(s, f);
    PointKeepsQueue(s, f, stepId, parent, terminal, after);
    PointKeepsLog(s, f, stepId, parent, terminal, after);
  }

  lemma ContinueKeepsQueue(s: State, f: nat)
    requires Queue(s) && Enabled(s, Continue(f))
    ensures Queue(Next(s, Continue(f), false))
  {
    var t := Next(s, Continue(f), false);
    LiveFlow(s, f);
    forall i | 0 <= i < |t.flows| ensures InLine(t, i) { assert InLine(s, i); }
  }

  lemma ContinueKeepsInv(s: State, f: nat)
    requires Inv(s) && Enabled(s, Continue(f))
    ensures Inv(Next(s, Continue(f), false))
  {
    ContinueKeepsQueue(s, f);
    SameLog(s, Next(s, Continue(f), false));
  }

  lemma FinishKeepsQueue(s: State, f: nat)
    requires Queue(s) && f < |s.flows| && s.workflowTerminalEmitted
    requires At(s, f, Executing) || At(s, f, Closing)
    ensures Queue(Finish(s, f))
  {
    var t := Finish(s, f);
    LiveFlow(s, f);
    forall i | 0 <= i < |t.flows| ensures InLine(t, i) { assert InLine(s, i); }
  }

  lemma FinishShows(s: State, f: nat, y: Summary)
    requires Controls(s) && Shows(y, s) && f < |s.flows| && s.pausedResolver == None
    requires s.activeWorkflow == Some(s.flows[f].workflow) && s.workflowTerminalEmitted
    ensures var t, e := Finish(s, f), Ended(s.flows[f].workflow);
      Controls(t) && Allowed(y, e) && Shows(Extend(y, e), t)
  {
  }

  lemma FinishKeepsInv(s: State, f: nat)
    requires Inv(s) && f < |s.flows| && s.workflowTerminalEmitted
    requires At(s, f, Executing) || At(s, f, Closing)
    ensures Inv(Finish(s, f))
  {
    LiveFlow(s, f);
    FinishKeepsQueue(s, f);
    FinishShows(s, f, Summarize(s.history));
    LoggedNext(s, Finish(s, f), Ended(s.flows[f].workflow));
  }

  lemma ReceiveKeepsQueue(s: State, c: Control, ignoreStop: bool)
    requires Queue(s)
    ensures Queue(Received(s, c, ignoreStop))
  {
    var t := Received(s, c, ignoreStop);
    ReceivedFlows(s, c, ignoreStop);
    if SameFlows(s, t) {
      SameQueue(s, t);
    } else {
      ReleaseKeepsQueue(s);
      SameQueue(PausedReleased(s), t);
    }
  }

  /** The fields that the queue of workflows is made of. */
  ghost predicate SameFlows(s: State, t: State) {
    && t.flows == s.flows && t.pausedResolver == s.pausedResolver && t.workflowNumber == s.workflowNumber
    && t.activeWorkflow == s.activeWorkflow && t.resolvedTurns == s.resolvedTurns
    && t.workflowTail == s.workflowTail && t.workflowTerminalEmitted == s.workflowTerminalEmitted
  }

  /** The paused workflow, if there is one, is released. */
  ghost function PausedReleased(s: State): State {
    s.(pausedResolver := None,
       flows := if s.pausedResolver.Some? && s.pausedResolver.value < |s.flows|
                then MoveTo(s.flows, s.pausedResolver.value, Released) else s.flows)
  }

  /** A control either leaves the workflows alone or releases the paused one. */
  lemma ReceivedFlows(s: State, c: Control, ignoreStop: bool)
    ensures var t := Received(s, c, ignoreStop); SameFlows(s, t) || SameFlows(PausedReleased(s), t)
  {
  }

  lemma SameQueue(s: State, t: State)
    requires Queue(s) && SameFlows(s, t)
    ensures Queue(t)
  {
    forall i | 0 <= i < |t.flows| ensures InLine(t, i) { assert InLine(s, i); }
  }

  lemma ReleaseKeepsQueue(s: State)
    requires Queue(s)
    ensures Queue(PausedReleased(s))
  {
    if s.pausedResolver.Some? {
      var p, t := s.pausedResolver.value, PausedReleased(s);
      forall i | 0 <= i < |t.flows| ensures InLine(t, i) { assert InLine(s, i) && InLine(s, p); }
    } else {
      SameQueue(s, PausedReleased(s));
    }
  }

  /** The entry that a control adds, if it takes effect. */
  ghost function ControlEntry(s: State, c: Control): Option<Entry> {
    if Admitted(s, c) && c.action == Pause && s.mode == Running then Some(PauseArmed)
    else if s.mode == Paused && Releases(s, c) then Some(if c.action == Resume then Resumed else Stepped)
    else None
  }

  lemma ReceiveShows(s: State, c: Control, ignoreStop: bool, y: Summary)
    requires Controls(s) && Shows(y, s)
    ensures var t, e := Received(s, c, ignoreStop), ControlEntry(s, c);
      && Controls(t)
      && (e == None ==> t.history == s.history && Shows(y, t))
      && (e.Some? ==> t.history == s.history + [e.value] && Allowed(y, e.value) && Shows(Extend(y, e.value), t))
  {
  }

  lemma ReceiveKeepsInv(s: State, c: Control, ignoreStop: bool)
    requires Inv(s)
    ensures Inv(Received(s, c, ignoreStop))
  {
    var t, e := Received(s, c, ignoreStop), ControlEntry(s, c);
    ReceiveKeepsQueue(s, c, ignoreStop);
    ReceiveShows(s, c, ignoreStop, Summarize(s.history));
    if e.Some? { LoggedNext(s, t, e.value); } else { SameLog(s, t); }
  }

  lemma MoveKeepsInv(s: State, m: Move, ignoreStop: bool)
    requires Inv(s) && Enabled(s, m)
    ensures Inv(Next(s, m, ignoreStop))
  {
    match m
    case Arrive => ArriveKeepsInv(s);
    case TakeTurn(f) => TakeTurnKeepsInv(s, f);
    case SafePoint(f, stepId, parent, terminal) => PointKeepsInv(s, f, stepId, parent, terminal, Yielding);
    case Continue(f) => ContinueKeepsInv(s, f);
    case Return(f, failed) =>
      if s.workflowTerminalEmitted { FinishKeepsInv(s, f); }
      else { PointKeepsInv(s, f, if failed then "adapter-failed" else "adapter-completed", s.lastStepId,
                           Some(if failed then WorkflowFailed else WorkflowCompleted), Closing); }
    case Close(f) =>
      assert InLine(s, f);
      FinishKeepsInv(s, f);
    case Receive(c) => ReceiveKeepsInv(s, c, ignoreStop);
  }

  /** s is where some order of moves leads from the start. */
  ghost predicate Reached(s: State, moves: seq<Move>, ignoreStop: bool)
    decreases |moves|
  {
    if moves == [] then s == INITIAL
    else
      var m := moves[|moves| - 1];
      exists p :: Reached(p, moves[..|moves| - 1], ignoreStop) && Enabled(p, m) && s == Next(p, m, ignoreStop)
  }

  lemma {:induction false} ReachedInv(s: State, moves: seq<Move>, ignoreStop: bool)
    requires Reached(s, moves, ignoreStop)
    ensures Inv(s)
    decreases |moves|
  {
    if moves == [] {
      InitialInv();
    } else {
      var m := moves[|moves| - 1];
      var p :| Reached(p, moves[..|moves| - 1], ignoreStop) && Enabled(p, m) && s == Next(p, m, ignoreStop);
      ReachedInv(p, moves[..|moves| - 1], ignoreStop);
      MoveKeepsInv(p, m, ignoreStop);
    }
  }

  ghost function LastEvent(h: seq<Entry>): Option<Event> {
    if h == [] then None
    else if h[|h| - 1].Emit? then Some(h[|h| - 1].event)
    else LastEvent(h[..|h| - 1])
  }

  lemma {:induction false} SummaryKnowsLastEvent(h: seq<Entry>)
    ensures Summarize(h).last.Some? ==> Summarize(h).last == LastEvent(h)
  {
    if h != [] { SummaryKnowsLastEvent(h[..|h| - 1]); }
  }

  /** A workflow is blocked exactly when the paused resolver is its own; then the mode is paused and the last
      emitted event is its own pause. */
  lemma BlockedIsPaused(s: State, f: nat)
    requires Inv(s)
    ensures At(s, f, Blocked) <==> s.pausedResolver == Some(f)
    ensures At(s, f, Blocked) ==>
      && s.mode == Paused
      && LastEvent(s.history).Some?
      && LastEvent(s.history).value.state == AtPause
      && LastEvent(s.history).value.sequence == s.sequence
      && LastEvent(s.history).value.workflow == s.flows[f].workflow
  {
    if f < |s.flows| { assert InLine(s, f); }
    SummaryKnowsLastEvent(s.history);
  }

  lemma OthersCannotMove(s: State, f: nat, m: Move)
    requires Inv(s) && f < |s.flows| && s.flows[f].pc != Waiting && s.flows[f].pc != Done && Enabled(s, m)
    ensures m.Arrive? || m.Receive? || m.flow == f
  {
    LiveFlow(s, f);
    if !m.Arrive? && !m.Receive? { assert InLine(s, m.flow); }
  }

  /** A number that JavaScript holds exactly and that has this value. */
  ghost predicate Says(n: Number, value: int) {
    n == Integer(value) && -9_007_199_254_740_991 <= value <= 9_007_199_254_740_991
  }

  /** A control that asks to go on: from this session, with the number of controls accepted so far and one more, and
      naming an event by its sequence number. */
  ghost predicate AsksToContinue(h: seq<Entry>, c: Control, event: int) {
    && c.authentic && Says(c.controlEpoch, Accepted(h) + 1) && Says(c.expectedSequence, event)
    && (c.action == Resume || c.action == StepInto || c.action == StepOver)
  }

  /** The state's counters are what the log counts. */
  lemma CountersAreCounts(s: State)
    requires Logged(s)
    ensures s.sequence == |Events(s.history)| && s.controlEpoch == Accepted(s.history)
  {
    SummaryCounts(s.history);
  }

  /** A blocked workflow is released by a continuing control that names the event of its own pause, which is the last
      event of all, and the next epoch; and by nothing else that can happen. */
  lemma OnlyItsControlReleases(s: State, f: nat, m: Move, ignoreStop: bool)
    requires Inv(s) && At(s, f, Blocked) && Enabled(s, m)
    ensures LastEvent(s.history).Some? && LastEvent(s.history).value.workflow == s.flows[f].workflow
    ensures var t, pause := Next(s, m, ignoreStop), LastEvent(s.history).value;
      if m.Receive? && AsksToContinue(s.history, m.control, pause.sequence) then
        && At(t, f, Released) && t.controlEpoch == s.controlEpoch + 1
        && t.mode == (if m.control.action == Resume then Running else Step)
        && t.history == s.history + [if m.control.action == Resume then Resumed else Stepped]
      else
        && At(t, f, Blocked) && t.controlEpoch == s.controlEpoch && t.sequence == s.sequence
        && t.history == s.history
  {
    BlockedIsPaused(s, f);
    OthersCannotMove(s, f, m);
    CountersAreCounts(s);
  }

  /** A control that asks for a pause or a stop need not name the last event: any one so far will do. */
  ghost predicate IsTimely(h: seq<Entry>, c: Control) {
    && c.authentic && Says(c.controlEpoch, Accepted(h) + 1)
    && exists event :: event <= |Events(h)| && Says(c.expectedSequence, event)
  }

  /** Everything that a control can do, and exactly when: arm a pause while the mode is running, end the process, or end
      a pause, of a workflow or left by a terminal event. */
  lemma ControlMeaning(s: State, c: Control, ignoreStop: bool)
    requires Inv(s) && !s.exited
    ensures var t, h := Next(s, Receive(c), ignoreStop), s.history;
      if IsTimely(h, c) && c.action == Pause && s.mode == Running then
        t == s.(pendingPause := Some(Accepted(h) + 1), history := h + [PauseArmed])
      else if IsTimely(h, c) && c.action == Stop then t == s.(exited := !ignoreStop)
      else if AsksToContinue(h, c, |Events(h)|) && s.mode == Paused then
        && t.controlEpoch == Accepted(h) + 1 && t.pausedResolver == None && !t.exited
        && t.mode == (if c.action == Resume then Running else Step)
        && t.history == h + [if c.action == Resume then Resumed else Stepped]
      else t == s
  {
    CountersAreCounts(s);
    if Admitted(s, c) { assert Says(c.expectedSequence, c.expectedSequence.value); }
  }

  /** The last event, if it is the workflow's own. */
  ghost function OwnLastEvent(h: seq<Entry>, w: nat): Option<Event> {
    if LastEvent(h).Some? && LastEvent(h).value.workflow == w then LastEvent(h) else None
  }

  lemma {:induction false} SummaryKnowsOwnEvent(h: seq<Entry>)
    requires LawfulLog(h)
    ensures LastEvent(h).Some? ==> LastEvent(h).value.workflow <= Summarize(h).begun
    ensures Summarize(h).current.Some? ==>
      Summarize(h).current.value == Summarize(h).begun && Summarize(h).last == OwnLastEvent(h, Summarize(h).begun)
  {
    if h != [] {
      LawfulPrefix(h, |h| - 1);
      SummaryKnowsOwnEvent(h[..|h| - 1]);
      assert Allowed(Summarize(h[..|h| - 1]), h[|h| - 1]);
    }
  }

  /** What a safe point does: it emits one event, of the active workflow, with the step it is given and the next number;
      the workflow waits for a control if the event is a pause, and else for one turn of the event loop. */
  lemma SafePointEmits(s: State, f: nat, stepId: string, parent: Option<string>, terminal: Option<Terminal>,
                       ignoreStop: bool)
    requires Inv(s) && Enabled(s, SafePoint(f, stepId, parent, terminal))
    ensures var t := Next(s, SafePoint(f, stepId, parent, terminal), ignoreStop);
      && LastEvent(t.history).Some? && |Events(t.history)| == |Events(s.history)| + 1
      && var v := LastEvent(t.history).value;
        && t.activeWorkflow == Some(v.workflow) && s.flows[f].workflow == v.workflow
        && v.sequence == |Events(t.history)| && v.stepId == stepId
        && v.parentStepId == (if parent == Some("") then None else parent)
        && (forall how :: v.state == AtEnd(how) <==> terminal == Some(how))
        && (if v.state == AtPause then At(t, f, Blocked) else At(t, f, Yielding))
  {
    LiveFlow(s, f);
    CountersAreCounts(s);
    MoveKeepsInv(s, SafePoint(f, stepId, parent, terminal), ignoreStop);
    CountersAreCounts(Next(s, SafePoint(f, stepId, parent, terminal), ignoreStop));
  }

  /** How a workflow ends: if its own last event is terminal it is cleaned up; else it emits the terminal event that
      tells failure from completion, under the step of its last event. */
  lemma ReturnEnds(s: State, f: nat, failed: bool, ignoreStop: bool)
    requires Inv(s) && Enabled(s, Return(f, failed))
    ensures var t, w := Next(s, Return(f, failed), ignoreStop), s.flows[f].workflow;
      var own := OwnLastEvent(s.history, w);
      if own.Some? && own.value.state.AtEnd? then
        t.history == s.history + [Ended(w)] && At(t, f, Done) && t.activeWorkflow == None
      else
        && LastEvent(t.history).Some? && At(t, f, Closing)
        && var v := LastEvent(t.history).value;
          && v.workflow == w && v.sequence == |Events(s.history)| + 1
          && v.state == AtEnd(if failed then WorkflowFailed else WorkflowCompleted)
          && v.stepId == (if failed then "adapter-failed" else "adapter-completed")
          && v.parentStepId == if own.Some? && own.value.stepId != "" then Some(own.value.stepId) else None
  {
    LiveFlow(s, f);
    SummaryKnowsOwnEvent(s.history);
    CountersAreCounts(s);
  }

  /** Once released, a workflow stays able to continue until it does. */
  lemma ReleaseIsNotLost(s: State, f: nat, m: Move, ignoreStop: bool)
    requires Inv(s) && At(s, f, Released) && Enabled(s, m)
    ensures Enabled(s, Continue(f))
    ensures At(Next(s, m, ignoreStop), f, if m == Continue(f) then Executing else Released)
  {
    OthersCannotMove(s, f, m);
  }

  /** Workflows run one at a time: two that are neither waiting nor done are the same, and it is the active one. */
  lemma OneAtATime(s: State, f: nat, g: nat)
    requires Inv(s) && f < |s.flows| && g < |s.flows|
    requires s.flows[f].pc != Waiting && s.flows[f].pc != Done && s.flows[g].pc != Waiting && s.flows[g].pc != Done
    ensures f == g && s.activeWorkflow == Some(s.flows[f].workflow)
  {
    LiveFlow(s, f);
    LiveFlow(s, g);
  }

  /** Turns go in order of arrival: whoever starts is the first still waiting, and gets the next number. */
  lemma TurnsInOrderOfArrival(s: State, f: nat)
    requires Inv(s) && Enabled(s, TakeTurn(f))
    ensures forall g: nat :: g < f ==> At(s, g, Done)
    ensures forall g: nat :: f <= g < |s.flows| ==> At(s, g, Waiting)
    ensures Next(s, TakeTurn(f), false).flows[f].workflow == f + 1
  {
    TakeTurnInOrder(s, f);
    forall g: nat | g < f ensures At(s, g, Done) { assert InLine(s, g); }
    forall g: nat | f <= g < |s.flows| ensures At(s, g, Waiting) { assert InLine(s, g); }
  }

  /** No workflow is stranded: while one is unfinished, either one is blocked and waits for its control, or some
      workflow can move. */
  lemma SomeoneCanMove(s: State, f: nat) returns (m: Move)
    requires Inv(s) && !s.exited && f < |s.flows| && s.flows[f].pc != Done && s.pausedResolver == None
    ensures Enabled(s, m) && !m.Arrive? && !m.Receive?
  {
    assert InLine(s, f);
    if s.activeWorkflow.Some? {
      var g := s.workflowNumber - 1;
      assert InLine(s, g);
      var pc := s.flows[g].pc;
      m := if pc == Executing then Return(g, false) else if pc == Closing then Close(g) else Continue(g);
    } else {
      var g := s.workflowNumber;
      assert InLine(s, g);
      m := TakeTurn(g);
    }
  }

  // ---------- what every lawful log says ----------

  lemma SummaryStep(h: seq<Entry>, j: nat)
    requires j < |h|
    ensures Summarize(h[..j + 1]) == Extend(Summarize(h[..j]), h[j])
  {
    assert h[..j + 1][..j] == h[..j];
  }

  ghost predicate IsCause(e: Entry) {
    e.PauseArmed? || e.Stepped? || e.Begun?
  }

  /** Between a cause and the next emission or end the duty to stop stays. */
  lemma {:induction false} DutyStays(h: seq<Entry>, i: nat, j: nat)
    requires i < j <= |h| && IsCause(h[i])
    requires forall k :: i < k < j ==> !h[k].Emit? && !h[k].Ended?
    ensures Summarize(h[..j]).mustStop
    decreases j
  {
    SummaryStep(h, j - 1);
    if j - 1 > i { DutyStays(h, i, j - 1); }
  }

  /** The first event of a workflow, the event after a step, and the event after a pause request are pauses or
      terminal. */
  lemma EventAfterCauseStops(h: seq<Entry>, i: nat, j: nat)
    requires LawfulLog(h) && i < j < |h| && IsCause(h[i]) && h[j].Emit?
    requires forall k :: i < k < j ==> !h[k].Emit? && !h[k].Ended?
    ensures h[j].event.state != AtRun
  {
    DutyStays(h, i, j);
    assert Allowed(Summarize(h[..j]), h[j]);
  }

  lemma {:induction false} DutyHasItsCause(h: seq<Entry>, j: nat) returns (k: nat)
    requires j <= |h| && Summarize(h[..j]).mustStop
    ensures k < j && IsCause(h[k]) && forall i :: k < i < j ==> !h[i].Emit? && !h[i].Ended?
    decreases j
  {
    SummaryStep(h, j - 1);
    if IsCause(h[j - 1]) {
      k := j - 1;
    } else {
      k := DutyHasItsCause(h, j - 1);
    }
  }

  /** And no other event is a pause: it comes after a begin, a step or a pause request with no event in between. */
  lemma PauseHasCause(h: seq<Entry>, j: nat) returns (k: nat)
    requires LawfulLog(h) && j < |h| && h[j].Emit? && h[j].event.state == AtPause
    ensures k < j && IsCause(h[k]) && forall i :: k < i < j ==> !h[i].Emit? && !h[i].Ended?
  {
    assert Allowed(Summarize(h[..j]), h[j]);
    k := DutyHasItsCause(h, j);
  }

  /** Facts that a lawful log keeps: numbers, the workflow in progress and its last event. */
  lemma {:induction false} SummaryLawful(h: seq<Entry>)
    requires LawfulLog(h)
    ensures var y := Summarize(h);
      && (y.halted ==> !y.mustStop)
      && (y.current.Some? ==> y.current.value == y.begun)
      && (y.current.Some? && y.last.Some? ==> y.last.value.workflow == y.current.value)
  {
    if h != [] {
      var p := h[..|h| - 1];
      assert forall j :: 0 <= j < |p| ==> h[..j] == p[..j];
      SummaryLawful(p);
      assert Allowed(Summarize(p), h[|h| - 1]);
    }
  }

  lemma LawfulPrefix(h: seq<Entry>, j: nat)
    requires LawfulLog(h) && j <= |h|
    ensures LawfulLog(h[..j])
  {
    assert forall i :: 0 <= i < j ==> h[..j][..i] == h[..i];
  }

  lemma ExtendKeepsBegun(y: Summary, e: Entry)
    ensures y.begun <= Extend(y, e).begun
  {
  }

  lemma {:induction false} BegunGrows(h: seq<Entry>, i: nat, j: nat)
    requires i <= j <= |h|
    ensures Summarize(h[..i]).begun <= Summarize(h[..j]).begun
    decreases j
  {
    if i < j {
      BegunGrows(h, i, j - 1);
      SummaryStep(h, j - 1);
      ExtendKeepsBegun(Summarize(h[..j - 1]), h[j - 1]);
    }
  }

  lemma ResumeLeavesNoDuty(h: seq<Entry>, i: nat)
    requires LawfulLog(h) && i < |h| && h[i].Resumed?
    ensures !Summarize(h[..i + 1]).mustStop
  {
    LawfulPrefix(h, i);
    SummaryLawful(h[..i]);
    SummaryStep(h, i);
    assert Allowed(Summarize(h[..i]), h[i]);
  }

  lemma {:induction false} DutyHasCause(h: seq<Entry>, i: nat, j: nat) returns (k: nat)
    requires i <= j <= |h| && !Summarize(h[..i]).mustStop && Summarize(h[..j]).mustStop
    ensures i <= k < j && IsCause(h[k])
    decreases j
  {
    SummaryStep(h, j - 1);
    if IsCause(h[j - 1]) {
      k := j - 1;
    } else {
      k := DutyHasCause(h, i, j - 1);
    }
  }

  lemma CurrentIsNewest(h: seq<Entry>, j: nat, w: nat)
    requires LawfulLog(h) && j <= |h| && Summarize(h[..j]).current == Some(w)
    ensures Summarize(h[..j]).begun == w
  {
    LawfulPrefix(h, j);
    SummaryLawful(h[..j]);
  }

  /** A resume is not followed by a pause of the same workflow until a new pause request or a step. */
  lemma PauseAfterResumeHasCause(h: seq<Entry>, i: nat, j: nat) returns (k: nat)
    requires LawfulLog(h) && i < j < |h| && h[i].Resumed? && h[j].Emit? && h[j].event.state == AtPause
    requires Summarize(h[..i]).current == Some(h[j].event.workflow)
    ensures i < k < j && (h[k].PauseArmed? || h[k].Stepped?)
  {
    assert Allowed(Summarize(h[..j]), h[j]);
    ResumeLeavesNoDuty(h, i);
    k := DutyHasCause(h, i + 1, j);
    CurrentIsNewest(h, i, h[j].event.workflow);
    CurrentIsNewest(h, j, h[j].event.workflow);
    NoneBegan(h, i, k, j);
  }

  /** While the number of begun workflows stays the same, no workflow begins. */
  lemma NoneBegan(h: seq<Entry>, i: nat, k: nat, j: nat)
    requires i <= k < j <= |h| && Summarize(h[..i]).begun == Summarize(h[..j]).begun
    ensures !h[k].Begun?
  {
    BegunGrows(h, i, k);
    SummaryStep(h, k);
    BegunGrows(h, k + 1, j);
  }

  ghost function Events(h: seq<Entry>): seq<Event> {
    if h == [] then []
    else Events(h[..|h| - 1]) + if h[|h| - 1].Emit? then [h[|h| - 1].event] else []
  }

  /** Entries that raise the control epoch. */
  ghost function Accepted(h: seq<Entry>): nat {
    if h == [] then 0
    else
      var e := h[|h| - 1];
      Accepted(h[..|h| - 1]) + if e.PauseTaken? || e.Resumed? || e.Stepped? then 1 else 0
  }

  lemma ExtendCounts(y: Summary, e: Entry)
    ensures Extend(y, e).emitted == y.emitted + if e.Emit? then 1 else 0
    ensures Extend(y, e).accepted == y.accepted + if e.PauseTaken? || e.Resumed? || e.Stepped? then 1 else 0
  {
  }

  lemma {:induction false} SummaryCounts(h: seq<Entry>)
    ensures Summarize(h).emitted == |Events(h)| && Summarize(h).accepted == Accepted(h)
  {
    if h != [] {
      SummaryCounts(h[..|h| - 1]);
      ExtendCounts(Summarize(h[..|h| - 1]), h[|h| - 1]);
    }
  }

  lemma {:induction false} SequencesCount(h: seq<Entry>)
    requires LawfulLog(h)
    ensures forall k :: 0 <= k < |Events(h)| ==> Events(h)[k].sequence == k + 1
  {
    if h != [] {
      LawfulPrefix(h, |h| - 1);
      SequencesCount(h[..|h| - 1]);
      SummaryCounts(h[..|h| - 1]);
      assert Allowed(Summarize(h[..|h| - 1]), h[|h| - 1]);
    }
  }

  /** Sequence numbers are contiguous from 1, and an event carries the number of controls accepted before it. */
  lemma EventNumbers(h: seq<Entry>)
    requires LawfulLog(h)
    ensures forall k :: 0 <= k < |Events(h)| ==> Events(h)[k].sequence == k + 1
    ensures forall j :: 0 <= j < |h| && h[j].Emit? ==> h[j].event.controlEpoch == Accepted(h[..j])
  {
    SequencesCount(h);
    forall j | 0 <= j < |h| && h[j].Emit? ensures h[j].event.controlEpoch == Accepted(h[..j]) {
      assert Allowed(Summarize(h[..j]), h[j]);
      SummaryCounts(h[..j]);
    }
  }

  /** The last event before a workflow ends is its own terminal event. */
  lemma EndedAfterTerminal(h: seq<Entry>, j: nat)
    requires LawfulLog(h) && j < |h| && h[j].Ended?
    ensures LastEvent(h[..j]).Some?
    ensures LastEvent(h[..j]).value.state.AtEnd? && LastEvent(h[..j]).value.workflow == h[j].workflow
  {
    assert Allowed(Summarize(h[..j]), h[j]);
    LawfulPrefix(h, j);
    SummaryLawful(h[..j]);
    SummaryKnowsLastEvent(h[..j]);
  }

  // ---------- the script ----------

  class DebugAdapter {
    const ignoreStop: bool
    var sequence: nat
    var controlEpoch: int
    var workflowNumber: nat
    var activeWorkflow: Option<nat>
    var mode: Mode
    var pendingPause: Option<int>
    var pausedResolver: Option<nat>
    var workflowTail: nat
    var resolvedTurns: set<nat>
    var lastStepId: Option<string>
    var workflowTerminalEmitted: bool
    var exited: bool
    var flows: seq<Flow>
    ghost var history: seq<Entry>

    ghost function Now(): State
      reads this
    {
      State(sequence, controlEpoch, workflowNumber, activeWorkflow, mode, pendingPause, pausedResolver, workflowTail,
            resolvedTurns, lastStepId, workflowTerminalEmitted, exited, flows, history)
    }

    constructor (ignoreStop: bool)
      ensures Now() == INITIAL && this.ignoreStop == ignoreStop
    {
      this.ignoreStop := ignoreStop;
      sequence, controlEpoch, workflowNumber, activeWorkflow := 0, 0, 0, None;
      mode, pendingPause, pausedResolver := Running, None, None;
      workflowTail, resolvedTurns, lastStepId := 0, {0}, None;
      workflowTerminalEmitted, exited, flows, history := false, false, [], [];
    }

    /** withDebugWorkflow up to `await turn`. */
    method Arrive() returns (flow: nat)
      requires !exited
      modifies this
      ensures Now() == Next(old(Now()), Move.Arrive, ignoreStop)
      ensures flow == |old(flows)|
    {
      flow := |flows|;
      var turn := workflowTail;
      workflowTail := |flows| + 1;
      flows := flows + [Flow(Waiting, turn, 0)];
    }

    /** withDebugWorkflow after its turn has come. */
    method TakeTurn(flow: nat)
      requires Enabled(Now(), Move.TakeTurn(flow))
      modifies this
      ensures Now() == Next(old(Now()), Move.TakeTurn(flow), ignoreStop)
    {
      workflowNumber := workflowNumber + 1;
      flows := flows[flow := flows[flow].(pc := Executing, workflow := workflowNumber)];
      activeWorkflow := Some(workflowNumber);
      mode := InitialPause;
      lastStepId := None;
      workflowTerminalEmitted := false;
      history := history + [Begun(workflowNumber)];
    }

    /** The first half of debugSafePoint: consume a pending pause, an initial pause or a step. */
    method ConsumeDuty(terminal: Option<Terminal>) returns (state: PointState)
      modifies this`controlEpoch, this`pendingPause, this`mode, this`history
      ensures state == PointStateOf(old(Now()), terminal)
      ensures pendingPause == None
      ensures mode == if WillStop(old(Now())) then Paused else old(mode)
      ensures controlEpoch == if old(pendingPause).Some? then old(pendingPause).value else old(controlEpoch)
      ensures history == old(history) + if old(pendingPause).Some? then [PauseTaken] else []
    {
      state := if terminal.Some? then AtEnd(terminal.value) else AtRun;
      if pendingPause.Some? {
        controlEpoch := pendingPause.value;
        pendingPause := None;
        mode := Paused;
        if terminal == None { state := AtPause; }
        history := history + [PauseTaken];
      } else if mode == InitialPause || mode == Step {
        mode := Paused;
        if terminal == None { state := AtPause; }
      }
    }

    /** The second half: emit the event, and wait if it is a pause. */
    method EmitPoint(flow: nat, stepId: string, parentStepId: Option<string>, terminal: Option<Terminal>,
                     state: PointState, after: Pc)
      requires flow < |flows|
      modifies this`sequence, this`history, this`lastStepId, this`workflowTerminalEmitted, this`pausedResolver,
               this`flows
      ensures sequence == old(sequence) + 1 && lastStepId == Some(stepId) && workflowTerminalEmitted == terminal.Some?
      ensures pausedResolver == if state == AtPause then Some(flow) else old(pausedResolver)
      ensures flows == MoveTo(old(flows), flow, if state == AtPause then Blocked else after)
      ensures history == old(history)
        + [Emit(Event(old(flows)[flow].workflow, sequence, controlEpoch, stepId, Given(parentStepId), state))]
    {
      sequence := sequence + 1;
      var parent := if parentStepId.Some? && parentStepId.value != "" then parentStepId else None;
      history := history + [Emit(Event(flows[flow].workflow, sequence, controlEpoch, stepId, parent, state))];
      lastStepId := Some(stepId);
      workflowTerminalEmitted := terminal.Some?;
      if state == AtPause { pausedResolver := Some(flow); }
      flows := flows[flow := flows[flow].(pc := if state == AtPause then Blocked else after)];
    }

    /** debugSafePoint. It throws when the caller is not the active workflow, which LiveFlow rules out. */
    method DebugSafePoint(flow: nat, stepId: string, parentStepId: Option<string>, terminal: Option<Terminal>,
                          after: Pc)
      returns (thrown: bool)
      requires At(Now(), flow, Executing)
      modifies this
      ensures thrown <==> old(activeWorkflow) != Some(old(flows)[flow].workflow)
      ensures Now() == if thrown then old(Now()) else Point(old(Now()), flow, stepId, parentStepId, terminal, after)
    {
      if activeWorkflow != Some(flows[flow].workflow) { return true; }
      var state := ConsumeDuty(terminal);
      EmitPoint(flow, stepId, parentStepId, terminal, state, after);
      thrown := false;
    }

    method Continue(flow: nat)
      requires Enabled(Now(), Move.Continue(flow))
      modifies this
      ensures Now() == Next(old(Now()), Move.Continue(flow), ignoreStop)
    {
      flows := flows[flow := flows[flow].(pc := Executing)];
    }

    /** The operation returned or threw: emit a terminal event unless one was the last event, otherwise clean up. */
    method Return(flow: nat, failed: bool)
      requires Queue(Now()) && Enabled(Now(), Move.Return(flow, failed))
      modifies this
      ensures Now() == Next(old(Now()), Move.Return(flow, failed), ignoreStop)
    {
      LiveFlow(Now(), flow);
      if !workflowTerminalEmitted {
        var thrown := DebugSafePoint(flow, if failed then "adapter-failed" else "adapter-completed", lastStepId,
          Some(if failed then WorkflowFailed else WorkflowCompleted), Closing);
      } else {
        Cleanup(flow);
      }
    }

    /** The finally block: after the adapter's own terminal event, or right after the operation. */
    method Cleanup(flow: nat)
      requires flow < |flows|
      modifies this
      ensures Now() == Finish(old(Now()), flow)
    {
      history := history + [Ended(flows[flow].workflow)];
      activeWorkflow := None;
      pendingPause := None;
      mode := Running;
      resolvedTurns := resolvedTurns + {flow + 1};
      flows := flows[flow := flows[flow].(pc := Done)];
    }

    method ReceiveControl(control: Control)
      modifies this
      ensures Now() == Received(old(Now()), control, ignoreStop)
    {
      if || !control.authentic
         || !IsSafeInteger(control.controlEpoch)
         || control.controlEpoch.value != controlEpoch + 1
         || !IsSafeInteger(control.expectedSequence)
         || control.expectedSequence.value > sequence
      {
        return;
      }
      if control.action == Pause && mode == Running {
        pendingPause := Some(control.controlEpoch.value);
        history := history + [PauseArmed];
        return;
      }
      if control.action == Stop {
        exited := !ignoreStop;
        return;
      }
      if || mode != Paused
         || control.expectedSequence.value != sequence
         || !(control.action == Resume || control.action == StepInto || control.action == StepOver)
      {
        return;
      }
      controlEpoch := control.controlEpoch.value;
      mode := if control.action == Resume then Running else Step;
      history := history + [if control.action == Resume then Resumed else Stepped];
      var release := pausedResolver;
      pausedResolver := None;
      if release.Some? && release.value < |flows| {
        flows := flows[release.value := flows[release.value].(pc := Released)];
      }
    }
  }
}
