/** Which runs have ended, and which run is active (lib/runLifecycle.ts, app/useRunActions.ts,
    app/useRuntimeSubscriptions.ts, app/useAppController.ts). */
module RunLifecycle {
  import opened Options
  import InsertionOrder
  import Seqs

  const MAX_REMEMBERED_RUNS: nat := 200

  datatype RuntimeEvent = RuntimeEvent(runId: Option<string>, kind: string)

  datatype ActiveRun = ActiveRun(id: string, mode: string, stopping: bool)

  predicate IsTerminalKind(kind: string) {
    kind == "process.exited" || kind == "process.wait_failed"
  }

  /** The run that an event says has ended. */
  function EndedRun(e: RuntimeEvent): Option<string> {
    if e.runId.Some? && e.runId.value != "" && IsTerminalKind(e.kind) then e.runId else None
  }

  // ---------- remembered runs ----------

  function Bounded(ids: seq<string>): seq<string> {
    if |ids| > MAX_REMEMBERED_RUNS then ids[|ids| - MAX_REMEMBERED_RUNS..] else ids
  }

  /** The remembered runs after one more has ended: a known one keeps its place, and the oldest make room. */
  function Remembered(ids: seq<string>, id: string): seq<string> {
    Bounded(if id in ids then ids else ids + [id])
  }

  ghost predicate IsMemory(ids: seq<string>) {
    |ids| <= MAX_REMEMBERED_RUNS && "" !in ids && InsertionOrder.Distinct(ids)
  }

  lemma RememberedIsMemory(ids: seq<string>, id: string)
    requires IsMemory(ids) && id != ""
    ensures IsMemory(Remembered(ids, id)) && id in Remembered(ids, id)
    ensures forall x :: x in Remembered(ids, id) ==> x in ids || x == id
  {
    var more := if id in ids then ids else ids + [id];
    assert id !in ids ==> more[|more| - 1] == id;
  }

  /** The memory of ended runs, with the active run. */
  class RunState {
    var terminalRunIds: seq<string>
    var activeRun: Option<ActiveRun>

    /** The active run is never one that is remembered to have ended. */
    ghost predicate Valid()
      reads this
    {
      IsMemory(terminalRunIds) && (activeRun.Some? ==> activeRun.value.id !in terminalRunIds)
    }

    constructor ()
      ensures Valid() && terminalRunIds == [] && activeRun == None
    {
      terminalRunIds, activeRun := [], None;
    }

    /** rememberTerminalRun: adds the run and evicts the oldest ones beyond the limit. */
    method RememberTerminalRun(e: RuntimeEvent) returns (ended: Option<string>)
      requires IsMemory(terminalRunIds)
      modifies this`terminalRunIds
      ensures ended == EndedRun(e)
      ensures terminalRunIds ==
        if ended.Some? then Remembered(old(terminalRunIds), ended.value) else old(terminalRunIds)
    {
      ended := EndedRun(e);
      if ended == None { return; }
      if ended.value !in terminalRunIds {
        terminalRunIds := terminalRunIds + [ended.value];
      }
      ghost var more := terminalRunIds;
      while |terminalRunIds| > MAX_REMEMBERED_RUNS
        invariant |terminalRunIds| <= |more| && terminalRunIds == more[|more| - |terminalRunIds|..]
        invariant |terminalRunIds| >= MAX_REMEMBERED_RUNS || terminalRunIds == more
        invariant "" !in terminalRunIds
      {
        if terminalRunIds[0] == "" { assert false; }
        terminalRunIds := terminalRunIds[1..];
      }
    }

    /** An event from the backend: an ended run is remembered, and is active no more. */
    method ReceiveEvent(e: RuntimeEvent)
      requires Valid()
      modifies this
      ensures Valid()
      ensures (terminalRunIds, activeRun) == AfterEvent(old(terminalRunIds), old(activeRun), e)
    {
      var ended := RememberTerminalRun(e);
      if ended.Some? {
        RememberedIsMemory(old(terminalRunIds), ended.value);
        if activeRun.Some? && activeRun.value.id == ended.value { activeRun := None; }
      }
    }

    /** The reply to a start request: the run becomes active unless it is known to have ended already. */
    method ReceiveStart(id: string, mode: string)
      requires Valid()
      modifies this`activeRun
      ensures Valid()
      ensures activeRun == AfterStart(terminalRunIds, id, mode)
    {
      var alreadyExited := id in terminalRunIds;
      activeRun := if alreadyExited then None else Some(ActiveRun(id, mode, false));
    }

    /** The reply to a stop request that was made for a run: if that is still the active one, it is stopping. */
    method ReceiveStop(id: string, stopped: bool)
      requires Valid()
      modifies this`activeRun
      ensures Valid()
      ensures activeRun == AfterStop(old(activeRun), id, stopped)
    {
      if stopped && activeRun.Some? && activeRun.value.id == id {
        activeRun := Some(activeRun.value.(stopping := true));
      }
    }

    /** Another workspace is adopted: no run is active, and no run is remembered. */
    method AdoptWorkspace()
      requires Valid()
      modifies this
      ensures Valid() && terminalRunIds == [] && activeRun == None
    {
      activeRun := None;
      terminalRunIds := [];
    }
  }

  function AfterEvent(ids: seq<string>, active: Option<ActiveRun>, e: RuntimeEvent): (seq<string>, Option<ActiveRun>) {
    match EndedRun(e)
    case None => (ids, active)
    case Some(id) => (Remembered(ids, id), if active.Some? && active.value.id == id then None else active)
  }

  function AfterStart(ids: seq<string>, id: string, mode: string): Option<ActiveRun> {
    if id in ids then None else Some(ActiveRun(id, mode, false))
  }

  function AfterStop(active: Option<ActiveRun>, id: string, stopped: bool): Option<ActiveRun> {
    if stopped && active.Some? && active.value.id == id then Some(active.value.(stopping := true)) else active
  }

  // ---------- any order of replies and events ----------

  datatype Move =
    | Event(event: RuntimeEvent)
    | Start(id: string, mode: string)
    | Stop(id: string, stopped: bool)
    | Adopt

  datatype State = State(ids: seq<string>, active: Option<ActiveRun>)

  function Next(s: State, m: Move): State {
    match m
    case Event(e) =>
      var (ids, active) := AfterEvent(s.ids, s.active, e);
      State(ids, active)
    case Start(id, mode) => s.(active := AfterStart(s.ids, id, mode))
    case Stop(id, stopped) => s.(active := AfterStop(s.active, id, stopped))
    case Adopt => State([], None)
  }

  ghost function After(s: State, moves: seq<Move>): State {
    if moves == [] then s else Next(After(s, moves[..|moves| - 1]), moves[|moves| - 1])
  }

  ghost predicate Inv(s: State) {
    IsMemory(s.ids) && (s.active.Some? ==> s.active.value.id !in s.ids)
  }

  /** Whatever the order of events, replies and adopted workspaces, the active run is not one that is remembered to
      have ended. */
  lemma {:induction false} ActiveHasNotEnded(s: State, moves: seq<Move>)
    requires Inv(s)
    ensures Inv(After(s, moves))
  {
    if moves != [] {
      var before, last := After(s, moves[..|moves| - 1]), moves[|moves| - 1];
      ActiveHasNotEnded(s, moves[..|moves| - 1]);
      if IsEnd(last) { RememberedIsMemory(before.ids, EndedRun(last.event).value); }
    }
  }

  /** The move says that some run has ended. */
  ghost predicate IsEnd(m: Move) {
    m.Event? && EndedRun(m.event).Some?
  }

  /** The runs that end in a list of moves. */
  ghost function Ended(moves: seq<Move>): set<string> {
    if moves == [] then {}
    else
      var last := moves[|moves| - 1];
      Ended(moves[..|moves| - 1]) + if IsEnd(last) then {EndedRun(last.event).value} else {}
  }

  lemma {:induction false} DistinctCount(ids: seq<string>, s: set<string>)
    requires InsertionOrder.Distinct(ids) && forall i :: 0 <= i < |ids| ==> ids[i] in s
    ensures |ids| <= |s|
    ensures (forall x :: x in s ==> x in ids) ==> |ids| == |s|
  {
    if ids == [] {
      if s != {} { var x :| x in s; }
    } else {
      var n := |ids| - 1;
      var rest := s - {ids[n]};
      DistinctCount(ids[..n], rest);
      Seqs.LastApart(ids);
      assert s == rest + {ids[n]};
    }
  }

  /** The runs remembered after a given one. */
  ghost function Later(ids: seq<string>, run: string): seq<string> {
    if ids == [] then [] else if ids[0] == run then ids[1..] else Later(ids[1..], run)
  }

  lemma {:induction false} LaterIs(ids: seq<string>, run: string) returns (k: nat)
    requires InsertionOrder.Distinct(ids) && run in ids
    ensures k < |ids| && ids[k] == run && Later(ids, run) == ids[k + 1..] && run !in Later(ids, run)
  {
    if ids[0] == run {
      k := 0;
    } else {
      k := LaterIs(ids[1..], run);
      k := k + 1;
    }
  }

  /** One more run ends: it is remembered after the others, and `run` is forgotten when it is the oldest of 200. */
  lemma LaterOneMore(ids: seq<string>, run: string, id: string)
    requires IsMemory(ids) && run in ids && id != "" && id !in ids
    ensures var (after, later) := (Remembered(ids, id), Later(ids, run) + [id]);
      if |later| < MAX_REMEMBERED_RUNS then run in after && Later(after, run) == later
      else run !in after && after == later
  {
    var more := ids + [id];
    LaterAppended(ids, run, id);
    RememberedIsMemory(ids, id);
    var k := LaterIs(more, run);
    assert k == 0 <==> more[0] == run;
  }

  lemma {:induction false} LaterAppended(ids: seq<string>, run: string, id: string)
    requires run in ids
    ensures Later(ids + [id], run) == Later(ids, run) + [id]
  {
    if ids[0] == run {
      assert (ids + [id])[1..] == ids[1..] + [id];
    } else {
      LaterAppended(ids[1..], run, id);
      assert (ids + [id])[1..] == ids[1..] + [id];
    }
  }

  ghost predicate RememberedBefore(ids: seq<string>, run: string, since: set<string>) {
    run in ids && forall x :: x in Later(ids, run) ==> x in since
  }

  /** One more run ends: `run` stays remembered while fewer than 200 others have ended since it did. */
  lemma StillRemembered(ids: seq<string>, run: string, since: set<string>, id: string)
    requires IsMemory(ids) && RememberedBefore(ids, run, since) && id != ""
    requires |since + {id} - {run}| < MAX_REMEMBERED_RUNS
    ensures RememberedBefore(Remembered(ids, id), run, since + {id})
  {
    if id !in ids {
      var k := LaterIs(ids, run);
      LaterOneMore(ids, run, id);
      DistinctCount(Later(ids, run) + [id], since + {id} - {run});
    }
  }

  lemma {:induction false} RememberedFor(s: State, moves: seq<Move>, run: string, since: set<string>)
    requires Inv(s) && RememberedBefore(s.ids, run, since)
    requires |since + Ended(moves) - {run}| < MAX_REMEMBERED_RUNS && Adopt !in moves
    ensures RememberedBefore(After(s, moves).ids, run, since + Ended(moves))
  {
    if moves != [] {
      var some, last := moves[..|moves| - 1], moves[|moves| - 1];
      Seqs.SubsetSize(since + Ended(some) - {run}, since + Ended(moves) - {run});
      RememberedFor(s, some, run, since);
      ActiveHasNotEnded(s, some);
      if IsEnd(last) {
        var id := EndedRun(last.event).value;
        var known := since + Ended(some);
        assert since + Ended(moves) == known + {id};
        StillRemembered(After(s, some).ids, run, known, id);
      }
    }
  }

  ghost predicate IsExit(m: Move, run: string) {
    && m.Event? && m.event.runId == Some(run) && run != ""
    && (m.event.kind == "process.exited" || m.event.kind == "process.wait_failed")
  }

  /** Exit first, start reply later: with fewer than 200 other runs ended and no workspace adopted in between, the ended
      run does not become active. */
  lemma ExitThenStart(s: State, exit: Move, between: seq<Move>, run: string, mode: string)
    requires Inv(s) && run !in s.ids && IsExit(exit, run)
    requires |Ended(between) - {run}| < MAX_REMEMBERED_RUNS && Adopt !in between
    ensures Next(After(Next(s, exit), between), Start(run, mode)).active == None
  {
    ExitIsLast(s, exit, run);
    RememberedFor(Next(s, exit), between, run, {});
  }

  /** Just after its exit a run that was not known is the newest of those remembered. */
  lemma ExitIsLast(s: State, exit: Move, run: string)
    requires Inv(s) && run !in s.ids && IsExit(exit, run)
    ensures Inv(Next(s, exit)) && run in Next(s, exit).ids && Later(Next(s, exit).ids, run) == []
  {
    RememberedIsMemory(s.ids, run);
    var ids := Remembered(s.ids, run);
    var k := LaterIs(ids, run);
    assert ids[|ids| - 1] == run;
  }

  /** A run is shown as stopping only when that was asked of it. */
  lemma {:induction false} StoppingWasAsked(s: State, moves: seq<Move>)
    requires s.active.Some? ==> !s.active.value.stopping
    ensures var active := After(s, moves).active;
      active.Some? && active.value.stopping ==> Stop(active.value.id, true) in moves
  {
    if moves != [] {
      StoppingWasAsked(s, moves[..|moves| - 1]);
      Seqs.LastApart(moves);
    }
  }

  ghost predicate IsStartOf(m: Move, run: string) {
    m.Start? && m.id == run
  }

  /** Start reply first: the exit ends its activity; and a run that is not active stays so until a start reply for
      it. */
  lemma {:induction false} StartThenExit(s: State, exit: Move, after: seq<Move>, run: string)
    requires IsExit(exit, run) && forall i :: 0 <= i < |after| ==> !IsStartOf(after[i], run)
    ensures After(Next(s, exit), after).active != None ==> After(Next(s, exit), after).active.value.id != run
  {
    if after != [] { StartThenExit(s, exit, after[..|after| - 1], run); }
  }

  /** After its exit and with one start reply at any time, a run ends up inactive, if fewer than 200 others ended and no
      workspace was adopted between the exit and a later start reply. */
  lemma NotActiveInTheEnd(s: State, exit: Move, between: seq<Move>, run: string, mode: string, rest: seq<Move>)
    requires Inv(s) && run !in s.ids && IsExit(exit, run)
    requires |Ended(between) - {run}| < MAX_REMEMBERED_RUNS && Adopt !in between
    requires forall i :: 0 <= i < |rest| ==> !IsStartOf(rest[i], run)
    ensures var end := After(Next(After(Next(s, exit), between), Start(run, mode)), rest);
      end.active.Some? ==> end.active.value.id != run
  {
    ExitThenStart(s, exit, between, run, mode);
    StaysInactive(Next(After(Next(s, exit), between), Start(run, mode)), rest, run);
  }

  lemma {:induction false} StaysInactive(s: State, moves: seq<Move>, run: string)
    requires s.active.Some? ==> s.active.value.id != run
    requires forall i :: 0 <= i < |moves| ==> !IsStartOf(moves[i], run)
    ensures After(s, moves).active.Some? ==> After(s, moves).active.value.id != run
  {
    if moves != [] { StaysInactive(s, moves[..|moves| - 1], run); }
  }

  // ---------- when the memory of a run is lost ----------

  /** How many runs have been added to the memory since `run` was: a run that is still known is not added again, and
      adopting a workspace counts like all 200. */
  ghost function Age(s: State, moves: seq<Move>, run: string): nat {
    if moves == [] then |Later(s.ids, run)|
    else
      var some, last := moves[..|moves| - 1], moves[|moves| - 1];
      if last == Adopt then MAX_REMEMBERED_RUNS
      else if !IsEnd(last) || EndedRun(last.event).value in After(s, some).ids then Age(s, some, run)
      else if IsExit(last, run) then 0
      else Age(s, some, run) + 1
  }

  /** A run is remembered exactly while fewer than 200 others have been added after it. */
  lemma {:induction false} RememberedByAge(s: State, moves: seq<Move>, run: string)
    requires Inv(s) && run in s.ids
    ensures run in After(s, moves).ids <==> Age(s, moves, run) < MAX_REMEMBERED_RUNS
    ensures run in After(s, moves).ids ==> |Later(After(s, moves).ids, run)| == Age(s, moves, run)
  {
    if moves == [] {
      var k := LaterIs(s.ids, run);
    } else {
      var some, last := moves[..|moves| - 1], moves[|moves| - 1];
      RememberedByAge(s, some, run);
      ActiveHasNotEnded(s, some);
      if IsEnd(last) { AgeStep(After(s, some), last, run, Age(s, some, run)); }
    }
  }

  lemma AgeStep(s: State, last: Move, run: string, age: nat)
    requires Inv(s) && IsEnd(last)
    requires run in s.ids <==> age < MAX_REMEMBERED_RUNS
    requires run in s.ids ==> |Later(s.ids, run)| == age
    ensures var (ids, id) := (Next(s, last).ids, EndedRun(last.event).value);
      if id in s.ids then ids == s.ids
      else if id == run then run in ids && Later(ids, run) == []
      else
        && (run in ids <==> age + 1 < MAX_REMEMBERED_RUNS)
        && (run in ids ==> |Later(ids, run)| == age + 1)
  {
    var id := EndedRun(last.event).value;
    if id !in s.ids {
      RememberedIsMemory(s.ids, id);
      if id == run {
        ExitIsLast(s, last, run);
      } else if run in s.ids {
        LaterOneMore(s.ids, run, id);
      }
    }
  }

  /** The race is lost exactly when the memory is: whatever happens in between, a start reply after the exit makes the
      ended run active if and only if 200 runs have been added to the memory since, or a workspace was adopted. */
  lemma LateStartIsActive(s: State, exit: Move, between: seq<Move>, run: string, mode: string)
    requires Inv(s) && run !in s.ids && IsExit(exit, run)
    ensures Next(After(Next(s, exit), between), Start(run, mode)).active ==
      if Age(Next(s, exit), between, run) >= MAX_REMEMBERED_RUNS then Some(ActiveRun(run, mode, false)) else None
    ensures Age(Next(s, exit), [], run) == 0
  {
    ExitIsLast(s, exit, run);
    RememberedByAge(Next(s, exit), between, run);
  }

  // ---------- when only new runs end ----------

  /** The run itself does not end again, and no run ends again that was known when it ended. */
  ghost predicate AllNew(ids: seq<string>, run: string, moves: seq<Move>) {
    run !in Ended(moves) && forall x :: x in Ended(moves) ==> x !in ids
  }

  /** A run that does not end again is not remembered after a workspace was adopted. */
  lemma {:induction false} AdoptingForgets(s: State, moves: seq<Move>, run: string)
    requires Inv(s) && run !in Ended(moves) && Adopt in moves
    ensures run !in After(s, moves).ids
  {
    var some, last := moves[..|moves| - 1], moves[|moves| - 1];
    if last != Adopt {
      assert moves == some + [last];
      AdoptingForgets(s, some, run);
      ActiveHasNotEnded(s, some);
      if IsEnd(last) { RememberedIsMemory(After(s, some).ids, EndedRun(last.event).value); }
    }
  }

  /** Everything that has ended since is remembered after the run, or the run is forgotten and only later ones
      remain. */
  ghost predicate Window(ids: seq<string>, run: string, since: set<string>) {
    if run in ids then forall x :: x in Later(ids, run) <==> x in since
    else |since| >= MAX_REMEMBERED_RUNS && forall x :: x in ids ==> x in since
  }

  lemma ElementsAppended(q: seq<string>, s: set<string>, id: string)
    requires forall x :: x in q <==> x in s
    ensures forall x :: x in q + [id] <==> x in s + {id}
  {
  }

  lemma {:induction false} LaterDistinct(ids: seq<string>, run: string, id: string)
    requires InsertionOrder.Distinct(ids) && run in ids && id !in ids
    ensures InsertionOrder.Distinct(Later(ids, run) + [id])
  {
    var k := LaterIs(ids, run);
  }

  /** A run that was not remembered ends. */
  lemma WindowGrows(ids: seq<string>, run: string, since: set<string>, id: string)
    requires IsMemory(ids) && Window(ids, run, since) && run in ids && run !in since
    requires id != "" && id != run && id !in ids
    ensures Window(Remembered(ids, id), run, since + {id})
  {
    var later := Later(ids, run) + [id];
    LaterOneMore(ids, run, id);
    ElementsAppended(Later(ids, run), since, id);
    LaterDistinct(ids, run, id);
    DistinctCount(later, since + {id});
  }

  lemma WindowMoves(ids: seq<string>, run: string, since: set<string>, id: string)
    requires IsMemory(ids) && Window(ids, run, since) && id != "" && id != run && run !in since
    requires id in since || id !in ids
    ensures Window(Remembered(ids, id), run, since + {id})
  {
    if run !in ids {
      RememberedIsMemory(ids, id);
      Seqs.SubsetSize(since, since + {id});
    } else if id !in ids {
      WindowGrows(ids, run, since, id);
    } else {
      assert since + {id} == since;
    }
  }

  lemma {:induction false} WindowAfter(s: State, moves: seq<Move>, run: string)
    requires Inv(s) && AllNew(s.ids, run, moves) && run in s.ids && Later(s.ids, run) == [] && Adopt !in moves
    ensures Window(After(s, moves).ids, run, Ended(moves))
    ensures forall x :: x in After(s, moves).ids ==> x in s.ids || x in Ended(moves)
  {
    if moves != [] {
      var some, last := moves[..|moves| - 1], moves[|moves| - 1];
      WindowAfter(s, some, run);
      ActiveHasNotEnded(s, some);
      WindowStep(After(s, some), last, run, Ended(some), s.ids);
    }
  }

  lemma WindowStep(s: State, last: Move, run: string, since: set<string>, first: seq<string>)
    requires Inv(s) && Window(s.ids, run, since) && last != Adopt && run !in since
    requires forall x :: x in s.ids ==> x in first || x in since
    requires IsEnd(last) ==> EndedRun(last.event).value != run && EndedRun(last.event).value !in first
    ensures var now := since + if IsEnd(last) then {EndedRun(last.event).value} else {};
      && Window(Next(s, last).ids, run, now)
      && forall x :: x in Next(s, last).ids ==> x in first || x in now
  {
    if IsEnd(last) {
      var id := EndedRun(last.event).value;
      WindowMoves(s.ids, run, since, id);
      RememberedIsMemory(s.ids, id);
    } else {
      assert since + {} == since;
    }
  }

  /** At the limit: when the runs that end in between are new ones, a start reply after the exit makes the ended run
      active if and only if at least 200 others ended in between, or a workspace was adopted. */
  lemma LateStartAfterNewRuns(s: State, exit: Move, between: seq<Move>, run: string, mode: string)
    requires Inv(s) && run !in s.ids && IsExit(exit, run) && AllNew(Remembered(s.ids, run), run, between)
    ensures Next(After(Next(s, exit), between), Start(run, mode)).active ==
      if Adopt in between || |Ended(between)| >= MAX_REMEMBERED_RUNS then Some(ActiveRun(run, mode, false)) else None
  {
    var first := Next(s, exit);
    ExitIsLast(s, exit, run);
    if Adopt in between {
      AdoptingForgets(first, between, run);
    } else {
      WindowAfter(first, between, run);
      ActiveHasNotEnded(first, between);
      WindowSize(After(first, between).ids, run, Ended(between));
    }
  }

  lemma WindowSize(ids: seq<string>, run: string, since: set<string>)
    requires IsMemory(ids) && Window(ids, run, since)
    ensures run in ids <==> |since| < MAX_REMEMBERED_RUNS
  {
    if run in ids {
      var k := LaterIs(ids, run);
      DistinctCount(Later(ids, run), since);
    }
  }
}
