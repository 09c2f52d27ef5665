/** Runtime events gathered for a while and shown together (app/useRuntimeSubscriptions.ts). */
module EventBatch {

  const MAX_RUNTIME_EVENTS: nat := 500

  /** The last events, up to the limit (`slice(-500)`). */
  function Last<E>(events: seq<E>): (r: seq<E>)
    ensures |r| <= MAX_RUNTIME_EVENTS
  {
    if |events| > MAX_RUNTIME_EVENTS then events[|events| - MAX_RUNTIME_EVENTS..] else events
  }

  lemma LastIs<E>(events: seq<E>, k: nat)
    requires k < |events|
    ensures |Last(events)| == if |events| < 500 then |events| else 500
    ensures k < 500 ==> Last(events)[|Last(events)| - 1 - k] == events[|events| - 1 - k]
  {
  }

  lemma FromTheEnd<E>(a: seq<E>, b: seq<E>)
    requires |b| >= MAX_RUNTIME_EVENTS
    ensures Last(a + b) == Last(b)
  {
  }

  lemma LastOfFirst<E>(a: seq<E>, b: seq<E>)
    ensures Last(Last(a) + b) == Last(a + b)
  {
    if |a| > MAX_RUNTIME_EVENTS {
      var earlier := a[..|a| - MAX_RUNTIME_EVENTS];
      assert a + b == earlier + (Last(a) + b);
      FromTheEnd(earlier, Last(a) + b);
    }
  }

  lemma LastOfSecond<E>(a: seq<E>, b: seq<E>)
    ensures Last(a + Last(b)) == Last(a + b)
  {
    if |b| > MAX_RUNTIME_EVENTS {
      FromTheEnd(a, Last(b));
      FromTheEnd(a, b);
    }
  }

  /** Trimming the pending events loses nothing of the last 500. */
  lemma OneMore<E>(shown: seq<E>, pending: seq<E>, received: seq<E>, event: E)
    requires Last(shown + pending) == Last(received)
    ensures Last(shown + Last(pending + [event])) == Last(received + [event])
  {
    LastOfSecond(shown, pending + [event]);
    assert shown + (pending + [event]) == (shown + pending) + [event];
    LastOfFirst(shown + pending, [event]);
    LastOfFirst(received, [event]);
  }

  class Batcher<E> {
    var runtimeEvents: seq<E>
    var pending: seq<E>
    var flushScheduled: bool
    /** Everything received so far, after what was shown at first. */
    ghost var received: seq<E>

    /** What is shown together with what is pending ends as everything received does, and while anything is pending a
        flush is on its way. */
    ghost predicate Valid()
      reads this
    {
      && |runtimeEvents| <= MAX_RUNTIME_EVENTS && |pending| <= MAX_RUNTIME_EVENTS
      && Last(runtimeEvents + pending) == Last(received)
      && (flushScheduled <==> pending != [])
    }

    constructor (shown: seq<E>)
      requires |shown| <= MAX_RUNTIME_EVENTS
      ensures Valid() && received == shown && runtimeEvents == shown
    {
      runtimeEvents, pending, flushScheduled, received := shown, [], false, shown;
      new;
      assert runtimeEvents + pending == received;
    }

    method Enqueue(event: E)
      requires Valid()
      modifies this
      ensures Valid() && received == old(received) + [event]
      ensures runtimeEvents == old(runtimeEvents) && flushScheduled
    {
      OneMore(runtimeEvents, pending, received, event);
      pending := pending + [event];
      if |pending| > MAX_RUNTIME_EVENTS {
        pending := pending[|pending| - MAX_RUNTIME_EVENTS..];
      }
      if !flushScheduled { flushScheduled := true; }
      received := received + [event];
    }

    /** After a flush exactly the last 500 of all received events are shown. */
    method Flush()
      requires Valid()
      modifies this
      ensures Valid() && received == old(received) && pending == []
      ensures runtimeEvents == Last(received)
    {
      flushScheduled := false;
      var events := pending;
      pending := [];
      assert events == [] ==> runtimeEvents + events == runtimeEvents;
      if events != [] {
        runtimeEvents := Last(runtimeEvents + events);
      }
      assert runtimeEvents + pending == runtimeEvents;
    }

    /** Another workspace is adopted: the flush is cancelled, and what was received is shown no more. */
    method AdoptWorkspace()
      requires Valid()
      modifies this
      ensures Valid() && received == [] && runtimeEvents == [] && !flushScheduled
    {
      flushScheduled := false;
      pending := [];
      runtimeEvents := [];
      received := [];
    }
  }

  // ---------- any schedule ----------

  datatype Move<E> = Receive(event: E) | Flushed | Adopt

  datatype Shown<E> = Shown(events: seq<E>, pending: seq<E>)

  function Next<E>(s: Shown<E>, m: Move<E>): Shown<E> {
    match m
    case Receive(e) => s.(pending := Last(s.pending + [e]))
    case Flushed => if s.pending == [] then s else Shown(Last(s.events + s.pending), [])
    case Adopt => Shown([], [])
  }

  ghost function After<E>(s: Shown<E>, moves: seq<Move<E>>): Shown<E> {
    if moves == [] then s else Next(After(s, moves[..|moves| - 1]), moves[|moves| - 1])
  }

  /** The events received since the last workspace was adopted. */
  ghost function Received<E>(moves: seq<Move<E>>): seq<E> {
    if moves == [] then []
    else
      var some := Received(moves[..|moves| - 1]);
      match moves[|moves| - 1]
      case Receive(e) => some + [e]
      case Flushed => some
      case Adopt => []
  }

  ghost predicate Agrees<E>(s: Shown<E>, received: seq<E>) {
    |s.events| <= MAX_RUNTIME_EVENTS && Last(s.events + s.pending) == Last(received)
  }

  lemma FlushShows<E>(s: Shown<E>, received: seq<E>)
    requires Agrees(s, received)
    ensures Next(s, Flushed) == Shown(Last(received), []) && Agrees(Next(s, Flushed), received)
  {
    assert s.events + [] == s.events;
    assert Last(received) + [] == Last(received);
  }

  /** For any schedule of events, flushes and adopted workspaces, a flush at the end shows the last 500 of everything
      received for the workspace. */
  lemma {:induction false} ShownAfter<E>(moves: seq<Move<E>>)
    ensures Agrees(After(Shown([], []), moves), Received(moves))
    ensures Next(After(Shown([], []), moves), Flushed) == Shown(Last(Received(moves)), [])
  {
    if moves == [] {
      assert Last<E>([] + []) == [];
    } else {
      var some, last := moves[..|moves| - 1], moves[|moves| - 1];
      var s := After(Shown([], []), some);
      ShownAfter(some);
      match last
      case Receive(e) => OneMore(s.events, s.pending, Received(some), e);
      case Flushed => FlushShows(s, Received(some));
      case Adopt => assert Last<E>([] + []) == [];
    }
    FlushShows(After(Shown([], []), moves), Received(moves));
  }
}
