/** One kind of numbered request with its loading flag: what the flow requests and the search requests of
    app/useWorkspaceGraphs.ts have in common. */
module RequestLine {

  /** The workspace generation and the number that a request was started under. */
  datatype Stamp = Stamp(generation: nat, request: nat)

  /** The current generation, the last number given out, the generation it was given out in, the loading flag, and the
      requests on their way by ticket. */
  datatype Line = Line(generation: nat, number: nat, started: nat, loading: bool, waiting: map<nat, Stamp>)

  /** What a move of the workspace does to one kind of request. */
  datatype Step = Stay | Leave | Drop | Send(ticket: nat) | Answer(ticket: nat)

  function Stepped(l: Line, s: Step): Line {
    match s
    case Stay => l
    case Leave => l.(generation := l.generation + 1)
    case Drop => l.(number := l.number + 1, started := l.generation, loading := false)
    case Send(t) => l.(number := l.number + 1, started := l.generation, loading := true,
                       waiting := l.waiting[t := Stamp(l.generation, l.number + 1)])
    case Answer(t) =>
      if t !in l.waiting then l
      else l.(loading := l.loading && l.waiting[t] != Stamp(l.generation, l.number), waiting := l.waiting - {t})
  }

  ghost predicate IsLast(l: Line, t: nat) {
    t in l.waiting && l.waiting[t].request == l.number
  }

  /** The reply to the last request is still to come. */
  ghost predicate Awaited(l: Line) {
    exists t :: IsLast(l, t)
  }

  /** Loading is shown although no reply will end it. */
  ghost predicate Stranded(l: Line) {
    l.loading && !Awaited(l)
  }

  ghost predicate StampFits(l: Line, t: nat)
    requires t in l.waiting
  {
    && l.waiting[t].request <= l.number && l.waiting[t].generation <= l.generation
    && (l.waiting[t].request == l.number ==> l.waiting[t].generation == l.started)
  }

  ghost predicate Distinct(l: Line) {
    forall t, u :: t in l.waiting && u in l.waiting && t != u ==> l.waiting[t].request != l.waiting[u].request
  }

  /** While a reply is awaited loading is shown; without a switch since the last request it is shown only then. */
  ghost predicate Fits(l: Line) {
    && (forall t :: t in l.waiting ==> StampFits(l, t))
    && Distinct(l)
    && l.started <= l.generation
    && (Awaited(l) ==> l.loading)
    && (l.started == l.generation && l.loading ==> Awaited(l))
  }

  lemma StepKeeps(l: Line, s: Step)
    requires Fits(l) && (s.Send? ==> s.ticket !in l.waiting)
    ensures Fits(Stepped(l, s))
  {
    match s
    case Stay =>
    case Leave => LeaveKeeps(l);
    case Drop => DropKeeps(l);
    case Send(t) => SendKeeps(l, t);
    case Answer(t) => if t in l.waiting { AnswerKeeps(l, t); }
  }

  lemma LeaveKeeps(l: Line)
    requires Fits(l)
    ensures Fits(Stepped(l, Leave)) && (Awaited(Stepped(l, Leave)) <==> Awaited(l))
  {
    var after := Stepped(l, Leave);
    forall t | t in after.waiting ensures StampFits(after, t) { assert StampFits(l, t); }
    assert forall t :: IsLast(after, t) <==> IsLast(l, t);
  }

  lemma DropKeeps(l: Line)
    requires Fits(l)
    ensures Fits(Stepped(l, Drop)) && !Awaited(Stepped(l, Drop))
  {
    forall t | t in l.waiting ensures l.waiting[t].request <= l.number { assert StampFits(l, t); }
    forall t | t in l.waiting ensures StampFits(Stepped(l, Drop), t) { assert StampFits(l, t); }
  }

  lemma SendKeeps(l: Line, t: nat)
    requires Fits(l) && t !in l.waiting
    ensures Fits(Stepped(l, Send(t))) && Awaited(Stepped(l, Send(t)))
  {
    var after := Stepped(l, Send(t));
    assert IsLast(after, t);
    forall u | u in l.waiting
      ensures l.waiting[u].request <= l.number && StampFits(after, u)
    {
      assert StampFits(l, u);
    }
  }

  /** Only the last request is awaited, so nothing is awaited once its reply has come. */
  lemma AnswerKeeps(l: Line, t: nat)
    requires Fits(l) && t in l.waiting
    ensures Fits(Stepped(l, Answer(t)))
    ensures Awaited(Stepped(l, Answer(t))) <==> Awaited(l) && !IsLast(l, t)
  {
    var after := Stepped(l, Answer(t));
    forall u | u in after.waiting ensures StampFits(after, u) { assert StampFits(l, u); }
    assert StampFits(l, t);
    if Awaited(l) && !IsLast(l, t) {
      var u :| IsLast(l, u);
      assert IsLast(after, u);
    }
    if Awaited(after) {
      var u :| IsLast(after, u);
      assert IsLast(l, u);
    }
  }

  /** The reply to the last request leaves loading shown if and only if the workspace was left since it was started. */
  lemma LastAnswer(l: Line, t: nat)
    requires Fits(l) && IsLast(l, t)
    ensures Stepped(l, Answer(t)).loading <==> l.started != l.generation
    ensures Stranded(Stepped(l, Answer(t))) <==> l.started != l.generation
  {
    assert StampFits(l, t) && Awaited(l);
    AnswerKeeps(l, t);
  }

  /** Loading that no reply will end stays until a new request of the kind or new graphs, and no longer. */
  lemma StrandedStep(l: Line, s: Step)
    requires Fits(l) && Stranded(l) && (s.Send? ==> s.ticket !in l.waiting)
    ensures Stranded(Stepped(l, s)) <==> !s.Send? && !s.Drop?
  {
    match s
    case Stay =>
    case Leave => LeaveKeeps(l);
    case Drop => DropKeeps(l);
    case Send(t) => SendKeeps(l, t);
    case Answer(t) =>
      if t in l.waiting {
        AnswerKeeps(l, t);
        assert !IsLast(l, t);
      }
  }
}
