/**
 How sessions and runs of the session machine end: Close, and the cancellation of a session's context
 (internal/controlplane/client.go, Close, run, connectOnce and recvLoop).
 */
module SessionStops {
  import opened Session
  import opened SessionAdvert
  import opened SessionRounds
  import opened SessionTasks
  import opened Wrappers

  // ---------------------------------------------------------------- Close

  lemma {:induction false} CancelledIffClosed(p: Params, caps: Caps, ls: seq<Label>)
    ensures Run(p, Initial(caps), ls).ctxDone <==> CloseClient in ls
    ensures Run(p, Initial(caps), ls).closed <==> CloseClient in ls
  {
    if ls == [] {
    } else {
      CancelledIffClosed(p, caps, ls[..|ls| - 1]);
      CancelStep(p, Run(p, Initial(caps), ls[..|ls| - 1]), ls[|ls| - 1]);
      assert ls == ls[..|ls| - 1] + [ls[|ls| - 1]];
    }
  }

  lemma CancelStep(p: Params, s: Agent, l: Label)
    requires s.ctxDone == s.closed
    ensures Do(p, s, l).ctxDone == Do(p, s, l).closed == (s.closed || l == CloseClient)
  {
  }

  // Attempts to connect that have been made or can no longer be called off, and acknowledgements likewise.
  function Connects(s: Agent): nat {
    s.loop.connects + if s.pc.Connecting? then 1 else 0
  }

  function Acks(s: Agent): nat {
    s.loop.acks + if s.pc.Awaiting? then 1 else 0
  }

  // Nothing but the attempt to connect and the wait for an acknowledgement already begun.
  ghost predicate WindsDown(s: Agent, t: Agent) {
    && t.ctxDone && Connects(t) <= Connects(s) && Acks(t) <= Acks(s)
    && t.loop.waits == s.loop.waits && t.work.sent == s.work.sent
    && (forall st :: Closed(s, st) ==> Closed(t, st))
  }

  lemma WindsDownStep(p: Params, s: Agent, l: Label)
    requires s.ctxDone
    ensures WindsDown(s, Do(p, s, l))
  {
    if IsTaskLabel(l) {
      TaskLabelDoes(p, s, l);
      SendingStep(p, s, l);
    }
  }

  lemma {:induction false} RunWindsDown(p: Params, s: Agent, ls: seq<Label>)
    requires s.ctxDone
    ensures WindsDown(s, Run(p, s, ls))
  {
    if ls == [] {
    } else {
      RunWindsDown(p, s, ls[..|ls| - 1]);
      WindsDownStep(p, Run(p, s, ls[..|ls| - 1]), ls[|ls| - 1]);
    }
  }

  // In every run, whatever follows the first Close: no new attempt to connect or to register, no wait, nothing sent,
  // and the stream that was live is half-closed or about to be.
  lemma CloseWindsDown(p: Params, caps: Caps, ls: seq<Label>, more: seq<Label>)
    requires CloseClient !in ls
    ensures var s := Run(p, Initial(caps), ls);
            var t := Run(p, Initial(caps), ls + [CloseClient] + more);
            && t.ctxDone && Connects(t) <= Connects(s) && Acks(t) <= Acks(s)
            && t.loop.waits == s.loop.waits && t.work.sent == s.work.sent
            && (s.ad.stream.Some? ==> Closed(t, s.ad.stream.value))
  {
    var s := Run(p, Initial(caps), ls);
    CancelledIffClosed(p, caps, ls);
    RunOneMore(p, Initial(caps), ls, CloseClient);
    RunFrom(p, Initial(caps), ls + [CloseClient], more);
    RunWindsDown(p, Do(p, s, CloseClient), more);
    if s.ad.stream.Some? { assert Closed(Do(p, s, CloseClient), s.ad.stream.value); }
  }

  // ---------------------------------------------------------------- sessions

  // The loop is on the stream, with its context not yet cancelled.
  predicate Serving(pc: Pc, st: StreamId) {
    StreamOf(pc) == Some(st) && Live(pc) && !pc.Clearing?
  }

  // The sessions whose context is cancelled are those once live that the loop has left.
  ghost predicate SessionsEnd(s: Agent) {
    forall st :: st in s.work.ended <==> st in s.ad.setAt && !Serving(s.pc, st)
  }

  lemma CancelSessionEnds(p: Params, s: Agent)
    requires AdvertisesLatest(s) && SessionsEnd(s)
    ensures SessionsEnd(Do(p, s, CancelSession))
  {
  }

  lemma PublishSessionEnds(p: Params, s: Agent)
    requires AdvertisesLatest(s) && SessionsEnd(s)
    ensures SessionsEnd(Do(p, s, PublishStream))
  {
  }

  lemma OtherStepsKeepSessions(p: Params, s: Agent, l: Label)
    requires l != CancelSession && l != PublishStream
    ensures Do(p, s, l).work.ended == s.work.ended && Do(p, s, l).ad.setAt == s.ad.setAt
  {
    if IsTaskLabel(l) {
      TaskLabelDoes(p, s, l);
      AdmittedTaskStep(s, l);
    }
  }

  lemma OtherStepsServe(p: Params, s: Agent, l: Label, st: StreamId)
    requires l != CancelSession && l != PublishStream && AdvertisesLatest(s) && st in s.ad.setAt
    ensures Serving(Do(p, s, l).pc, st) <==> Serving(s.pc, st)
  {
    if !ChangesAdvert(l) {
      OtherStepsKeepStream(p, s, l);
      OtherStepsClear(p, s, l);
    }
  }

  lemma OtherStepsClear(p: Params, s: Agent, l: Label)
    requires l != CancelSession
    ensures Do(p, s, l).pc.Clearing? ==> Do(p, s, l).pc == s.pc
    ensures s.pc.Clearing? ==> Do(p, s, l).pc.Clearing? || Do(p, s, l).pc.RoundOver?
  {
  }

  lemma SessionsEndStep(p: Params, s: Agent, l: Label)
    requires AdvertisesLatest(s) && SessionsEnd(s)
    ensures SessionsEnd(Do(p, s, l))
  {
    if l == CancelSession {
      CancelSessionEnds(p, s);
    } else if l == PublishStream {
      PublishSessionEnds(p, s);
    } else {
      OtherStepsKeepSessions(p, s, l);
      forall st | st in s.ad.setAt
        ensures Serving(Do(p, s, l).pc, st) <==> Serving(s.pc, st)
      {
        OtherStepsServe(p, s, l, st);
      }
    }
  }

  lemma {:induction false} SessionsAlwaysEnd(p: Params, caps: Caps, ls: seq<Label>)
    ensures SessionsEnd(Run(p, Initial(caps), ls))
  {
    if ls == [] {
    } else {
      AlwaysAdvertisesLatest(p, caps, ls[..|ls| - 1]);
      SessionsAlwaysEnd(p, caps, ls[..|ls| - 1]);
      SessionsEndStep(p, Run(p, Initial(caps), ls[..|ls| - 1]), ls[|ls| - 1]);
    }
  }

  // ---------------------------------------------------------------- no deadlock

  // Steps left to a goroutine, and to the loop until it is at its top or has halted.
  function TaskRank(t: Task): nat {
    match t.phase
    case Executing => 4
    case Replying(_) => 3
    case Releasing => 2
    case Finishing => 1
    case Gone => 0
  }

  function TaskRanks(ts: seq<Task>): nat {
    if ts == [] then 0 else TaskRank(ts[0]) + TaskRanks(ts[1..])
  }

  function LoopRank(pc: Pc): nat {
    match pc
    case Halted => 0
    case LoopTop => 0
    case Backing => 1
    case RoundOver(_, _) => 2
    case Connecting | Sending(_) | Awaiting(_) | Clearing(_, _) => 3
    case Registering(_) | Leaving(_, _) => 4
    case Receiving(_) | Graceful(_) => 5
    case Starting(_) => 6
    case Effective(_, _) => 7
    case Launching(_, _) => 10
    case Admitting(_, _) => 11
  }

  function Rank(s: Agent): nat {
    LoopRank(s.pc) + TaskRanks(s.work.tasks) + |s.ad.closing|
  }

  lemma {:induction false} RankUpdate(ts: seq<Task>, i: nat, t: Task)
    requires i < |ts|
    ensures TaskRanks(ts[i := t]) + TaskRank(ts[i]) == TaskRanks(ts) + TaskRank(t)
  {
    if i == 0 {
      assert ts[i := t][1..] == ts[1..];
    } else {
      RankUpdate(ts[1..], i - 1, t);
      assert ts[i := t][1..] == ts[1..][i - 1 := t];
    }
  }

  lemma {:induction false} RankAppend(ts: seq<Task>, t: Task)
    ensures TaskRanks(ts + [t]) == TaskRanks(ts) + TaskRank(t)
  {
    if ts == [] {
      assert ts + [t] == [t];
    } else {
      RankAppend(ts[1..], t);
      assert (ts + [t])[1..] == ts[1..] + [t];
    }
  }

  lemma {:induction false} TaskIsCounted(ts: seq<Task>, i: nat)
    requires i < |ts| && !ts[i].phase.Gone?
    ensures Alive(ts) > 0 && (HoldsToken(ts[i]) ==> Holding(ts) > 0)
  {
    if i == 0 {
    } else {
      TaskIsCounted(ts[1..], i - 1);
    }
  }

  // Nothing permanent has happened to the run.
  predicate GoesOn(s: Agent) {
    !s.ctxDone && !s.pc.Halted? && !HasPermanent(s.pc)
  }

  // Nearer to having nothing left to do, with no new call of Close and no new rejection.
  ghost predicate Progresses(p: Params, s: Agent, l: Label) {
    Nearer(s, Do(p, s, l))
  }

  ghost predicate Nearer(s: Agent, t: Agent) {
    Rank(t) < Rank(s) && t.ctxDone == s.ctxDone && t.loop.connects >= s.loop.connects && (GoesOn(s) ==> GoesOn(t))
  }

  function NextOf(phase: Phase, i: nat): Label {
    match phase
    case Executing => TaskDone(i, true)
    case Replying(_) => TaskReply(i, true)
    case Releasing => TaskRelease(i)
    case _ => TaskExit(i)
  }

  lemma TaskMovesOn(s: Agent, i: nat)
    requires i < |s.work.tasks| && FromCommand(s.work.tasks[i], s.work.received) && !s.work.tasks[i].phase.Gone?
    requires s.work.inFlight > 0 && (HoldsToken(s.work.tasks[i]) ==> s.work.sem > 0)
    ensures var w := TaskStep(s, NextOf(s.work.tasks[i].phase, i));
            exists t :: w.tasks == s.work.tasks[i := t] && TaskRank(t) < TaskRank(s.work.tasks[i])
  {
    var w := TaskStep(s, NextOf(s.work.tasks[i].phase, i));
    assert w.tasks == s.work.tasks[i := w.tasks[i]] && TaskRank(w.tasks[i]) < TaskRank(s.work.tasks[i]);
  }

  // A goroutine that has not returned can always go on.
  lemma TaskProgresses(p: Params, s: Agent, i: nat)
    requires TokensAccounted(p, s) && ResultsTraceable(s) && i < |s.work.tasks| && !s.work.tasks[i].phase.Gone?
    ensures Progresses(p, s, NextOf(s.work.tasks[i].phase, i))
  {
    var l := NextOf(s.work.tasks[i].phase, i);
    TaskIsCounted(s.work.tasks, i);
    TaskMovesOn(s, i);
    var t :| TaskStep(s, l).tasks == s.work.tasks[i := t] && TaskRank(t) < TaskRank(s.work.tasks[i]);
    RankUpdate(s.work.tasks, i, t);
    TaskLabelDoes(p, s, l);
    assert Nearer(s, s.(work := TaskStep(s, l)));
  }

  function NextAt(pc: Pc): Label {
    match pc
    case Connecting => Connect(false)
    case Registering(_) => BuildRegister
    case Sending(_) => SendRegister(false)
    case Awaiting(_) => ReceiveReply(ReplyFailed)
    case Effective(_, _) => ApplyEffective
    case Starting(_) => PublishStream
    case Receiving(_) => Receive(Eof)
    case Admitting(_, _) => Acquire
    case Launching(_, _) => Launch
    case Graceful(_) => GracefulReturn
    case Leaving(_, _) => CancelSession
    case Clearing(_, _) => ClearSession(false)
    case RoundOver(_, _) => EndRound(0)
    case _ => Wake
  }

  // So can the loop, when no goroutine is left.
  lemma LoopProgresses(p: Params, s: Agent)
    requires Valid(p) && TokensAccounted(p, s) && s.work.inFlight == 0 && !s.pc.Halted? && !s.pc.LoopTop?
    ensures Progresses(p, s, NextAt(s.pc))
  {
    if s.pc.Launching? {
      RankAppend(s.work.tasks, Task(s.pc.serial, s.pc.st, Executing));
    } else {
      if s.pc.Admitting? { NoneInFlightMeansNothingRuns(p, s); }
      LoopMovesOn(p, s);
      LoopGoesOn(p, s);
    }
  }

  lemma LoopMovesOn(p: Params, s: Agent)
    requires s.work.inFlight == 0 && !s.pc.Halted? && !s.pc.LoopTop? && !s.pc.Launching?
    requires s.pc.Admitting? ==> s.work.sem < p.maxConcurrent
    ensures var t := Do(p, s, NextAt(s.pc));
            LoopRank(t.pc) < LoopRank(s.pc) && t.work.tasks == s.work.tasks && t.ad.closing == s.ad.closing
  {
  }

  lemma LoopGoesOn(p: Params, s: Agent)
    ensures var t := Do(p, s, NextAt(s.pc));
            t.ctxDone == s.ctxDone && t.loop.connects >= s.loop.connects && (GoesOn(s) ==> GoesOn(t))
  {
  }

  // And whoever holds a stream to half-close.
  lemma HalfCloseProgresses(p: Params, s: Agent, st: StreamId)
    requires st in s.ad.closing
    ensures Progresses(p, s, HalfClose(st))
  {
    assert |s.ad.closing - {st}| == |s.ad.closing| - 1;
  }

  ghost predicate Accounted(p: Params, s: Agent) {
    TokensAccounted(p, s) && ResultsTraceable(s)
  }

  // No goroutine left, nothing left to half-close, and the loop at its top or halted.
  predicate AtRest(s: Agent) {
    s.work.inFlight == 0 && s.ad.closing == {} && (s.pc.LoopTop? || s.pc.Halted?)
  }

  lemma SomethingProgresses(p: Params, s: Agent)
    requires Valid(p) && Accounted(p, s) && !AtRest(s)
    ensures exists l :: Progresses(p, s, l)
  {
    if s.ad.closing != {} {
      var st :| st in s.ad.closing;
      HalfCloseProgresses(p, s, st);
    } else if s.work.inFlight == 0 {
      LoopProgresses(p, s);
    } else {
      SomeAlive(s.work.tasks);
      var i :| 0 <= i < |s.work.tasks| && !s.work.tasks[i].phase.Gone?;
      TaskProgresses(p, s, i);
    }
  }

  lemma AccountedStep(p: Params, s: Agent, l: Label)
    requires Accounted(p, s)
    ensures Accounted(p, Do(p, s, l))
  {
    TokensStep(p, s, l);
    ResultsStep(p, s, l);
  }

  lemma AlwaysAccounted(p: Params, caps: Caps, ls: seq<Label>)
    requires Valid(p)
    ensures Accounted(p, Run(p, Initial(caps), ls))
  {
    TokensAlwaysAccounted(p, caps, ls);
    ResultsAlwaysTraceable(p, caps, ls);
  }

  lemma RunFirst(p: Params, s: Agent, l: Label, more: seq<Label>)
    ensures Run(p, s, [l] + more) == Run(p, Do(p, s, l), more)
  {
    RunFrom(p, s, [l], more);
    RunOneMore(p, s, [], l);
    assert [] + [l] == [l];
  }

  ghost predicate Settles(p: Params, s: Agent, more: seq<Label>) {
    var t := Run(p, s, more);
    && AtRest(t) && Accounted(p, t)
    && t.ctxDone == s.ctxDone && t.loop.connects >= s.loop.connects && (GoesOn(s) ==> GoesOn(t))
  }

  lemma {:induction false} CanSettle(p: Params, s: Agent)
    requires Valid(p) && Accounted(p, s)
    ensures exists more :: Settles(p, s, more)
    decreases Rank(s)
  {
    if AtRest(s) {
      assert Settles(p, s, []);
    } else {
      SomethingProgresses(p, s);
      var l :| Progresses(p, s, l);
      AccountedStep(p, s, l);
      CanSettle(p, Do(p, s, l));
      var more :| Settles(p, Do(p, s, l), more);
      RunFirst(p, s, l, more);
      assert Settles(p, s, [l] + more);
    }
  }

  // The loop halted, every goroutine returned, no token held, every stream to be half-closed dealt with.
  ghost predicate Stopped(s: Agent) {
    s.pc.Halted? && NothingRuns(s) && s.ad.closing == {}
  }

  lemma RestStops(p: Params, s: Agent)
    requires AtRest(s) && Accounted(p, s) && s.ctxDone
    ensures Stopped(Do(p, s, Top))
  {
    NoneInFlightMeansNothingRuns(p, s);
  }

  // No deadlock: in every run in which Close has been called the agent can be brought to a stop.
  lemma CanAlwaysStop(p: Params, caps: Caps, ls: seq<Label>)
    requires Valid(p) && CloseClient in ls
    ensures exists more :: Stopped(Run(p, Initial(caps), ls + more))
  {
    AlwaysAccounted(p, caps, ls);
    CancelledIffClosed(p, caps, ls);
    var s := Run(p, Initial(caps), ls);
    CanSettle(p, s);
    var more :| Settles(p, s, more);
    RestStops(p, Run(p, s, more));
    RunOneMore(p, s, more, Top);
    RunFrom(p, Initial(caps), ls, more + [Top]);
  }

  function Connection(): seq<Label> {
    [] + [Top] + [Connect(true)] + [BuildRegister] + [SendRegister(true)] + [ReceiveReply(Registered(None))]
    + [ApplyEffective] + [PublishStream]
  }

  predicate Reconnected(s: Agent, t: Agent) {
    t.pc.Receiving? && s.loop.connects < t.loop.connects
  }

  lemma RestReconnects(p: Params, s: Agent)
    requires AtRest(s) && GoesOn(s)
    ensures Run(p, s, Connection()).pc.Receiving? && Run(p, s, Connection()).loop.connects == s.loop.connects + 1
  {
    var one := [] + [Top] + [Connect(true)] + [BuildRegister];
    var two := one + [SendRegister(true)] + [ReceiveReply(Registered(None))] + [ApplyEffective];
    RunThree(p, s, [], Top, Connect(true), BuildRegister);
    RunThree(p, s, one, SendRegister(true), ReceiveReply(Registered(None)), ApplyEffective);
    RunOneMore(p, s, two, PublishStream);
    assert Run(p, s, one).pc.Sending? && !Run(p, s, one).ctxDone && Run(p, s, one).loop.connects == s.loop.connects + 1;
    assert Run(p, s, two).pc.Starting? && Run(p, s, two).loop.connects == s.loop.connects + 1;
    assert Connection() == two + [PublishStream];
  }

  // Every other run that has not ended can have a session on a new stream, however the last one went.
  lemma CanAlwaysReconnect(p: Params, caps: Caps, ls: seq<Label>)
    requires Valid(p) && GoesOn(Run(p, Initial(caps), ls))
    ensures exists more :: Reconnected(Run(p, Initial(caps), ls), Run(p, Initial(caps), ls + more))
  {
    AlwaysAccounted(p, caps, ls);
    var s := Run(p, Initial(caps), ls);
    CanSettle(p, s);
    var more :| Settles(p, s, more);
    RestReconnects(p, Run(p, s, more));
    RunFrom(p, s, more, Connection());
    RunFrom(p, Initial(caps), ls, more + Connection());
    assert Reconnected(s, Run(p, Initial(caps), ls + (more + Connection())));
  }

  lemma {:induction false} SomeAlive(ts: seq<Task>)
    requires Alive(ts) > 0
    ensures exists i :: 0 <= i < |ts| && !ts[i].phase.Gone?
  {
    if ts[0].phase.Gone? {
      SomeAlive(ts[1..]);
      var i :| 0 <= i < |ts[1..]| && !ts[1..][i].phase.Gone?;
      assert !ts[i + 1].phase.Gone?;
    } else {
      assert !ts[0].phase.Gone?;
    }
  }
}
