/**
 Execution of commands in every run of the session machine: semaphore tokens, the wait group, and results
 (internal/controlplane/client.go, dispatchCapabilityExecution and executeCapability).
 */
module SessionTasks {
  import opened Session
  import opened Wrappers

  // ---------------------------------------------------------------- tokens and tasks

  predicate HoldsToken(t: Task) {
    t.phase.Executing? || t.phase.Replying? || t.phase.Releasing?
  }

  // Goroutines holding a token, and goroutines not yet returned.
  function Holding(ts: seq<Task>): nat {
    if ts == [] then 0 else (if HoldsToken(ts[0]) then 1 else 0) + Holding(ts[1..])
  }

  function Alive(ts: seq<Task>): nat {
    if ts == [] then 0 else (if ts[0].phase.Gone? then 0 else 1) + Alive(ts[1..])
  }

  ghost predicate TokensAccounted(p: Params, s: Agent) {
    && s.work.sem == Holding(s.work.tasks) + (if s.pc.Launching? then 1 else 0)
    && s.work.sem <= p.maxConcurrent
    && s.work.inFlight == Alive(s.work.tasks)
  }

  lemma {:induction false} CountUpdate(ts: seq<Task>, i: nat, t: Task)
    requires i < |ts|
    ensures Holding(ts[i := t]) + (if HoldsToken(ts[i]) then 1 else 0) == Holding(ts) + (if HoldsToken(t) then 1 else 0)
    ensures Alive(ts[i := t]) + (if ts[i].phase.Gone? then 0 else 1) == Alive(ts) + (if t.phase.Gone? then 0 else 1)
  {
    if i == 0 {
      assert ts[i := t][1..] == ts[1..];
    } else {
      CountUpdate(ts[1..], i - 1, t);
      assert ts[i := t][1..] == ts[1..][i - 1 := t];
    }
  }

  lemma {:induction false} CountAppend(ts: seq<Task>, t: Task)
    ensures Holding(ts + [t]) == Holding(ts) + (if HoldsToken(t) then 1 else 0)
    ensures Alive(ts + [t]) == Alive(ts) + (if t.phase.Gone? then 0 else 1)
  {
    if ts == [] {
      assert ts + [t] == [t];
    } else {
      CountAppend(ts[1..], t);
      assert (ts + [t])[1..] == ts[1..] + [t];
    }
  }

  predicate IsTaskLabel(l: Label) {
    l.TaskDone? || l.TaskReply? || l.TaskRelease? || l.TaskExit?
  }

  lemma OtherStepsKeepTasks(p: Params, s: Agent, l: Label)
    requires !l.Acquire? && !l.Launch? && !IsTaskLabel(l)
    ensures var t := Do(p, s, l);
            t.work.sem == s.work.sem && t.work.inFlight == s.work.inFlight && t.work.tasks == s.work.tasks
            && t.pc.Launching? == s.pc.Launching? && t.work.sent == s.work.sent
  {
  }

  // Whatever extra token the receive loop holds.
  predicate WorkCounted(w: Work, extra: nat) {
    w.sem == Holding(w.tasks) + extra && w.inFlight == Alive(w.tasks)
  }

  lemma TaskKeepsCounts(s: Agent, l: Label, extra: nat)
    requires IsTaskLabel(l) && WorkCounted(s.work, extra)
    ensures WorkCounted(TaskStep(s, l), extra) && TaskStep(s, l).sem <= s.work.sem
  {
    var w := TaskStep(s, l);
    if w != s.work { CountUpdate(s.work.tasks, l.i, w.tasks[l.i]); }
  }

  lemma TaskLabelDoes(p: Params, s: Agent, l: Label)
    requires IsTaskLabel(l)
    ensures Do(p, s, l) == s.(work := TaskStep(s, l))
  {
  }

  lemma TaskTokensStep(p: Params, s: Agent, l: Label)
    requires TokensAccounted(p, s) && IsTaskLabel(l)
    ensures TokensAccounted(p, Do(p, s, l))
  {
    TaskKeepsCounts(s, l, if s.pc.Launching? then 1 else 0);
    TaskLabelDoes(p, s, l);
  }

  lemma AcquireTokensStep(p: Params, s: Agent, l: Label)
    requires TokensAccounted(p, s) && l.Acquire?
    ensures TokensAccounted(p, Do(p, s, l))
  {
  }

  lemma LaunchTokensStep(p: Params, s: Agent, l: Label)
    requires TokensAccounted(p, s) && l.Launch?
    ensures TokensAccounted(p, Do(p, s, l))
  {
    if s.pc.Launching? { CountAppend(s.work.tasks, Task(s.pc.serial, s.pc.st, Executing)); }
  }

  lemma TokensStep(p: Params, s: Agent, l: Label)
    requires TokensAccounted(p, s)
    ensures TokensAccounted(p, Do(p, s, l))
  {
    if IsTaskLabel(l) {
      TaskTokensStep(p, s, l);
    } else if l.Launch? {
      LaunchTokensStep(p, s, l);
    } else if l.Acquire? {
      AcquireTokensStep(p, s, l);
    } else {
      OtherStepsKeepTasks(p, s, l);
    }
  }

  // In every run, across reconnects: tokens held count admitted tasks that have not finished, within the
  // limit, and the WaitGroup counts the goroutines that have not returned.
  lemma {:induction false} TokensAlwaysAccounted(p: Params, caps: Caps, ls: seq<Label>)
    requires Valid(p)
    ensures TokensAccounted(p, Run(p, Initial(caps), ls))
  {
    if ls == [] {
    } else {
      TokensAlwaysAccounted(p, caps, ls[..|ls| - 1]);
      TokensStep(p, Run(p, Initial(caps), ls[..|ls| - 1]), ls[|ls| - 1]);
    }
  }

  lemma {:induction false} NoneAliveMeansAllGone(ts: seq<Task>)
    requires Alive(ts) == 0
    ensures forall i :: 0 <= i < |ts| ==> ts[i].phase.Gone?
  {
    if ts == [] {
    } else {
      NoneAliveMeansAllGone(ts[1..]);
      forall i | 0 <= i < |ts|
        ensures ts[i].phase.Gone?
      {
        if i > 0 { assert ts[i] == ts[1..][i - 1]; }
      }
    }
  }

  // When a graceful Disconnect returns, no task of this or any earlier session is still running.
  lemma GracefulReturnMeansIdle(p: Params, caps: Caps, ls: seq<Label>)
    requires Valid(p)
    requires var s := Run(p, Initial(caps), ls); s.pc.Graceful? && Do(p, s, GracefulReturn) != s
    ensures forall i :: 0 <= i < |Run(p, Initial(caps), ls).work.tasks| ==>
              Run(p, Initial(caps), ls).work.tasks[i].phase.Gone?
    ensures Run(p, Initial(caps), ls).work.sem == 0
  {
    var s := Run(p, Initial(caps), ls);
    TokensAlwaysAccounted(p, caps, ls);
    NoneAliveMeansAllGone(s.work.tasks);
    GoneHoldNothing(s.work.tasks);
  }

  lemma {:induction false} GoneHoldNothing(ts: seq<Task>)
    requires forall i :: 0 <= i < |ts| ==> ts[i].phase.Gone?
    ensures Holding(ts) == 0
  {
    if ts == [] {
    } else {
      GoneHoldNothing(ts[1..]);
    }
  }

  // ---------------------------------------------------------------- Disconnect

  ghost predicate NothingRuns(s: Agent) {
    s.work.sem == 0 && forall i :: 0 <= i < |s.work.tasks| ==> s.work.tasks[i].phase.Gone?
  }

  lemma NoneInFlightMeansNothingRuns(p: Params, s: Agent)
    requires TokensAccounted(p, s) && !s.pc.Launching? && s.work.inFlight == 0
    ensures NothingRuns(s)
  {
    NoneAliveMeansAllGone(s.work.tasks);
    GoneHoldNothing(s.work.tasks);
  }

  // After a Disconnect the loop has either left the stream without an error, or is where the message put it,
  // with the same commands received and sessions ended.
  ghost predicate LeftOrWaiting(st: StreamId, first: Agent, t: Agent) {
    || t.pc == Leaving(st, None)
    || (t.pc == first.pc && t.work.received == first.work.received && t.work.ended == first.work.ended)
  }

  lemma WaitingStep(p: Params, st: StreamId, first: Agent, t: Agent, l: Label)
    requires first.pc == Graceful(st) && LeftOrWaiting(st, first, t) && !t.pc.Leaving?
    requires TokensAccounted(p, t)
    ensures LeftOrWaiting(st, first, Do(p, t, l))
    ensures Do(p, t, l).pc.Leaving? ==> NothingRuns(Do(p, t, l))
  {
    if l.GracefulReturn? && t.work.inFlight == 0 { NoneInFlightMeansNothingRuns(p, t); }
  }

  lemma GracefulStarts(p: Params, s: Agent, st: StreamId)
    requires s.pc == Receiving(st)
    ensures Do(p, s, Receive(Disconnect(true))) == s.(pc := Graceful(st))
  {
  }

  ghost predicate Waits(p: Params, st: StreamId, first: Agent, t: Agent) {
    TokensAccounted(p, t) && LeftOrWaiting(st, first, t) && (t.pc.Leaving? ==> NothingRuns(t))
  }

  lemma WaitsStep(p: Params, st: StreamId, first: Agent, s: Agent, l: Label)
    requires first.pc == Graceful(st) && Waits(p, st, first, s) && !s.pc.Leaving?
    ensures Waits(p, st, first, Do(p, s, l))
  {
    TokensStep(p, s, l);
    WaitingStep(p, st, first, s, l);
  }

  lemma {:induction false} WaitingUntil(p: Params, s: Agent, ls: seq<Label>, st: StreamId)
    requires s.pc == Graceful(st) && TokensAccounted(p, s)
    requires forall k :: 0 <= k < |ls| ==> !Run(p, s, ls[..k]).pc.Leaving?
    ensures Waits(p, st, s, Run(p, s, ls))
  {
    if ls == [] {
    } else {
      var init := ls[..|ls| - 1];
      forall k | 0 <= k < |init|
        ensures !Run(p, s, init[..k]).pc.Leaving?
      {
        assert init[..k] == ls[..k];
      }
      WaitingUntil(p, s, init, st);
      WaitsStep(p, st, s, Run(p, s, init), ls[|ls| - 1]);
    }
  }

  lemma CanLeave(p: Params, t: Agent, st: StreamId)
    requires t.pc == Graceful(st) && t.work.inFlight == 0
    ensures exists l :: Do(p, t, l).pc == Leaving(st, None)
  {
    assert Do(p, t, GracefulReturn).pc == Leaving(st, None);
  }

  // In every run, whatever follows a graceful Disconnect: when the loop first leaves the stream nothing runs any
  // more; until then it stays where the message put it, and it can leave as soon as no goroutine is in flight.
  lemma GracefulDisconnectWaits(p: Params, caps: Caps, ls: seq<Label>, more: seq<Label>, st: StreamId)
    requires Valid(p) && Run(p, Initial(caps), ls).pc == Receiving(st)
    requires var first := Do(p, Run(p, Initial(caps), ls), Receive(Disconnect(true)));
             forall k :: 0 <= k < |more| ==> !Run(p, first, more[..k]).pc.Leaving?
    ensures var first := Do(p, Run(p, Initial(caps), ls), Receive(Disconnect(true)));
            var t := Run(p, Initial(caps), ls + [Receive(Disconnect(true))] + more);
            && first.work == Run(p, Initial(caps), ls).work
            && LeftOrWaiting(st, first, t)
            && (t.pc.Leaving? ==> NothingRuns(t))
            && (!t.pc.Leaving? && t.work.inFlight == 0 ==> exists l :: Do(p, t, l).pc == Leaving(st, None))
  {
    var s := Run(p, Initial(caps), ls);
    TokensAlwaysAccounted(p, caps, ls);
    GracefulStarts(p, s, st);
    var first := s.(pc := Graceful(st));
    RunFrom(p, Initial(caps), ls + [Receive(Disconnect(true))], more);
    RunOneMore(p, Initial(caps), ls, Receive(Disconnect(true)));
    WaitingUntil(p, first, more, st);
    var t := Run(p, first, more);
    if !t.pc.Leaving? && t.work.inFlight == 0 { CanLeave(p, t, st); }
  }

  // Any other Disconnect leaves at once, whatever is still running.
  lemma OtherDisconnectLeavesAtOnce(p: Params, s: Agent, st: StreamId)
    requires s.pc == Receiving(st)
    ensures Do(p, s, Receive(Disconnect(false))) == s.(pc := Leaving(st, None))
  {
  }

  // The messages on which the receive loop returns at once; it goes on receiving after the others, except that a
  // command has to be admitted and a graceful Disconnect waited for.
  lemma LeavesIff(p: Params, s: Agent, msg: Message)
    requires s.pc.Receiving?
    ensures var pc := Do(p, s, Receive(msg)).pc;
            && (pc.Leaving? <==> msg in {Eof, Unsupported, Disconnect(false)} || msg.RecvFailed? || msg.Rejected?)
            && (pc.Leaving? ==> pc.st == s.pc.st && (pc.err == None <==> msg == Eof || msg.Disconnect?))
            && (pc == s.pc <==> msg in {RegisteredAgain, HeartbeatAck, ExecuteCapability(None)} || msg.UpdateConfig?)
  {
  }

  // ---------------------------------------------------------------- results

  predicate Replied(t: Task) {
    t.phase.Releasing? || t.phase.Finishing? || t.phase.Gone?
  }

  // A task runs a command that was received on its stream.
  predicate FromCommand(t: Task, received: seq<Received>) {
    && t.serial < |received|
    && received[t.serial].st == t.st
    && (t.phase.Replying? ==> Answers(t.phase.result, received[t.serial].cmd))
  }

  // A result went out on the stream of its task, and answers the command of that task.
  predicate FromTask(x: Sent, ts: seq<Task>, received: seq<Received>) {
    && x.task < |ts|
    && Replied(ts[x.task])
    && x.st == ts[x.task].st
    && ts[x.task].serial < |received|
    && Answers(x.result, received[ts[x.task].serial].cmd)
  }

  // No two tasks run the same command and no two results belong to the same task, so a command has at
  // most one result.
  ghost predicate ResultsTraceable(s: Agent) {
    && (forall i :: 0 <= i < |s.work.tasks| ==> FromCommand(s.work.tasks[i], s.work.received))
    && (forall i, j :: 0 <= i < j < |s.work.tasks| ==> s.work.tasks[i].serial < s.work.tasks[j].serial)
    && (s.pc.Admitting? || s.pc.Launching? ==>
          && s.pc.serial < |s.work.received| && s.work.received[s.pc.serial].st == s.pc.st
          && (forall i :: 0 <= i < |s.work.tasks| ==> s.work.tasks[i].serial < s.pc.serial))
    && (forall k :: 0 <= k < |s.work.sent| ==> FromTask(s.work.sent[k], s.work.tasks, s.work.received))
    && (forall j, k :: 0 <= j < k < |s.work.sent| ==> s.work.sent[j].task != s.work.sent[k].task)
  }

  lemma ReceivingKeepsResults(s: Agent, msg: Message)
    requires ResultsTraceable(s) && s.pc.Receiving?
    ensures ResultsTraceable(OnMessage(s, s.pc.st, msg))
  {
    var t := OnMessage(s, s.pc.st, msg);
    assert forall i :: 0 <= i < |s.work.tasks| ==> FromCommand(s.work.tasks[i], t.work.received);
    assert forall k :: 0 <= k < |s.work.sent| ==> FromTask(s.work.sent[k], s.work.tasks, t.work.received);
  }

  lemma LaunchKeepsResults(p: Params, s: Agent)
    requires ResultsTraceable(s) && s.pc.Launching?
    ensures ResultsTraceable(Do(p, s, Launch))
  {
    var t := Do(p, s, Launch);
    assert FromCommand(t.work.tasks[|s.work.tasks|], t.work.received);
    assert forall k :: 0 <= k < |s.work.sent| ==> FromTask(s.work.sent[k], t.work.tasks, t.work.received);
  }

  // A goroutine moving to another phase; `sent` grows by its own result or not at all.
  lemma PhaseKeepsResults(s: Agent, i: nat, phase: Phase, w: Work)
    requires ResultsTraceable(s) && i < |s.work.tasks|
    requires w.tasks == s.work.tasks[i := s.work.tasks[i].(phase := phase)] && w.received == s.work.received
    requires FromCommand(w.tasks[i], w.received)
    requires Replied(s.work.tasks[i]) ==> Replied(w.tasks[i])
    requires w.sent == s.work.sent
             || (|w.sent| == |s.work.sent| + 1 && w.sent[..|s.work.sent|] == s.work.sent && !Replied(s.work.tasks[i])
                 && w.sent[|s.work.sent|].task == i && FromTask(w.sent[|s.work.sent|], w.tasks, w.received))
    ensures ResultsTraceable(s.(work := w))
  {
    forall k | 0 <= k < |s.work.sent|
      ensures FromTask(s.work.sent[k], w.tasks, w.received) && w.sent[k] == s.work.sent[k]
    {
      assert w.sent[k] == w.sent[..|s.work.sent|][k];
      assert FromTask(s.work.sent[k], s.work.tasks, s.work.received);
    }
    forall j | 0 <= j < |w.tasks|
      ensures FromCommand(w.tasks[j], w.received) && w.tasks[j].serial == s.work.tasks[j].serial
    {
      assert FromCommand(s.work.tasks[j], w.received);
    }
  }

  lemma TaskStepKeepsResults(s: Agent, l: Label)
    requires ResultsTraceable(s)
    requires IsTaskLabel(l)
    ensures ResultsTraceable(s.(work := TaskStep(s, l)))
  {
    var w := TaskStep(s, l);
    if w != s.work {
      assert FromCommand(s.work.tasks[l.i], s.work.received);
      PhaseKeepsResults(s, l.i, w.tasks[l.i].phase, w);
    }
  }

  // Every other step leaves the commands and their tasks alone, and admits none but the one being admitted.
  lemma OtherStepsKeepCommands(p: Params, s: Agent, l: Label)
    requires !IsTaskLabel(l) && !(l.Receive? && s.pc.Receiving?) && !(l.Launch? && s.pc.Launching?)
    ensures var t := Do(p, s, l);
            && t.work.tasks == s.work.tasks && t.work.received == s.work.received && t.work.sent == s.work.sent
            && (t.pc.Admitting? || t.pc.Launching? ==>
                  (s.pc.Admitting? || s.pc.Launching?) && t.pc.serial == s.pc.serial && t.pc.st == s.pc.st)
  {
  }

  lemma ResultsStep(p: Params, s: Agent, l: Label)
    requires ResultsTraceable(s)
    ensures ResultsTraceable(Do(p, s, l))
  {
    if IsTaskLabel(l) {
      TaskStepKeepsResults(s, l);
    } else if l.Receive? && s.pc.Receiving? {
      ReceivingKeepsResults(s, l.msg);
    } else if l.Launch? && s.pc.Launching? {
      LaunchKeepsResults(p, s);
    } else {
      OtherStepsKeepCommands(p, s, l);
    }
  }

  lemma {:induction false} ResultsAlwaysTraceable(p: Params, caps: Caps, ls: seq<Label>)
    ensures ResultsTraceable(Run(p, Initial(caps), ls))
  {
    if ls == [] {
    } else {
      ResultsAlwaysTraceable(p, caps, ls[..|ls| - 1]);
      ResultsStep(p, Run(p, Initial(caps), ls[..|ls| - 1]), ls[|ls| - 1]);
    }
  }

  // In every run two results never belong to the same received command, and each goes out on the stream its
  // command came from, with the command's ids.
  lemma OneResultPerCommand(p: Params, caps: Caps, ls: seq<Label>, j: nat, k: nat)
    requires j < k < |Run(p, Initial(caps), ls).work.sent|
    ensures var w := Run(p, Initial(caps), ls).work;
            var a, b := w.sent[j], w.sent[k];
            && a.task < |w.tasks| && b.task < |w.tasks|
            && w.tasks[a.task].serial < |w.received| && w.tasks[b.task].serial < |w.received|
            && w.tasks[a.task].serial != w.tasks[b.task].serial
            && b.st == w.received[w.tasks[b.task].serial].st
            && Answers(b.result, w.received[w.tasks[b.task].serial].cmd)
  {
    ResultsAlwaysTraceable(p, caps, ls);
    var w := Run(p, Initial(caps), ls).work;
    assert FromTask(w.sent[j], w.tasks, w.received) && FromTask(w.sent[k], w.tasks, w.received);
    assert FromCommand(w.tasks[w.sent[k].task], w.received);
  }

  // ---------------------------------------------------------------- no command is lost, no result either

  // As long as the agent is not being closed, every command received but the one being admitted has its task.
  ghost predicate AllAdmitted(s: Agent) {
    var n := |s.work.tasks|;
    && (s.pc.Admitting? || s.pc.Launching? ==> s.pc.serial == n)
    && |s.work.received| == n + (if s.pc.Admitting? || s.pc.Launching? then 1 else 0)
    && forall i :: 0 <= i < n ==> s.work.tasks[i].serial == i
  }

  lemma AdmittedTaskStep(s: Agent, l: Label)
    requires IsTaskLabel(l)
    ensures var w := TaskStep(s, l);
            && w.received == s.work.received && w.ended == s.work.ended && |w.tasks| == |s.work.tasks|
            && forall i :: 0 <= i < |w.tasks| ==> w.tasks[i].(phase := Gone) == s.work.tasks[i].(phase := Gone)
  {
  }

  lemma AdmittedStep(p: Params, s: Agent, l: Label)
    requires s.ctxDone || AllAdmitted(s)
    ensures Do(p, s, l).ctxDone || AllAdmitted(Do(p, s, l))
  {
    if IsTaskLabel(l) {
      AdmittedTaskStep(s, l);
    } else if !(l.Receive? && s.pc.Receiving?) && !(l.Launch? && s.pc.Launching?) {
      OtherStepsKeepCommands(p, s, l);
    }
  }

  lemma {:induction false} AlwaysAdmitted(p: Params, caps: Caps, ls: seq<Label>)
    ensures Run(p, Initial(caps), ls).ctxDone || AllAdmitted(Run(p, Initial(caps), ls))
  {
    if ls == [] {
    } else {
      AlwaysAdmitted(p, caps, ls[..|ls| - 1]);
      AdmittedStep(p, Run(p, Initial(caps), ls[..|ls| - 1]), ls[|ls| - 1]);
    }
  }

  // Commands and tasks are never forgotten or changed, and an ended session stays ended.
  ghost predicate Extends(s: Agent, t: Agent) {
    && |s.work.received| <= |t.work.received| && s.work.ended <= t.work.ended && (s.ctxDone ==> t.ctxDone)
    && (forall i :: 0 <= i < |s.work.received| ==> t.work.received[i] == s.work.received[i])
  }

  lemma OtherStepsExtend(p: Params, s: Agent, l: Label)
    requires !IsTaskLabel(l)
    ensures Extends(s, Do(p, s, l))
  {
  }

  lemma ExtendsStep(p: Params, s: Agent, l: Label)
    ensures Extends(s, Do(p, s, l))
  {
    if IsTaskLabel(l) {
      TaskLabelDoes(p, s, l);
      AdmittedTaskStep(s, l);
    } else {
      OtherStepsExtend(p, s, l);
    }
  }

  lemma {:induction false} RunExtends(p: Params, s: Agent, ls: seq<Label>)
    ensures Extends(s, Run(p, s, ls))
  {
    if ls == [] {
    } else {
      RunExtends(p, s, ls[..|ls| - 1]);
      ExtendsStep(p, Run(p, s, ls[..|ls| - 1]), ls[|ls| - 1]);
    }
  }

  // In every run a command gets a task of its own, on the stream it came from, by the time the loop receives again,
  // unless the agent is being closed.
  lemma EveryCommandGetsATask(p: Params, caps: Caps, ls: seq<Label>, cmd: Command, more: seq<Label>)
    requires Run(p, Initial(caps), ls).pc.Receiving?
    requires var t := Run(p, Initial(caps), ls + [Receive(ExecuteCapability(Some(cmd)))] + more);
             !t.ctxDone && t.pc.Receiving?
    ensures var s := Run(p, Initial(caps), ls);
            var w := Run(p, Initial(caps), ls + [Receive(ExecuteCapability(Some(cmd)))] + more).work;
            var n := |s.work.tasks|;
            && n < |w.tasks| && w.tasks[n].st == s.pc.st
            && w.tasks[n].serial < |w.received| && w.received[w.tasks[n].serial] == Received(s.pc.st, cmd)
  {
    var s := Run(p, Initial(caps), ls);
    var l := Receive(ExecuteCapability(Some(cmd)));
    RunOneMore(p, Initial(caps), ls, l);
    RunFrom(p, Initial(caps), ls + [l], more);
    var first := Do(p, s, l);
    var t := Run(p, first, more);
    RunExtends(p, first, more);
    ExtendsStep(p, s, l);
    AlwaysAdmitted(p, caps, ls);
    AlwaysAdmitted(p, caps, ls + [l] + more);
    ResultsAlwaysTraceable(p, caps, ls + [l] + more);
    TaskOfCommand(s, first, t, cmd);
  }

  lemma TaskOfCommand(s: Agent, first: Agent, t: Agent, cmd: Command)
    requires s.pc.Receiving? && AllAdmitted(s) && Extends(first, t)
    requires first.work.received == s.work.received + [Received(s.pc.st, cmd)]
    requires t.pc.Receiving? && AllAdmitted(t) && ResultsTraceable(t)
    ensures var n := |s.work.tasks|;
            && n < |t.work.tasks| && t.work.tasks[n].st == s.pc.st
            && t.work.tasks[n].serial < |t.work.received|
            && t.work.received[t.work.tasks[n].serial] == Received(s.pc.st, cmd)
  {
    var n := |s.work.tasks|;
    assert first.work.received[n] == Received(s.pc.st, cmd) && t.work.received[n] == first.work.received[n];
    assert FromCommand(t.work.tasks[n], t.work.received);
  }

  // A goroutine that has executed its command holds the answer to it, with the outcome of the execution.
  lemma OutcomeIsReported(p: Params, caps: Caps, ls: seq<Label>, i: nat, success: bool)
    requires var w := Run(p, Initial(caps), ls).work; i < |w.tasks| && w.tasks[i].phase.Executing?
    ensures var w := Run(p, Initial(caps), ls).work;
            var t := Do(p, Run(p, Initial(caps), ls), TaskDone(i, success)).work.tasks[i];
            && w.tasks[i].serial < |w.received| && t.phase.Replying?
            && Answers(t.phase.result, w.received[w.tasks[i].serial].cmd) && t.phase.result.success == success
  {
    ResultsAlwaysTraceable(p, caps, ls);
    assert FromCommand(Run(p, Initial(caps), ls).work.tasks[i], Run(p, Initial(caps), ls).work.received);
  }

  // The session of this stream has neither ended nor is it being ended by Close.
  predicate Open(s: Agent, st: StreamId) {
    !s.ctxDone && st !in s.work.ended
  }

  predicate SentFor(w: Work, i: nat) {
    exists k :: 0 <= k < |w.sent| && w.sent[k].task == i
  }

  // A goroutine of an open session that has passed the point of replying has replied.
  ghost predicate AllReplied(s: Agent) {
    forall i :: 0 <= i < |s.work.tasks| && Replied(s.work.tasks[i]) && Open(s, s.work.tasks[i].st) ==>
      SentFor(s.work, i)
  }

  lemma SentForGrows(w: Work, v: Work, i: nat)
    requires |w.sent| <= |v.sent| && v.sent[..|w.sent|] == w.sent
    ensures SentFor(w, i) ==> SentFor(v, i)
  {
    if k :| 0 <= k < |w.sent| && w.sent[k].task == i {
      assert v.sent[k] == v.sent[..|w.sent|][k];
    }
  }

  lemma ReplyIsSent(s: Agent, i: nat)
    requires i < |s.work.tasks| && s.work.tasks[i].phase.Replying? && Open(s, s.work.tasks[i].st)
    ensures TaskStep(s, TaskReply(i, true)).sent ==
            s.work.sent + [Sent(s.work.tasks[i].st, i, s.work.tasks[i].phase.result)]
    ensures SentFor(TaskStep(s, TaskReply(i, true)), i)
  {
    var v := TaskStep(s, TaskReply(i, true));
    assert v.sent[|s.work.sent|].task == i;
  }

  lemma RepliedTaskStep(s: Agent, l: Label)
    requires AllReplied(s) && IsTaskLabel(l) && !(l.TaskReply? && !l.ok)
    ensures AllReplied(s.(work := TaskStep(s, l)))
  {
    var w, v := s.work, TaskStep(s, l);
    forall i | 0 <= i < |v.tasks| && Replied(v.tasks[i]) && Open(s, v.tasks[i].st)
      ensures SentFor(v, i)
    {
      SentForGrows(w, v, i);
      if l.TaskReply? && l.i == i && w.tasks[i].phase.Replying? {
        ReplyIsSent(s, i);
      } else {
        assert Replied(w.tasks[i]) && w.tasks[i].st == v.tasks[i].st;
      }
    }
  }

  lemma RepliedStep(p: Params, s: Agent, l: Label)
    requires AllReplied(s) && !(l.TaskReply? && !l.ok)
    ensures AllReplied(Do(p, s, l))
  {
    if IsTaskLabel(l) {
      RepliedTaskStep(s, l);
    } else {
      ExtendsStep(p, s, l);
      var t := Do(p, s, l);
      assert t.work.sent == s.work.sent;
      forall i | 0 <= i < |t.work.tasks| && Replied(t.work.tasks[i]) && Open(t, t.work.tasks[i].st)
        ensures SentFor(t.work, i)
      {
        assert i < |s.work.tasks| && t.work.tasks[i] == s.work.tasks[i];
        SentForGrows(s.work, t.work, i);
      }
    }
  }

  // In every run in which no reply fails to go out, no result of an open session is lost.
  lemma {:induction false} NoResultLost(p: Params, caps: Caps, ls: seq<Label>)
    requires forall k :: 0 <= k < |ls| ==> !(ls[k].TaskReply? && !ls[k].ok)
    ensures AllReplied(Run(p, Initial(caps), ls))
  {
    if ls == [] {
    } else {
      NoResultLost(p, caps, ls[..|ls| - 1]);
      RepliedStep(p, Run(p, Initial(caps), ls[..|ls| - 1]), ls[|ls| - 1]);
    }
  }

  // What is sent after s goes to sessions that were open in s.
  ghost predicate SentWhileOpen(s: Agent, t: Agent) {
    && |s.work.sent| <= |t.work.sent| && t.work.sent[..|s.work.sent|] == s.work.sent
    && forall k :: |s.work.sent| <= k < |t.work.sent| ==> Open(s, t.work.sent[k].st)
  }

  lemma SendingStep(p: Params, s: Agent, l: Label)
    ensures SentWhileOpen(s, Do(p, s, l))
  {
    if !IsTaskLabel(l) && !l.Acquire? && !l.Launch? { OtherStepsKeepTasks(p, s, l); }
  }

  lemma SendingOneMore(s: Agent, t: Agent, u: Agent)
    requires SentWhileOpen(s, t) && Extends(s, t) && SentWhileOpen(t, u)
    ensures SentWhileOpen(s, u)
  {
    forall k | |s.work.sent| <= k < |u.work.sent|
      ensures Open(s, u.work.sent[k].st)
    {
      if k < |t.work.sent| { assert u.work.sent[k] == t.work.sent[k]; }
    }
  }

  // Whatever follows, nothing is sent to a session that has ended, nor to any once the agent is being closed.
  lemma {:induction false} NothingSentAfterEnd(p: Params, s: Agent, ls: seq<Label>)
    ensures SentWhileOpen(s, Run(p, s, ls))
  {
    if ls == [] {
    } else {
      var init := ls[..|ls| - 1];
      NothingSentAfterEnd(p, s, init);
      RunExtends(p, s, init);
      SendingStep(p, Run(p, s, init), ls[|ls| - 1]);
      SendingOneMore(s, Run(p, s, init), Run(p, s, ls));
    }
  }
}
