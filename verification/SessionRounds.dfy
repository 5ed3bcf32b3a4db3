/**
 The rounds of every run of the session machine: the first report, rejections, config versions and waits
 (internal/controlplane/client.go, run, connectOnce, applyUpdateConfig and nextBackoff).
 */
module SessionRounds {
  import opened Backoff
  import opened Session
  import opened Wrappers

  // ---------------------------------------------------------------- first registration and rejection

  predicate HasPermanent(pc: Pc) {
    (pc.Leaving? || pc.Clearing? || pc.RoundOver?) && pc.err == Some(Permanent)
  }

  predicate Acknowledged(pc: Pc) {
    pc.Effective? || pc.Starting? || pc.Receiving? || pc.Admitting? || pc.Launching? || pc.Graceful?
    || pc.Leaving? || pc.Clearing?
  }

  predicate HasRegistered(pc: Pc) {
    Acknowledged(pc) || (pc.RoundOver? && pc.registered)
  }

  // What firstRegistration has been sent: nil iff the agent was ever acknowledged; otherwise the rejection that
  // ended the run, or the cancellation found at the top of the loop.
  ghost predicate ReportedOnce(s: Agent) {
    var r := s.loop;
    && |r.first| == (if r.firstReported then 1 else 0)
    && (r.acks > 0 <==> |r.first| == 1 && r.first[0] == None)
    && (HasRegistered(s.pc) ==> r.acks > 0)
    && (|r.first| == 1 && r.first[0].Some? ==>
          s.pc.Halted? && r.first[0] == Some(if r.rejectedAt.Some? then Permanent else Cancelled))
    && (s.pc.Halted? ==> s.ctxDone || r.rejectedAt.Some?)
  }

  ghost predicate RejectionFinal(s: Agent) {
    && (s.loop.rejectedAt.Some? ==>
          && s.loop.connects == s.loop.rejectedAt.value
          && (HasPermanent(s.pc) || (s.pc.Halted? && s.loop.firstReported)))
    && (HasPermanent(s.pc) ==> s.loop.rejectedAt.Some?)
  }

  lemma ReplyKeepsReports(s: Agent, reply: Reply)
    requires ReportedOnce(s) && RejectionFinal(s) && s.pc.Awaiting?
    ensures ReportedOnce(OnReply(s, s.pc.st, reply)) && RejectionFinal(OnReply(s, s.pc.st, reply))
  {
  }

  lemma MessageKeepsReports(s: Agent, msg: Message)
    requires ReportedOnce(s) && RejectionFinal(s) && s.pc.Receiving?
    ensures ReportedOnce(OnMessage(s, s.pc.st, msg)) && RejectionFinal(OnMessage(s, s.pc.st, msg))
  {
  }

  lemma EndRoundKeepsReports(p: Params, s: Agent, registered: bool, err: Option<Failure>, jitter: nat)
    requires ReportedOnce(s) && RejectionFinal(s) && s.pc == RoundOver(registered, err)
    ensures ReportedOnce(OnRoundOver(p, s, registered, err, jitter))
    ensures RejectionFinal(OnRoundOver(p, s, registered, err, jitter))
  {
  }

  lemma ReportsStep(p: Params, s: Agent, l: Label)
    requires ReportedOnce(s) && RejectionFinal(s)
    ensures ReportedOnce(Do(p, s, l)) && RejectionFinal(Do(p, s, l))
  {
    if l.ReceiveReply? && s.pc.Awaiting? {
      ReplyKeepsReports(s, l.reply);
    } else if l.Receive? && s.pc.Receiving? {
      MessageKeepsReports(s, l.msg);
    } else if l.EndRound? && s.pc.RoundOver? {
      EndRoundKeepsReports(p, s, s.pc.registered, s.pc.err, l.jitter);
    }
  }

  // In every run firstRegistration gets at most one value, as above; the run ends only by a permanent rejection or
  // because it was cancelled; a permanent rejection is followed by no Connect, and once it has ended the run exactly
  // one value was sent.
  lemma {:induction false} FirstReportAndRejection(p: Params, caps: Caps, ls: seq<Label>)
    ensures ReportedOnce(Run(p, Initial(caps), ls)) && RejectionFinal(Run(p, Initial(caps), ls))
  {
    if ls == [] {
    } else {
      FirstReportAndRejection(p, caps, ls[..|ls| - 1]);
      ReportsStep(p, Run(p, Initial(caps), ls[..|ls| - 1]), ls[|ls| - 1]);
    }
  }

  // ---------------------------------------------------------------- what the rounds amount to

  function Registrations(rounds: seq<bool>): nat {
    if rounds == [] then 0
    else Registrations(rounds[..|rounds| - 1]) + if rounds[|rounds| - 1] then 1 else 0
  }

  // From the attempt to connect until the round is over.
  predicate InRound(pc: Pc) {
    !pc.LoopTop? && !pc.Connecting? && !pc.Backing? && !pc.Halted?
  }

  // Every round makes one attempt to connect, counts as registered iff it was acknowledged, and is followed by its
  // own wait unless the run ends with it.
  ghost predicate RoundsCounted(s: Agent) {
    ConnectsCounted(s) && WaitsCounted(s.loop, s.pc.Halted?)
  }

  ghost predicate ConnectsCounted(s: Agent) {
    && s.loop.connects == |s.loop.rounds| + (if InRound(s.pc) then 1 else 0)
    && s.loop.acks == Registrations(s.loop.rounds) + (if HasRegistered(s.pc) then 1 else 0)
  }

  ghost predicate WaitsCounted(r: Loop, halted: bool) {
    && |r.rounds| - (if halted then 1 else 0) <= |r.waits| <= |r.rounds|
    && forall k :: 0 <= k < |r.waits| ==> r.waits[k].rounds == k + 1
  }

  lemma EndRoundKeepsCount(p: Params, s: Agent, registered: bool, err: Option<Failure>, jitter: nat)
    requires RoundsCounted(s) && s.pc == RoundOver(registered, err)
    ensures RoundsCounted(OnRoundOver(p, s, registered, err, jitter))
  {
    var rounds := s.loop.rounds + [registered];
    assert rounds[..|rounds| - 1] == s.loop.rounds;
  }

  lemma OtherStepsKeepRounds(p: Params, s: Agent, l: Label)
    requires !(l.EndRound? && s.pc.RoundOver?)
    ensures var t := Do(p, s, l);
            t.loop.rounds == s.loop.rounds && t.loop.waits == s.loop.waits && t.loop.attempt == s.loop.attempt
            && (s.pc.Halted? ==> t.pc.Halted?)
  {
  }

  lemma OtherStepsCount(p: Params, s: Agent, l: Label)
    requires !(l.EndRound? && s.pc.RoundOver?)
    ensures var t := Do(p, s, l);
            && t.loop.connects - s.loop.connects == (if InRound(t.pc) then 1 else 0) - (if InRound(s.pc) then 1 else 0)
            && t.loop.acks - s.loop.acks ==
               (if HasRegistered(t.pc) then 1 else 0) - (if HasRegistered(s.pc) then 1 else 0)
  {
  }

  lemma CountStep(p: Params, s: Agent, l: Label)
    requires RoundsCounted(s)
    ensures RoundsCounted(Do(p, s, l))
  {
    if l.EndRound? && s.pc.RoundOver? {
      EndRoundKeepsCount(p, s, s.pc.registered, s.pc.err, l.jitter);
    } else {
      OtherStepsKeepRounds(p, s, l);
      OtherStepsCount(p, s, l);
    }
  }

  lemma {:induction false} RoundsAlwaysCounted(p: Params, caps: Caps, ls: seq<Label>)
    ensures RoundsCounted(Run(p, Initial(caps), ls))
  {
    if ls == [] {
    } else {
      RoundsAlwaysCounted(p, caps, ls[..|ls| - 1]);
      CountStep(p, Run(p, Initial(caps), ls[..|ls| - 1]), ls[|ls| - 1]);
    }
  }

  // The server refuses this agent for good.
  predicate Refuses(pc: Pc, l: Label) {
    (pc.Awaiting? && l == ReceiveReply(ReplyRejected(true))) || (pc.Receiving? && l == Receive(Rejected(true)))
  }

  // On the way out with a permanent rejection, or halted, with the same number of connections.
  ghost predicate Refused(s: Agent, connects: nat) {
    && s.loop.connects == connects && s.loop.rejectedAt.Some? && (HasPermanent(s.pc) || s.pc.Halted?)
    && (s.pc.Halted? ==> s.loop.firstReported)
  }

  lemma RefusalStep(p: Params, s: Agent, l: Label)
    requires Refuses(s.pc, l)
    ensures Refused(Do(p, s, l), s.loop.connects)
  {
  }

  lemma RefusedStep(p: Params, s: Agent, l: Label, connects: nat)
    requires Refused(s, connects)
    ensures Refused(Do(p, s, l), connects)
  {
  }

  lemma {:induction false} RunRefused(p: Params, s: Agent, ls: seq<Label>, connects: nat)
    requires Refused(s, connects)
    ensures Refused(Run(p, s, ls), connects)
  {
    if ls == [] {
    } else {
      RunRefused(p, s, ls[..|ls| - 1], connects);
      RefusedStep(p, Run(p, s, ls[..|ls| - 1]), ls[|ls| - 1], connects);
    }
  }

  // In every run, whatever follows a permanent rejection: no attempt to connect is made any more, and once the run
  // has ended the first report is nil if the agent was ever acknowledged and the rejection otherwise.
  lemma PermanentRejectionIsFinal(p: Params, caps: Caps, ls: seq<Label>, l: Label, more: seq<Label>)
    requires Refuses(Run(p, Initial(caps), ls).pc, l)
    ensures var t := Run(p, Initial(caps), ls + [l] + more);
            && t.loop.connects == Run(p, Initial(caps), ls).loop.connects
            && (HasPermanent(t.pc) || t.pc.Halted?)
            && (t.pc.Halted? ==> |t.loop.first| == 1
                                 && t.loop.first[0] == if t.loop.acks > 0 then None else Some(Permanent))
  {
    var s := Run(p, Initial(caps), ls);
    RunOneMore(p, Initial(caps), ls, l);
    RunFrom(p, Initial(caps), ls + [l], more);
    RefusalStep(p, s, l);
    RunRefused(p, Do(p, s, l), more, s.loop.connects);
    FirstReportAndRejection(p, caps, ls + [l] + more);
  }

  // Without one there is nothing permanent: the run goes on until it is cancelled.
  lemma {:induction false} EndsOnlyIfRefused(p: Params, caps: Caps, ls: seq<Label>)
    requires forall k :: 0 <= k < |ls| ==> !Refuses(Run(p, Initial(caps), ls[..k]).pc, ls[k])
    ensures var s := Run(p, Initial(caps), ls);
            s.loop.rejectedAt == None && !HasPermanent(s.pc) && (s.pc.Halted? ==> s.ctxDone)
  {
    if ls == [] {
    } else {
      var init := ls[..|ls| - 1];
      forall k | 0 <= k < |init|
        ensures !Refuses(Run(p, Initial(caps), init[..k]).pc, init[k])
      {
        assert init[..k] == ls[..k];
      }
      EndsOnlyIfRefused(p, caps, init);
      NotRefusedStep(p, Run(p, Initial(caps), init), ls[|ls| - 1]);
      FirstReportAndRejection(p, caps, ls);
    }
  }

  lemma NotRefusedStep(p: Params, s: Agent, l: Label)
    requires s.loop.rejectedAt == None && !Refuses(s.pc, l)
    ensures Do(p, s, l).loop.rejectedAt == None
  {
  }

  // ---------------------------------------------------------------- config versions

  // The largest positive version so far, 0 if there is none.
  function Newest(seen: seq<int>): int {
    if seen == [] then 0
    else
      var m := Newest(seen[..|seen| - 1]);
      if seen[|seen| - 1] > m then seen[|seen| - 1] else m
  }

  // Unversioned updates and those newer than everything before them.
  function Records(seen: seq<int>): seq<int> {
    if seen == [] then []
    else
      var init := seen[..|seen| - 1];
      var v := seen[|seen| - 1];
      Records(init) + if v <= 0 || v > Newest(init) then [v] else []
  }

  ghost predicate VersionsFiltered(c: Config) {
    c.lastApplied == Newest(c.seen) && c.handed == Records(c.seen)
  }

  lemma {:induction false} NewestIsMaximum(seen: seq<int>)
    ensures Newest(seen) >= 0
    ensures forall i :: 0 <= i < |seen| ==> seen[i] <= Newest(seen)
    ensures Newest(seen) > 0 ==> Newest(seen) in seen
  {
    if seen == [] {
    } else {
      NewestIsMaximum(seen[..|seen| - 1]);
    }
  }

  lemma SeeingKeepsVersions(c: Config, upd: Option<int>)
    requires VersionsFiltered(c)
    ensures VersionsFiltered(See(c, upd))
  {
    if upd.Some? {
      assert (c.seen + [upd.value])[..|c.seen|] == c.seen;
      NewestIsMaximum(c.seen);
    }
  }

  // The update a step sees, if any: one in a message, or the one that came with the acknowledgement.
  function SeenAt(pc: Pc, l: Label): Option<int> {
    if pc.Receiving? && l.Receive? && l.msg.UpdateConfig? then l.msg.version
    else if pc.Effective? && l.ApplyEffective? then pc.update
    else None
  }

  lemma ConfigChangesOnlyByUpdates(p: Params, s: Agent, l: Label)
    ensures Do(p, s, l).cfg == See(s.cfg, SeenAt(s.pc, l))
  {
  }

  lemma VersionsStep(p: Params, s: Agent, l: Label)
    requires VersionsFiltered(s.cfg)
    ensures VersionsFiltered(Do(p, s, l).cfg)
  {
    ConfigChangesOnlyByUpdates(p, s, l);
    SeeingKeepsVersions(s.cfg, SeenAt(s.pc, l));
  }

  // Over any run, across reconnects, the handler gets exactly the records of the versions received, and
  // lastAppliedVersion is their maximum.
  lemma {:induction false} VersionsAlwaysFiltered(p: Params, caps: Caps, ls: seq<Label>)
    ensures VersionsFiltered(Run(p, Initial(caps), ls).cfg)
  {
    if ls == [] {
    } else {
      VersionsAlwaysFiltered(p, caps, ls[..|ls| - 1]);
      VersionsStep(p, Run(p, Initial(caps), ls[..|ls| - 1]), ls[|ls| - 1]);
    }
  }

  // Version v reaches the handler after these: it carries no number, or one above all so far.
  predicate Newer(seen: seq<int>, v: int) {
    v <= 0 || forall i :: 0 <= i < |seen| ==> seen[i] < v
  }

  // In every state of every run a version that arrives in a message is recorded, and reaches the handler iff it is
  // newer; a message without one changes nothing.
  lemma UpdateIsHandedIffNewer(p: Params, caps: Caps, ls: seq<Label>, upd: Option<int>)
    requires Run(p, Initial(caps), ls).pc.Receiving?
    ensures var s := Run(p, Initial(caps), ls);
            HandsOn(s.cfg, upd, Do(p, s, Receive(UpdateConfig(upd))).cfg)
  {
    VersionsAlwaysFiltered(p, caps, ls);
    NewestIsMaximum(Run(p, Initial(caps), ls).cfg.seen);
  }

  ghost predicate HandsOn(c: Config, upd: Option<int>, d: Config) {
    match upd
    case None => d == c
    case Some(v) => d.seen == c.seen + [v] && d.handed == c.handed + if Newer(c.seen, v) then [v] else []
  }

  // The same of a version that arrives with the acknowledgement, which no other step comes before.
  lemma EffectiveIsHandedIffNewer(p: Params, caps: Caps, ls: seq<Label>, upd: Option<int>, more: seq<Label>)
    requires Run(p, Initial(caps), ls).pc.Awaiting?
    requires forall k :: 0 <= k < |more| ==> more[k] != ApplyEffective
    ensures var s := Run(p, Initial(caps), ls);
            var t := Run(p, Initial(caps), ls + [ReceiveReply(Registered(upd))] + more);
            t.pc == Effective(s.pc.st, upd) && HandsOn(s.cfg, upd, Do(p, t, ApplyEffective).cfg)
  {
    var s := Run(p, Initial(caps), ls);
    var l := ReceiveReply(Registered(upd));
    RunOneMore(p, Initial(caps), ls, l);
    RunFrom(p, Initial(caps), ls + [l], more);
    WaitsForEffective(p, Do(p, s, l), more);
    VersionsAlwaysFiltered(p, caps, ls);
    NewestIsMaximum(s.cfg.seen);
  }

  lemma {:induction false} WaitsForEffective(p: Params, s: Agent, ls: seq<Label>)
    requires s.pc.Effective? && forall k :: 0 <= k < |ls| ==> ls[k] != ApplyEffective
    ensures Run(p, s, ls).pc == s.pc && Run(p, s, ls).cfg == s.cfg
  {
    if ls == [] {
    } else {
      WaitsForEffective(p, s, ls[..|ls| - 1]);
    }
  }

  // None above the newest, and the positive ones strictly increasing.
  ghost predicate Increasing(rs: seq<int>, newest: int) {
    && (forall i :: 0 <= i < |rs| ==> rs[i] <= newest)
    && (forall i, j :: 0 <= i < j < |rs| && rs[i] > 0 && rs[j] > 0 ==> rs[i] < rs[j])
  }

  lemma {:induction false} RecordsIncrease(seen: seq<int>)
    ensures Increasing(Records(seen), Newest(seen))
  {
    if seen == [] {
    } else {
      var init, v := seen[..|seen| - 1], seen[|seen| - 1];
      RecordsIncrease(init);
      NewestIsMaximum(init);
      OneMoreRecord(Records(init), v, Newest(init));
      assert Records(init) + [] == Records(init);
    }
  }

  lemma OneMoreRecord(rs: seq<int>, v: int, newest: int)
    requires newest >= 0 && Increasing(rs, newest)
    ensures Increasing(rs + (if v <= 0 || v > newest then [v] else []), if v > newest then v else newest)
  {
  }

  // ---------------------------------------------------------------- waits

  // Which wait this is, counting from 0 at the start of the run and at every round that registered.
  function WaitNumber(rounds: seq<bool>): nat {
    if rounds == [] || rounds[|rounds| - 1] || |rounds| == 1 then 0
    else 1 + WaitNumber(rounds[..|rounds| - 1])
  }

  ghost predicate WaitsInRange(p: Params, r: Loop) {
    && (r.rounds == [] ==> r.attempt == 0)
    && (forall k :: 0 <= k < |r.waits| ==>
          && r.waits[k].rounds <= |r.rounds|
          && WaitOf(Delay(p.base, p.max, WaitNumber(r.rounds[..r.waits[k].rounds])), r.waits[k].delay))
  }

  ghost predicate AttemptsCounted(p: Params, s: Agent) {
    && WaitsInRange(p, s.loop)
    && (s.loop.rounds != [] && !s.pc.Halted? ==> s.loop.attempt == WaitNumber(s.loop.rounds) + 1)
  }

  // Finished rounds keep their numbers when another one is added.
  lemma AddingRoundKeepsWaits(p: Params, r: Loop, registered: bool, t: Loop)
    requires WaitsInRange(p, r)
    requires t.rounds == r.rounds + [registered] && t.waits == r.waits
    ensures WaitsInRange(p, t)
  {
    forall k | 0 <= k < |r.waits|
      ensures t.rounds[..r.waits[k].rounds] == r.rounds[..r.waits[k].rounds]
    {
    }
  }

  lemma AddingWaitKeepsWaits(p: Params, r: Loop, random: nat, t: Loop)
    requires WaitsInRange(p, r) && t.rounds == r.rounds != []
    requires t.waits == r.waits + [Wait(|r.rounds|, Draw(Delay(p.base, p.max, WaitNumber(r.rounds)), random))]
    ensures WaitsInRange(p, t)
  {
    DrawIsWait(Delay(p.base, p.max, WaitNumber(r.rounds)), random);
    assert t.rounds[..|t.rounds|] == t.rounds;
  }

  lemma EndRoundKeepsWaits(p: Params, s: Agent, registered: bool, err: Option<Failure>, jitter: nat)
    requires Valid(p) && AttemptsCounted(p, s) && !s.pc.Halted?
    ensures AttemptsCounted(p, OnRoundOver(p, s, registered, err, jitter))
  {
    var r, t := s.loop, OnRoundOver(p, s, registered, err, jitter).loop;
    var mid := r.(rounds := r.rounds + [registered]);
    AddingRoundKeepsWaits(p, r, registered, mid);
    assert mid.rounds[..|mid.rounds| - 1] == r.rounds;
    if t.waits != r.waits {
      AddingWaitKeepsWaits(p, mid, jitter, t);
    }
  }

  lemma WaitsStep(p: Params, s: Agent, l: Label)
    requires Valid(p) && AttemptsCounted(p, s)
    ensures AttemptsCounted(p, Do(p, s, l))
  {
    if l.EndRound? && s.pc.RoundOver? {
      EndRoundKeepsWaits(p, s, s.pc.registered, s.pc.err, l.jitter);
    } else {
      OtherStepsKeepRounds(p, s, l);
    }
  }

  // Every wait of every run is the backoff of its number, where the number restarts with each round
  // that registered.
  lemma {:induction false} WaitsAlwaysInRange(p: Params, caps: Caps, ls: seq<Label>)
    requires Valid(p)
    ensures AttemptsCounted(p, Run(p, Initial(caps), ls))
  {
    if ls == [] {
    } else {
      WaitsAlwaysInRange(p, caps, ls[..|ls| - 1]);
      WaitsStep(p, Run(p, Initial(caps), ls[..|ls| - 1]), ls[|ls| - 1]);
    }
  }

  // With a maximum of up to 2^54 ns every wait of every run is the delay of its number, or up to half as long
  // again.
  lemma WaitsAlwaysExpected(p: Params, caps: Caps, ls: seq<Label>, k: nat)
    requires Valid(p) && p.max <= 2 * TWO_53 && k < |Run(p, Initial(caps), ls).loop.waits|
    ensures var r := Run(p, Initial(caps), ls).loop;
            && r.waits[k].rounds <= |r.rounds|
            && var d := Delay(p.base, p.max, WaitNumber(r.rounds[..r.waits[k].rounds]));
               p.base <= d <= p.max && Expected(d, r.waits[k].delay)
  {
    WaitsAlwaysInRange(p, caps, ls);
    var r := Run(p, Initial(caps), ls).loop;
    WaitIsExpected(p, WaitNumber(r.rounds[..r.waits[k].rounds]), r.waits[k].delay);
  }

  lemma WaitIsExpected(p: Params, number: nat, delay: int)
    requires Valid(p) && p.max <= 2 * TWO_53 && WaitOf(Delay(p.base, p.max, number), delay)
    ensures p.base <= Delay(p.base, p.max, number) <= p.max && Expected(Delay(p.base, p.max, number), delay)
  {
    DelayIsCappedDoubling(p.base, p.max, number);
    WaitRange(Delay(p.base, p.max, number), delay);
  }
}
