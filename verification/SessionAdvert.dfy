/**
 What a session advertises in every run: Register messages and the live stream against the current capabilities
 (internal/controlplane/client.go, newRegisterMessage, setStream and UpdateCapabilities).
 */
module SessionAdvert {
  import opened Session
  import opened Wrappers

  // ---------------------------------------------------------------- advertised capabilities

  // The stream a program counter is working on, if any.
  function StreamOf(pc: Pc): Option<StreamId> {
    match pc
    case LoopTop | Connecting | RoundOver(_, _) | Backing | Halted => None
    case Registering(st) => Some(st)
    case Sending(st) => Some(st)
    case Awaiting(st) => Some(st)
    case Effective(st, _) => Some(st)
    case Starting(st) => Some(st)
    case Receiving(st) => Some(st)
    case Admitting(st, _) => Some(st)
    case Launching(st, _) => Some(st)
    case Graceful(st) => Some(st)
    case Leaving(st, _) => Some(st)
    case Clearing(st, _) => Some(st)
  }

  predicate Live(pc: Pc) {
    pc.Receiving? || pc.Admitting? || pc.Launching? || pc.Graceful? || pc.Leaving? || pc.Clearing?
  }

  // Half-closed, or about to be by a caller that already holds the stream.
  predicate Closed(s: Agent, st: StreamId) {
    st in s.ad.closing || st in s.ad.halfClosed
  }

  ghost predicate Current(s: Agent, st: StreamId) {
    st in s.ad.registers && s.ad.registers[st].caps == s.ad.regCaps
  }

  // Every Register message carries the list of the latest update, as of when it was built.
  ghost predicate RegistersLatest(ad: Advert, connects: nat) {
    && |ad.updates| > 0 && ad.regCaps == ad.updates[|ad.updates| - 1]
    && (forall st :: st in ad.registers ==>
          && st < connects
          && 0 < ad.registers[st].updates <= |ad.updates|
          && ad.registers[st].caps == ad.updates[ad.registers[st].updates - 1])
    && (forall st :: st in ad.setAt ==> st in ad.registers && ad.registers[st].updates <= ad.setAt[st] <= |ad.updates|)
    && (forall st :: st in ad.closing || st in ad.halfClosed ==> st in ad.setAt)
  }

  // The live stream is the one being received from, and any update since it became live has marked it.
  ghost predicate LiveStreamMarked(pc: Pc, ad: Advert, connects: nat) {
    && (StreamOf(pc).Some? ==> StreamOf(pc).value < connects)
    && (pc.Registering? ==> pc.st !in ad.registers)
    && (StreamOf(pc).Some? && !pc.Registering? ==> StreamOf(pc).value in ad.registers)
    && (StreamOf(pc).Some? && !Live(pc) ==> StreamOf(pc).value !in ad.setAt)
    && (ad.stream.Some? <==> Live(pc))
    && (ad.stream.Some? ==>
          && ad.stream == StreamOf(pc)
          && ad.stream.value in ad.setAt
          && (ad.setAt[ad.stream.value] == |ad.updates|
              || ad.stream.value in ad.closing || ad.stream.value in ad.halfClosed))
  }

  ghost predicate AdvertisesLatest(s: Agent) {
    RegistersLatest(s.ad, s.loop.connects) && LiveStreamMarked(s.pc, s.ad, s.loop.connects)
  }

  predicate ChangesAdvert(l: Label) {
    l.BuildRegister? || l.PublishStream? || l.ClearSession? || l.StoreCaps? || l.HalfClose? || l.CloseClient?
  }

  lemma BuildRegisterStep(p: Params, s: Agent)
    requires AdvertisesLatest(s)
    ensures AdvertisesLatest(Do(p, s, BuildRegister))
  {
    var t := Do(p, s, BuildRegister);
    if t != s {
      assert s.ad.stream == None;
      assert t.ad.updates == s.ad.updates && t.ad.setAt == s.ad.setAt;
    }
  }

  lemma PublishStep(p: Params, s: Agent)
    requires AdvertisesLatest(s)
    ensures AdvertisesLatest(Do(p, s, PublishStream))
  {
    var t := Do(p, s, PublishStream);
    if t != s {
      assert t.ad.updates == s.ad.updates && t.ad.registers == s.ad.registers;
    }
  }

  lemma ClearStep(p: Params, s: Agent, failed: bool)
    requires AdvertisesLatest(s)
    ensures AdvertisesLatest(Do(p, s, ClearSession(failed)))
  {
  }

  lemma HalfCloseKeeps(pc: Pc, ad: Advert, connects: nat, st: StreamId)
    requires RegistersLatest(ad, connects) && LiveStreamMarked(pc, ad, connects) && st in ad.closing
    ensures var ad' := ad.(closing := ad.closing - {st}, halfClosed := ad.halfClosed + {st});
            RegistersLatest(ad', connects) && LiveStreamMarked(pc, ad', connects)
  {
  }

  lemma HalfCloseStep(p: Params, s: Agent, st: StreamId)
    requires AdvertisesLatest(s)
    ensures AdvertisesLatest(Do(p, s, HalfClose(st)))
  {
    if st in s.ad.closing { HalfCloseKeeps(s.pc, s.ad, s.loop.connects, st); }
  }

  function Stored(ad: Advert, more: seq<Caps>): Advert {
    MarkStream(ad).(updates := ad.updates + more, regCaps := if more == [] then ad.regCaps else more[|more| - 1])
  }

  lemma StoreKeepsRegisters(pc: Pc, ad: Advert, connects: nat, more: seq<Caps>)
    requires RegistersLatest(ad, connects) && LiveStreamMarked(pc, ad, connects)
    ensures RegistersLatest(Stored(ad, more), connects)
  {
    var updates' := ad.updates + more;
    assert forall k :: 0 <= k < |ad.updates| ==> updates'[k] == ad.updates[k];
  }

  lemma StoreMarksLive(pc: Pc, ad: Advert, connects: nat, more: seq<Caps>)
    requires LiveStreamMarked(pc, ad, connects)
    ensures LiveStreamMarked(pc, Stored(ad, more), connects)
  {
  }

  lemma MarkAndStore(pc: Pc, ad: Advert, connects: nat, more: seq<Caps>)
    requires RegistersLatest(ad, connects) && LiveStreamMarked(pc, ad, connects)
    ensures RegistersLatest(Stored(ad, more), connects) && LiveStreamMarked(pc, Stored(ad, more), connects)
  {
    StoreKeepsRegisters(pc, ad, connects, more);
    StoreMarksLive(pc, ad, connects, more);
  }

  lemma AdvertStep(p: Params, s: Agent, l: Label)
    requires AdvertisesLatest(s) && ChangesAdvert(l)
    ensures AdvertisesLatest(Do(p, s, l))
  {
    match l
    case BuildRegister => BuildRegisterStep(p, s);
    case PublishStream => PublishStep(p, s);
    case ClearSession(failed) => ClearStep(p, s, failed);
    case StoreCaps(caps) => MarkAndStore(s.pc, s.ad, s.loop.connects, [caps]);
    case HalfClose(st) => HalfCloseStep(p, s, st);
    case CloseClient =>
      MarkAndStore(s.pc, s.ad, s.loop.connects, []);
      assert s.ad.updates + [] == s.ad.updates;
  }

  // Every other step leaves the registration state alone and stays on its stream, leaves it before it
  // went live, or opens a new one.
  predicate KeepsStream(s: Agent, t: Agent) {
    || (StreamOf(t.pc) == StreamOf(s.pc) && Live(t.pc) == Live(s.pc) && t.pc.Registering? == s.pc.Registering?)
    || (StreamOf(t.pc) == None && !Live(s.pc))
    || (s.pc.Connecting? && t.pc == Registering(s.loop.connects) && t.loop.connects > s.loop.connects)
  }

  lemma OtherStepsKeepStream(p: Params, s: Agent, l: Label)
    requires !ChangesAdvert(l)
    ensures KeepsStream(s, Do(p, s, l))
  {
  }

  lemma OtherStepsKeepAdvert(p: Params, s: Agent, l: Label)
    requires !ChangesAdvert(l)
    ensures Do(p, s, l).ad == s.ad && s.loop.connects <= Do(p, s, l).loop.connects && KeepsStream(s, Do(p, s, l))
  {
    OtherStepsKeepStream(p, s, l);
  }

  lemma AdvertisingStep(p: Params, s: Agent, l: Label)
    requires AdvertisesLatest(s)
    ensures AdvertisesLatest(Do(p, s, l))
  {
    if ChangesAdvert(l) {
      AdvertStep(p, s, l);
    } else {
      OtherStepsKeepAdvert(p, s, l);
    }
  }

  lemma {:induction false} AlwaysAdvertisesLatest(p: Params, caps: Caps, ls: seq<Label>)
    ensures AdvertisesLatest(Run(p, Initial(caps), ls))
  {
    if ls == [] {
    } else {
      AlwaysAdvertisesLatest(p, caps, ls[..|ls| - 1]);
      AdvertisingStep(p, Run(p, Initial(caps), ls[..|ls| - 1]), ls[|ls| - 1]);
    }
  }

  // The session advertises the current list or is being closed, exactly when it is being closed or the list was
  // the same when the stream went live as when its Register message was built.
  ghost predicate StaleOnlySincePublishing(s: Agent, st: StreamId) {
    && st in s.ad.registers && st in s.ad.setAt
    && 0 < s.ad.registers[st].updates <= s.ad.setAt[st] <= |s.ad.updates|
    && (Current(s, st) || Closed(s, st)
        <==> Closed(s, st) || s.ad.updates[s.ad.setAt[st] - 1] == s.ad.updates[s.ad.registers[st].updates - 1])
  }

  lemma AdvertisingMeansStaleOnlySincePublishing(s: Agent)
    requires AdvertisesLatest(s) && s.ad.stream.Some?
    ensures StaleOnlySincePublishing(s, s.ad.stream.value)
  {
  }

  // In every run this holds of the live session.
  lemma StaleOnlyIfUpdatedWhileRegistering(p: Params, caps: Caps, ls: seq<Label>)
    requires Run(p, Initial(caps), ls).ad.stream.Some?
    ensures StaleOnlySincePublishing(Run(p, Initial(caps), ls), Run(p, Initial(caps), ls).ad.stream.value)
  {
    AlwaysAdvertisesLatest(p, caps, ls);
    AdvertisingMeansStaleOnlySincePublishing(Run(p, Initial(caps), ls));
  }

  // The live session, if any, is current or closing.
  ghost predicate InOrder(s: Agent) {
    s.ad.stream.Some? ==> Current(s, s.ad.stream.value) || Closed(s, s.ad.stream.value)
  }

  // Changing or marking the advertised list never leaves a session stale and open.
  lemma MarkKeepsOrder(s: Agent, t: Agent)
    requires InOrder(s) && t.ad.stream == s.ad.stream && t.ad.registers == s.ad.registers
    requires s.ad.stream.Some? ==>
               Closed(t, s.ad.stream.value) || (t.ad.regCaps == s.ad.regCaps && !Closed(s, s.ad.stream.value))
    ensures InOrder(t)
  {
  }

  // A step that has to do with the advertised list, other than building a message, publishing or clearing.
  predicate OnlyMarks(l: Label) {
    l.StoreCaps? || l.HalfClose? || l.CloseClient?
  }

  lemma MarkingKeepsOrder(p: Params, s: Agent, l: Label)
    requires InOrder(s) && OnlyMarks(l)
    ensures var t := Do(p, s, l); t.ad.stream == s.ad.stream && InOrder(t)
  {
    MarkKeepsOrder(s, Do(p, s, l));
  }

  lemma BuildingKeepsOrder(p: Params, s: Agent)
    requires AdvertisesLatest(s) && InOrder(s)
    ensures var t := Do(p, s, BuildRegister); t.ad.stream == s.ad.stream && InOrder(t)
  {
    if s.pc.Registering? { assert s.ad.stream == None; }
  }

  lemma ClearingKeepsOrder(p: Params, s: Agent, failed: bool)
    requires AdvertisesLatest(s) && InOrder(s)
    ensures var t := Do(p, s, ClearSession(failed)); t.ad.stream.Some? ==> t.ad.stream == s.ad.stream && InOrder(t)
  {
  }

  lemma PublishingOrder(p: Params, s: Agent)
    requires AdvertisesLatest(s) && InOrder(s)
    ensures var t := Do(p, s, PublishStream);
            t.ad.stream.Some? ==> (InOrder(t) <==> s.ad.stream.Some? || (s.pc.Starting? && Current(s, s.pc.st)))
  {
    if s.pc.Starting? { assert s.ad.stream == None && s.pc.st !in s.ad.setAt; }
  }

  lemma StepIsRisky(p: Params, s: Agent, l: Label)
    requires AdvertisesLatest(s) && InOrder(s) && Do(p, s, l).ad.stream.Some?
    ensures InOrder(Do(p, s, l)) <==> s.ad.stream.Some? || (s.pc.Starting? && Current(s, s.pc.st))
  {
    if !ChangesAdvert(l) {
      OtherStepsKeepAdvert(p, s, l);
    } else if OnlyMarks(l) {
      MarkingKeepsOrder(p, s, l);
    } else if l.BuildRegister? {
      BuildingKeepsOrder(p, s);
    } else if l.ClearSession? {
      ClearingKeepsOrder(p, s, l.heartbeatFailed);
    } else {
      PublishingOrder(p, s);
    }
  }

  // The step that makes a stream live is the only one that can break it, and only with an outdated message.
  lemma PublishingIsTheOnlyRisk(p: Params, caps: Caps, ls: seq<Label>, l: Label)
    requires InOrder(Run(p, Initial(caps), ls)) && Do(p, Run(p, Initial(caps), ls), l).ad.stream.Some?
    ensures var s := Run(p, Initial(caps), ls);
            InOrder(Do(p, s, l)) <==> s.ad.stream.Some? || (s.pc.Starting? && Current(s, s.pc.st))
  {
    AlwaysAdvertisesLatest(p, caps, ls);
    StepIsRisky(p, Run(p, Initial(caps), ls), l);
  }

  ghost predicate StaleAndOpen(s: Agent) {
    s.pc.Receiving? && s.ad.stream == Some(s.pc.st) && !Current(s, s.pc.st) && s.ad.closing == s.ad.halfClosed == {}
  }

  // An update carried by the registration ack itself, whose handler changes the capabilities after the version
  // has been recorded, is missed, whatever the two lists: the session goes live advertising the old one, and
  // nobody is going to close it.
  lemma EffectiveConfigCanLeaveSessionStale(p: Params, caps: Caps, later: Caps)
    requires caps != later
    ensures exists ls: seq<Label> :: StaleAndOpen(Run(p, Initial(caps), ls))
  {
    var reply := ReceiveReply(Registered(Some(1)));
    var registering := [] + [Top] + [Connect(true)] + [BuildRegister] + [SendRegister(true)] + [reply];
    RunThree(p, Initial(caps), [], Top, Connect(true), BuildRegister);
    RunThree(p, Initial(caps), [] + [Top] + [Connect(true)], BuildRegister, SendRegister(true), reply);
    RegistersFirst(p, caps);
    RunThree(p, Initial(caps), registering, ApplyEffective, StoreCaps(later), PublishStream);
    UpdateBeforePublishing(p, Run(p, Initial(caps), registering), caps, later);
    assert StaleAndOpen(Run(p, Initial(caps), registering + [ApplyEffective] + [StoreCaps(later)] + [PublishStream]));
  }

  // The ack has arrived, with a configuration to apply before the stream is published.
  ghost predicate Acked(s: Agent, caps: Caps) {
    && s.pc == Effective(0, Some(1)) && s.ad.stream == None && s.ad.closing == s.ad.halfClosed == {}
    && 0 in s.ad.registers && s.ad.registers[0].caps == caps
  }

  lemma RegistersFirst(p: Params, caps: Caps)
    ensures var built := Do(p, Do(p, Do(p, Initial(caps), Top), Connect(true)), BuildRegister);
            Acked(Do(p, Do(p, built, SendRegister(true)), ReceiveReply(Registered(Some(1)))), caps)
  {
    var s1 := Do(p, Initial(caps), Top);
    assert s1.pc == Connecting && !s1.ctxDone && s1.loop.connects == 0 && s1.ad == Initial(caps).ad;
    var s2 := Do(p, s1, Connect(true));
    assert s2.pc == Registering(0) && !s2.ctxDone && s2.ad == s1.ad;
    var s3 := Do(p, s2, BuildRegister);
    assert s3.pc == Sending(0) && !s3.ctxDone && 0 in s3.ad.registers && s3.ad.registers[0].caps == caps;
    var s4 := Do(p, s3, SendRegister(true));
    assert s4.pc == Awaiting(0) && !s4.ctxDone && s4.ad == s3.ad;
  }

  lemma UpdateBeforePublishing(p: Params, s: Agent, caps: Caps, later: Caps)
    requires Acked(s, caps) && caps != later
    ensures StaleAndOpen(Do(p, Do(p, Do(p, s, ApplyEffective), StoreCaps(later)), PublishStream))
  {
  }

  lemma RunThree(p: Params, s: Agent, ls: seq<Label>, a: Label, b: Label, c: Label)
    ensures Run(p, s, ls + [a] + [b] + [c]) == Do(p, Do(p, Do(p, Run(p, s, ls), a), b), c)
    ensures Run(p, s, ls + [a] + [b]) == Do(p, Do(p, Run(p, s, ls), a), b)
  {
    RunOneMore(p, s, ls, a);
    RunOneMore(p, s, ls + [a], b);
    RunOneMore(p, s, ls + [a] + [b], c);
  }
}
