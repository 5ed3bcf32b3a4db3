/**
 The control-plane session machine (internal/controlplane/client.go).

 `Client` holds the fields the source guards with stateMu; its methods are the source's. `Agent` adds
 the goroutines: the run loop (field pc), one goroutine per admitted capability, and callers of
 UpdateCapabilities and Close. The server and the transport are the parameters of the labels. A label
 that is not enabled changes nothing, so every sequence of labels is a run and every run is one.

 `received`, `sent`, `rounds`, `updates` and the other histories record what has happened. A step reads of them
 only their lengths and, when a goroutine finishes executing, the command it was started with, which it names
 by its position in `received`.
 */
module Session {
  import opened Wrappers
  import opened Backoff

  type StreamId = nat
  type Caps = seq<string>

  datatype Command = Command(
    commandId: string, sessionId: string, threadId: string, capability: string,
    resultIndex: int, targetSetId: string, executionMode: int)

  datatype CapabilityResult = CapabilityResult(
    commandId: string, sessionId: string, threadId: string, capability: string,
    resultIndex: int, targetSetId: string, executionMode: int, success: bool)

  function Execute(cmd: Command, success: bool): CapabilityResult {
    CapabilityResult(cmd.commandId, cmd.sessionId, cmd.threadId, cmd.capability,
                     cmd.resultIndex, cmd.targetSetId, cmd.executionMode, success)
  }

  // A result carries the ids of its command.
  predicate Answers(r: CapabilityResult, cmd: Command) {
    && r.commandId == cmd.commandId && r.sessionId == cmd.sessionId && r.threadId == cmd.threadId
    && r.capability == cmd.capability && r.resultIndex == cmd.resultIndex && r.targetSetId == cmd.targetSetId
    && r.executionMode == cmd.executionMode
  }

  datatype Failure = Permanent | Temporary | Broken | Cancelled

  // applyUpdateConfig: versions up to the last applied one are dropped, unversioned updates are not.
  function FilterVersion(last: int, version: int): (int, bool) {
    if version > 0 && version <= last then (last, false)
    else if version > 0 then (version, true)
    else (last, true)
  }

  class Client {
    var regCaps: Caps
    var stream: Option<StreamId>
    var lastAppliedVersion: int
    ghost var handed: seq<int>  // versions passed to the update handler

    constructor (caps: Caps)
      ensures regCaps == caps && stream == None && lastAppliedVersion == 0 && handed == []
    {
      regCaps := caps;
      stream := None;
      lastAppliedVersion := 0;
      handed := [];
    }

    // The stream returned is the one to half-close after the lock is released. As StoreCaps of the machine.
    method UpdateCapabilities(caps: Caps) returns (toClose: Option<StreamId>)
      modifies this`regCaps
      ensures regCaps == caps && toClose == stream
      ensures forall p: Params, s: Agent :: s.ad.stream == stream ==>
                Stores(Do(p, s, StoreCaps(caps)).ad, s.ad, regCaps, stream, toClose)
    {
      regCaps := caps;
      toClose := stream;
    }

    // As PublishStream of the machine.
    method SetStream(st: StreamId)
      modifies this`stream
      ensures stream == Some(st)
      ensures forall p: Params, s: Agent :: s.pc == Starting(st) ==> Do(p, s, PublishStream).ad.stream == stream
    {
      stream := Some(st);
    }

    // As ClearSession of the machine.
    method ClearStream(st: StreamId)
      modifies this`stream
      ensures stream == if old(stream) == Some(st) then None else old(stream)
      ensures forall p: Params, s: Agent, failed ::
                s.pc.Clearing? && s.pc.st == st && s.ad.stream == old(stream) ==>
                Do(p, s, ClearSession(failed)).ad.stream == stream
    {
      if stream == Some(st) {
        stream := None;
      }
    }

    method ApplyUpdateConfig(upd: Option<int>)
      modifies this`lastAppliedVersion, this`handed
      ensures (lastAppliedVersion, handed) == ApplyUpdate(old(lastAppliedVersion), old(handed), upd)
    {
      if upd.None? {
        return;
      }
      var version := upd.value;
      if version > 0 && version <= lastAppliedVersion {
        return;
      }
      if version > 0 {
        lastAppliedVersion := version;
      }
      handed := handed + [version];
    }
  }

  // After an update: the new list, the same live stream, and one more stream about to be half-closed.
  predicate Stores(ad: Advert, before: Advert, regCaps: Caps, stream: Option<StreamId>, toClose: Option<StreamId>) {
    && ad.regCaps == regCaps && ad.stream == stream
    && ad.closing == before.closing + if toClose.Some? then {toClose.value} else {}
  }

  function ClearedStream(current: Option<StreamId>, st: StreamId): Option<StreamId> {
    if current == Some(st) then None else current
  }

  function ApplyUpdate(last: int, handed: seq<int>, upd: Option<int>): (int, seq<int>) {
    if upd.None? then (last, handed)
    else
      var (last', pass) := FilterVersion(last, upd.value);
      (last', if pass then handed + [upd.value] else handed)
  }

  // ---------------------------------------------------------------- the machine

  datatype Pc =
    | LoopTop
    | Connecting
    | Registering(st: StreamId)                        // stream open, Register message not yet built
    | Sending(st: StreamId)                            // Register message built
    | Awaiting(st: StreamId)                           // waiting for the registration response
    | Effective(st: StreamId, update: Option<int>)     // acknowledged; effective config to apply
    | Starting(st: StreamId)                           // about to setStream
    | Receiving(st: StreamId)
    | Admitting(st: StreamId, serial: nat)             // waiting for a semaphore token
    | Launching(st: StreamId, serial: nat)             // token taken, goroutine not yet started
    | Graceful(st: StreamId)                           // waiting for all goroutines in flight
    | Leaving(st: StreamId, err: Option<Failure>)      // recvLoop has returned
    | Clearing(st: StreamId, err: Option<Failure>)     // session context cancelled
    | RoundOver(registered: bool, err: Option<Failure>)
    | Backing                                          // in the reconnect timer
    | Halted

  datatype Phase = Executing | Replying(result: CapabilityResult) | Releasing | Finishing | Gone

  datatype Task = Task(serial: nat, st: StreamId, phase: Phase)

  datatype Received = Received(st: StreamId, cmd: Command)
  datatype Sent = Sent(st: StreamId, task: nat, result: CapabilityResult)
  datatype Register = Register(st: StreamId, caps: Caps, updates: nat)
  datatype Wait = Wait(rounds: nat, delay: int)

  // The variables of the run loop.
  datatype Loop = Loop(
    attempt: nat,
    firstReported: bool,
    first: seq<Option<Failure>>,          // values sent to firstRegistration; None is nil
    acks: nat,
    connects: nat,
    rejectedAt: Option<nat>,              // connects when a permanent rejection arrived
    rounds: seq<bool>,                    // for each finished round, whether it registered
    waits: seq<Wait>)

  // The semaphore, the WaitGroup and the goroutines that run tasks.
  datatype Work = Work(
    sem: nat,
    inFlight: nat,
    tasks: seq<Task>,
    ended: set<StreamId>,                 // sessions whose context is cancelled
    received: seq<Received>,
    sent: seq<Sent>)

  // The registration state and the live stream.
  datatype Advert = Advert(
    regCaps: Caps,
    stream: Option<StreamId>,
    closing: set<StreamId>,               // CloseSend pending in UpdateCapabilities or Close
    halfClosed: set<StreamId>,
    updates: seq<Caps>,                   // initial list, then every UpdateCapabilities
    registers: map<StreamId, Register>,   // Register message of each stream
    setAt: map<StreamId, nat>)            // number of updates when the stream became live

  datatype Config = Config(lastApplied: int, seen: seq<int>, handed: seq<int>)

  datatype Agent = Agent(pc: Pc, ctxDone: bool, closed: bool, loop: Loop, work: Work, ad: Advert, cfg: Config)

  datatype Params = Params(base: nat, max: nat, maxConcurrent: nat)

  ghost predicate Valid(p: Params) {
    0 < p.base <= p.max && 0 < p.maxConcurrent
  }

  function Initial(caps: Caps): Agent {
    Agent(LoopTop, false, false,
          Loop(0, false, [], 0, 0, None, [], []),
          Work(0, 0, [], {}, [], []),
          Advert(caps, None, {}, {}, [caps], map[], map[]),
          Config(0, [], []))
  }

  datatype Reply = ReplyFailed | ReplyRejected(permanent: bool) | Unexpected | Registered(effective: Option<int>)

  datatype Message =
    | Eof
    | RecvFailed(cancelled: bool)
    | ExecuteCapability(cmd: Option<Command>)
    | UpdateConfig(version: Option<int>)
    | Disconnect(graceful: bool)
    | RegisteredAgain
    | Rejected(permanent: bool)
    | HeartbeatAck
    | Unsupported

  datatype Label =
    // the run goroutine
    | Top
    | Connect(ok: bool)
    | BuildRegister
    | SendRegister(ok: bool)
    | ReceiveReply(reply: Reply)
    | ApplyEffective
    | PublishStream
    | Receive(msg: Message)
    | Acquire
    | Drop
    | Launch
    | GracefulReturn
    | CancelSession
    | ClearSession(heartbeatFailed: bool)
    | EndRound(jitter: nat)
    | Wake
    | CancelWait
    // a task goroutine
    | TaskDone(i: nat, success: bool)
    | TaskReply(i: nat, ok: bool)
    | TaskRelease(i: nat)
    | TaskExit(i: nat)
    // other goroutines
    | StoreCaps(caps: Caps)
    | HalfClose(st: StreamId)
    | CloseClient

  function Report(r: Loop, v: Option<Failure>): Loop {
    if r.firstReported then r else r.(firstReported := true, first := r.first + [v])
  }

  function See(c: Config, upd: Option<int>): Config {
    var (last, handed) := ApplyUpdate(c.lastApplied, c.handed, upd);
    Config(last, if upd.Some? then c.seen + [upd.value] else c.seen, handed)
  }

  function Reject(r: Loop, permanent: bool): Loop {
    if permanent then r.(rejectedAt := Some(r.connects)) else r
  }

  function Rejection(permanent: bool): Option<Failure> {
    Some(if permanent then Permanent else Temporary)
  }

  function OnReply(s: Agent, st: StreamId, reply: Reply): Agent {
    match reply
    case ReplyFailed => s.(pc := RoundOver(false, Some(Broken)))
    case ReplyRejected(permanent) =>
      s.(pc := RoundOver(false, Rejection(permanent)), loop := Reject(s.loop, permanent))
    case Unexpected => s.(pc := RoundOver(false, Some(Broken)))
    case Registered(effective) =>
      s.(pc := Effective(st, effective), loop := Report(s.loop.(acks := s.loop.acks + 1), None))
  }

  function OnMessage(s: Agent, st: StreamId, msg: Message): Agent {
    match msg
    case Eof => s.(pc := Leaving(st, None))
    case RecvFailed(cancelled) => s.(pc := Leaving(st, Some(if cancelled then Cancelled else Broken)))
    case ExecuteCapability(cmd) =>
      if cmd.None? then s
      else s.(pc := Admitting(st, |s.work.received|),
              work := s.work.(received := s.work.received + [Received(st, cmd.value)]))
    case UpdateConfig(version) => s.(cfg := See(s.cfg, version))
    case Disconnect(graceful) => s.(pc := if graceful then Graceful(st) else Leaving(st, None))
    case RegisteredAgain => s
    case Rejected(permanent) => s.(pc := Leaving(st, Rejection(permanent)), loop := Reject(s.loop, permanent))
    case HeartbeatAck => s
    case Unsupported => s.(pc := Leaving(st, Some(Broken)))
  }

  // connectOnce's error once the heartbeat goroutine has returned too.
  function SessionError(err: Option<Failure>, heartbeatFailed: bool): Option<Failure> {
    if err.Some? && err.value != Cancelled then err
    else if heartbeatFailed then Some(Broken)
    else None
  }

  function OnRoundOver(p: Params, s: Agent, registered: bool, err: Option<Failure>, jitter: nat): Agent {
    var attempt := if registered then 0 else s.loop.attempt;
    var r := s.loop.(rounds := s.loop.rounds + [registered], attempt := attempt);
    if err == Some(Permanent) then s.(pc := Halted, loop := Report(r, err))
    else if s.ctxDone then s.(pc := Halted, loop := r)
    else
      var d := Delay(p.base, p.max, attempt);
      s.(pc := Backing, loop := r.(attempt := attempt + 1, waits := r.waits + [Wait(|r.rounds|, Draw(d, jitter))]))
  }

  function SetPhase(w: Work, i: nat, phase: Phase): Work
    requires i < |w.tasks|
  {
    w.(tasks := w.tasks[i := w.tasks[i].(phase := phase)])
  }

  // UpdateCapabilities and Close note the live stream, to be half-closed after the lock.
  function MarkStream(ad: Advert): Advert {
    if ad.stream.Some? then ad.(closing := ad.closing + {ad.stream.value}) else ad
  }

  function TaskStep(s: Agent, l: Label): Work
    requires l.TaskDone? || l.TaskReply? || l.TaskRelease? || l.TaskExit?
  {
    var w := s.work;
    if l.i >= |w.tasks| then w
    else
      var task := w.tasks[l.i];
      match l
      case TaskDone(i, success) =>
        if task.phase.Executing? && task.serial < |w.received| then
          SetPhase(w, i, Replying(Execute(w.received[task.serial].cmd, success)))
        else w
      case TaskReply(i, ok) =>
        if !task.phase.Replying? then w
        else if s.ctxDone || task.st in w.ended || !ok then SetPhase(w, i, Releasing)
        else SetPhase(w, i, Releasing).(sent := w.sent + [Sent(task.st, i, task.phase.result)])
      case TaskRelease(i) =>
        if task.phase.Releasing? && w.sem > 0 then SetPhase(w, i, Finishing).(sem := w.sem - 1) else w
      case TaskExit(i) =>
        if task.phase.Finishing? && w.inFlight > 0 then SetPhase(w, i, Gone).(inFlight := w.inFlight - 1) else w
  }

  function Do(p: Params, s: Agent, l: Label): Agent {
    match l
    case Top =>
      if !s.pc.LoopTop? then s
      else if s.ctxDone then s.(pc := Halted, loop := Report(s.loop, Some(Cancelled)))
      else s.(pc := Connecting)
    case Connect(ok) =>
      if !s.pc.Connecting? then s
      else s.(pc := if ok then Registering(s.loop.connects) else RoundOver(false, Some(Broken)),
              loop := s.loop.(connects := s.loop.connects + 1))
    case BuildRegister =>
      if !s.pc.Registering? then s
      else
        var st := s.pc.st;
        s.(pc := Sending(st),
           ad := s.ad.(registers := s.ad.registers[st := Register(st, s.ad.regCaps, |s.ad.updates|)]))
    case SendRegister(ok) =>
      if !s.pc.Sending? then s
      else if s.ctxDone then s.(pc := RoundOver(false, Some(Cancelled)))
      else s.(pc := if ok then Awaiting(s.pc.st) else RoundOver(false, Some(Broken)))
    case ReceiveReply(reply) => if s.pc.Awaiting? then OnReply(s, s.pc.st, reply) else s
    case ApplyEffective =>
      if s.pc.Effective? then s.(pc := Starting(s.pc.st), cfg := See(s.cfg, s.pc.update)) else s
    case PublishStream =>
      if !s.pc.Starting? then s
      else
        var st := s.pc.st;
        s.(pc := Receiving(st), ad := s.ad.(stream := Some(st), setAt := s.ad.setAt[st := |s.ad.updates|]))
    case Receive(msg) => if s.pc.Receiving? then OnMessage(s, s.pc.st, msg) else s
    case Acquire =>
      if s.pc.Admitting? && s.work.sem < p.maxConcurrent then
        s.(pc := Launching(s.pc.st, s.pc.serial), work := s.work.(sem := s.work.sem + 1))
      else s
    case Drop => if s.pc.Admitting? && s.ctxDone then s.(pc := Receiving(s.pc.st)) else s
    case Launch =>
      if !s.pc.Launching? then s
      else s.(pc := Receiving(s.pc.st),
              work := s.work.(inFlight := s.work.inFlight + 1,
                              tasks := s.work.tasks + [Task(s.pc.serial, s.pc.st, Executing)]))
    case GracefulReturn =>
      if s.pc.Graceful? && s.work.inFlight == 0 then s.(pc := Leaving(s.pc.st, None)) else s
    case CancelSession =>
      if !s.pc.Leaving? then s
      else s.(pc := Clearing(s.pc.st, s.pc.err), work := s.work.(ended := s.work.ended + {s.pc.st}))
    case ClearSession(heartbeatFailed) =>
      if !s.pc.Clearing? then s
      else s.(pc := RoundOver(true, SessionError(s.pc.err, heartbeatFailed)),
              ad := s.ad.(stream := ClearedStream(s.ad.stream, s.pc.st)))
    case EndRound(jitter) =>
      if s.pc.RoundOver? then OnRoundOver(p, s, s.pc.registered, s.pc.err, jitter) else s
    case Wake => if s.pc.Backing? then s.(pc := LoopTop) else s
    case CancelWait => if s.pc.Backing? && s.ctxDone then s.(pc := Halted) else s
    case TaskDone(_, _) => s.(work := TaskStep(s, l))
    case TaskReply(_, _) => s.(work := TaskStep(s, l))
    case TaskRelease(_) => s.(work := TaskStep(s, l))
    case TaskExit(_) => s.(work := TaskStep(s, l))
    case StoreCaps(caps) =>
      s.(ad := MarkStream(s.ad).(regCaps := caps, updates := s.ad.updates + [caps]))
    case HalfClose(st) =>
      if st !in s.ad.closing then s
      else s.(ad := s.ad.(closing := s.ad.closing - {st}, halfClosed := s.ad.halfClosed + {st}))
    case CloseClient => if s.closed then s else s.(closed := true, ctxDone := true, ad := MarkStream(s.ad))
  }

  function Run(p: Params, s: Agent, ls: seq<Label>): Agent {
    if ls == [] then s else Do(p, Run(p, s, ls[..|ls| - 1]), ls[|ls| - 1])
  }

  lemma RunOneMore(p: Params, s: Agent, ls: seq<Label>, l: Label)
    ensures Run(p, s, ls + [l]) == Do(p, Run(p, s, ls), l)
  {
    assert (ls + [l])[..|ls|] == ls;
  }

  // A run continues from any of its states.
  lemma {:induction false} RunFrom(p: Params, s: Agent, a: seq<Label>, b: seq<Label>)
    ensures Run(p, s, a + b) == Run(p, Run(p, s, a), b)
  {
    if b == [] {
      assert a + b == a;
    } else {
      var init := b[..|b| - 1];
      assert (a + b)[..|a + b| - 1] == a + init;
      RunFrom(p, s, a, init);
    }
  }
}
