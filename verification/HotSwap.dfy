/**
 Hot-swap of a provider's client (internal/provider/autoconfig/updater.go).

 `State` is the shared record; its methods are the stretches that hold the mutex. A `System` adds the
 goroutines around it: callers of Apply and the drainer that closes retired clients after a grace
 period. Every atomic step of every goroutine is a label; a label that is not enabled changes nothing,
 so "for every sequence of labels" is "for every interleaving".

 A client is named by the position of the Build call that made it; None is Go's zero client. What has been let go
 of is recorded where there is no Close, so that every client has a place either way.

 At the end the options of the Kubernetes provider (internal/provider/kubernetes/provider.go) are taken as an
 example of selective recreation.
 */
module HotSwap {
  import opened Wrappers

  type ClientId = nat

  // Build is always given; Close need not be, and then a client no longer wanted is just let go of.
  datatype Options<!T(!new), !R(!new)> = Options(
    parse: (T, R) -> Option<T>,
    equal: (T, T) -> bool,
    recreate: (T, T) -> bool,
    closes: bool)

  datatype Shared<T> = Shared(
    config: T,
    client: Option<ClientId>,
    pendingClose: seq<Option<ClientId>>,
    draining: bool)

  // What the caller does after the critical section of Apply.
  datatype Verdict = Superseded | Installed(recreated: bool, startDrainer: bool)

  // The critical section of Apply: `made` is what Build returned, or the zero client if it was skipped.
  function CommitShared<T(!new), R(!new)>(o: Options<T, R>, sh: Shared<T>, newCfg: T, made: Option<ClientId>)
    : (Shared<T>, Verdict)
  {
    if o.equal(sh.config, newCfg) then (sh, Superseded)
    else if o.recreate(sh.config, newCfg) then
      if o.closes then (Shared(newCfg, made, sh.pendingClose + [sh.client], true), Installed(true, !sh.draining))
      else (sh.(config := newCfg, client := made), Installed(true, false))
    else
      (sh.(config := newCfg), Installed(false, false))
  }

  // The critical section of the drainer.
  function TakeShared<T>(sh: Shared<T>): Shared<T> {
    sh.(pendingClose := [], draining := false)
  }

  datatype ApplyResult = ApplyResult(changed: bool, recreated: bool, failed: bool)

  class State<T(!new)> {
    var config: T
    var client: Option<ClientId>
    var pendingClose: seq<Option<ClientId>>
    var draining: bool

    ghost function Snapshot(): Shared<T>
      reads this
    {
      Shared(config, client, pendingClose, draining)
    }

    constructor (cfg: T, client: Option<ClientId>)
      ensures Snapshot() == Shared(cfg, client, [], false)
    {
      this.config := cfg;
      this.client := client;
      this.pendingClose := [];
      this.draining := false;
    }

    method Commit<R(!new)>(o: Options<T, R>, newCfg: T, made: Option<ClientId>) returns (v: Verdict)
      modifies this
      ensures (Snapshot(), v) == CommitShared(o, old(Snapshot()), newCfg, made)
    {
      var currentCfg := config;
      if o.equal(currentCfg, newCfg) {
        return Superseded;
      }
      var shouldRecreate := o.recreate(currentCfg, newCfg);
      var oldClient := client;
      config := newCfg;
      v := Installed(shouldRecreate, false);
      if shouldRecreate {
        client := made;
      }
      if shouldRecreate && o.closes {
        pendingClose := pendingClose + [oldClient];
        if !draining {
          draining := true;
          v := Installed(true, true);
        }
      }
    }

    method TakePending() returns (batch: seq<Option<ClientId>>)
      modifies this
      ensures batch == old(pendingClose)
      ensures Snapshot() == TakeShared(old(Snapshot()))
    {
      batch := pendingClose;
      pendingClose := [];
      draining := false;
    }

    // A whole call of Apply with no other goroutine in between. `built` is what Build would return:
    // None for an error. The drainer that an installation may start is not run here.
    method Apply<R(!new)>(o: Options<T, R>, raw: R, built: Option<ClientId>)
      returns (r: ApplyResult, discarded: Option<ClientId>)
      modifies this
      ensures var was := old(Snapshot());
              var parsed := o.parse(was.config, raw);
              if parsed.None? then r == ApplyResult(false, false, true) && Snapshot() == was
              else if o.equal(was.config, parsed.value) then r == ApplyResult(false, false, false) && Snapshot() == was
              else if !o.recreate(was.config, parsed.value) then
                r == ApplyResult(true, false, false) && Snapshot() == was.(config := parsed.value)
              else if built.None? then r == ApplyResult(false, false, true) && Snapshot() == was
              else
                r == ApplyResult(true, true, false)
                && Snapshot() == if o.closes then Shared(parsed.value, built, was.pendingClose + [was.client], true)
                                 else was.(config := parsed.value, client := built)
      ensures discarded == None
    {
      discarded := None;
      var base := config;
      var parsed := o.parse(base, raw);
      if parsed.None? {
        return ApplyResult(false, false, true), None;
      }
      var newCfg := parsed.value;
      if o.equal(base, newCfg) {
        return ApplyResult(false, false, false), None;
      }
      var shouldRecreate := o.recreate(base, newCfg);
      var newClient := None;
      if shouldRecreate {
        if built.None? {
          return ApplyResult(false, false, true), None;
        }
        newClient := built;
      }
      var v := Commit(o, newCfg, newClient);
      if v.Superseded? {
        if shouldRecreate && o.closes {
          discarded := newClient;
        }
        return ApplyResult(false, false, false), discarded;
      }
      r := ApplyResult(true, v.recreated, false);
    }
  }

  // ---------------------------------------------------------------- goroutines and interleavings

  datatype Proc<T, R> =
    | Called(raw: R)                                                     // Apply entered
    | Based(base: T, raw: R)                                             // base config read
    | Built(base: T, newCfg: T, decided: bool, made: Option<ClientId>)  // parsed, Build done or skipped
    | Discarding(own: Option<ClientId>)                                  // superseded: about to close its own client
    | Finished
    | Sleeping                                                           // drainer in its grace period
    | Closing(batch: seq<Option<ClientId>>)                              // drainer after its take step

  datatype System<T, R> = System(
    shared: Shared<T>,
    procs: seq<Proc<T, R>>,
    built: seq<T>,           // built[c] is the config client c was built from
    closed: seq<ClientId>,   // every call of Close, in order
    dropped: seq<ClientId>)  // the clients let go of for want of a Close, in order

  datatype Label<R> =
    | Call(raw: R)
    | ReadBase(i: nat)
    | Build(i: nat, ok: bool)
    | Commit(i: nat)
    | Discard(i: nat)
    | Take(i: nat)
    | CloseOne(i: nat)

  function Initial<T, R>(cfg: T): System<T, R> {
    System(Shared(cfg, Some(0), [], false), [], [cfg], [], [])
  }

  function LogClose(closed: seq<ClientId>, c: Option<ClientId>): seq<ClientId> {
    if c.Some? then closed + [c.value] else closed
  }

  function BuildStep<T(!new), R(!new)>(o: Options<T, R>, s: System<T, R>, i: nat, ok: bool): System<T, R>
    requires i < |s.procs| && s.procs[i].Based?
  {
    var base := s.procs[i].base;
    var parsed := o.parse(base, s.procs[i].raw);
    if parsed.None? || o.equal(base, parsed.value) then s.(procs := s.procs[i := Finished])
    else if !o.recreate(base, parsed.value) then
      s.(procs := s.procs[i := Built(base, parsed.value, false, None)])
    else if !ok then s.(procs := s.procs[i := Finished])
    else
      s.(procs := s.procs[i := Built(base, parsed.value, true, Some(|s.built|))], built := s.built + [parsed.value])
  }

  // Without a Close, the client a commit has no more use for: its own, or the one it replaces.
  function LetGo<T(!new), R(!new)>(o: Options<T, R>, sh: Shared<T>, made: Option<ClientId>, v: Verdict)
    : Option<ClientId>
  {
    if o.closes then None
    else if v.Installed? && v.recreated then sh.client
    else made
  }

  function CommitStep<T(!new), R(!new)>(o: Options<T, R>, s: System<T, R>, i: nat): System<T, R>
    requires i < |s.procs| && s.procs[i].Built?
  {
    var p := s.procs[i];
    var (sh, v) := CommitShared(o, s.shared, p.newCfg, p.made);
    var dropped := LogClose(s.dropped, LetGo(o, s.shared, p.made, v));
    match v
    case Superseded =>
      s.(procs := s.procs[i := if p.decided && o.closes then Discarding(p.made) else Finished], dropped := dropped)
    case Installed(_, startDrainer) =>
      s.(shared := sh, procs := s.procs[i := Finished] + if startDrainer then [Sleeping] else [], dropped := dropped)
  }

  function Do<T(!new), R(!new)>(o: Options<T, R>, s: System<T, R>, l: Label<R>): System<T, R> {
    match l
    case Call(raw) => s.(procs := s.procs + [Called(raw)])
    case ReadBase(i) =>
      if i < |s.procs| && s.procs[i].Called? then
        s.(procs := s.procs[i := Based(s.shared.config, s.procs[i].raw)])
      else s
    case Build(i, ok) => if i < |s.procs| && s.procs[i].Based? then BuildStep(o, s, i, ok) else s
    case Commit(i) => if i < |s.procs| && s.procs[i].Built? then CommitStep(o, s, i) else s
    case Discard(i) =>
      if i < |s.procs| && s.procs[i].Discarding? then
        s.(procs := s.procs[i := Finished], closed := LogClose(s.closed, s.procs[i].own))
      else s
    case Take(i) =>
      if i < |s.procs| && s.procs[i].Sleeping? then
        s.(shared := TakeShared(s.shared), procs := s.procs[i := Closing(s.shared.pendingClose)])
      else s
    case CloseOne(i) =>
      if i < |s.procs| && s.procs[i].Closing? && s.procs[i].batch != [] then
        var batch := s.procs[i].batch;
        s.(procs := s.procs[i := Closing(batch[1..])], closed := LogClose(s.closed, batch[0]))
      else s
  }

  function Run<T(!new), R(!new)>(o: Options<T, R>, s: System<T, R>, ls: seq<Label<R>>): System<T, R> {
    if ls == [] then s else Do(o, Run(o, s, ls[..|ls| - 1]), ls[|ls| - 1])
  }

  // ---------------------------------------------------------------- who holds which client

  function Is(x: Option<ClientId>, c: ClientId): nat {
    if x == Some(c) then 1 else 0
  }

  function Queued(q: seq<Option<ClientId>>, c: ClientId): nat {
    if q == [] then 0 else Is(q[0], c) + Queued(q[1..], c)
  }

  function Held<T, R>(p: Proc<T, R>, c: ClientId): nat {
    match p
    case Built(_, _, _, made) => Is(made, c)
    case Discarding(own) => Is(own, c)
    case Closing(batch) => Queued(batch, c)
    case _ => 0
  }

  function HeldByAll<T, R>(ps: seq<Proc<T, R>>, c: ClientId): nat {
    if ps == [] then 0 else Held(ps[0], c) + HeldByAll(ps[1..], c)
  }

  function Closes(closed: seq<ClientId>, c: ClientId): nat {
    if closed == [] then 0 else Is(Some(closed[0]), c) + Closes(closed[1..], c)
  }

  // How often c occurs as: the current client, queued for closing, with a goroutine, closed, let go of.
  function Places<T, R>(s: System<T, R>, c: ClientId): nat {
    Is(s.shared.client, c) + Queued(s.shared.pendingClose, c) + HeldByAll(s.procs, c) + Closes(s.closed, c)
    + Closes(s.dropped, c)
  }

  function Sleepers<T, R>(ps: seq<Proc<T, R>>): nat {
    if ps == [] then 0 else (if ps[0].Sleeping? then 1 else 0) + Sleepers(ps[1..])
  }

  // Each client ever built is in exactly one place, exactly once; no other client is anywhere.
  ghost predicate EachInOnePlace<T(!new), R(!new)>(s: System<T, R>) {
    forall c: ClientId :: Places(s, c) == if c < |s.built| then 1 else 0
  }

  ghost predicate DrainerMatchesFlag<T(!new), R(!new)>(s: System<T, R>) {
    && Sleepers(s.procs) == (if s.shared.draining then 1 else 0)
    && (s.shared.pendingClose != [] ==> s.shared.draining)
  }

  ghost predicate WellBuilt<T(!new), R(!new)>(s: System<T, R>, p: Proc<T, R>) {
    p.Built? ==>
      && p.decided == p.made.Some?
      && (p.made.Some? ==> p.made.value < |s.built| && s.built[p.made.value] == p.newCfg)
  }

  ghost predicate Bookkeeping<T(!new), R(!new)>(s: System<T, R>) {
    && DrainerMatchesFlag(s)
    && s.shared.client.Some?
    && (forall i :: 0 <= i < |s.procs| ==> WellBuilt(s, s.procs[i]))
  }

  ghost predicate Inv<T(!new), R(!new)>(s: System<T, R>) {
    EachInOnePlace(s) && Bookkeeping(s)
  }

  // The current client was built from the current config.
  ghost predicate CurrentMatchesConfig<T(!new), R(!new)>(s: System<T, R>) {
    && s.shared.client.Some?
    && s.shared.client.value < |s.built|
    && s.built[s.shared.client.value] == s.shared.config
  }

  lemma {:induction false} QueuedAppend(q: seq<Option<ClientId>>, x: Option<ClientId>, c: ClientId)
    ensures Queued(q + [x], c) == Queued(q, c) + Is(x, c)
  {
    if q == [] {
      assert q + [x] == [x];
    } else {
      QueuedAppend(q[1..], x, c);
      assert (q + [x])[1..] == q[1..] + [x];
    }
  }

  lemma {:induction false} ClosesAppend(closed: seq<ClientId>, x: Option<ClientId>, c: ClientId)
    ensures Closes(LogClose(closed, x), c) == Closes(closed, c) + Is(x, c)
  {
    if x.Some? {
      if closed == [] {
        assert closed + [x.value] == [x.value];
      } else {
        ClosesAppend(closed[1..], x, c);
        assert (closed + [x.value])[1..] == closed[1..] + [x.value];
      }
    }
  }

  lemma {:induction false} HeldUpdate<T, R>(ps: seq<Proc<T, R>>, i: nat, p: Proc<T, R>, c: ClientId)
    requires i < |ps|
    ensures HeldByAll(ps[i := p], c) + Held(ps[i], c) == HeldByAll(ps, c) + Held(p, c)
  {
    if i == 0 {
      assert ps[i := p][1..] == ps[1..];
    } else {
      HeldUpdate(ps[1..], i - 1, p, c);
      assert ps[i := p][1..] == ps[1..][i - 1 := p];
    }
  }

  lemma {:induction false} HeldAppend<T, R>(ps: seq<Proc<T, R>>, p: Proc<T, R>, c: ClientId)
    ensures HeldByAll(ps + [p], c) == HeldByAll(ps, c) + Held(p, c)
  {
    if ps == [] {
      assert ps + [p] == [p];
    } else {
      HeldAppend(ps[1..], p, c);
      assert (ps + [p])[1..] == ps[1..] + [p];
    }
  }

  lemma {:induction false} SleepersUpdate<T, R>(ps: seq<Proc<T, R>>, i: nat, p: Proc<T, R>)
    requires i < |ps|
    ensures Sleepers(ps[i := p]) + (if ps[i].Sleeping? then 1 else 0) == Sleepers(ps) + (if p.Sleeping? then 1 else 0)
  {
    if i == 0 {
      assert ps[i := p][1..] == ps[1..];
    } else {
      SleepersUpdate(ps[1..], i - 1, p);
      assert ps[i := p][1..] == ps[1..][i - 1 := p];
    }
  }

  lemma {:induction false} SleepersAppend<T, R>(ps: seq<Proc<T, R>>, p: Proc<T, R>)
    ensures Sleepers(ps + [p]) == Sleepers(ps) + (if p.Sleeping? then 1 else 0)
  {
    if ps == [] {
      assert ps + [p] == [p];
    } else {
      SleepersAppend(ps[1..], p);
      assert (ps + [p])[1..] == ps[1..] + [p];
    }
  }

  // ---------------------------------------------------------------- every step but Commit keeps Inv

  // Closing moves a client from its goroutine to the closed ones.
  lemma ClosingKeepsPlaces<T(!new), R(!new)>(o: Options<T, R>, s: System<T, R>, l: Label<R>, c: ClientId)
    requires (l.Discard? || l.CloseOne?) && Do(o, s, l) != s
    ensures Places(Do(o, s, l), c) == Places(s, c)
  {
    var t := Do(o, s, l);
    HeldUpdate(s.procs, l.i, t.procs[l.i], c);
    ClosesAppend(s.closed, if l.Discard? then s.procs[l.i].own else s.procs[l.i].batch[0], c);
  }

  // Building adds a client, to its goroutine.
  lemma BuildingAddsPlace<T(!new), R(!new)>(o: Options<T, R>, s: System<T, R>, i: nat, ok: bool, c: ClientId)
    requires i < |s.procs| && s.procs[i].Based?
    ensures Places(Do(o, s, Build(i, ok)), c) + (if c < |s.built| then 1 else 0) ==
            Places(s, c) + (if c < |Do(o, s, Build(i, ok)).built| then 1 else 0)
  {
    var t := Do(o, s, Build(i, ok));
    HeldUpdate(s.procs, i, t.procs[i], c);
    assert Held(t.procs[i], c) + (if c < |s.built| then 1 else 0) == if c < |t.built| then 1 else 0;
    assert t.shared == s.shared && t.closed == s.closed && t.dropped == s.dropped;
  }

  lemma OtherStepsKeepPlaces<T(!new), R(!new)>(o: Options<T, R>, s: System<T, R>, l: Label<R>, c: ClientId)
    requires !l.Commit? && Places(s, c) == if c < |s.built| then 1 else 0
    ensures Places(Do(o, s, l), c) == if c < |Do(o, s, l).built| then 1 else 0
  {
    var t := Do(o, s, l);
    if l.Call? {
      HeldAppend(s.procs, Called(l.raw), c);
    } else if t != s {
      if l.Discard? || l.CloseOne? {
        ClosingKeepsPlaces(o, s, l, c);
      } else if l.Build? {
        BuildingAddsPlace(o, s, l.i, l.ok, c);
      } else {
        HeldUpdate(s.procs, l.i, t.procs[l.i], c);
      }
    }
  }

  // A goroutine moves on, or a new one appears; clients already built stay as they are.
  ghost predicate Moves<T(!new), R(!new)>(s: System<T, R>, t: System<T, R>, i: nat, p: Proc<T, R>) {
    && i <= |s.procs|
    && t.procs == (if i < |s.procs| then s.procs[i := p] else s.procs + [p])
    && s.built <= t.built
  }

  lemma MovingKeepsBuilt<T(!new), R(!new)>(s: System<T, R>, t: System<T, R>, i: nat, p: Proc<T, R>)
    requires Moves(s, t, i, p) && WellBuilt(t, p)
    requires forall j :: 0 <= j < |s.procs| ==> WellBuilt(s, s.procs[j])
    ensures forall j :: 0 <= j < |t.procs| ==> WellBuilt(t, t.procs[j])
  {
    forall j | 0 <= j < |t.procs|
      ensures WellBuilt(t, t.procs[j])
    {
      if j < |s.procs| { assert WellBuilt(s, s.procs[j]); }
    }
  }

  lemma OtherStepsMove<T(!new), R(!new)>(o: Options<T, R>, s: System<T, R>, l: Label<R>)
    requires !l.Commit? && Do(o, s, l) != s
    ensures var t, i := Do(o, s, l), if l.Call? then |s.procs| else l.i;
            i < |t.procs| && Moves(s, t, i, t.procs[i]) && WellBuilt(t, t.procs[i])
    ensures Do(o, s, l).shared.client == s.shared.client && Do(o, s, l).shared.config == s.shared.config
  {
  }

  lemma OtherStepsKeepFlag<T(!new), R(!new)>(o: Options<T, R>, s: System<T, R>, l: Label<R>)
    requires !l.Commit? && DrainerMatchesFlag(s)
    ensures DrainerMatchesFlag(Do(o, s, l))
  {
    var t := Do(o, s, l);
    if l.Call? {
      SleepersAppend(s.procs, Called(l.raw));
    } else if t != s {
      SleepersUpdate(s.procs, l.i, t.procs[l.i]);
    }
  }

  lemma OtherStepsKeepInv<T(!new), R(!new)>(o: Options<T, R>, s: System<T, R>, l: Label<R>)
    requires Inv(s) && !l.Commit?
    ensures Inv(Do(o, s, l))
    ensures CurrentMatchesConfig(s) ==> CurrentMatchesConfig(Do(o, s, l))
  {
    var t := Do(o, s, l);
    forall c: ClientId
      ensures Places(t, c) == if c < |t.built| then 1 else 0
    {
      OtherStepsKeepPlaces(o, s, l, c);
    }
    if t != s {
      OtherStepsKeepFlag(o, s, l);
      OtherStepsMove(o, s, l);
      var i := if l.Call? then |s.procs| else l.i;
      MovingKeepsBuilt(s, t, i, t.procs[i]);
    }
  }

  // The decision to recreate is still the one taken before Build ran.
  predicate DecisionStands<T(!new), R(!new)>(o: Options<T, R>, s: System<T, R>, i: nat)
    requires i < |s.procs| && s.procs[i].Built?
  {
    s.procs[i].decided == o.recreate(s.shared.config, s.procs[i].newCfg)
  }

  // With a Close, installing loses the goroutine's own client exactly when it was built but is no longer wanted.
  predicate Loses<T(!new), R(!new)>(o: Options<T, R>, cfg: T, newCfg: T) {
    o.closes && !o.equal(cfg, newCfg) && !o.recreate(cfg, newCfg)
  }

  lemma SupersededPlaces<T(!new), R(!new)>(o: Options<T, R>, s: System<T, R>, i: nat, c: ClientId)
    requires i < |s.procs| && s.procs[i].Built? && WellBuilt(s, s.procs[i])
    requires o.equal(s.shared.config, s.procs[i].newCfg)
    ensures Places(Do(o, s, Commit(i)), c) == Places(s, c)
  {
    HeldUpdate(s.procs, i, Do(o, s, Commit(i)).procs[i], c);
    ClosesAppend(s.dropped, LetGo(o, s.shared, s.procs[i].made, Superseded), c);
  }

  lemma InstalledHeld<T(!new), R(!new)>(o: Options<T, R>, s: System<T, R>, i: nat, c: ClientId)
    requires i < |s.procs| && s.procs[i].Built? && !o.equal(s.shared.config, s.procs[i].newCfg)
    ensures HeldByAll(Do(o, s, Commit(i)).procs, c) + Is(s.procs[i].made, c) == HeldByAll(s.procs, c)
  {
    var done: seq<Proc<T, R>> := s.procs[i := Finished];
    HeldUpdate(s.procs, i, Finished, c);
    HeldAppend(done, Sleeping, c);
    assert done + [] == done;
  }

  lemma InstalledPlaces<T(!new), R(!new)>(o: Options<T, R>, s: System<T, R>, i: nat, c: ClientId)
    requires i < |s.procs| && s.procs[i].Built? && !o.equal(s.shared.config, s.procs[i].newCfg)
    ensures Places(Do(o, s, Commit(i)), c) +
              (if Loses(o, s.shared.config, s.procs[i].newCfg) then Is(s.procs[i].made, c) else 0) ==
            Places(s, c)
  {
    var made, v := s.procs[i].made, CommitShared(o, s.shared, s.procs[i].newCfg, s.procs[i].made).1;
    InstalledHeld(o, s, i, c);
    QueuedAppend(s.shared.pendingClose, s.shared.client, c);
    ClosesAppend(s.dropped, LetGo(o, s.shared, made, v), c);
  }

  lemma CommitPlaces<T(!new), R(!new)>(o: Options<T, R>, s: System<T, R>, i: nat, c: ClientId)
    requires i < |s.procs| && s.procs[i].Built? && WellBuilt(s, s.procs[i])
    ensures Places(Do(o, s, Commit(i)), c) +
              (if Loses(o, s.shared.config, s.procs[i].newCfg) then Is(s.procs[i].made, c) else 0) ==
            Places(s, c)
  {
    if o.equal(s.shared.config, s.procs[i].newCfg) {
      SupersededPlaces(o, s, i, c);
    } else {
      InstalledPlaces(o, s, i, c);
    }
  }

  lemma CommitBookkeeping<T(!new), R(!new)>(o: Options<T, R>, s: System<T, R>, i: nat)
    requires Bookkeeping(s) && i < |s.procs| && s.procs[i].Built?
    ensures Bookkeeping(Do(o, s, Commit(i)))
       <==> o.equal(s.shared.config, s.procs[i].newCfg)
            || !o.recreate(s.shared.config, s.procs[i].newCfg)
            || s.procs[i].decided
  {
    var p := s.procs[i];
    var t := Do(o, s, Commit(i));
    assert WellBuilt(s, p);
    if o.equal(s.shared.config, p.newCfg) {
      SleepersUpdate(s.procs, i, t.procs[i]);
    } else {
      SleepersUpdate(s.procs, i, Finished);
      SleepersAppend(s.procs[i := Finished], Sleeping);
      assert s.procs[i := Finished] + [] == s.procs[i := Finished];
      forall j | 0 <= j < |t.procs|
        ensures WellBuilt(t, t.procs[j])
      {
        if j < |s.procs| { assert WellBuilt(s, s.procs[j]); }
      }
    }
  }

  // A Commit keeps every client accounted for and a live current client exactly when it finds the config
  // already in place, or the recreate decision it re-takes under the lock is the earlier one, or it was to
  // recreate and there is no Close.
  lemma CommitSoundIffDecisionStands<T(!new), R(!new)>(o: Options<T, R>, s: System<T, R>, i: nat)
    requires Inv(s) && i < |s.procs| && s.procs[i].Built?
    ensures Inv(Do(o, s, Commit(i)))
       <==> || o.equal(s.shared.config, s.procs[i].newCfg) || DecisionStands(o, s, i)
            || (s.procs[i].decided && !o.closes)
  {
    var p := s.procs[i];
    var t := Do(o, s, Commit(i));
    assert WellBuilt(s, p);
    CommitBookkeeping(o, s, i);
    forall c: ClientId { CommitPlaces(o, s, i, c); }
    assert t.built == s.built;
    if Loses(o, s.shared.config, p.newCfg) && p.decided {
      assert Places(t, p.made.value) == 0;
    }
  }

  // ---------------------------------------------------------------- any interleaving

  ghost predicate AlwaysRecreates<T(!new), R(!new)>(o: Options<T, R>) {
    forall a, b :: o.recreate(a, b)
  }

  // Whether a new client is wanted depends on the new config only, among configs that differ from it.
  ghost predicate IgnoresOldConfig<T(!new), R(!new)>(o: Options<T, R>) {
    forall a, b, n :: !o.equal(a, n) && !o.equal(b, n) ==> o.recreate(a, n) == o.recreate(b, n)
  }

  // A goroutine about to commit found a new config and decided from the base it had read.
  ghost predicate DecidedFromBase<T(!new), R(!new)>(o: Options<T, R>, s: System<T, R>) {
    forall i :: 0 <= i < |s.procs| && s.procs[i].Built? ==>
      && !o.equal(s.procs[i].base, s.procs[i].newCfg)
      && s.procs[i].decided == o.recreate(s.procs[i].base, s.procs[i].newCfg)
  }

  lemma DecidedStep<T(!new), R(!new)>(o: Options<T, R>, s: System<T, R>, l: Label<R>)
    requires DecidedFromBase(o, s)
    ensures DecidedFromBase(o, Do(o, s, l))
  {
  }

  // A commit whose decision is to recreate installs the client built for the new config.
  lemma CommitMatchesConfig<T(!new), R(!new)>(o: Options<T, R>, s: System<T, R>, i: nat)
    requires Inv(s) && CurrentMatchesConfig(s) && i < |s.procs| && s.procs[i].Built?
    requires s.procs[i].decided && o.recreate(s.shared.config, s.procs[i].newCfg)
    ensures CurrentMatchesConfig(Do(o, s, Commit(i)))
  {
    assert WellBuilt(s, s.procs[i]);
  }

  lemma {:induction false} EveryInterleavingKeepsInv<T(!new), R(!new)>(o: Options<T, R>, cfg: T, ls: seq<Label<R>>)
    requires IgnoresOldConfig(o)
    ensures Inv(Run(o, Initial(cfg), ls)) && DecidedFromBase(o, Run(o, Initial(cfg), ls))
    ensures AlwaysRecreates(o) ==> CurrentMatchesConfig(Run(o, Initial(cfg), ls))
  {
    if ls == [] {
    } else {
      var s := Run(o, Initial(cfg), ls[..|ls| - 1]);
      var l := ls[|ls| - 1];
      EveryInterleavingKeepsInv(o, cfg, ls[..|ls| - 1]);
      DecidedStep(o, s, l);
      if l.Commit? {
        if l.i < |s.procs| && s.procs[l.i].Built? {
          CommitSoundIffDecisionStands(o, s, l.i);
          if AlwaysRecreates(o) { CommitMatchesConfig(o, s, l.i); }
        }
      } else {
        OtherStepsKeepInv(o, s, l);
      }
    }
  }

  // Every config can be asked for, whatever the current one.
  ghost predicate Reaches<T(!new), R(!new)>(o: Options<T, R>) {
    forall base, target :: CanAskFor(o, base, target)
  }

  ghost predicate CanAskFor<T(!new), R(!new)>(o: Options<T, R>, base: T, target: T) {
    exists raw :: o.parse(base, raw) == Some(target)
  }

  ghost predicate Symmetric<T(!new), R(!new)>(o: Options<T, R>) {
    forall a, b :: o.equal(a, b) == o.equal(b, a)
  }

  // The steps of a whole call by goroutine k with no other in between.
  function CallSteps<R>(raw: R, k: nat): seq<Label<R>> {
    [Call(raw), ReadBase(k), Build(k, true), Commit(k)]
  }

  // The steps of a call that stops before its commit.
  function HalfSteps<R>(raw: R): seq<Label<R>> {
    [Call(raw), ReadBase(0), Build(0, true)]
  }

  lemma ThreeMore<L>(ls: seq<L>, a: L, b: L, c: L)
    ensures ls + [a, b, c] == ls + [a] + [b] + [c]
  {
  }

  lemma OneMore<L>(ls: seq<L>, a: L, b: L, c: L, d: L)
    ensures ls + [a, b, c, d] == ls + [a, b, c] + [d]
  {
  }

  lemma RunHalf<T(!new), R(!new)>(o: Options<T, R>, s: System<T, R>, ls: seq<Label<R>>, a: Label<R>, b: Label<R>,
                                  c: Label<R>)
    ensures Run(o, s, ls + [a, b, c]) == Do(o, Do(o, Do(o, Run(o, s, ls), a), b), c)
  {
    ThreeMore(ls, a, b, c);
    RunSnoc(o, s, ls, a);
    RunSnoc(o, s, ls + [a], b);
    RunSnoc(o, s, ls + [a] + [b], c);
  }

  lemma RunWhole<T(!new), R(!new)>(o: Options<T, R>, s: System<T, R>, ls: seq<Label<R>>, a: Label<R>, b: Label<R>,
                                   c: Label<R>, d: Label<R>)
    ensures Run(o, s, ls + [a, b, c, d]) == Do(o, Do(o, Do(o, Do(o, Run(o, s, ls), a), b), c), d)
  {
    OneMore(ls, a, b, c, d);
    RunHalf(o, s, ls, a, b, c);
    RunSnoc(o, s, ls + [a, b, c], d);
  }

  // A goroutine that found a new config and decided from the one it read.
  ghost predicate Ready<T(!new), R(!new)>(o: Options<T, R>, p: Proc<T, R>, cfg: T, target: T) {
    p.Built? && p.newCfg == target && p.decided == o.recreate(cfg, target) && p.made.Some? == p.decided
  }

  // A call from entry to having built its client, or having decided that none is needed.
  lemma UpToBuild<T(!new), R(!new)>(o: Options<T, R>, s: System<T, R>, raw: R, target: T)
    requires o.parse(s.shared.config, raw) == Some(target) && !o.equal(s.shared.config, target)
    ensures var k := |s.procs|;
            var t := Do(o, Do(o, Do(o, s, Call(raw)), ReadBase(k)), Build(k, true));
            && t.shared == s.shared && |t.procs| == k + 1 && t.procs[..k] == s.procs
            && Ready(o, t.procs[k], s.shared.config, target)
  {
    var k := |s.procs|;
    var called := Do(o, s, Call(raw));
    assert called.procs == s.procs + [Called(raw)] && called.shared == s.shared;
    var based := Do(o, called, ReadBase(k));
    assert based.procs == s.procs + [Based(s.shared.config, raw)] && based.shared == s.shared;
  }

  // It takes the config where it is asked to.
  lemma WholeApply<T(!new), R(!new)>(o: Options<T, R>, s0: System<T, R>, ls: seq<Label<R>>, raw: R, target: T)
    requires o.parse(Run(o, s0, ls).shared.config, raw) == Some(target)
    requires !o.equal(Run(o, s0, ls).shared.config, target)
    ensures var s := Run(o, s0, ls);
            var t := Run(o, s0, ls + CallSteps(raw, |s.procs|));
            t.shared.config == target && s.procs <= t.procs
  {
    var s := Run(o, s0, ls);
    var k := |s.procs|;
    RunWhole(o, s0, ls, Call(raw), ReadBase(k), Build(k, true), Commit(k));
    UpToBuild(o, s, raw, target);
    CommitTakesConfig(o, Do(o, Do(o, Do(o, s, Call(raw)), ReadBase(k)), Build(k, true)), k);
  }

  lemma CommitTakesConfig<T(!new), R(!new)>(o: Options<T, R>, s: System<T, R>, k: nat)
    requires |s.procs| == k + 1 && s.procs[k].Built?
    requires !o.equal(s.shared.config, s.procs[k].newCfg)
    ensures Do(o, s, Commit(k)).shared.config == s.procs[k].newCfg && s.procs[..k] <= Do(o, s, Commit(k)).procs
  {
  }

  lemma HalfApply<T(!new), R(!new)>(o: Options<T, R>, cfg: T, raw: R, target: T)
    requires o.parse(cfg, raw) == Some(target) && !o.equal(cfg, target)
    ensures var s := Run(o, Initial(cfg), HalfSteps(raw));
            s.shared.config == cfg && |s.procs| == 1 && Ready(o, s.procs[0], cfg, target)
  {
    var s0: System<T, R> := Initial(cfg);
    RunHalf(o, s0, [], Call(raw), ReadBase(0), Build(0, true));
    assert [] + HalfSteps(raw) == HalfSteps(raw);
    UpToBuild(o, s0, raw, target);
  }

  // A call that has decided, from the first config, that no client need be built installs none when the config
  // has meanwhile become one from which a client is wanted.
  lemma UnbuiltIsInstalled<T(!new), R(!new)>(o: Options<T, R>, s0: System<T, R>, ls: seq<Label<R>>)
    requires var s := Run(o, s0, ls);
             && |s.procs| > 0 && s.procs[0].Built? && s.procs[0].made.None?
             && !o.equal(s.shared.config, s.procs[0].newCfg) && o.recreate(s.shared.config, s.procs[0].newCfg)
    ensures Run(o, s0, ls + [Commit(0)]).shared.client == None
  {
    RunSnoc(o, s0, ls, Commit(0));
  }

  // Three calls break the invariant when the wish for a new client depends on the old config: the first decides
  // from a that none is needed, the others move the config to n and on to b, and then the first commits.
  lemma DependenceBreaksInv<T(!new), R(!new)>(o: Options<T, R>, a: T, b: T, n: T) returns (ls: seq<Label<R>>)
    requires CanAskFor(o, a, n) && CanAskFor(o, n, b) && !o.equal(a, n) && !o.equal(n, b) && !o.equal(b, n)
    requires !o.recreate(a, n) && o.recreate(b, n)
    ensures Run(o, Initial(a), ls).shared.client == None && !Inv(Run(o, Initial(a), ls))
  {
    var s0: System<T, R> := Initial(a);
    var first :| o.parse(a, first) == Some(n);
    var third :| o.parse(n, third) == Some(b);
    ls := HalfSteps(first);
    HalfApply(o, a, first, n);
    var half := Run(o, s0, ls);
    WholeApply(o, s0, ls, first, n);
    ls := ls + CallSteps(first, |half.procs|);
    var moved := Run(o, s0, ls);
    assert moved.procs[0] == half.procs[0];
    WholeApply(o, s0, ls, third, b);
    ls := ls + CallSteps(third, |moved.procs|);
    assert Run(o, s0, ls).procs[0] == half.procs[0];
    UnbuiltIsInstalled(o, s0, ls);
    ls := ls + [Commit(0)];
  }

  // Every interleaving is sound iff the wish for a new client does not depend on the old config.
  lemma SoundIffIgnoresOldConfig<T(!new), R(!new)>(o: Options<T, R>)
    requires Reaches(o) && Symmetric(o)
    ensures (forall cfg, ls :: Inv(Run(o, Initial(cfg), ls))) <==> IgnoresOldConfig(o)
  {
    if IgnoresOldConfig(o) {
      forall cfg, ls
        ensures Inv(Run(o, Initial(cfg), ls))
      {
        EveryInterleavingKeepsInv(o, cfg, ls);
      }
    } else {
      var a, b, n :| !o.equal(a, n) && !o.equal(b, n) && o.recreate(a, n) != o.recreate(b, n);
      assert CanAskFor(o, a, n) && CanAskFor(o, n, b) && CanAskFor(o, b, n) && CanAskFor(o, n, a);
      if o.recreate(a, n) {
        var ls := DependenceBreaksInv(o, b, a, n);
      } else {
        var ls := DependenceBreaksInv(o, a, b, n);
      }
    }
  }

  // Read off: nothing is closed twice, and the current client is neither queued, held nor closed.
  lemma NoDoubleCloseAndCurrentIsLive<T(!new), R(!new)>(o: Options<T, R>, cfg: T, ls: seq<Label<R>>)
    requires IgnoresOldConfig(o)
    ensures var s := Run(o, Initial(cfg), ls);
            && (forall j, k :: 0 <= j < k < |s.closed| ==> s.closed[j] != s.closed[k])
            && s.shared.client.Some?
            && s.shared.client !in s.shared.pendingClose
            && s.shared.client.value !in s.closed
            && s.shared.client.value !in s.dropped
            && HeldByAll(s.procs, s.shared.client.value) == 0
  {
    var s := Run(o, Initial(cfg), ls);
    EveryInterleavingKeepsInv(o, cfg, ls);
    var c := s.shared.client.value;
    assert Places(s, c) <= 1;
    if s.shared.client in s.shared.pendingClose { QueuedIsPositive(s.shared.pendingClose, c); }
    ClosedIsPositive(s.closed, c);
    ClosedIsPositive(s.dropped, c);
    forall j, k | 0 <= j < k < |s.closed|
      ensures s.closed[j] != s.closed[k]
    {
      assert Places(s, s.closed[j]) <= 1;
      if s.closed[j] == s.closed[k] { ClosedTwice(s.closed, j, k); }
    }
  }

  lemma {:induction false} QueuedIsPositive(q: seq<Option<ClientId>>, c: ClientId)
    requires Some(c) in q
    ensures Queued(q, c) >= 1
  {
    if q[0] != Some(c) { QueuedIsPositive(q[1..], c); }
  }

  lemma {:induction false} ClosedIsPositive(closed: seq<ClientId>, c: ClientId)
    ensures c in closed <==> Closes(closed, c) >= 1
  {
    if closed == [] {
    } else {
      ClosedIsPositive(closed[1..], c);
    }
  }

  lemma {:induction false} ClosedTwice(closed: seq<ClientId>, j: nat, k: nat)
    requires j < k < |closed| && closed[j] == closed[k]
    ensures Closes(closed, closed[j]) >= 2
  {
    if j == 0 {
      assert closed[1..][k - 1] == closed[j];
      ClosedIsPositive(closed[1..], closed[j]);
    } else {
      ClosedTwice(closed[1..], j - 1, k - 1);
    }
  }

  // ---------------------------------------------------------------- once Apply is no longer called

  function Weight<T, R>(p: Proc<T, R>): nat {
    match p
    case Called(_) => 6
    case Based(_, _) => 5
    case Built(_, _, _, _) => 4
    case Discarding(_) => 1
    case Finished => 0
    case Sleeping => 1
    case Closing(batch) => |batch|
  }

  function Weights<T, R>(ps: seq<Proc<T, R>>): nat {
    if ps == [] then 0 else Weight(ps[0]) + Weights(ps[1..])
  }

  function Measure<T, R>(s: System<T, R>): nat {
    Weights(s.procs) + |s.shared.pendingClose|
  }

  lemma {:induction false} WeightsUpdate<T, R>(ps: seq<Proc<T, R>>, i: nat, p: Proc<T, R>)
    requires i < |ps|
    ensures Weights(ps[i := p]) + Weight(ps[i]) == Weights(ps) + Weight(p)
  {
    if i == 0 {
      assert ps[i := p][1..] == ps[1..];
    } else {
      WeightsUpdate(ps[1..], i - 1, p);
      assert ps[i := p][1..] == ps[1..][i - 1 := p];
    }
  }

  lemma {:induction false} WeightsAppend<T, R>(ps: seq<Proc<T, R>>, p: Proc<T, R>)
    ensures Weights(ps + [p]) == Weights(ps) + Weight(p)
  {
    if ps == [] {
      assert ps + [p] == [p];
    } else {
      WeightsAppend(ps[1..], p);
      assert (ps + [p])[1..] == ps[1..] + [p];
    }
  }

  // A commit leaves one goroutine less to do, at most one drainer and at most one client more to close.
  lemma CommitDecreasesMeasure<T(!new), R(!new)>(o: Options<T, R>, s: System<T, R>, i: nat)
    requires i < |s.procs| && s.procs[i].Built?
    ensures Measure(Do(o, s, Commit(i))) < Measure(s)
  {
    var t := Do(o, s, Commit(i));
    if o.equal(s.shared.config, s.procs[i].newCfg) {
      WeightsUpdate(s.procs, i, t.procs[i]);
    } else {
      var done: seq<Proc<T, R>> := s.procs[i := Finished];
      WeightsUpdate(s.procs, i, Finished);
      WeightsAppend(done, Sleeping);
      assert done + [] == done;
      assert |t.shared.pendingClose| <= |s.shared.pendingClose| + 1;
    }
  }

  // Any step that does something, other than a new call of Apply, makes the measure smaller.
  lemma StepsDecreaseMeasure<T(!new), R(!new)>(o: Options<T, R>, s: System<T, R>, l: Label<R>)
    requires !l.Call? && Do(o, s, l) != s
    ensures Measure(Do(o, s, l)) < Measure(s)
  {
    if l.Commit? {
      CommitDecreasesMeasure(o, s, l.i);
    } else {
      WeightsUpdate(s.procs, l.i, Do(o, s, l).procs[l.i]);
    }
  }

  ghost predicate Quiet<T(!new), R(!new)>(o: Options<T, R>, s: System<T, R>) {
    forall l: Label<R> :: !l.Call? ==> Do(o, s, l) == s
  }

  // So after the last call at most Measure(s) more steps happen.
  lemma {:induction false} RunsWithoutCallsAreShort<T(!new), R(!new)>(o: Options<T, R>, s: System<T, R>,
                                                                     ls: seq<Label<R>>)
    requires forall k :: 0 <= k < |ls| ==> !ls[k].Call? && Do(o, Run(o, s, ls[..k]), ls[k]) != Run(o, s, ls[..k])
    ensures |ls| + Measure(Run(o, s, ls)) <= Measure(s)
  {
    if ls == [] {
    } else {
      var init := ls[..|ls| - 1];
      forall k | 0 <= k < |init|
        ensures !init[k].Call? && Do(o, Run(o, s, init[..k]), init[k]) != Run(o, s, init[..k])
      {
        assert init[..k] == ls[..k];
      }
      RunsWithoutCallsAreShort(o, s, init);
      StepsDecreaseMeasure(o, Run(o, s, init), ls[|ls| - 1]);
    }
  }

  predicate Idle<T(!new), R(!new)>(p: Proc<T, R>) {
    p.Finished? || (p.Closing? && p.batch == [])
  }

  lemma StepOf<T(!new), R(!new)>(o: Options<T, R>, s: System<T, R>, i: nat) returns (l: Label<R>)
    requires i < |s.procs| && !Idle(s.procs[i])
    ensures !l.Call? && Do(o, s, l) != s
  {
    match s.procs[i]
    case Called(_) => l := ReadBase(i); assert Do(o, s, l).procs[i].Based?;
    case Based(_, _) => l := Build(i, false); assert !Do(o, s, l).procs[i].Based?;
    case Built(_, _, _, _) => l := Commit(i); assert !Do(o, s, l).procs[i].Built?;
    case Discarding(_) => l := Discard(i); assert Do(o, s, l).procs[i].Finished?;
    case Sleeping => l := Take(i); assert Do(o, s, l).procs[i].Closing?;
    case Closing(batch) => l := CloseOne(i); assert |Do(o, s, l).procs[i].batch| < |batch|;
  }

  lemma {:induction false} IdleProcsHoldNothing<T(!new), R(!new)>(ps: seq<Proc<T, R>>, c: ClientId)
    requires forall i :: 0 <= i < |ps| ==> Idle(ps[i])
    ensures HeldByAll(ps, c) == 0 && Sleepers(ps) == 0
  {
    if ps == [] {
    } else {
      IdleProcsHoldNothing(ps[1..], c);
    }
  }

  // When nothing is left to do, exactly the clients other than the current one have been closed or let go of.
  lemma QuietMeansAllOthersClosed<T(!new), R(!new)>(o: Options<T, R>, s: System<T, R>)
    requires Inv(s) && Quiet(o, s)
    ensures forall c: ClientId :: c in s.closed || c in s.dropped <==> c < |s.built| && Some(c) != s.shared.client
    ensures s.shared.pendingClose == [] && !s.shared.draining
  {
    forall i | 0 <= i < |s.procs|
      ensures Idle(s.procs[i])
    {
      if !Idle(s.procs[i]) {
        var l := StepOf(o, s, i);
        assert false;
      }
    }
    forall c: ClientId
      ensures c in s.closed || c in s.dropped <==> c < |s.built| && Some(c) != s.shared.client
    {
      IdleProcsHoldNothing(s.procs, c);
      ClosedIsPositive(s.closed, c);
      ClosedIsPositive(s.dropped, c);
      assert Places(s, c) == if c < |s.built| then 1 else 0;
    }
    IdleProcsHoldNothing(s.procs, 0);
  }

  // A client leaves by Close if there is one, and only otherwise by being let go of.
  predicate OneWayOut<T(!new), R(!new)>(o: Options<T, R>, s: System<T, R>) {
    if o.closes then s.dropped == []
    else
      && s.closed == [] && s.shared.pendingClose == [] && !s.shared.draining
      && forall i :: 0 <= i < |s.procs| ==> !Retires(s.procs[i])
  }

  predicate Retires<T, R>(p: Proc<T, R>) {
    p.Discarding? || p.Sleeping? || p.Closing?
  }

  lemma OneWayOutStep<T(!new), R(!new)>(o: Options<T, R>, s: System<T, R>, l: Label<R>)
    requires OneWayOut(o, s)
    ensures OneWayOut(o, Do(o, s, l))
  {
  }

  lemma {:induction false} AlwaysOneWayOut<T(!new), R(!new)>(o: Options<T, R>, cfg: T, ls: seq<Label<R>>)
    ensures OneWayOut(o, Run(o, Initial(cfg), ls))
  {
    if ls == [] {
    } else {
      AlwaysOneWayOut(o, cfg, ls[..|ls| - 1]);
      OneWayOutStep(o, Run(o, Initial(cfg), ls[..|ls| - 1]), ls[|ls| - 1]);
    }
  }

  // So with a Close, once nothing is left to do in a run, exactly the other clients have been closed, once each.
  lemma QuietRunHasClosedAllOthers<T(!new), R(!new)>(o: Options<T, R>, cfg: T, ls: seq<Label<R>>)
    requires IgnoresOldConfig(o) && Quiet(o, Run(o, Initial(cfg), ls))
    ensures var s := Run(o, Initial(cfg), ls);
            && (forall c: ClientId :: c < |s.built| && Some(c) != s.shared.client <==>
                                      if o.closes then c in s.closed else c in s.dropped)
            && (!o.closes ==> s.closed == [])
            && (forall j, k :: 0 <= j < k < |s.closed| ==> s.closed[j] != s.closed[k])
  {
    EveryInterleavingKeepsInv(o, cfg, ls);
    AlwaysOneWayOut(o, cfg, ls);
    NoDoubleCloseAndCurrentIsLive(o, cfg, ls);
    QuietMeansAllOthersClosed(o, Run(o, Initial(cfg), ls));
  }

  // ---------------------------------------------------------------- selective recreation

  predicate Busy<T, R>(p: Proc<T, R>) {
    p.Called? || p.Based? || p.Built? || p.Discarding?
  }

  // One Apply at a time, as under the registry's lock: a call begins only when the last one is over.
  predicate OneAtATime<T(!new), R(!new)>(s: System<T, R>, l: Label<R>) {
    l.Call? ==> forall i :: 0 <= i < |s.procs| ==> !Busy(s.procs[i])
  }

  // A goroutine still sees the config it started from.
  ghost predicate UpToDate<T(!new), R(!new)>(o: Options<T, R>, cfg: T, p: Proc<T, R>) {
    && (p.Based? ==> p.base == cfg)
    && (p.Built? ==> p.base == cfg && p.decided == o.recreate(cfg, p.newCfg))
  }

  // At most one goroutine is busy, and it is up to date.
  ghost predicate SerialInv<T(!new), R(!new)>(o: Options<T, R>, s: System<T, R>) {
    && (forall i, j :: 0 <= i < j < |s.procs| ==> !(Busy(s.procs[i]) && Busy(s.procs[j])))
    && (forall i :: 0 <= i < |s.procs| ==> UpToDate(o, s.shared.config, s.procs[i]))
  }

  // One goroutine moves on; the config changes only if it was the busy one and is done.
  lemma SerialUpdate<T(!new), R(!new)>(o: Options<T, R>, s: System<T, R>, t: System<T, R>, i: nat)
    requires SerialInv(o, s) && i < |s.procs| && |t.procs| == |s.procs|
    requires forall j :: 0 <= j < |s.procs| && j != i ==> t.procs[j] == s.procs[j]
    requires Busy(t.procs[i]) ==> Busy(s.procs[i])
    requires UpToDate(o, t.shared.config, t.procs[i])
    requires t.shared.config == s.shared.config || Busy(s.procs[i])
    ensures SerialInv(o, t)
  {
    forall j | 0 <= j < |t.procs|
      ensures UpToDate(o, t.shared.config, t.procs[j])
    {
      if j != i && t.shared.config != s.shared.config {
        assert !Busy(s.procs[j]);
      }
    }
  }

  lemma SerialAppend<T(!new), R(!new)>(o: Options<T, R>, s: System<T, R>, t: System<T, R>, p: Proc<T, R>)
    requires SerialInv(o, s) && t.procs == s.procs + [p] && t.shared.config == s.shared.config
    requires UpToDate(o, t.shared.config, p)
    requires Busy(p) ==> forall i :: 0 <= i < |s.procs| ==> !Busy(s.procs[i])
    ensures SerialInv(o, t)
  {
  }

  lemma SerialCommit<T(!new), R(!new)>(o: Options<T, R>, s: System<T, R>, i: nat)
    requires SerialInv(o, s) && i < |s.procs| && s.procs[i].Built?
    ensures SerialInv(o, Do(o, s, Commit(i)))
  {
    var t := Do(o, s, Commit(i));
    var first := t.(procs := t.procs[..|s.procs|]);
    SerialUpdate(o, s, first, i);
    if |t.procs| > |s.procs| {
      assert t.procs == first.procs + [Sleeping];
      SerialAppend(o, first, t, Sleeping);
    } else {
      assert t == first;
    }
  }

  lemma SerialStep<T(!new), R(!new)>(o: Options<T, R>, s: System<T, R>, l: Label<R>)
    requires SerialInv(o, s) && OneAtATime(s, l)
    ensures SerialInv(o, Do(o, s, l))
  {
    var t := Do(o, s, l);
    if l.Call? {
      SerialAppend(o, s, t, Called(l.raw));
    } else if t != s {
      if l.Commit? {
        SerialCommit(o, s, l.i);
      } else {
        SerialUpdate(o, s, t, l.i);
      }
    }
  }

  lemma {:induction false} SerialisedAppliesKeepInv<T(!new), R(!new)>(o: Options<T, R>, cfg: T, ls: seq<Label<R>>)
    requires forall k :: 0 <= k < |ls| ==> OneAtATime(Run(o, Initial(cfg), ls[..k]), ls[k])
    ensures Inv(Run(o, Initial(cfg), ls)) && SerialInv(o, Run(o, Initial(cfg), ls))
  {
    if ls == [] {
    } else {
      var init := ls[..|ls| - 1];
      forall k | 0 <= k < |init|
        ensures OneAtATime(Run(o, Initial(cfg), init[..k]), init[k])
      {
        assert init[..k] == ls[..k];
      }
      SerialisedAppliesKeepInv(o, cfg, init);
      var s := Run(o, Initial(cfg), init);
      var l := ls[|ls| - 1];
      assert OneAtATime(s, l);
      SerialStep(o, s, l);
      if l.Commit? {
        if l.i < |s.procs| && s.procs[l.i].Built? { CommitSoundIffDecisionStands(o, s, l.i); }
      } else {
        OtherStepsKeepInv(o, s, l);
      }
    }
  }

  // ---------------------------------------------------------------- the Kubernetes provider

  // What its updates may set, and its way of taking them (internal/provider/kubernetes/provider.go).
  datatype KubernetesConfig = KubernetesConfig(path: string, context: string, namespace: string, maxPodLogLines: int)

  datatype KubernetesUpdate = KubernetesUpdate(
    path: Option<string>, context: Option<string>, namespace: Option<string>, maxPodLogLines: Option<int>)

  function Or<A>(update: Option<A>, base: A): A {
    if update.Some? then update.value else base
  }

  function Overlay(base: KubernetesConfig, raw: KubernetesUpdate): KubernetesConfig {
    KubernetesConfig(Or(raw.path, base.path), Or(raw.context, base.context), Or(raw.namespace, base.namespace),
                     Or(raw.maxPodLogLines, base.maxPodLogLines))
  }

  function KubernetesOptions(): Options<KubernetesConfig, KubernetesUpdate> {
    Options((base, raw) => Some(Overlay(base, raw)), (a, b) => a == b,
            (a: KubernetesConfig, b: KubernetesConfig) => a.path != b.path || a.context != b.context, false)
  }

  // Any config can be asked for, so its interleavings are not all sound.
  lemma KubernetesIsSelective()
    ensures Reaches(KubernetesOptions()) && Symmetric(KubernetesOptions()) && !IgnoresOldConfig(KubernetesOptions())
    ensures !(forall cfg, ls :: Inv(Run(KubernetesOptions(), Initial(cfg), ls)))
  {
    var o := KubernetesOptions();
    forall base, target
      ensures CanAskFor(o, base, target)
    {
      var raw := KubernetesUpdate(Some(target.path), Some(target.context), Some(target.namespace),
                                  Some(target.maxPodLogLines));
      assert o.parse(base, raw) == Some(target);
    }
    var n := KubernetesConfig("", "", "", 0);
    var a, b := n.(maxPodLogLines := 1), n.(path := "p");
    assert !o.equal(a, n) && !o.equal(b, n) && o.recreate(a, n) != o.recreate(b, n);
    SoundIffIgnoresOldConfig(o);
  }

  // Without the registry's lock two overlapping calls can leave it without a client, from any config: one sets
  // another namespace and decides that no client is needed, the other moves to another path, and then the first
  // commits.
  lemma SelectiveRecreateCanInstallNoClient(cfg: KubernetesConfig, namespace: string, path: string)
    returns (ls: seq<Label<KubernetesUpdate>>)
    requires namespace != cfg.namespace && path != cfg.path
    ensures var first := KubernetesUpdate(None, None, Some(namespace), None);
            var second := KubernetesUpdate(Some(path), None, None, None);
            && ls == HalfSteps(first) + CallSteps(second, 1) + [Commit(0)]
            && Run(KubernetesOptions(), Initial(cfg), ls).shared.client == None
  {
    var o := KubernetesOptions();
    var s0: System<KubernetesConfig, KubernetesUpdate> := Initial(cfg);
    var first := KubernetesUpdate(None, None, Some(namespace), None);
    var second := KubernetesUpdate(Some(path), None, None, None);
    HalfApply(o, cfg, first, cfg.(namespace := namespace));
    WholeApply(o, s0, HalfSteps(first), second, cfg.(path := path));
    ls := HalfSteps(first) + CallSteps(second, 1);
    assert Run(o, s0, ls).procs[0] == Run(o, s0, HalfSteps(first)).procs[0];
    UnbuiltIsInstalled(o, s0, ls);
    ls := ls + [Commit(0)];
  }

  lemma RunSnoc<T(!new), R(!new)>(o: Options<T, R>, s: System<T, R>, ls: seq<Label<R>>, l: Label<R>)
    ensures Run(o, s, ls + [l]) == Do(o, Run(o, s, ls), l)
  {
    assert (ls + [l])[..|ls|] == ls;
  }
}
