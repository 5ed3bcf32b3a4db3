# Verified model of Marvin's runtime core

Marvin is an agent: it connects to a control plane, advertises the capabilities of its providers, executes
commands against them and takes configuration updates while it runs. This project models the parts of it where
the logic is hard and proves what they promise. It verifies with `dafny verify dfyconfig.toml`.

## How the modules fit

| file | what it models |
|---|---|
| `HotSwap.dfy` | replacing a provider's client while calls are in flight, and closing the old one later |
| `Session.dfy`, `Backoff.dfy` | the control-plane client as a state machine, and its reconnect delay |
| `SessionTasks.dfy`, `SessionRounds.dfy`, `SessionAdvert.dfy`, `SessionStops.dfy` | what every run of that machine keeps: execution of commands; first report, versions and waits; advertised capabilities; how sessions and runs end |
| `CapabilityRegistry.dfy` | which capabilities and tasks are registered, as providers become configured and unconfigured |
| `ProcessTree.dfy` | the process tree under a root, including when building it does not end |
| `PodLogs.dfy` | log lines around the matches of a keyword |
| `RouteLookup.dfy` | longest-prefix lookup in the kernel's IPv4 and IPv6 route tables |
| `IsoDuration.dfy` | ISO 8601 durations translated to Go durations |
| `UnitFile.dfy`, `UnitContinuation.dfy` | the two parsers of systemd unit files, and where joining lines keeps to its documented rule |
| `ConfigDiff.dfy` | configuration differences between Kafka brokers and between topics |
| `LogDirRows.dfy`, `LogDirSizes.dfy` | the rows of replicas under filters, a bounded listing of them, and totals per topic |
| `ConfigLookup.dfy` | reading nested or dotted configuration, and the Graylog settings read from it |
| `Wrappers.dfy`, `Int64.dfy`, `Strconv.dfy`, `Text.dfy`, `Sorting.dfy` | what Go's library does where the modules need it |

Objects the program updates in place are classes (`HotSwap.State`, `Session.Client`,
`CapabilityRegistry.Registry`, `LogDirSizes.TopicAgg`, `LogDirSizes.Totals`), loops are loops, and each method is
proved against a function or predicate on values about which the lemmas are proved.

The two concurrent protocols are labelled transition systems. Every atomic step of every goroutine, and every
choice of the server or the environment, is a label; a label that is not enabled changes nothing. So a statement
about `Run(..., ls)` for every sequence of labels `ls` is a statement about every interleaving and every server.
`Wrappers.AnyOf` is the next key of a Go `range` over a map: any key that has not come up yet. Whatever is proved
of a method that uses it holds for every iteration order.

## What the proofs say about the code

Results where the code does less, or more, than one would expect; each is a lemma below.

* `autoconfig.Apply` re-takes its decision to recreate under the lock, after the build was done or skipped. A
  commit keeps every client accounted for exactly when that decision still stands, or a client was built that
  nobody need close (`HotSwap.CommitSoundIffDecisionStands`). Every interleaving is sound when `Recreate` does not
  depend on the old config among configs that differ from the new one, and only then if updates can lead from every
  config to every other (`HotSwap.SoundIffIgnoresOldConfig`): three overlapping calls can end with no client
  installed (`HotSwap.DependenceBreaksInv`). The Kubernetes provider's `Recreate` is of that kind
  (`HotSwap.KubernetesIsSelective`): from any config, a call that sets another namespace overlapped by one that
  sets another path leaves it without a client (`HotSwap.SelectiveRecreateCanInstallNoClient`). Calls made one at a
  time are sound for any `Recreate` (`HotSwap.SerialisedAppliesKeepInv`).
* Between registration and the first online configuration, the capability map holds the capabilities of every
  registered provider, configured or not (`CapabilityRegistry.Lifetime`). Afterwards it holds exactly those of the
  configured ones.
* The change callback fires when the capability map changes, and also on every update while some configured
  provider offers no capability (`CapabilityRegistry.FiresIffChangedOrEmptyProvider`).
* A live session can advertise an outdated capability list without anybody being about to close it, exactly when
  the list changed between building the Register message and publishing the stream. The configuration carried by
  the registration ack is applied in that stretch (`SessionAdvert.EffectiveConfigCanLeaveSessionStale`).
* With an odd maximum the backoff reaches it one unit early (`Backoff.DelayIsCappedDoubling`). The jitter bound
  passes through float64: the waits are exactly those in [d, d + d/2) iff float64 renders half the delay exactly
  and no sum leaves int64 (`Backoff.WaitRangeIff`). That is so up to 2^54 ns, and not for d = 2^54 + 6
  (`Backoff.WaitOutOfRange`). A wait is shorter than its delay for some draw exactly when delay plus jitter can
  leave int64 (`Backoff.WaitIsNeverShorterIffNoWrap`).
* With `maxContextLines` of 1 the first matching log line is left out as soon as a line precedes it
  (`PodLogs.FirstMatchIncludedIff`).
* `P1DT` is accepted, which RFC 3339 does not have as a duration (`IsoDuration.EmptyTimeAccepted`). What is
  accepted is a duration of its Appendix A exactly when something follows the P, something follows a T, and the
  units of the time are in order without a gap (`IsoDuration.DurationTextIff`). Amounts of days whose hours do not
  fit an int are accepted and change meaning (`IsoDuration.MeaningKeptIff`).
* `parseUnitFile` says it joins lines that end in a backslash. It does not look at backslashes: any line that is
  not blank, a comment or a header and has no `=` continues the pending value. Code and comment agree after every
  line of a file exactly when, with a key pending, a line is such a line iff the line before it, blank ones and
  comments aside, ends in a backslash (`UnitContinuation.DocumentedIffEveryLineFollows`; the rest of the condition
  is about keys without a name). If no key is given twice, that is also when the values in the end agree
  (`UnitContinuation.DocumentedIffFollowing`); otherwise a difference can be overwritten
  (`UnitContinuation.DifferenceCanBeOverwritten`). In `[S]`, `A=x \`, `B=y` the last line becomes a key of its own
  (`UnitContinuation.ContinuationWithEqualsIsSplit`).
* A capability that is not registered is routed by prefix, and the provider found can depend on map iteration
  order exactly when some provider's name continues another's after a dot
  (`CapabilityRegistry.LookupUnambiguousIff`).
* A route table without even a header line makes the IPv4 lookup panic (`RouteLookup.LookupIpv4Route`).
* The section tests in `parseGraylogConfig` never change its outcome (`ConfigLookup.SectionTestsAreRedundant`), so
  nested and flattened configurations give the same result even when a section is empty.

## What callers are assumed to do

* `HotSwap`: `Build` is supplied, as by all six providers; `Close` need not be.
* `CapabilityRegistry`: provider names are non-empty and distinct, and a capability is marked with no provider or
  with its own; `Lifetime` speaks of registrations that all succeed, with the callback set after them, as
  `cmd/marvin/main.go` does. Where a manifest goes is determined only if no name continues another after a dot;
  nothing else depends on that.
* `ProcessTree`: the directory lists every pid once, and the summary of a pid carries that pid.
* `PodLogs`: the number of lines is not negative.
* `Session` and `Backoff`: 0 < base <= max, which the constructor of the client establishes for positive settings.

## Model

| member | source | states |
|---|---|---|
| `HotSwap.State.constructor` | internal/provider/autoconfig/updater.go:25-27 | a new state has the given config and client, nothing queued and no drainer |
| `HotSwap.State.Commit` | internal/provider/autoconfig/updater.go:94-116 | the critical section: superseded when the config is already in place, else installs it, and when recreating installs the client and, with a Close, queues the old one and starts a drainer iff none is running |
| `HotSwap.State.TakePending` | internal/provider/autoconfig/updater.go:127-131 | the drainer takes the whole queue, in order, and lowers the flag |
| `HotSwap.State.Apply` | internal/provider/autoconfig/updater.go:51-123 | for each outcome (parse error, no change, build error, change without or with a new client) the result and the whole new state; an undisturbed call never discards a client, with a Close and without |
| `HotSwap.OtherStepsKeepInv` | internal/provider/autoconfig/updater.go:60-137 | every step other than a commit keeps each client in exactly one place and the drainer flag equal to the number of drainers before their take step |
| `HotSwap.CommitSoundIffDecisionStands` | internal/provider/autoconfig/updater.go:94-116 | a commit keeps those invariants iff it is superseded, or the recreate decision under the lock is the one taken before the build, or a client was built and there is no Close |
| `HotSwap.EveryInterleavingKeepsInv` | internal/provider/autoconfig/updater.go:51-137 | when `Recreate` does not depend on the old config: in every run each client ever built is in exactly one of an Apply in flight, the state, the queue, a drainer's batch, closed, let go of for want of a Close; a non-empty queue implies a drainer; and when it is always true the current client was built from the current config |
| `HotSwap.SoundIffIgnoresOldConfig` | internal/provider/autoconfig/updater.go:81-108 | when every config can be asked for from every other and `Equal` is symmetric: all runs keep the invariants iff `Recreate` gives the same for any two old configs that differ from the new one |
| `HotSwap.DependenceBreaksInv` | internal/provider/autoconfig/updater.go:81-108 | from an old config that wants no new client for the new one to another that does: a run of three calls that ends with no client installed |
| `HotSwap.NoDoubleCloseAndCurrentIsLive` | internal/provider/autoconfig/updater.go:51-137 | when `Recreate` does not depend on the old config: in every run no client is closed twice, and the current one is neither queued, held by a drainer or caller, nor closed or let go of |
| `HotSwap.StepsDecreaseMeasure` | internal/provider/autoconfig/updater.go:51-137 | every step except a new call strictly decreases a natural-number measure |
| `HotSwap.RunsWithoutCallsAreShort` | internal/provider/autoconfig/updater.go:51-137 | once calls stop, the number of further steps is bounded by that measure |
| `HotSwap.QuietMeansAllOthersClosed` | internal/provider/autoconfig/updater.go:109-137 | when no step is left, the queue is empty, no drainer runs, and exactly the clients other than the current one are closed or let go of |
| `HotSwap.AlwaysOneWayOut` | internal/provider/autoconfig/updater.go:97-114 | in every run, with a Close no client is just let go of, and without one none is closed or queued and no drainer starts |
| `HotSwap.QuietRunHasClosedAllOthers` | internal/provider/autoconfig/updater.go:51-137 | when `Recreate` does not depend on the old config: a run with no step left has, with a Close, closed exactly the clients other than the current one, once each, and without one let go of exactly these |
| `HotSwap.SerialisedAppliesKeepInv` | internal/registry/registry.go:203-238 | with calls one at a time, as under the registry's lock, the invariants hold for any `Recreate` |
| `HotSwap.KubernetesIsSelective` | internal/provider/kubernetes/provider.go:143-163 | with the options of that provider every config can be asked for, `Recreate` depends on the old config, and so not every interleaving keeps the invariants |
| `HotSwap.SelectiveRecreateCanInstallNoClient` | internal/provider/kubernetes/provider.go:141-168 | without the registry's lock, from any config: a call that sets another namespace overlapped by one that sets another path ends with no client installed |
| `Backoff.NextBackoff` | internal/controlplane/client.go:736-763 | on int64, without overflow in the doubling loop: the wait is the delay of the attempt plus a jitter below the bound, wrapped as the addition wraps |
| `Backoff.ViaFloat64Rounds` | internal/controlplane/client.go:756-761 | the conversion through float64 is to the nearest multiple of the spacing of 53-bit numbers there, ties to even |
| `Backoff.DelayIsCappedDoubling` | internal/controlplane/client.go:741-754 | the delay is base times 2^n capped at max; an odd max is reached one unit early |
| `Backoff.DelayNeverDecreases` | internal/controlplane/client.go:741-754 | more attempts never shorten the delay |
| `Backoff.WaitRange` | internal/controlplane/client.go:756-762 | up to 2^54 ns a wait is possible for delay d iff it is in [d, d + d/2), or is d when d < 2 |
| `Backoff.WaitRangeIff` | internal/controlplane/client.go:756-762 | for every delay in int64: the possible waits are exactly those iff half the delay is a float64 and delay plus half of it stays within int64 |
| `Backoff.WaitOutOfRange` | internal/controlplane/client.go:756-762 | for the delay 2^54 + 6 the wait d + d/2 is possible |
| `Backoff.WaitIsNeverShorterIffNoWrap` | internal/controlplane/client.go:756-762 | no wait is shorter than its delay iff the delay plus its largest jitter stays within int64 |
| `Session.Client.UpdateCapabilities` | internal/controlplane/client.go:669-684 | stores the new list and yields the live stream as the one to half-close, as the step StoreCaps of the machine does |
| `Session.Client.SetStream` | internal/controlplane/client.go:801-805 | makes the stream the live one, as the step PublishStream does |
| `Session.Client.ClearStream` | internal/controlplane/client.go:807-813 | clears the live stream only if it is the one given, as the step ClearSession does |
| `Session.Client.ApplyUpdateConfig` | internal/controlplane/client.go:765-793 | versions not above the last applied one are dropped, others are handed on and remembered, unversioned ones are always handed on |
| `SessionTasks.TokensAlwaysAccounted` | internal/controlplane/client.go:529-557 | in every run, across reconnects, semaphore tokens held are the admitted commands not finished, never more than the maximum, and the wait group counts the goroutines not returned |
| `SessionTasks.GracefulReturnMeansIdle` | internal/controlplane/client.go:467-474 | when a graceful Disconnect returns, every goroutine of every session has returned and no token is held |
| `SessionTasks.GracefulDisconnectWaits` | internal/controlplane/client.go:467-474 | in every run and every continuation of a graceful Disconnect: until the loop leaves the stream it stays where the message put it, with no further command received, and can leave as soon as no goroutine is in flight; when it first leaves, every goroutine of every session has returned and no token is held |
| `SessionTasks.OtherDisconnectLeavesAtOnce` | internal/controlplane/client.go:467-474 | any other Disconnect leaves the stream in the next state, whatever is running |
| `SessionTasks.ResultsAlwaysTraceable` | internal/controlplane/client.go:529-570 | in every run each result belongs to an admitted command, went out on its stream and carries its ids |
| `SessionTasks.OneResultPerCommand` | internal/controlplane/client.go:541-570 | two results never belong to the same received command |
| `SessionTasks.EveryCommandGetsATask` | internal/controlplane/client.go:529-557 | in every run and continuation, unless the agent is being closed, by the time the loop receives again a received command has a goroutine of its own, on the stream it came from |
| `SessionTasks.OutcomeIsReported` | internal/controlplane/client.go:559-632 | in every run a goroutine that has executed its command holds a result with the ids of that command and the outcome of the execution |
| `SessionTasks.NoResultLost` | internal/controlplane/client.go:541-557 | in every run in which no send of a reply fails, every goroutine of an open session that is past replying has its result sent |
| `SessionTasks.NothingSentAfterEnd` | internal/controlplane/client.go:715-734 | whatever follows a state, results sent after it go only to sessions open in it: not ended, and the agent not being closed |
| `SessionRounds.FirstReportAndRejection` | internal/controlplane/client.go:329-383 | in every run at most one value goes to the first-registration channel: nil iff there ever was a Registered ack, else the rejection that ended the run or the cancellation found before connecting; the run ends only by a permanent rejection or because it was cancelled; a permanent rejection is followed by no Connect, and once it has ended the run one value was sent |
| `SessionRounds.RoundsAlwaysCounted` | internal/controlplane/client.go:341-383 | in every run each round makes one attempt to connect, counts as registered iff it was acknowledged, and is followed by a wait of its own, the last one before the end excepted |
| `SessionRounds.PermanentRejectionIsFinal` | internal/controlplane/client.go:354-362 | in every run, whatever follows a permanent rejection, before or after the ack: no attempt to connect is made, and once the run has ended the first report is nil if there ever was an ack and the rejection otherwise |
| `SessionRounds.EndsOnlyIfRefused` | internal/controlplane/client.go:341-383 | in a run without such a rejection nothing permanent is recorded, and it ends only when cancelled |
| `SessionRounds.VersionsAlwaysFiltered` | internal/controlplane/client.go:765-793 | in every run the versions handed on are exactly the strict records of those received (and the unversioned ones), and the last applied version is the maximum received |
| `SessionRounds.UpdateIsHandedIffNewer` | internal/controlplane/client.go:765-793 | in every state of every run a version received in a message is recorded and reaches the handler iff it is unversioned or above all before it; a message without one changes nothing |
| `SessionRounds.EffectiveIsHandedIffNewer` | internal/controlplane/client.go:420-422 | the same of the version carried by an ack, however other steps interleave before it is applied |
| `SessionRounds.NewestIsMaximum` | internal/controlplane/client.go:771-779 | that maximum bounds every version received and is one of them when positive |
| `SessionRounds.RecordsIncrease` | internal/controlplane/client.go:771-779 | the positive versions handed on strictly increase |
| `SessionRounds.WaitsAlwaysInRange` | internal/controlplane/client.go:348-381 | in every run every wait is a backoff for the number of rounds since the start or the last round that registered |
| `SessionRounds.WaitsAlwaysExpected` | internal/controlplane/client.go:348-381 | with a maximum of up to 2^54 ns, in every run every wait is in [d, d + d/2) for the delay d of its number, or is d when d < 2 |
| `SessionAdvert.AlwaysAdvertisesLatest` | internal/controlplane/client.go:669-701 | in every run each Register message carries the list of its moment, and a list stored after the stream went live has that stream half-closed or about to be |
| `SessionAdvert.StaleOnlyIfUpdatedWhileRegistering` | internal/controlplane/client.go:394-431 | the live session advertises the current list or is being closed, iff it is being closed or the list was the same at publishing as when the message was built |
| `SessionAdvert.PublishingIsTheOnlyRisk` | internal/controlplane/client.go:428-431 | if the live session was current or closing before a step, it still is after it iff the step does not publish a stream whose Register message is outdated |
| `SessionAdvert.EffectiveConfigCanLeaveSessionStale` | internal/controlplane/client.go:420-431 | for any two different lists there is a run in which an update applied from the registration ack, after its version is recorded, leaves the session open and outdated |
| `SessionStops.CloseWindsDown` | internal/controlplane/client.go:294-327 | in every run, whatever follows the first Close: no new attempt to connect or to register, no wait, no result sent, and the stream that was live is half-closed or about to be |
| `SessionStops.SessionsAlwaysEnd` | internal/controlplane/client.go:428-449 | in every run the sessions whose context is cancelled are exactly those that were live and that the receive loop has left |
| `SessionStops.CanAlwaysStop` | internal/controlplane/client.go:294-383 | no deadlock: every run in which Close has been called has a continuation in which the loop has halted, every goroutine has returned, no token is held and no stream is left to half-close |
| `SessionStops.CanAlwaysReconnect` | internal/controlplane/client.go:341-441 | every run that has not ended, nor been refused or closed, has a continuation that receives on a new stream |
| `CapabilityRegistry.Registry.IsEnabledLocked` | internal/registry/registry.go:156-173 | true iff the filter is empty, holds the name as an entry without `*`, or has an entry with `*` that the glob matches without error |
| `CapabilityRegistry.Registry.ListEnabled` | internal/registry/registry.go:109-122 | exactly the registered capabilities whose name is so admitted, each once, in name order, marked enabled |
| `CapabilityRegistry.EnabledNames` | internal/registry/registry.go:109-122 | without a filter the names on the list are all registered ones; with one free of patterns the registered ones it holds; in general those that are in it or match one of its patterns |
| `CapabilityRegistry.FilterFromEitherForm` | internal/registry/registry.go:175-200 | a filter is read from a list of any values iff all are strings, and then as from the same list of strings; an empty or absent one sets none |
| `CapabilityRegistry.Registry.EmitChangedLocked` | internal/registry/registry.go:298-314 | with a callback: one more call, with the list ListEnabled would give; without: none |
| `CapabilityRegistry.Registry.RegisterProvider` | internal/registry/registry.go:56-99 | a provider that is off or a bad filter changes nothing; otherwise the provider is stored, the capabilities before the first invalid or duplicate one are added with their tasks, and the callback fires iff all were |
| `CapabilityRegistry.ValidNameIff` | pkg/capability/capability.go:12-60 | a name is valid iff it is one or more lower-case letters followed by one or more parts, each a dot and one or more lower-case letters or underscores |
| `CapabilityRegistry.AcceptedIs` | internal/registry/registry.go:80-95 | the capabilities taken are those before the first that is invalid, already registered, or repeated |
| `CapabilityRegistry.OffersExactly` | internal/registry/registry.go:256-269 | a provider offers an entry for each of its capability names, from the last of that name and marked with the provider unless it names one, and the task of that name if it has one |
| `CapabilityRegistry.RegistrationKeepsUnion` | internal/registry/registry.go:75-95 | an accepted registration keeps the capability and task maps the disjoint union of what the providers offer |
| `CapabilityRegistry.Registry.FindProviderByCapability` | internal/registry/registry.go:277-287 | a provider of that name, else one whose name and a dot begin the capability name, else none |
| `CapabilityRegistry.LookupUnambiguous` | internal/registry/registry.go:277-287 | when no provider name continues another after a dot at most one provider qualifies, so the iteration order does not matter |
| `CapabilityRegistry.LookupUnambiguousIff` | internal/registry/registry.go:277-287 | at most one provider qualifies for every capability name iff no provider name continues another after a dot |
| `CapabilityRegistry.DottedNamesAreAmbiguous` | internal/registry/registry.go:281-285 | of two providers named `a` and `a.b` either qualifies for `a.b.c` |
| `CapabilityRegistry.Registry.HasAnyCapabilityLocked` | internal/registry/registry.go:289-296 | true iff some registered capability is marked with the provider |
| `CapabilityRegistry.Registry.Route` | internal/registry/registry.go:208-238 | the provider a manifest reaches: the one a known capability is marked with, else one of that name or whose name and a dot begin it, and none only if there is none |
| `CapabilityRegistry.Registry.UpdateProviders` | internal/registry/registry.go:207-238 | each manifest goes to a provider it may reach, and each provider has been given, in order, exactly the configs that went to it; when no name continues another after a dot these are exactly those of the manifests that may reach it |
| `CapabilityRegistry.UpdatesInOrder` | internal/registry/registry.go:207-238 | a manifest with a config updates its target and no other provider, one without updates none, and more manifests are applied one after the other |
| `CapabilityRegistry.RoutingIsDetermined` | internal/registry/registry.go:207-238 | when no name continues another after a dot the manifests and their order determine what each provider is given, so map iteration order does not show |
| `CapabilityRegistry.HasAnyMeansOn` | internal/registry/registry.go:242-242 | the presence test finds a provider iff its capabilities are in and it has one |
| `CapabilityRegistry.Registry.ReconcileProvider` | internal/registry/registry.go:241-270 | one provider's turn makes it present iff configured and leaves the others as they were; it reports a change iff presence and configuration differed |
| `CapabilityRegistry.Registry.Reconcile` | internal/registry/registry.go:241-270 | in any order of the providers: afterwards both maps are the union of what the configured providers offer |
| `CapabilityRegistry.Registry.ApplyOnlineConfig` | internal/registry/registry.go:203-275 | providers updated in order, both maps the union over the configured providers, the callback called once with the enabled list iff the capability map changed or some configured provider offers nothing |
| `CapabilityRegistry.UnionIsUnique` | internal/registry/registry.go:241-270 | that union determines both maps, so no iteration order shows in them |
| `CapabilityRegistry.EnabledListIsUnique` | internal/registry/registry.go:298-314 | the enabled list is determined by the capability map and the filter |
| `CapabilityRegistry.FiresIffChangedOrEmptyProvider` | internal/registry/registry.go:242-274 | the callback condition holds iff the capability map changes or some configured provider offers nothing |
| `CapabilityRegistry.TakeTurns` | internal/registry/registry.go:203-275 | over any updates: each starts from the map the last one left, and calls back with its enabled list iff it changes the map or finds such a provider |
| `CapabilityRegistry.Lifetime` | internal/registry/registry.go:56-275 | after successful registrations every provider is in; after any positive number of updates exactly the configured ones are; the calls of the callback over the run are those of the updates that change the capability map or find a configured provider that offers nothing |
| `ProcessTree.Scan` | internal/provider/linux/process_tree.go:83-110 | exactly the entries whose user is the one asked for up to case, or all without a filter, each under its pid; and every such pid once among the children of its parent |
| `ProcessTree.KeptAreShown` | internal/provider/linux/process_tree.go:86-110 | a process is kept iff some entry with that pid passes the user filter, with the record of that entry |
| `ProcessTree.SortChildren` | internal/provider/linux/process_tree.go:112-115 | children in strictly increasing pid order, otherwise unchanged membership |
| `ProcessTree.EndsIffNotOwnAncestor` | internal/provider/linux/process_tree.go:118-138 | the recursive construction ends iff the root is not its own ancestor in the kept parent map |
| `ProcessTree.CycleNeverEnds` | internal/provider/linux/process_tree.go:131-136 | from a root on a cycle the recursion never ends, however far it is followed |
| `ProcessTree.TreeHoldsDescendants` | internal/provider/linux/process_tree.go:119-138 | the tree holds every kept descendant of the root exactly once and nothing else, every node with its own record under its parent, siblings in pid order |
| `ProcessTree.SiblingsDisjoint` | internal/provider/linux/process_tree.go:131-136 | two children of a process that is not its own ancestor share no descendant |
| `ProcessTree.BuildProcessTree` | internal/provider/linux/process_tree.go:69-148 | stated of the directory entries themselves: not found iff no entry with the root's pid passes the user filter; no end iff such entries lead from the root back to it; else the tree just described, whose nodes are such entries, with every such entry whose parent is in it |
| `PodLogs.FindMatches` | internal/provider/kubernetes/pod_logs.go:111-117 | the indices of the matching lines, increasing |
| `PodLogs.BuildWindows` | internal/provider/kubernetes/pod_logs.go:128-140 | one window per match, clipped to the log |
| `PodLogs.MergeWindows` | internal/provider/kubernetes/pod_logs.go:142-152 | windows sorted, separated by gaps, covering exactly the lines the given ones cover |
| `PodLogs.Emit` | internal/provider/kubernetes/pod_logs.go:154-162 | the lines of the windows in order, cut after the maximum |
| `PodLogs.MergedAreNear` | internal/provider/kubernetes/pod_logs.go:129-152 | the merged windows list exactly the lines within half the context of a match, in order and once each |
| `PodLogs.ExtractLogContext` | internal/provider/kubernetes/pod_logs.go:103-165 | with a keyword: the lines at most one line, or half the maximum, away from a line that holds it, both in lower case, in order, the first `maxContextLines` of them; without: the last `maxContextLines` lines |
| `PodLogs.NearIndicesInOrder` | internal/provider/kubernetes/pod_logs.go:123-162 | that simple form lists each such index once, increasing, and no other |
| `PodLogs.NearIsContext` | internal/provider/kubernetes/pod_logs.go:111-162 | stated of the lines alone, that simple form lists the lines with a mention of the keyword no further away than one line or half the maximum |
| `PodLogs.FirstMatchIncludedIff` | internal/provider/kubernetes/pod_logs.go:123-162 | the first matching line is returned iff the maximum is two or more, or is one and no line precedes it |
| `RouteLookup.Ipv4HexRoundTrip` | internal/provider/linux/route_list.go:208-214 | reading the hexadecimal word the kernel prints gives back the address |
| `RouteLookup.MaskBitsFromIpv4` | internal/provider/linux/route_list.go:216-240 | the number of ones before the first zero; 0 for an unparsable mask |
| `RouteLookup.LeadingOnesAre` | internal/provider/linux/route_list.go:229-239 | n ones followed by a zero or the end count as n |
| `RouteLookup.ReverseGroups` | internal/provider/linux/route_list.go:254-260 | in place, every group of four bytes reversed |
| `RouteLookup.ParseIpv6Hex` | internal/provider/linux/route_list.go:242-262 | 16 bytes from 32 hexadecimal digits with the bytes of each group reversed; nothing for any other text |
| `RouteLookup.Ipv6TextIff` | internal/provider/linux/route_list.go:242-262 | a field is read as an address iff it is 32 digits, in either case, that write its bytes with every group of four reversed |
| `RouteLookup.Ipv4InNetwork` | internal/provider/linux/route_lookup.go:208-221 | true iff both fields parsed and the addresses have the same bit wherever the mask has a one |
| `RouteLookup.Ipv6InNetwork` | internal/provider/linux/route_lookup.go:225-250 | true iff the destination parsed, the prefix length is in 0..128 and the top bits agree |
| `RouteLookup.ContiguousMasked` | internal/provider/linux/route_lookup.go:215-219 | for a contiguous mask the byte-wise test is agreement of the top n bits |
| `RouteLookup.AgreeByBytes` | internal/provider/linux/route_lookup.go:235-248 | agreement of the top n bits is equality of the full bytes and of the masked rest |
| `RouteLookup.LookupIpv4Route` | internal/provider/linux/route_lookup.go:83-142 | a panic on a table without lines; otherwise nil iff no row contains the address, else the earliest row among those with the longest prefix (section 5.2.4.3 of RFC 1812), read off that row: its interface, metric, gateway and target |
| `RouteLookup.LookupIpv6Route` | internal/provider/linux/route_lookup.go:144-204 | the same over decoded IPv6 rows, with the source the row gives |
| `RouteLookup.OnlyOneIsChosen` | internal/provider/linux/route_lookup.go:115-119 | that description determines the answer |
| `RouteLookup.ReportedIpv4Row` | internal/provider/linux/route_lookup.go:100-138 | the answer is read off the first of the rows with the longest prefix that contain the address: interface from field 0, metric from field 6, as gateway the address whose hexadecimal word is field 2, and none iff that is zero |
| `RouteLookup.ReportedIpv6Row` | internal/provider/linux/route_lookup.go:155-202 | for IPv6: interface from field 9, metric from field 5, gateway from field 4, source from fields 2 and 3 |
| `RouteLookup.InsideIffMaskCovers` | internal/provider/linux/route_lookup.go:208-221 | of two networks that share an address, the first lies inside the second iff its mask has all the ones of the second's |
| `RouteLookup.ChosenIpv4IsInnermost` | internal/provider/linux/route_lookup.go:112-119 | with contiguous masks the chosen network is contained in every other matching network |
| `RouteLookup.ChosenIpv6IsInnermost` | internal/provider/linux/route_lookup.go:171-177 | for IPv6 the same, always |
| `RouteLookup.ReportedIpv4HoldsAddress` | internal/provider/linux/route_lookup.go:122-127 | with a contiguous mask the target reported for a row that contains the address holds it and has the length of the mask, as the default, a network or the address itself |
| `RouteLookup.ReportedIpv4IsLongest` | internal/provider/linux/route_lookup.go:83-142 | for a whole table whose matching masks are contiguous: nil iff no row contains the address, and the reported target holds it with a length that no row containing it exceeds |
| `RouteLookup.ReportedIpv6HoldsAddress` | internal/provider/linux/route_lookup.go:183-186 | a row is a candidate iff its network contains the address, and the target reported for it holds it with that length |
| `RouteLookup.ReportedIpv6IsLongest` | internal/provider/linux/route_lookup.go:144-204 | the same for a whole IPv6 table, whatever its rows |
| `IsoDuration.ConsumeIsoPart` | internal/provider/azure/client.go:800-818 | takes out the first marker with the digits before it; fails without digits or beyond int |
| `IsoDuration.ConsumeAround` | internal/provider/azure/client.go:800-818 | on text before, digits, marker, text after, where the marker is the first and the text before does not end in a digit: the number, and the text without them |
| `IsoDuration.Unconsume` | internal/provider/azure/client.go:800-818 | whenever consuming leaves a text of blocks, the input was those blocks with one more between them |
| `IsoDuration.ConsumeAllOfOnce` | internal/provider/azure/client.go:776-793 | blocks with each unit at most once, in any order, are consumed to nothing with the amount of each unit |
| `IsoDuration.OnceOfConsumeAll` | internal/provider/azure/client.go:776-794 | only such texts are consumed to nothing |
| `IsoDuration.Iso8601DurationToGo` | internal/provider/azure/client.go:754-798 | computes the specification `Translate`, which the next rows characterise without it |
| `IsoDuration.AcceptedIff` | internal/provider/azure/client.go:754-798 | accepted iff it is P, an optional block of days, and optionally T with at most one block each of hours, minutes and seconds in any order, with amounts that fit an int and a total that is not zero |
| `IsoDuration.MeaningKeptIff` | internal/provider/azure/client.go:773-797 | the result denotes the same number of seconds iff the days times 24 fit an int |
| `IsoDuration.DenotesOne` | internal/provider/azure/client.go:781-797 | a Go duration of whole hours, minutes and seconds denotes one number of seconds |
| `IsoDuration.DurationTextAccepted` | internal/provider/azure/client.go:754-798 | every duration of Appendix A of RFC 3339 made of days and times whose amounts fit an int is accepted iff it is not zero |
| `IsoDuration.DurationTextIff` | internal/provider/azure/client.go:754-798 | what the accepted grammar writes is such a duration iff something follows the P, something follows a T, and hours are followed only by minutes and minutes only by seconds |
| `IsoDuration.EmptyTimeAccepted` | internal/provider/azure/client.go:760-764 | `P1DT` is accepted and is no such duration |
| `UnitFile.FragmentsAre` | internal/provider/linux/systemd_helpers.go:183-214 | the sections of a file are its headers; a section has a value for a key iff some line assigns it under that header, and its fragments are the value on the last such line and the texts of the lines without `=` after it, up to the next header or assignment |
| `UnitFile.KindIs` | internal/provider/linux/systemd_helpers.go:183-199 | a line is skipped iff nothing is left of it without blanks or it begins with `#` or `;` then, a header iff it stands in brackets, else an assignment iff it has an `=` |
| `UnitFile.TrimIs` | internal/provider/linux/systemd_helpers.go:184-184 | trimming takes off blanks at both ends and nothing else |
| `UnitFile.ParseSystemdUnit` | internal/provider/linux/systemd_helpers.go:50-76 | for every file: the first fragment of every value of every section |
| `UnitFile.Flush` | internal/provider/linux/systemd_helpers.go:176-181 | trimming the pending value changes no words |
| `UnitFile.WordsAre` | internal/provider/linux/systemd_helpers.go:217-224 | words are parted by backslashes and white space, and a text with neither is one word |
| `UnitFile.ParseUnitFile` | internal/provider/linux/systemd_helpers.go:171-226 | for every file: the words of all fragments of every value, joined by single blanks |
| `UnitFile.SameSectionsAndKeys` | internal/provider/linux/systemd_helpers.go:50-226 | both parsers find the same sections and keys in every file |
| `UnitFile.ValuesAgreeIff` | internal/provider/linux/systemd_helpers.go:210-224 | the joined value is the normalised first line iff no continuation line adds a word |
| `UnitContinuation.StepFollowsIff` | internal/provider/linux/systemd_helpers.go:169-213 | one line does the same in the code and in the documented reading iff, with a key pending, it is a line to join exactly when the value goes on |
| `UnitContinuation.DocumentedIffEveryLineFollows` | internal/provider/linux/systemd_helpers.go:169-213 | code and documented reading agree after every line of a file iff, with a key pending, each line is one to join exactly when the line before it, skipped ones aside, ends in a backslash, and none follows a nameless key whose value goes on |
| `UnitContinuation.DocumentedWhenFollowing` | internal/provider/linux/systemd_helpers.go:169-213 | a file whose lines all follow has the fragments the documented rule gives |
| `UnitContinuation.DocumentedIffFollowing` | internal/provider/linux/systemd_helpers.go:169-213 | when no key is given a value on two lines, the fragments of the whole file are those of the rule iff every line follows |
| `UnitContinuation.DifferenceCanBeOverwritten` | internal/provider/linux/systemd_helpers.go:199-208 | a concrete file that gives a key twice, breaks the rule in between and has the fragments of the rule |
| `UnitContinuation.ContinuationWithEqualsIsSplit` | internal/provider/linux/systemd_helpers.go:199-213 | a concrete file whose continued value is split into two keys |
| `ConfigDiff.Collect` | internal/provider/kafka/broker_config_diff.go:65-84 | the table holds exactly the settings read: per wanted key and identifier the last entry of the last resource read without error that has the key, hidden if sensitive, empty if it has no value |
| `ConfigDiff.TableIsRead` | internal/provider/kafka/broker_config_diff.go:65-84 | the settings in force, as the loops meet them, are exactly those read in that sense |
| `ConfigDiff.TableIsUnique` | internal/provider/kafka/broker_config_diff.go:65-84 | which determines the table |
| `ConfigDiff.CountVotes` | internal/provider/kafka/broker_config_diff.go:97-100 | for each value the number of identifiers that hold it, in any iteration order |
| `ConfigDiff.MostCommon` | internal/provider/kafka/broker_config_diff.go:105-115 | a value held by the most identifiers, the smallest of them on a tie |
| `ConfigDiff.Outliers` | internal/provider/kafka/broker_config_diff.go:117-123 | the identifiers with another value, each once, in order |
| `ConfigDiff.ReferenceLeavesFewest` | internal/provider/kafka/broker_config_diff.go:105-122 | no reference value leaves fewer outliers than the most common one |
| `ConfigDiff.Diff` | internal/provider/kafka/topic_config_diff.go:76-127 | one entry for each key whose values differ, with its outliers, in the order of the keys |
| `ConfigDiff.ReportedIffDiffer` | internal/provider/kafka/broker_config_diff.go:88-95 | a key is reported iff two of its values are different |
| `ConfigDiff.FewestOutliers` | internal/provider/kafka/broker_config_diff.go:105-129 | an entry lists no more outliers than any other reference value would leave |
| `ConfigDiff.ReportIsUnique` | internal/provider/kafka/broker_config_diff.go:86-132 | the report is determined by the table, so map iteration order does not show |
| `ConfigDiff.BrokerConfigDiff` | internal/provider/kafka/broker_config_diff.go:60-137 | brokers, by number: the report of the settings read |
| `ConfigDiff.TopicConfigDiff` | internal/provider/kafka/topic_config_diff.go:52-132 | topics, by name: the report of the settings read, by the same specification |
| `ConfigDiff.OutcomeIsUnique` | internal/provider/kafka/topic_config_diff.go:52-127 | the settings read determine what either reports |
| `LogDirRows.SortedLogDirs` | internal/provider/kafka/logdir_helpers.go:53-61 | a directory is in the result iff it is in the input and the filter is empty or holds its broker; their order is kept |
| `LogDirRows.RowsAreTraversal` | internal/provider/kafka/logdir_replica_sizes.go:60-95 | under the filters the rows are the replicas of the directories whose broker is asked for, of the topics asked for, one row each: directories in their order, within one by topic and then partition |
| `LogDirSizes.ReplicaSizes` | internal/provider/kafka/logdir_replica_sizes.go:53-106 | the first `limit` rows of that traversal, stated of the directories and filters alone; truncated iff there are more; the total is the sum of the listed sizes, wrapped to int64 |
| `LogDirSizes.ListedIff` | internal/provider/kafka/logdir_replica_sizes.go:53-106 | a replica is on a listing that was not truncated iff some directory holds it with that broker, path, topic, partition and size, no broker filter or one that holds its broker, and no topic filter or one that holds its topic |
| `LogDirSizes.TopicAgg.Add` | internal/provider/kafka/storage_topic_sizes.go:75-77 | one partition adds its size to the total and to its broker, and counts once |
| `LogDirSizes.Totals.AddRow` | internal/provider/kafka/storage_topic_sizes.go:69-78 | the records hold the sums of the rows visited so far, and one more row keeps them so |
| `LogDirSizes.Aggregate` | internal/provider/kafka/storage_topic_sizes.go:62-80 | in any iteration order the records are the sums of the rows of the same traversal the listing makes |
| `LogDirSizes.TopicSizes` | internal/provider/kafka/storage_topic_sizes.go:49-115 | the topics that have partitions under the filters, stated of the directories and filters alone, in order, with total, per-broker sizes in order, and partition count |
| `LogDirSizes.ReportedIff` | internal/provider/kafka/storage_topic_sizes.go:49-115 | a topic is reported iff there is such a replica of it |
| `LogDirSizes.TotalIsSumOfBrokers` | internal/provider/kafka/storage_topic_sizes.go:69-77 | each topic's total is the sum of its per-broker sizes, modulo 2^64 |
| `LogDirSizes.ListingTotalsTopics` | internal/provider/kafka/logdir_replica_sizes.go:56-106 | under the same filters a listing that was not truncated totals the sum of all topic totals, modulo 2^64 |
| `LogDirSizes.ReportsAgree` | internal/provider/kafka/storage_topic_sizes.go:49-115 | both laws of the reports themselves: the total listed is the sum of the topic totals reported, and each of these the sum of its brokers |
| `LogDirSizes.BothReports` | internal/provider/kafka/logdir_replica_sizes.go:53-106 | both operations run on the same directories under the same filters return reports for which this holds |
| `LogDirSizes.ReportIsUnique` | internal/provider/kafka/storage_topic_sizes.go:62-115 | the directories and filters determine the topic report, so map iteration order does not show |
| `LogDirSizes.ExactWithinRange` | internal/provider/kafka/logdir_replica_sizes.go:57-90 | the total of a listing, and every topic total, is the true sum iff that sum is within int64 |
| `ConfigLookup.Lookup` | internal/provider/autoconfig/extract.go:9-34 | the value under the key itself, else what the dotted path leads to through maps |
| `ConfigLookup.HasSectionPrefix` | internal/provider/autoconfig/extract.go:39-49 | true iff some key is the prefix or begins with it and a dot |
| `ConfigLookup.AsStringSlice` | internal/provider/autoconfig/extract.go:189-210 | these strings exactly if the value is a list of them, in either representation |
| `ConfigLookup.LeafIffWalk` | internal/provider/autoconfig/extract.go:17-33 | in a nested map with dot-free keys the leaves are exactly what dotted paths lead to |
| `ConfigLookup.FlattenIsFlattening` | internal/provider/autoconfig/extract.go:9-33 | every nested map has a flattening, with a dotted key for each of its leaves and no other |
| `ConfigLookup.LookupAgreesIff` | internal/provider/autoconfig/extract.go:9-34 | for every key the lookup on the flattening gives what it gives on the nested map, except where that is a section |
| `ConfigLookup.ReadersAgree` | internal/provider/autoconfig/extract.go:56-122 | every typed reader gives the same on both, for every key |
| `ConfigLookup.ReadOnlyTheirKind` | internal/provider/autoconfig/extract.go:51-151 | strings, truth values and lists of strings are read from the values that hold them and no others |
| `ConfigLookup.SecondsAreRead` | internal/provider/autoconfig/extract.go:166-187 | a whole number is read as that many seconds iff it is not negative and they fit a duration |
| `ConfigLookup.SectionAgreesIff` | internal/provider/autoconfig/extract.go:39-49 | the section test agrees on both iff the section is not there without a leaf |
| `ConfigLookup.SectionTestsAreRedundant` | internal/provider/log/provider.go:89-94 | the guards on the sections never change what is parsed |
| `ConfigLookup.SameFromEitherForm` | internal/provider/log/provider.go:79-135 | a configuration parses to the same from its nested and its flattened form |
| `ConfigLookup.OneAuthKeySetsOneField` | internal/provider/log/provider.go:79-116 | an update of one authentication key sets the field of that name and leaves every other field of the configuration as it was |
| `ConfigLookup.OneGuardrailSetsOneField` | internal/provider/log/provider.go:118-135 | an update of one guardrail by a number sets the field of that name, durations in seconds, and leaves every other field as it was |
| `ConfigLookup.PlainKeysSetTheirField` | internal/provider/log/provider.go:79-87 | an update of the url or the timeout sets that and nothing else |
| `ConfigLookup.ParseTwiceIsOnce` | internal/provider/log/provider.go:79-135 | parsing the same update again changes nothing |

## Left out

- Streams, TLS, HTTP, Kubernetes, Azure, Kafka and netlink client libraries: a stream is a source of arbitrary messages, and Build, Close and the work of a command are abstract actions.
- Parameter plumbing of capabilities, JSON schemas, logging, percentages and formatting of addresses and times: no logic beyond calls.
- The heartbeat loop: its error only matters once the receive loop has returned, and then it is a free choice of the model.
- Which error ends a session, other than a permanent rejection: it is only logged.
- Deadlines, parameter decoding and panics inside a command's execution: a command ends with success or failure, with its ids.
- The unlocked write of the closing function in `Apply`, and `Apply` without Build.
- Duplicate provider names and registrations that fail half-way in `Lifetime`: `RegisterProvider` says what one such registration leaves behind, but no claim about runs follows.
- Calls that overtake each other while the registry's lock is released around the callback: a registry method is one step.
- Go's path.Match, strings.ToLower, strings.EqualFold, fmt.Sscanf and time.ParseDuration: function parameters of any behaviour.
- strings.TrimSpace and strings.ToUpper before an ISO 8601 value is read: the model starts from their result.
- strings.Fields on route tables: a line is the sequence of its fields.
- The sort algorithms: a sorted permutation, which is unique where the order is total.
- Float arithmetic in `extract.go`, NaN and infinities included: conversions from floats are parameters.
- `Iso8601DurationToGo`: overflow of the resulting Go duration in nanoseconds when it is parsed later is not modelled.
- `LookupIpv6Route`: agreement of the row decoding with the kernel's text format is not claimed, and metrics break no ties, because the first row wins.
- `MaskBitsFromIpv4`: the first counting pass of the source, whose result is discarded, is not modelled.
- `DocumentedIffEveryLineFollows`: only the rule the doc comment states is the other side; what systemd itself does with blank lines and comments inside a continued value is not modelled.
- Redaction policies, path allow-lists and authentication.
