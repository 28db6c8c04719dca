/** The wiring of kprobe/kprobe-userspace/src/main.rs: the policy client, the pod watcher,
    the forwarder between their channels and the task that runs VerdictSync, interleaved
    one step at a time. */
module SyncSignals {
  import opened Collections
  import opened PolicyCaches
  import opened Kernel
  import opened VerdictSyncs
  import opened PodWatchers
  import opened Enforcement

  /** Capacity of both channels. */
  const CHANNEL: nat := 32

  /** One run of sync: the maps it starts from, what it read, the orders it meets. */
  datatype Job = Job(start: KernelMaps, policy: Policy, pods: Pods, keys: seq<PacketKey>, names: seq<string>)

  datatype Task =
    | Waiting
    | Woken
    | HasPolicy(policy: Policy)
    | Syncing(job: Job, next: nat)

  datatype State = State(
    policy: Policy,
    clientPending: bool,      // the client has applied a bundle and is about to signal
    pods: Pods,
    initializing: bool,       // between Init and InitDone
    watcherPending: bool,     // the watcher is about to send Changed
    podQueue: nat,
    forwarding: bool,         // the forwarder holds a received change
    syncQueue: nat,
    task: Task,
    maps: KernelMaps,
    last: Job                 // the latest completed sync
  )

  /** The flag starts as allow-all and the map empty, which is what a sync of the initial
      policy and no pods would leave. */
  const BOOT_MAPS: KernelMaps := KernelMaps(map[], 1)

  const BOOT: State :=
    State(INITIAL, false, map[], false, false, 0, false, 0, Waiting, BOOT_MAPS,
          Job(BOOT_MAPS, INITIAL, map[], [], []))

  datatype Step =
    | PolicyBundle(policy: Policy)
    | CertBundle
    | ClientSend
    | Watch(event: Event, parse: string -> Option<Ipv4>, pods: Pods)
    | WatcherSend
    | ForwarderReceive
    | ForwarderSend
    | Wake
    | ReadPolicy
    | ReadPods(keys: seq<PacketKey>, names: seq<string>)
    | PerformWrite
    | FinishSync

  /** The steps the agent takes on its own, as opposed to news from outside. */
  predicate Internal(step: Step) {
    !step.PolicyBundle? && !step.CertBundle? && !step.Watch?
  }

  ghost predicate Sound(job: Job) {
    SyncOrders(job.start, job.pods, job.keys, job.names)
  }

  ghost function JobWrites(job: Job): seq<Write>
    requires Sound(job)
  {
    SyncWrites(job.policy, job.pods, job.keys, job.names)
  }

  ghost predicate Enabled(s: State, step: Step) {
    match step
    case PolicyBundle(_) => !s.clientPending
    case CertBundle => !s.clientPending
    case ClientSend => s.clientPending && s.syncQueue < CHANNEL
    case Watch(event, parse, pods) =>
      !s.watcherPending && Tidy(pods) && Pairs(pods) == PairsAfterEvent(Pairs(s.pods), event, parse)
    case WatcherSend => s.watcherPending && s.podQueue < CHANNEL
    case ForwarderReceive => !s.forwarding && s.podQueue > 0
    case ForwarderSend => s.forwarding && s.syncQueue < CHANNEL
    case Wake => s.task.Waiting? && s.syncQueue > 0
    case ReadPolicy => s.task.Woken?
    case ReadPods(keys, names) => s.task.HasPolicy? && SyncOrders(s.maps, s.pods, keys, names)
    case PerformWrite => s.task.Syncing? && Sound(s.task.job) && s.task.next < |JobWrites(s.task.job)|
    case FinishSync => s.task.Syncing? && Sound(s.task.job) && s.task.next == |JobWrites(s.task.job)|
  }

  ghost function Do(s: State, step: Step): State
    requires Enabled(s, step)
  {
    match step
    case PolicyBundle(policy) => s.(policy := policy, clientPending := true)
    case CertBundle => s.(clientPending := true)
    case ClientSend => s.(clientPending := false, syncQueue := s.syncQueue + 1)
    case Watch(event, parse, pods) =>
      s.(pods := pods, watcherPending := Signals(event, parse),
         initializing := if event.Init? then true else if event.InitDone? then false else s.initializing)
    case WatcherSend => s.(watcherPending := false, podQueue := s.podQueue + 1)
    case ForwarderReceive => s.(forwarding := true, podQueue := s.podQueue - 1)
    case ForwarderSend => s.(forwarding := false, syncQueue := s.syncQueue + 1)
    case Wake => s.(task := Woken, syncQueue := s.syncQueue - 1)
    case ReadPolicy => s.(task := HasPolicy(s.policy))
    case ReadPods(keys, names) => s.(task := Syncing(Job(s.maps, s.task.policy, s.pods, keys, names), 0))
    case PerformWrite =>
      s.(maps := VerdictSyncs.Apply(s.maps, JobWrites(s.task.job)[s.task.next]), task := s.task.(next := s.task.next + 1))
    case FinishSync => s.(task := Waiting, last := s.task.job)
  }

  /** The state a list of steps leads to, if each is possible when it is taken. */
  ghost function Run(s: State, steps: seq<Step>): Option<State>
    decreases |steps|
  {
    if steps == [] then Some(s)
    else if Enabled(s, steps[0]) then Run(Do(s, steps[0]), steps[1..])
    else None
  }

  /** The state after a list of steps from boot. */
  ghost function After(steps: seq<Step>): Option<State> {
    Run(BOOT, steps)
  }

  // ---- The invariant ----

  /** A policy read earlier is the present one, or a signal about a newer one is on its way. */
  ghost predicate PolicyFresh(s: State, p: Policy) {
    p == s.policy || s.clientPending || s.syncQueue > 0
  }

  ghost predicate PodsFresh(s: State, pods: Pods) {
    pods == s.pods || s.initializing || s.watcherPending || s.podQueue > 0 || s.forwarding || s.syncQueue > 0
  }

  ghost predicate MapsAt(s: State, job: Job, next: nat) {
    Sound(job) && next <= |JobWrites(job)| && s.maps == ApplyAll(job.start, JobWrites(job)[..next])
  }

  /** The maps a completed sync left behind. */
  ghost predicate LeftBy(m: KernelMaps, job: Job) {
    Sound(job) && m == Synced(job.start, job.policy, job.pods, job.keys, job.names)
  }

  ghost predicate TaskInv(s: State) {
    match s.task
    case Waiting => PolicyFresh(s, s.last.policy) && PodsFresh(s, s.last.pods) && LeftBy(s.maps, s.last)
    case Woken => LeftBy(s.maps, s.last)
    case HasPolicy(p) => PolicyFresh(s, p) && LeftBy(s.maps, s.last)
    case Syncing(job, next) =>
      PolicyFresh(s, job.policy) && PodsFresh(s, job.pods) && MapsAt(s, job, next) && LeftBy(job.start, s.last)
  }

  ghost predicate Inv(s: State) {
    s.podQueue <= CHANNEL && s.syncQueue <= CHANNEL && Tidy(s.pods) && TaskInv(s)
  }

  lemma BootInv()
    ensures Inv(BOOT)
  {
    var ws := SyncWrites(INITIAL, map[], [], []);
    assert ws == [SetFlag(1)];
    ApplyOne(BOOT_MAPS, SetFlag(1));
    assert BOOT_MAPS.verdicts.Keys == {};
  }

  lemma WriteAdvances(s: State)
    requires Inv(s) && Enabled(s, PerformWrite)
    ensures TaskInv(Do(s, PerformWrite))
  {
    hide SyncWrites, VerdictSyncs.Apply, LeftBy;
    var ws, n := JobWrites(s.task.job), s.task.next;
    assert ws[..n + 1][..n] == ws[..n];
  }

  /** An event that neither signals nor restarts the watch leaves the snapshot alone. */
  lemma SilentEventKeepsPods(s: State, step: Step)
    requires Inv(s) && Enabled(s, step) && step.Watch? && !Signals(step.event, step.parse) && !step.event.Init?
    ensures step.pods == s.pods
  {
    TidyIsCanonical(step.pods, s.pods);
  }

  lemma OtherStepKeepsTask(s: State, step: Step)
    requires Inv(s) && Enabled(s, step) && !step.PerformWrite?
    ensures TaskInv(Do(s, step))
  {
    var s' := Do(s, step);
    if step.Watch? && !s'.watcherPending && !s'.initializing {
      SilentEventKeepsPods(s, step);
    }
    if step.FinishSync? {
      assert JobWrites(s.task.job)[..s.task.next] == JobWrites(s.task.job);
    }
    if step.ReadPods? {
      assert JobWrites(s'.task.job)[..0] == [];
    }
  }

  lemma StepKeepsInv(s: State, step: Step)
    requires Inv(s) && Enabled(s, step)
    ensures Inv(Do(s, step))
  {
    if step.PerformWrite? {
      WriteAdvances(s);
    } else {
      OtherStepKeepsTask(s, step);
    }
  }

  lemma {:induction false} RunKeepsInv(s: State, steps: seq<Step>)
    requires Inv(s) && Run(s, steps).Some?
    ensures Inv(Run(s, steps).value)
    decreases |steps|
  {
    if steps != [] {
      StepKeepsInv(s, steps[0]);
      RunKeepsInv(Do(s, steps[0]), steps[1..]);
    }
  }

  lemma AlwaysInv(steps: seq<Step>)
    requires After(steps).Some?
    ensures Inv(After(steps).value)
  {
    BootInv();
    RunKeepsInv(BOOT, steps);
  }

  // ---- What the agent has heard of ----

  /** The policy of the last PolicyBundle step, or the one before the first. */
  ghost function Told(steps: seq<Step>): Policy {
    if steps == [] then INITIAL
    else if steps[|steps| - 1].PolicyBundle? then steps[|steps| - 1].policy
    else Told(steps[..|steps| - 1])
  }

  /** The watch events among the steps, in order. */
  ghost function Watched(steps: seq<Step>): seq<Event> {
    if steps == [] then []
    else
      var head, last := steps[..|steps| - 1], steps[|steps| - 1];
      Watched(head) + if last.Watch? then [last.event] else []
  }

  /** All watch events are read with one address parser. */
  ghost predicate OneParser(steps: seq<Step>, parse: string -> Option<Ipv4>) {
    forall i :: 0 <= i < |steps| && steps[i].Watch? ==> steps[i].parse == parse
  }

  /** The watch has restarted and its new list is not complete. */
  ghost predicate Restarting(events: seq<Event>) {
    exists i :: RestartedAt(events, i)
  }

  ghost predicate RestartedAt(events: seq<Event>, i: int) {
    0 <= i < |events| && events[i].Init? && forall j :: i < j < |events| ==> !events[j].InitDone?
  }

  lemma RestartingSnoc(events: seq<Event>, e: Event)
    ensures Restarting(events + [e]) <==> e.Init? || (Restarting(events) && !e.InitDone?)
  {
    var all, n := events + [e], |events|;
    assert all[n] == e;
    forall i ensures RestartedAt(all, i) <==> if i == n then e.Init? else RestartedAt(events, i) && !e.InitDone? {
      if 0 <= i < n {
        assert all[i] == events[i] && forall j :: i < j < n ==> events[j] == all[j];
        assert RestartedAt(all, i) ==> !all[n].InitDone?;
      }
    }
    assert e.Init? ==> RestartedAt(all, n);
    if i :| RestartedAt(events, i) {
      assert !e.InitDone? ==> RestartedAt(all, i);
    }
  }

  lemma {:induction false} RunSnoc(s: State, steps: seq<Step>, step: Step)
    ensures Run(s, steps + [step]) ==
            var r := Run(s, steps);
            if r.Some? && Enabled(r.value, step) then Some(Do(r.value, step)) else None
    decreases |steps|
  {
    if steps == [] {
      assert [] + [step] == [step] && [step][1..] == [];
    } else {
      assert (steps + [step])[1..] == steps[1..] + [step];
      if Enabled(s, steps[0]) {
        RunSnoc(Do(s, steps[0]), steps[1..], step);
      }
    }
  }

  /** In every reachable state the policy is the last one pushed, the snapshot stands for the
      relation the watch events define, and the agent knows whether the watch is restarting. */
  lemma {:induction false} InputsOfRun(steps: seq<Step>, parse: string -> Option<Ipv4>)
    requires After(steps).Some? && OneParser(steps, parse)
    ensures var s := After(steps).value;
            && s.policy == Told(steps)
            && Pairs(s.pods) == PairsAfter({}, Watched(steps), parse) && Tidy(s.pods)
            && (s.initializing <==> Restarting(Watched(steps)))
  {
    AlwaysInv(steps);
    if steps != [] {
      var head, last := steps[..|steps| - 1], steps[|steps| - 1];
      assert steps == head + [last];
      RunSnoc(BOOT, head, last);
      assert OneParser(head, parse) by {
        assert forall i :: 0 <= i < |head| ==> head[i] == steps[i];
      }
      InputsOfRun(head, parse);
      StepHears(After(head).value, last, Watched(head), parse);
      assert Watched(head) + [] == Watched(head);
    }
  }

  lemma StepHears(s: State, step: Step, events: seq<Event>, parse: string -> Option<Ipv4>)
    requires Enabled(s, step) && (step.Watch? ==> step.parse == parse)
    requires Pairs(s.pods) == PairsAfter({}, events, parse) && (s.initializing <==> Restarting(events))
    ensures var s', all := Do(s, step), if step.Watch? then events + [step.event] else events;
            Pairs(s'.pods) == PairsAfter({}, all, parse) && (s'.initializing <==> Restarting(all))
    ensures Do(s, step).policy == if step.PolicyBundle? then step.policy else s.policy
  {
    if step.Watch? {
      RestartingSnoc(events, step.event);
      assert (events + [step.event])[..|events|] == events;
    }
  }

  // ---- Signals are neither lost nor made up ----

  datatype Kind = Bundles | Changes | ClientSends | WatcherSends | Receives | ForwarderSends | Wakes

  predicate IsKind(step: Step, k: Kind) {
    match k
    case Bundles => step.PolicyBundle? || step.CertBundle?
    case Changes => step.Watch? && Signals(step.event, step.parse)
    case ClientSends => step.ClientSend?
    case WatcherSends => step.WatcherSend?
    case Receives => step.ForwarderReceive?
    case ForwarderSends => step.ForwarderSend?
    case Wakes => step.Wake?
  }

  function CountKind(steps: seq<Step>, k: Kind): nat {
    if steps == [] then 0
    else CountKind(steps[..|steps| - 1], k) + if IsKind(steps[|steps| - 1], k) then 1 else 0
  }

  function One(b: bool): nat {
    if b then 1 else 0
  }

  /** The numbers of steps of each kind account for every signal in the channels. */
  ghost predicate Balanced(s: State, n: Kind -> nat) {
    && n(Bundles) == n(ClientSends) + One(s.clientPending)
    && n(Changes) == n(WatcherSends) + One(s.watcherPending)
    && n(WatcherSends) == n(Receives) + s.podQueue
    && n(Receives) == n(ForwarderSends) + One(s.forwarding)
    && n(ClientSends) + n(ForwarderSends) == n(Wakes) + s.syncQueue
  }

  /** In every run each bundle and each reported change gives one signal, and each signal
      wakes the sync task once or is still on its way. */
  lemma {:induction false} SignalsConserved(steps: seq<Step>)
    requires After(steps).Some?
    ensures Balanced(After(steps).value, k => CountKind(steps, k))
  {
    if steps != [] {
      var head, last := steps[..|steps| - 1], steps[|steps| - 1];
      assert steps == head + [last];
      RunSnoc(BOOT, head, last);
      SignalsConserved(head);
      hide Wanted, SyncOrders, JobWrites, Sound, Tidy, Pairs, PairsAfterEvent;
      StepBalances(After(head).value, last, k => CountKind(head, k), k => CountKind(steps, k));
    }
  }

  lemma StepBalances(s: State, step: Step, n: Kind -> nat, n': Kind -> nat)
    requires Enabled(s, step) && Balanced(s, n) && forall k :: n'(k) == n(k) + One(IsKind(step, k))
    ensures Balanced(Do(s, step), n')
  {
  }

  // ---- What every run guarantees ----

  /** No signal is queued or about to be sent, no sync is under way. */
  predicate Idle(s: State) {
    && !s.clientPending && !s.watcherPending && s.podQueue == 0 && !s.forwarding && s.syncQueue == 0
    && s.task.Waiting?
  }

  /** No lost update: in every run, whenever the agent is idle and the watch is not in the
      middle of a restart, the kernel maps are those a sync of the present policy and pods
      leaves, and every frame is decided by them. */
  lemma NoLostUpdate(steps: seq<Step>, frame: seq<bv8>)
    requires After(steps).Some? && Idle(After(steps).value) && !After(steps).value.initializing
    ensures var s := After(steps).value;
            && s.last.policy == s.policy && s.last.pods == s.pods && LeftBy(s.maps, s.last)
            && (UniqueOwners(s.pods) && |PodKeys(s.pods)| <= CAPACITY ==>
                  (KprobeEgress(frame, s.maps) == TC_ACT_SHOT <==>
                   exists src, dst :: PodFlow(frame, src, dst) && PolicyDenies(s.policy, s.pods, src, dst)))
  {
    AlwaysInv(steps);
    var s := After(steps).value;
    if UniqueOwners(s.pods) && |PodKeys(s.pods)| <= CAPACITY {
      EndToEnd(s.last.start, s.policy, s.pods, s.last.keys, s.last.names, frame);
    }
  }

  /** The same in terms of what the agent was told: with `pods` any tidy snapshot of the
      relation that the watch events define, a frame is dropped exactly when it starts a flow
      between two of these pods that the last policy pushed denies. */
  lemma FramesFollowInputs(steps: seq<Step>, parse: string -> Option<Ipv4>, pods: Pods, frame: seq<bv8>)
    requires After(steps).Some? && Idle(After(steps).value) && OneParser(steps, parse) && !Restarting(Watched(steps))
    requires Tidy(pods) && Pairs(pods) == PairsAfter({}, Watched(steps), parse)
    requires UniqueOwners(pods) && |PodKeys(pods)| <= CAPACITY
    ensures KprobeEgress(frame, After(steps).value.maps) == TC_ACT_SHOT <==>
            exists src, dst :: PodFlow(frame, src, dst) && PolicyDenies(Told(steps), pods, src, dst)
  {
    InputsOfRun(steps, parse);
    TidyIsCanonical(pods, After(steps).value.pods);
    NoLostUpdate(steps, frame);
  }

  /** The inputs that the flag currently reflects: those of the sync under way once it has
      written it, otherwise those of the latest completed sync. */
  function InForce(s: State): Job {
    if s.task.Syncing? && s.task.next > 0 then s.task.job else s.last
  }

  /** At every moment of every run, each entry of the verdict map was asked for by the latest
      completed sync or by the one under way. */
  lemma NoInventedVerdict(steps: seq<Step>, key: PacketKey)
    requires After(steps).Some? && key in After(steps).value.maps.verdicts
    ensures var s := After(steps).value;
            var entry := Insert(key, s.maps.verdicts[key]);
            Wanted(s.last.policy, s.last.pods, entry) || Wanted(InForce(s).policy, InForce(s).pods, entry)
  {
    AlwaysInv(steps);
    EntryIsWanted(After(steps).value, key);
  }

  lemma EntryIsWanted(s: State, key: PacketKey)
    requires Inv(s) && key in s.maps.verdicts
    ensures var entry := Insert(key, s.maps.verdicts[key]);
            Wanted(s.last.policy, s.last.pods, entry) || Wanted(InForce(s).policy, InForce(s).pods, entry)
  {
    hide Wanted;
    if s.task.Syncing? {
      var job, n := s.task.job, s.task.next;
      var w := Insert(key, s.maps.verdicts[key]);
      Provenance(job.start, JobWrites(job)[..n], key);
      if w in JobWrites(job)[..n] {
        SyncShape(job.policy, job.pods, job.keys, job.names, w);
      } else {
        LeftIsWanted(job.start, s.last, key);
      }
    } else {
      LeftIsWanted(s.maps, s.last, key);
    }
  }

  lemma LeftIsWanted(m: KernelMaps, job: Job, key: PacketKey)
    requires LeftBy(m, job) && key in m.verdicts
    ensures Wanted(job.policy, job.pods, Insert(key, m.verdicts[key]))
  {
    FromClearedMap(job.start, job.policy, job.pods, job.keys, job.names, key);
  }

  /** In every reachable state the flag is the default of the inputs in force. */
  lemma FlagIsInForce(steps: seq<Step>)
    requires After(steps).Some?
    ensures After(steps).value.maps.flag == FlagValue(InForce(After(steps).value).policy)
  {
    AlwaysInv(steps);
    FlagOfTask(After(steps).value);
  }

  lemma FlagOfTask(s: State)
    requires Inv(s)
    ensures s.maps.flag == FlagValue(InForce(s).policy)
  {
    if s.task.Syncing? && s.task.next > 0 {
      var job := s.task.job;
      FlagDuringSync(job.start, job.policy, job.pods, job.keys, job.names, s.task.next);
    } else {
      var job := s.last;
      var m := if s.task.Syncing? then s.task.job.start else s.maps;
      assert JobWrites(job)[..|JobWrites(job)|] == JobWrites(job);
      SyncShape(job.policy, job.pods, job.keys, job.names, JobWrites(job)[0]);
      FlagDuringSync(job.start, job.policy, job.pods, job.keys, job.names, |JobWrites(job)|);
      assert m.flag == FlagValue(job.policy);
      assert s.task.Syncing? ==> JobWrites(s.task.job)[..0] == [];
    }
  }

  /** At every moment of every run, in the middle of a rebuild or not: when the policy in
      force denies by default, a flow that passes is allowed by it or by that of the latest
      completed sync; when it allows by default, a flow that is dropped is denied by one of
      the two. No capacity is assumed. */
  lemma EveryPacketJustified(steps: seq<Step>, frame: seq<bv8>, src: Ipv4, dst: Ipv4)
    requires After(steps).Some? && PodFlow(frame, src, dst)
    requires UniqueOwners(After(steps).value.last.pods) && UniqueOwners(InForce(After(steps).value).pods)
    ensures var s := After(steps).value;
            var before, now, action := s.last, InForce(s), KprobeEgress(frame, s.maps);
            && (!now.policy.defaultAllow && action == TC_ACT_OK ==>
                  !PolicyDenies(before.policy, before.pods, src, dst) || !PolicyDenies(now.policy, now.pods, src, dst))
            && (now.policy.defaultAllow && action == TC_ACT_SHOT ==>
                  PolicyDenies(before.policy, before.pods, src, dst) || PolicyDenies(now.policy, now.pods, src, dst))
  {
    AlwaysInv(steps);
    var s := After(steps).value;
    var key := KeyOf(src, dst);
    FlagIsInForce(steps);
    DropMeaning(frame, s.maps);
    if key in s.maps.verdicts {
      var verdict := s.maps.verdicts[key];
      EntryIsWanted(s, key);
      if Wanted(s.last.policy, s.last.pods, Insert(key, verdict)) {
        WantedDecides(s.last.policy, s.last.pods, src, dst, verdict);
      } else {
        WantedDecides(InForce(s).policy, InForce(s).pods, src, dst, verdict);
      }
    }
  }

  // ---- Settling ----

  /** How far the signals still have to travel. */
  function Distance(s: State): nat {
    (if s.watcherPending then 4 else 0) + 3 * s.podQueue + (if s.forwarding then 2 else 0)
    + (if s.clientPending then 2 else 0) + s.syncQueue
  }

  function Phase(t: Task): nat {
    match t
    case Waiting => 0
    case Syncing(_, _) => 1
    case HasPolicy(_) => 2
    case Woken => 3
  }

  ghost function Remaining(s: State): nat
    requires Inv(s)
  {
    if s.task.Syncing? then |JobWrites(s.task.job)| - s.task.next else 0
  }

  /** Every step the agent takes on its own brings it closer to rest. */
  lemma InternalStepsDescend(s: State, step: Step)
    requires Inv(s) && Enabled(s, step) && Internal(step)
    ensures Inv(Do(s, step))
    ensures var s' := Do(s, step);
            || Distance(s') < Distance(s)
            || (Distance(s') == Distance(s) && Phase(s'.task) < Phase(s.task))
            || (Distance(s') == Distance(s) && Phase(s'.task) == Phase(s.task) && Remaining(s') < Remaining(s))
  {
    StepKeepsInv(s, step);
  }

  /** Unless it is idle, the agent can take a step on its own: no send ever blocks for good. */
  lemma NeverStuck(s: State) returns (step: Step)
    requires Inv(s) && !Idle(s)
    ensures Internal(step) && Enabled(s, step)
  {
    match s.task
    case Woken => step := ReadPolicy;
    case HasPolicy(_) =>
      var keys := SomeOrder(s.maps.verdicts.Keys);
      var names := SomeOrder(s.pods.Keys);
      step := ReadPods(keys, names);
    case Syncing(job, next) =>
      step := if next < |JobWrites(job)| then PerformWrite else FinishSync;
    case Waiting =>
      if s.syncQueue > 0 { step := Wake; }
      else if s.clientPending { step := ClientSend; }
      else if s.forwarding { step := ForwarderSend; }
      else if s.podQueue > 0 { step := ForwarderReceive; }
      else { step := WatcherSend; }
  }

  lemma {:induction false} RunConcat(s: State, a: seq<Step>, b: seq<Step>)
    requires Run(s, a).Some?
    ensures Run(s, a + b) == Run(Run(s, a).value, b)
    decreases |a|
  {
    if a == [] {
      assert a + b == b;
    } else {
      var s' := Do(s, a[0]);
      assert (a + b)[0] == a[0] && (a + b)[1..] == a[1..] + b;
      assert Run(s, a + b) == Run(s', a[1..] + b);
      RunConcat(s', a[1..], b);
    }
  }

  /** Left alone, the agent comes to rest; by InternalStepsDescend it does so whatever order
      its steps are taken in. */
  lemma {:induction false} ComesToRest(s: State) returns (more: seq<Step>)
    requires Inv(s)
    ensures forall i :: 0 <= i < |more| ==> Internal(more[i])
    ensures Run(s, more).Some? && Idle(Run(s, more).value)
    decreases Distance(s), Phase(s.task), Remaining(s)
  {
    if Idle(s) {
      more := [];
    } else {
      var step := NeverStuck(s);
      InternalStepsDescend(s, step);
      var rest := ComesToRest(Do(s, step));
      more := [step] + rest;
      assert more[1..] == rest;
    }
  }

  /** Every run can be continued by the agent's own steps to an idle state. */
  lemma Settles(steps: seq<Step>) returns (more: seq<Step>)
    requires After(steps).Some?
    ensures forall i :: 0 <= i < |more| ==> Internal(more[i])
    ensures After(steps + more).Some? && Idle(After(steps + more).value)
  {
    AlwaysInv(steps);
    more := ComesToRest(After(steps).value);
    RunConcat(BOOT, steps, more);
  }
}
