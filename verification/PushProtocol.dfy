/** Policy pushes of sigil/cmd/server/main.go over the distributor, interleaved one step at
    a time: config posts, OnConnect callbacks, stream supersession and lossy sends. */
module PushProtocol {
  import opened Collections
  import opened PolicyCaches
  import opened Distributors

  /** Progress of one handler's OnConnect up to its policy push; the lookup of the node's
      stream and the channel send are separate steps. */
  datatype Connect = NotStarted | Holding(snap: Policy) | Aimed(snap: Policy, target: Option<nat>) | Connected

  /** Progress of the config post in flight; posts are handled one after the other. */
  datatype Broadcast = NoBroadcast | Swapped | Sending(todo: seq<string>, target: Option<nat>)

  datatype State = State(
    reg: Registry,
    connects: seq<Connect>,     // one for each handler
    engine: Policy,
    broadcast: Broadcast,
    stale: set<nat>             // streams whose newest policy push was outdated: see StaleMeaning
  )

  function Boot(engine: Policy): State {
    State(NO_AGENTS, [], engine, NoBroadcast, {})
  }

  datatype Step =
    | Subscribe(node: string)
    | Disconnect(h: nat)
    | Receive(h: nat)
    | SendOk(h: nat)
    | SendFail(h: nat)
    | Leave(h: nat)
    | CleanUp(h: nat)
    | CertSend(h: nat, serviceId: string)
    | ConnectRead(h: nat)
    | ConnectLookup(h: nat)
    | ConnectSend(h: nat)
    | Config(policy: Policy)
    | BroadcastList(nodes: seq<string>)
    | BroadcastLookup
    | BroadcastSend
    | BroadcastDone

  predicate KnownHandler(s: State, h: nat) {
    h < |s.reg.handlers| && h < |s.connects|
  }

  ghost predicate Enabled(s: State, step: Step) {
    match step
    case Subscribe(node) => node != ""
    case Disconnect(h) => KnownHandler(s, h) && s.reg.handlers[h].phase.Serving?
    case Receive(h) =>
      KnownHandler(s, h) && s.reg.handlers[h].phase.Serving? && s.reg.handlers[h].sending.None? && s.reg.handlers[h].queue != []
    case SendOk(h) => KnownHandler(s, h) && s.reg.handlers[h].phase.Serving? && s.reg.handlers[h].sending.Some?
    case SendFail(h) => KnownHandler(s, h) && s.reg.handlers[h].phase.Serving? && s.reg.handlers[h].sending.Some?
    case Leave(h) =>
      && KnownHandler(s, h) && s.reg.handlers[h].phase.Serving? && s.reg.handlers[h].sending.None?
      && (s.reg.handlers[h].cancelled || s.reg.handlers[h].disconnected)
    case CleanUp(h) => KnownHandler(s, h) && s.reg.handlers[h].phase.Leaving?
    case CertSend(h, _) => KnownHandler(s, h)
    case ConnectRead(h) => KnownHandler(s, h) && s.connects[h].NotStarted?
    case ConnectLookup(h) => KnownHandler(s, h) && s.connects[h].Holding?
    case ConnectSend(h) =>
      KnownHandler(s, h) && s.connects[h].Aimed? && (s.connects[h].target.Some? ==> KnownHandler(s, s.connects[h].target.value))
    case Config(_) => s.broadcast.NoBroadcast?
    case BroadcastList(nodes) => s.broadcast.Swapped? && Enumerates(nodes, s.reg.streams.Keys)
    case BroadcastLookup => s.broadcast.Sending? && s.broadcast.target.None? && s.broadcast.todo != []
    case BroadcastSend =>
      s.broadcast.Sending? && s.broadcast.target.Some? && s.broadcast.todo != [] && KnownHandler(s, s.broadcast.target.value)
    case BroadcastDone => s.broadcast.Sending? && s.broadcast.target.None? && s.broadcast.todo == []
  }

  function SetHandler(s: State, h: nat, hs: Handler): State
    requires KnownHandler(s, h)
  {
    s.(reg := WithHandler(s.reg, h, hs))
  }

  /** Offers a policy to a stream; an accepted one that is not the engine's makes it stale. */
  function OfferPolicy(s: State, h: nat, policy: Policy): State
    requires KnownHandler(s, h)
  {
    var fits := |s.reg.handlers[h].queue| < QUEUE;
    s.(reg := OfferTo(s.reg, h, PolicyPush(policy)),
       stale := if !fits then s.stale else if policy == s.engine then s.stale - {h} else s.stale + {h})
  }

  ghost function Do(s: State, step: Step): State
    requires Enabled(s, step)
  {
    match step
    case Subscribe(node) => s.(reg := Register(s.reg, node), connects := s.connects + [NotStarted])
    case Disconnect(h) => SetHandler(s, h, s.reg.handlers[h].(disconnected := true))
    case Receive(h) =>
      var hs := s.reg.handlers[h];
      SetHandler(s, h, hs.(sending := Some(hs.queue[0]), queue := hs.queue[1..]))
    case SendOk(h) =>
      var hs := s.reg.handlers[h];
      SetHandler(s, h, hs.(sending := None, delivered := hs.delivered + [hs.sending.value]))
    case SendFail(h) => SetHandler(s, h, s.reg.handlers[h].(phase := Leaving))
    case Leave(h) => SetHandler(s, h, s.reg.handlers[h].(phase := Leaving))
    case CleanUp(h) => s.(reg := Cleanup(s.reg, h))
    case CertSend(h, serviceId) => s.(reg := OfferTo(s.reg, h, CertPush(serviceId)))
    case ConnectRead(h) => s.(connects := s.connects[h := Holding(s.engine)])
    case ConnectLookup(h) =>
      var node := s.reg.handlers[h].node;
      var target := if node in s.reg.streams then Some(s.reg.streams[node]) else None;
      s.(connects := s.connects[h := Aimed(s.connects[h].snap, target)])
    case ConnectSend(h) =>
      var pushed := match s.connects[h].target
                    case Some(t) => OfferPolicy(s, t, s.connects[h].snap)
                    case None => s;
      pushed.(connects := s.connects[h := Connected])
    case Config(policy) => s.(engine := policy, broadcast := Swapped)
    case BroadcastList(nodes) => s.(broadcast := Sending(nodes, None))
    case BroadcastLookup =>
      var node := s.broadcast.todo[0];
      if node in s.reg.streams
      then s.(broadcast := s.broadcast.(target := Some(s.reg.streams[node])))
      else s.(broadcast := s.broadcast.(todo := s.broadcast.todo[1..]))
    case BroadcastSend =>
      OfferPolicy(s, s.broadcast.target.value, s.engine).(broadcast := Sending(s.broadcast.todo[1..], None))
    case BroadcastDone => s.(broadcast := NoBroadcast)
  }

  /** The state a list of steps leads to, if each is possible when it is taken. */
  ghost function Run(s: State, steps: seq<Step>): Option<State>
    decreases |steps|
  {
    if steps == [] then Some(s)
    else if Enabled(s, steps[0]) then Run(Do(s, steps[0]), steps[1..])
    else None
  }

  /** The newest policy among a stream's pushes. */
  function LastPolicy(pushes: seq<Push>): Option<Policy> {
    if pushes == [] then None
    else if pushes[|pushes| - 1].PolicyPush? then Some(pushes[|pushes| - 1].policy)
    else LastPolicy(pushes[..|pushes| - 1])
  }

  lemma LastPolicySnoc(pushes: seq<Push>, push: Push)
    ensures LastPolicy(pushes + [push]) == if push.PolicyPush? then Some(push.policy) else LastPolicy(pushes)
  {
    assert (pushes + [push])[..|pushes|] == pushes;
  }

  // ---- The invariant ----

  /** The broadcast in flight will still offer the engine's policy to this stream. */
  predicate Awaiting(s: State, h: nat)
    requires KnownHandler(s, h)
  {
    match s.broadcast
    case NoBroadcast => false
    case Swapped => true
    case Sending(todo, target) =>
      && s.reg.handlers[h].node in todo
      && !(target.Some? && s.reg.handlers[h].node == todo[0] && target.value != h)
  }

  /** What a connected stream that lost no push may say about its newest policy. */
  predicate Converges(s: State, h: nat)
    requires KnownHandler(s, h)
  {
    Live(s.reg.handlers[h]) && s.connects[h].Connected? && s.reg.handlers[h].dropped == 0 && !Awaiting(s, h) ==>
      var newest := LastPolicy(s.reg.handlers[h].accepted);
      newest.Some? && (newest.value == s.engine <==> h !in s.stale)
  }

  /** An OnConnect that has looked its node up while still live aims at its own stream. */
  predicate AimsWell(s: State, h: nat)
    requires KnownHandler(s, h)
  {
    s.connects[h].Aimed? ==>
      && (s.connects[h].target.Some? ==> KnownHandler(s, s.connects[h].target.value))
      && (Live(s.reg.handlers[h]) ==> s.connects[h].target == Some(h))
  }

  ghost predicate BroadcastInv(s: State) {
    s.broadcast.Sending? ==>
      && Distinct(s.broadcast.todo)
      && (s.broadcast.target.Some? ==> s.broadcast.todo != [] && KnownHandler(s, s.broadcast.target.value))
  }

  predicate HandlerInv(s: State, h: nat) {
    KnownHandler(s, h) && AimsWell(s, h) && Converges(s, h)
  }

  ghost predicate Inv(s: State) {
    && Good(s.reg) && |s.connects| == |s.reg.handlers|
    && BroadcastInv(s)
    && forall h :: 0 <= h < |s.connects| ==> HandlerInv(s, h)
  }

  // ---- Steps of one handler over its own queue and phase ----

  predicate HandlerStep(step: Step) {
    step.Disconnect? || step.Receive? || step.SendOk? || step.SendFail? || step.Leave?
  }

  /** A handler that changes neither its node nor its standing, and whose books balance. */
  lemma SameStandingIsGood(r: Registry, h: nat, hs: Handler)
    requires Good(r) && h < |r.handlers|
    requires hs.node == r.handlers[h].node && Live(hs) == Live(r.handlers[h]) && Conserves(hs)
    ensures Good(WithHandler(r, h, hs))
  {
  }

  lemma HandlerStepBalances(s: State, step: Step)
    requires Enabled(s, step) && HandlerStep(step) && Conserves(s.reg.handlers[step.h])
    ensures var before, after := s.reg.handlers[step.h], Do(s, step).reg.handlers[step.h];
            && Conserves(after) && after.node == before.node && Live(after) == Live(before)
            && after.accepted == before.accepted && after.dropped == before.dropped
            && Do(s, step) == SetHandler(s, step.h, after)
  {
    var before, after := s.reg.handlers[step.h], Do(s, step).reg.handlers[step.h];
    assert after.delivered + InFlight(after) + after.queue == before.delivered + InFlight(before) + before.queue;
  }

  lemma HandlerStepKeeps(s: State, step: Step)
    requires Inv(s) && Enabled(s, step) && HandlerStep(step)
    ensures Inv(Do(s, step))
  {
    HandlerStepBalances(s, step);
    var hs := Do(s, step).reg.handlers[step.h];
    SameStandingIsGood(s.reg, step.h, hs);
    var s' := SetHandler(s, step.h, hs);
    forall h | 0 <= h < |s.connects| ensures HandlerInv(s', h) {
      assert HandlerInv(s, h);
      SameStanding(s, step.h, hs, h);
    }
  }

  lemma SameStanding(s: State, t: nat, hs: Handler, h: nat)
    requires KnownHandler(s, t) && HandlerInv(s, h)
    requires var before := s.reg.handlers[t];
             hs.node == before.node && Live(hs) == Live(before) && hs.accepted == before.accepted && hs.dropped == before.dropped
    ensures HandlerInv(SetHandler(s, t, hs), h)
  {
  }

  // ---- Registration and cleanup ----

  lemma SubscribeKeepsOne(s: State, node: string, h: nat)
    requires node != "" && Registered(s.reg) && HandlerInv(s, h) && |s.connects| == |s.reg.handlers|
    ensures HandlerInv(Do(s, Subscribe(node)), h)
  {
  }

  lemma SubscribeKeeps(s: State, node: string)
    requires Inv(s) && node != ""
    ensures Inv(Do(s, Subscribe(node)))
  {
    RegisterStaysGood(s.reg, node);
    var s' := Do(s, Subscribe(node));
    NewHandlerInv(s, node);
    hide HandlerInv, Good, Register;
    forall h | 0 <= h < |s.connects| ensures HandlerInv(s', h) {
      assert HandlerInv(s, h);
      SubscribeKeepsOne(s, node, h);
    }
  }

  lemma RegisterStaysGood(r: Registry, node: string)
    requires Good(r)
    ensures Good(Register(r, node)) && Registered(r) && |Register(r, node).handlers| == |r.handlers| + 1
  {
    RegisterIsGood(r, node);
  }

  lemma NewHandlerInv(s: State, node: string)
    requires node != "" && |s.connects| == |s.reg.handlers|
    ensures HandlerInv(Do(s, Subscribe(node)), |s.connects|)
  {
  }

  lemma CleanUpKeepsOne(s: State, t: nat, h: nat)
    requires KnownHandler(s, t) && HandlerInv(s, h) && s.reg.handlers[t].phase.Leaving?
    ensures HandlerInv(Do(s, CleanUp(t)), h)
  {
  }

  lemma CleanUpKeeps(s: State, t: nat)
    requires Inv(s) && Enabled(s, CleanUp(t))
    ensures Inv(Do(s, CleanUp(t)))
  {
    CleanupIsGood(s.reg, t);
    forall h | 0 <= h < |s.connects| ensures HandlerInv(Do(s, CleanUp(t)), h) {
      assert HandlerInv(s, h);
      CleanUpKeepsOne(s, t, h);
    }
  }

  // ---- Sends ----

  lemma CertSendKeepsOne(s: State, t: nat, serviceId: string, h: nat)
    requires KnownHandler(s, t) && HandlerInv(s, h)
    ensures HandlerInv(Do(s, CertSend(t, serviceId)), h)
  {
    LastPolicySnoc(s.reg.handlers[t].accepted, CertPush(serviceId));
  }

  lemma CertSendKeeps(s: State, t: nat, serviceId: string)
    requires Inv(s) && KnownHandler(s, t)
    ensures Inv(Do(s, CertSend(t, serviceId)))
  {
    OfferIsGood(s.reg, t, CertPush(serviceId));
    forall h | 0 <= h < |s.connects| ensures HandlerInv(Do(s, CertSend(t, serviceId)), h) {
      assert HandlerInv(s, h);
      CertSendKeepsOne(s, t, serviceId, h);
    }
  }

  /** After offering a policy to a stream, that stream converges and the others are as before. */
  lemma OfferPolicyKeepsOne(s: State, t: nat, policy: Policy, h: nat)
    requires KnownHandler(s, t) && HandlerInv(s, h)
    ensures HandlerInv(OfferPolicy(s, t, policy), h)
    ensures h == t ==>
              var s' := OfferPolicy(s, t, policy);
              s'.reg.handlers[h].dropped == 0 ==>
                LastPolicy(s'.reg.handlers[h].accepted) == Some(policy) && (policy == s.engine <==> h !in s'.stale)
  {
    LastPolicySnoc(s.reg.handlers[t].accepted, PolicyPush(policy));
  }

  lemma ConnectSendKeepsOne(s: State, c: nat, h: nat)
    requires HandlerInv(s, c) && HandlerInv(s, h) && s.connects[c].Aimed?
    ensures HandlerInv(Do(s, ConnectSend(c)), h)
  {
    if s.connects[c].target.Some? {
      OfferPolicyKeepsOne(s, s.connects[c].target.value, s.connects[c].snap, h);
    }
  }

  lemma ConnectSendKeeps(s: State, c: nat)
    requires Inv(s) && Enabled(s, ConnectSend(c))
    ensures Inv(Do(s, ConnectSend(c)))
  {
    assert HandlerInv(s, c);
    if s.connects[c].target.Some? {
      OfferIsGood(s.reg, s.connects[c].target.value, PolicyPush(s.connects[c].snap));
    }
    forall h | 0 <= h < |s.connects| ensures HandlerInv(Do(s, ConnectSend(c)), h) {
      assert HandlerInv(s, h);
      ConnectSendKeepsOne(s, c, h);
    }
  }

  lemma ConnectAimsKeeps(s: State, step: Step)
    requires Inv(s) && Enabled(s, step) && (step.ConnectRead? || step.ConnectLookup?)
    ensures Inv(Do(s, step))
  {
    forall h | 0 <= h < |s.connects| ensures HandlerInv(Do(s, step), h) {
      assert HandlerInv(s, h);
    }
  }

  // ---- Config posts ----

  lemma BroadcastSendKeepsOne(s: State, h: nat)
    requires Enabled(s, BroadcastSend) && Distinct(s.broadcast.todo) && HandlerInv(s, h)
    ensures HandlerInv(Do(s, BroadcastSend), h)
  {
    var t, todo := s.broadcast.target.value, s.broadcast.todo;
    OfferPolicyKeepsOne(s, t, s.engine, h);
    assert todo == [todo[0]] + todo[1..];
  }

  lemma BroadcastSendKeeps(s: State)
    requires Inv(s) && Enabled(s, BroadcastSend)
    ensures Inv(Do(s, BroadcastSend))
  {
    OfferIsGood(s.reg, s.broadcast.target.value, PolicyPush(s.engine));
    forall h | 0 <= h < |s.connects| ensures HandlerInv(Do(s, BroadcastSend), h) {
      assert HandlerInv(s, h);
      BroadcastSendKeepsOne(s, h);
    }
  }

  lemma BroadcastLookupKeepsOne(s: State, h: nat)
    requires Enabled(s, BroadcastLookup) && Registered(s.reg) && HandlerInv(s, h)
    ensures HandlerInv(Do(s, BroadcastLookup), h)
  {
    assert s.broadcast.todo == [s.broadcast.todo[0]] + s.broadcast.todo[1..];
  }

  lemma BroadcastListKeepsOne(s: State, nodes: seq<string>, h: nat)
    requires Enabled(s, BroadcastList(nodes)) && Registered(s.reg) && HandlerInv(s, h)
    ensures HandlerInv(Do(s, BroadcastList(nodes)), h)
  {
    if Live(s.reg.handlers[h]) {
      assert s.reg.handlers[h].node in s.reg.streams.Keys;
    }
  }

  lemma ConfigKeeps(s: State, step: Step)
    requires Inv(s) && Enabled(s, step)
    requires step.Config? || step.BroadcastList? || step.BroadcastLookup? || step.BroadcastDone?
    ensures Inv(Do(s, step))
  {
    forall h | 0 <= h < |s.connects| ensures HandlerInv(Do(s, step), h) {
      assert HandlerInv(s, h);
      if step.BroadcastList? { BroadcastListKeepsOne(s, step.nodes, h); }
      if step.BroadcastLookup? { BroadcastLookupKeepsOne(s, h); }
    }
  }

  lemma StepKeepsInv(s: State, step: Step)
    requires Inv(s) && Enabled(s, step)
    ensures Inv(Do(s, step))
  {
    match step
    case Subscribe(node) => SubscribeKeeps(s, node);
    case CleanUp(h) => CleanUpKeeps(s, h);
    case CertSend(h, serviceId) => CertSendKeeps(s, h, serviceId);
    case ConnectRead(_) => ConnectAimsKeeps(s, step);
    case ConnectLookup(_) => ConnectAimsKeeps(s, step);
    case ConnectSend(h) => ConnectSendKeeps(s, h);
    case BroadcastSend => BroadcastSendKeeps(s);
    case _ => if HandlerStep(step) { HandlerStepKeeps(s, step); } else { ConfigKeeps(s, step); }
  }

  lemma {:induction false} RunKeepsInv(s: State, steps: seq<Step>)
    requires Inv(s) && Run(s, steps).Some?
    ensures Inv(Run(s, steps).value)
    decreases |steps|
  {
    if steps != [] {
      StepKeepsInv(s, steps[0]);
      RunKeepsInv(Do(s, steps[0]), steps[1..]);
    }
  }

  lemma AlwaysInv(engine: Policy, steps: seq<Step>)
    requires Run(Boot(engine), steps).Some?
    ensures Inv(Run(Boot(engine), steps).value)
  {
    RunKeepsInv(Boot(engine), steps);
  }

  // ---- What every run guarantees ----

  /** Stream registry: in every reachable state the registered handlers are exactly the ones
      that are neither superseded nor finished, each under its own node. */
  lemma RegistryAlwaysExact(engine: Policy, steps: seq<Step>, h: nat)
    requires Run(Boot(engine), steps).Some? && h < |Run(Boot(engine), steps).value.reg.handlers|
    ensures var r := Run(Boot(engine), steps).value.reg;
            var hs := r.handlers[h];
            && (!hs.cancelled && hs.phase != Gone <==> hs.node in r.streams && r.streams[hs.node] == h)
            && (forall n :: n in r.streams && r.streams[n] == h ==> n == hs.node)
  {
    AlwaysInv(engine, steps);
  }

  /** Queue conservation: delivered, in flight and queued pushes are the accepted ones in
      order, the queue is bounded, and pushes that found the stream were accepted or dropped. */
  lemma QueuesAlwaysConserve(engine: Policy, steps: seq<Step>, h: nat)
    requires Run(Boot(engine), steps).Some? && h < |Run(Boot(engine), steps).value.reg.handlers|
    ensures Conserves(Run(Boot(engine), steps).value.reg.handlers[h])
  {
    AlwaysInv(engine, steps);
  }

  // ---- What the steps do to a stream ----

  /** The newest policy is the last one pushed. */
  lemma {:induction false} LastPolicyMeaning(pushes: seq<Push>, p: Policy)
    ensures LastPolicy(pushes) == Some(p) <==> exists i :: IsLastPolicy(pushes, p, i)
  {
    if pushes != [] {
      var head, last := pushes[..|pushes| - 1], pushes[|pushes| - 1];
      LastPolicyMeaning(head, p);
      forall i ensures IsLastPolicy(pushes, p, i) <==>
        if i == |head| then last == PolicyPush(p) else IsLastPolicy(head, p, i) && !last.PolicyPush?
      {
      }
      if last == PolicyPush(p) {
        assert IsLastPolicy(pushes, p, |head|);
      }
    }
  }

  ghost predicate IsLastPolicy(pushes: seq<Push>, p: Policy, i: int) {
    0 <= i < |pushes| && pushes[i] == PolicyPush(p) && forall j :: i < j < |pushes| ==> !pushes[j].PolicyPush?
  }

  /** What the step pushes to stream `h`, if anything. */
  ghost function PushedTo(s: State, step: Step, h: nat): Option<Push>
    requires Enabled(s, step)
  {
    if step.CertSend? && step.h == h then Some(CertPush(step.serviceId))
    else if step.ConnectSend? && s.connects[step.h].target == Some(h) then Some(PolicyPush(s.connects[step.h].snap))
    else if step.BroadcastSend? && s.broadcast.target == Some(h) then Some(PolicyPush(s.engine))
    else None
  }

  /** Every step either pushes to the stream, which takes it if it has room and drops it
      otherwise, or leaves the stream's record of pushes alone. */
  lemma StreamStep(s: State, step: Step, h: nat)
    requires Enabled(s, step) && KnownHandler(s, h)
    ensures var before, after, push := s.reg.handlers[h], Do(s, step).reg.handlers[h], PushedTo(s, step, h);
            && after.node == before.node
            && (push.Some? ==> Took(before, after, push.value))
            && (push.None? ==> after.accepted == before.accepted && after.dropped == before.dropped)
  {
    if step.Subscribe? {
      SubscribedStream(s, step.node, h);
    } else if step.CertSend? || step.ConnectSend? || step.BroadcastSend? {
      PushedStream(s, step, h);
    }
  }

  lemma SubscribedStream(s: State, node: string, h: nat)
    requires Enabled(s, Subscribe(node)) && KnownHandler(s, h)
    ensures var before, after := s.reg.handlers[h], Do(s, Subscribe(node)).reg.handlers[h];
            after.node == before.node && after.accepted == before.accepted && after.dropped == before.dropped
  {
  }

  lemma PushedStream(s: State, step: Step, h: nat)
    requires Enabled(s, step) && KnownHandler(s, h) && (step.CertSend? || step.ConnectSend? || step.BroadcastSend?)
    ensures var before, after, push := s.reg.handlers[h], Do(s, step).reg.handlers[h], PushedTo(s, step, h);
            if push.Some? then Took(before, after, push.value) else after == before
  {
  }

  // ---- Where policies come from ----

  /** The policy of the last config post in the run, or the one at the start. */
  ghost function PostedLast(engine: Policy, steps: seq<Step>): Policy {
    if steps == [] then engine
    else if steps[|steps| - 1].Config? then steps[|steps| - 1].policy
    else PostedLast(engine, steps[..|steps| - 1])
  }

  /** In every reachable state the engine's policy is that of the last config post. */
  lemma {:induction false} EngineIsPosted(engine: Policy, steps: seq<Step>)
    requires Run(Boot(engine), steps).Some?
    ensures Run(Boot(engine), steps).value.engine == PostedLast(engine, steps)
  {
    if steps != [] {
      var head, last := steps[..|steps| - 1], steps[|steps| - 1];
      assert steps == head + [last];
      RunSnoc(Boot(engine), head, last);
      EngineIsPosted(engine, head);
    }
  }

  /** The policy an OnConnect holds is the engine's at the step in which it read it. */
  ghost predicate ReadAt(engine: Policy, steps: seq<Step>, h: nat, i: nat, snap: Policy) {
    && i < |steps| && steps[i] == ConnectRead(h)
    && Run(Boot(engine), steps[..i]).Some? && Run(Boot(engine), steps[..i]).value.engine == snap
  }

  predicate Holds(c: Connect, snap: Policy) {
    (c.Holding? || c.Aimed?) && c.snap == snap
  }

  lemma {:induction false} SnapWasRead(engine: Policy, steps: seq<Step>, h: nat) returns (i: nat)
    requires Run(Boot(engine), steps).Some? && KnownHandler(Run(Boot(engine), steps).value, h)
    requires var c := Run(Boot(engine), steps).value.connects[h]; c.Holding? || c.Aimed?
    ensures ReadAt(engine, steps, h, i, Run(Boot(engine), steps).value.connects[h].snap)
  {
    i := 0;
    if steps == [] {
      assert false;
    } else {
      var head, last := steps[..|steps| - 1], steps[|steps| - 1];
      assert steps == head + [last];
      RunSnoc(Boot(engine), head, last);
      AlwaysInv(engine, head);
      var s := Run(Boot(engine), head).value;
      var c := Run(Boot(engine), steps).value.connects[h];
      HoldsBefore(s, last, h);
      if last == ConnectRead(h) {
        i := |head|;
      } else {
        i := SnapWasRead(engine, head, h);
        assert head[..i] == steps[..i];
      }
    }
  }

  lemma HoldsBefore(s: State, step: Step, h: nat)
    requires Enabled(s, step) && |s.connects| == |s.reg.handlers| && KnownHandler(Do(s, step), h)
    requires var c := Do(s, step).connects[h]; c.Holding? || c.Aimed?
    ensures if step == ConnectRead(h) then Do(s, step).connects[h].snap == s.engine
            else KnownHandler(s, h) && Holds(s.connects[h], Do(s, step).connects[h].snap)
  {
  }

  lemma EngineKept(s: State, step: Step)
    requires Enabled(s, step)
    ensures !step.Config? ==> Do(s, step).engine == s.engine
  {
  }

  /** Between two moments with different engine policies there was a config post. */
  lemma {:induction false} PostBetween(engine: Policy, steps: seq<Step>, i: nat) returns (k: nat)
    requires i <= |steps| && Run(Boot(engine), steps).Some? && Run(Boot(engine), steps[..i]).Some?
    requires Run(Boot(engine), steps).value.engine != Run(Boot(engine), steps[..i]).value.engine
    ensures i <= k < |steps| && steps[k].Config?
  {
    k := i;
    assert steps[..|steps|] == steps;
    if i == |steps| {
      assert false;
    } else {
      var head, last := steps[..|steps| - 1], steps[|steps| - 1];
      assert steps == head + [last] && head[..i] == steps[..i];
      RunSnoc(Boot(engine), head, last);
      EngineKept(Run(Boot(engine), head).value, last);
      hide Enabled, Do;
      if last.Config? {
        k := |head|;
      } else {
        k := PostBetween(engine, head, i);
      }
    }
  }

  /** An overtaken OnConnect was overtaken by a config post: its own read came before the
      post, and the post before its push. */
  lemma OvertakenMeaning(engine: Policy, steps: seq<Step>, n: nat) returns (i: nat, k: nat)
    requires n < |steps| && Run(Boot(engine), steps[..n]).Some?
    requires Overtaken(Run(Boot(engine), steps[..n]).value, steps[n])
    ensures i < k < n && steps[i] == ConnectRead(steps[n].h) && steps[k].Config?
  {
    var before := steps[..n];
    i := SnapWasRead(engine, before, steps[n].h);
    k := PostBetween(engine, before, i);
  }

  // ---- Delivery ----

  /** A serving handler whose client keeps up delivers all that was accepted. */
  lemma {:induction false} Drains(s: State, h: nat) returns (steps: seq<Step>)
    requires Inv(s) && KnownHandler(s, h) && s.reg.handlers[h].phase.Serving?
    ensures Run(s, steps).Some? && Inv(Run(s, steps).value) && KnownHandler(Run(s, steps).value, h)
    ensures var hs := Run(s, steps).value.reg.handlers[h];
            hs.queue == [] && hs.sending.None? && hs.delivered == hs.accepted == s.reg.handlers[h].accepted
    ensures Run(s, steps).value.engine == s.engine
    decreases |s.reg.handlers[h].queue|, if s.reg.handlers[h].sending.Some? then 1 else 0
  {
    var hs := s.reg.handlers[h];
    assert Conserves(hs);
    if hs.sending.Some? || hs.queue != [] {
      var step := if hs.sending.Some? then SendOk(h) else Receive(h);
      StepKeepsInv(s, step);
      StreamStep(s, step, h);
      var more := Drains(Do(s, step), h);
      steps := [step] + more;
      RunFirst(s, step, more);
    } else {
      steps := [];
    }
  }

  lemma GoneUnregistered(r: Registry, h: nat)
    requires Registered(r) && h < |r.handlers| && r.handlers[h].phase.Gone?
    ensures forall n :: n in r.streams ==> r.streams[n] != h
  {
  }

  /** A client that goes away makes its serving handler finish: it leaves, in the middle of a
      send or between two, and its cleanup takes it out of the registry. */
  lemma Closes(s: State, h: nat) returns (steps: seq<Step>)
    requires Inv(s) && KnownHandler(s, h) && s.reg.handlers[h].phase.Serving?
    ensures steps == [Disconnect(h), if s.reg.handlers[h].sending.Some? then SendFail(h) else Leave(h), CleanUp(h)]
    ensures Run(s, steps).Some? && Inv(Run(s, steps).value) && KnownHandler(Run(s, steps).value, h)
    ensures var r := Run(s, steps).value.reg;
            r.handlers[h].phase.Gone? && forall n :: n in r.streams ==> r.streams[n] != h
  {
    var leave := if s.reg.handlers[h].sending.Some? then SendFail(h) else Leave(h);
    var s1 := Do(s, Disconnect(h));
    StepKeepsInv(s, Disconnect(h));
    var s2 := Do(s1, leave);
    StepKeepsInv(s1, leave);
    StepKeepsInv(s2, CleanUp(h));
    GoneUnregistered(Do(s2, CleanUp(h)).reg, h);
    hide Inv;
    steps := [Disconnect(h), leave, CleanUp(h)];
    assert steps == [Disconnect(h)] + ([leave] + ([CleanUp(h)] + []));
    RunFirst(s2, CleanUp(h), []);
    RunFirst(s1, leave, [CleanUp(h)] + []);
    RunFirst(s, Disconnect(h), [leave] + ([CleanUp(h)] + []));
  }

  // ---- Which streams converge ----

  /** An OnConnect pushes a policy that a config post has replaced since it was read. */
  predicate Overtaken(s: State, step: Step) {
    step.ConnectSend? && KnownHandler(s, step.h) && s.connects[step.h].Aimed? && s.connects[step.h].snap != s.engine
  }

  /** The step pushes a policy to stream `h` and finds room in its queue. */
  ghost predicate PushesPolicy(s: State, step: Step, h: nat) {
    && Enabled(s, step) && KnownHandler(s, h) && |s.reg.handlers[h].queue| < QUEUE
    && ((step.ConnectSend? && s.connects[step.h].target == Some(h)) ||
        (step.BroadcastSend? && s.broadcast.target == Some(h)))
  }

  /** Step `i` of the run pushes a policy to stream `h`. */
  ghost predicate PushAt(s: State, steps: seq<Step>, h: nat, i: nat) {
    i < |steps| && Run(s, steps[..i]).Some? && PushesPolicy(Run(s, steps[..i]).value, steps[i], h)
  }

  /** The last policy pushed to stream `h` in the run was step `i`, an overtaken OnConnect. */
  ghost predicate OvertakenLast(s: State, steps: seq<Step>, h: nat, i: nat) {
    && PushAt(s, steps, h, i) && Overtaken(Run(s, steps[..i]).value, steps[i])
    && forall j: nat :: i < j ==> !PushAt(s, steps, h, j)
  }

  ghost predicate NewestPushOvertaken(s: State, steps: seq<Step>, h: nat) {
    exists i :: OvertakenLast(s, steps, h, i)
  }

  lemma {:induction false} RunSnoc(s: State, steps: seq<Step>, step: Step)
    ensures Run(s, steps + [step]) ==
            var r := Run(s, steps);
            if r.Some? && Enabled(r.value, step) then Some(Do(r.value, step)) else None
    decreases |steps|
  {
    if steps == [] {
      assert [] + [step] == [step] && [step][1..] == [];
    } else {
      assert (steps + [step])[1..] == steps[1..] + [step];
      if Enabled(s, steps[0]) {
        RunSnoc(Do(s, steps[0]), steps[1..], step);
      }
    }
  }

  lemma StaleAfterStep(s: State, step: Step, h: nat)
    requires Enabled(s, step)
    ensures h in Do(s, step).stale <==> if PushesPolicy(s, step, h) then Overtaken(s, step) else h in s.stale
  {
  }

  /** A stream is stale exactly when the run's last policy push to it was an overtaken one. */
  lemma {:induction false} StaleMeaning(s: State, steps: seq<Step>, h: nat)
    requires Run(s, steps).Some? && s.stale == {}
    ensures h in Run(s, steps).value.stale <==> NewestPushOvertaken(s, steps, h)
    decreases |steps|
  {
    if steps != [] {
      var n := |steps| - 1;
      var head, last := steps[..n], steps[n];
      assert steps == head + [last];
      RunSnoc(s, head, last);
      StaleMeaning(s, head, h);
      StaleAfterStep(Run(s, head).value, last, h);
      NewestPushSnoc(s, head, last, h);
    }
  }

  lemma NewestPushSnoc(s: State, head: seq<Step>, last: Step, h: nat)
    requires Run(s, head).Some?
    ensures NewestPushOvertaken(s, head + [last], h) <==>
            if PushesPolicy(Run(s, head).value, last, h) then Overtaken(Run(s, head).value, last)
            else NewestPushOvertaken(s, head, h)
  {
    hide Run, PushesPolicy, Overtaken;
    var steps, n := head + [last], |head|;
    assert steps[..n] == head && steps[n] == last;
    forall i: nat | i < n
      ensures PushAt(s, steps, h, i) == PushAt(s, head, h, i) && steps[i] == head[i] && steps[..i] == head[..i]
    {
      assert steps[..i] == head[..i];
    }
    assert PushAt(s, steps, h, n) <==> PushesPolicy(Run(s, head).value, last, h);
    if PushAt(s, steps, h, n) {
      assert Overtaken(Run(s, head).value, last) ==> OvertakenLast(s, steps, h, n);
      assert forall i :: OvertakenLast(s, steps, h, i) ==> i == n;
    } else {
      forall i: nat ensures OvertakenLast(s, steps, h, i) <==> OvertakenLast(s, head, h, i) {
      }
    }
  }

  /** Policy convergence: when no broadcast is in progress, a registered stream whose
      OnConnect has run and that lost no push has the engine's policy as its newest policy
      exactly when the last policy pushed to it did not come from an OnConnect that a config
      post had overtaken. */
  lemma PolicyConvergence(engine: Policy, steps: seq<Step>, h: nat)
    requires Run(Boot(engine), steps).Some?
    requires var s := Run(Boot(engine), steps).value;
             && KnownHandler(s, h) && s.broadcast.NoBroadcast?
             && Live(s.reg.handlers[h]) && s.connects[h].Connected? && s.reg.handlers[h].dropped == 0
    ensures var s := Run(Boot(engine), steps).value;
            var hs := s.reg.handlers[h];
            LastPolicy(hs.delivered + InFlight(hs) + hs.queue) == Some(s.engine) <==>
            !NewestPushOvertaken(Boot(engine), steps, h)
  {
    hide NewestPushOvertaken;
    AlwaysInv(engine, steps);
    StaleMeaning(Boot(engine), steps, h);
    assert HandlerInv(Run(Boot(engine), steps).value, h);
  }

  /** No OnConnect of the run is overtaken: each reads and pushes as if in one step. */
  ghost predicate NeverOvertaken(s: State, steps: seq<Step>) {
    forall i: nat :: i < |steps| && Run(s, steps[..i]).Some? ==> !Overtaken(Run(s, steps[..i]).value, steps[i])
  }

  lemma OnlyOvertakingMakesStale(s: State, steps: seq<Step>)
    requires Run(s, steps).Some? && NeverOvertaken(s, steps) && s.stale == {}
    ensures Run(s, steps).value.stale == {}
  {
    forall h: nat ensures h !in Run(s, steps).value.stale {
      StaleMeaning(s, steps, h);
    }
  }

  /** With OnConnect's read and push never overtaken, every such stream has converged. */
  lemma ConvergenceWithoutRaces(engine: Policy, steps: seq<Step>, h: nat)
    requires Run(Boot(engine), steps).Some? && NeverOvertaken(Boot(engine), steps)
    requires var s := Run(Boot(engine), steps).value;
             && KnownHandler(s, h) && s.broadcast.NoBroadcast?
             && Live(s.reg.handlers[h]) && s.connects[h].Connected? && s.reg.handlers[h].dropped == 0
    ensures var s := Run(Boot(engine), steps).value;
            var hs := s.reg.handlers[h];
            LastPolicy(hs.delivered + InFlight(hs) + hs.queue) == Some(s.engine)
  {
    PolicyConvergence(engine, steps, h);
  }

  lemma RunFirst(s: State, step: Step, rest: seq<Step>)
    requires Enabled(s, step)
    ensures Run(s, [step] + rest) == Run(Do(s, step), rest)
  {
    assert ([step] + rest)[1..] == rest;
  }

  /** One connected node, named in the example run below. */
  function OneNode(engine: Policy, connect: Connect, broadcast: Broadcast, pushes: seq<Push>, stale: set<nat>): State {
    var hs := NewHandler("node").(queue := pushes, accepted := pushes, found := |pushes|);
    State(Registry([hs], map["node" := 0]), [connect], engine, broadcast, stale)
  }

  lemma OfferToOneNode(engine: Policy, c: Connect, b: Broadcast, pushes: seq<Push>, stale: set<nat>, policy: Policy)
    requires |pushes| < QUEUE
    ensures OfferPolicy(OneNode(engine, c, b, pushes, stale), 0, policy) ==
            OneNode(engine, c, b, pushes + [PolicyPush(policy)], if policy == engine then stale - {0} else stale + {0})
  {
  }

  lemma RaceConnects(before: Policy, after: Policy, rest: seq<Step>)
    ensures Run(Boot(before), [Subscribe("node")] + ([ConnectRead(0)] + ([ConnectLookup(0)] + ([Config(after)] + rest)))) ==
            Run(OneNode(after, Aimed(before, Some(0)), Swapped, [], {}), rest)
  {
    var s1 := OneNode(before, NotStarted, NoBroadcast, [], {});
    assert Do(Boot(before), Subscribe("node")) == s1;
    var s2 := OneNode(before, Holding(before), NoBroadcast, [], {});
    assert Do(s1, ConnectRead(0)) == s2;
    var s3 := OneNode(before, Aimed(before, Some(0)), NoBroadcast, [], {});
    assert Do(s2, ConnectLookup(0)) == s3;
    RunFirst(s3, Config(after), rest);
    RunFirst(s2, ConnectLookup(0), [Config(after)] + rest);
    RunFirst(s1, ConnectRead(0), [ConnectLookup(0)] + ([Config(after)] + rest));
    RunFirst(Boot(before), Subscribe("node"), [ConnectRead(0)] + ([ConnectLookup(0)] + ([Config(after)] + rest)));
  }

  lemma RaceLists(before: Policy, after: Policy, rest: seq<Step>)
    ensures Run(OneNode(after, Aimed(before, Some(0)), Swapped, [], {}),
                [BroadcastList(["node"])] + ([BroadcastLookup] + rest)) ==
            Run(OneNode(after, Aimed(before, Some(0)), Sending(["node"], Some(0)), [], {}), rest)
  {
    var c := Aimed(before, Some(0));
    var s0 := OneNode(after, c, Swapped, [], {});
    assert Enabled(s0, BroadcastList(["node"]));
    var s1 := OneNode(after, c, Sending(["node"], None), [], {});
    RunFirst(s1, BroadcastLookup, rest);
    RunFirst(s0, BroadcastList(["node"]), [BroadcastLookup] + rest);
  }

  lemma RaceSends(before: Policy, after: Policy, rest: seq<Step>)
    ensures Run(OneNode(after, Aimed(before, Some(0)), Sending(["node"], Some(0)), [], {}),
                [BroadcastSend] + ([BroadcastDone] + rest)) ==
            Run(OneNode(after, Aimed(before, Some(0)), NoBroadcast, [PolicyPush(after)], {}), rest)
  {
    var c := Aimed(before, Some(0));
    var s0 := OneNode(after, c, Sending(["node"], Some(0)), [], {});
    var s1 := OneNode(after, c, Sending([], None), [PolicyPush(after)], {});
    OfferToOneNode(after, c, s0.broadcast, [], {}, after);
    assert [] + [PolicyPush(after)] == [PolicyPush(after)] && ["node"][1..] == [];
    assert Do(s0, BroadcastSend) == s1;
    RunFirst(s1, BroadcastDone, rest);
    RunFirst(s0, BroadcastSend, [BroadcastDone] + rest);
  }

  /** The race: a config post is broadcast between OnConnect's read and its push, and the
      stream is left with the replaced policy although nothing is in progress. */
  lemma OvertakenConnectLeavesOldPolicy(before: Policy, after: Policy) returns (steps: seq<Step>)
    requires before != after
    ensures Run(Boot(before), steps).Some?
    ensures var s := Run(Boot(before), steps).value;
            && s.engine == after && s.broadcast.NoBroadcast? && KnownHandler(s, 0)
            && Live(s.reg.handlers[0]) && s.connects[0].Connected? && s.reg.handlers[0].dropped == 0
            && LastPolicy(s.reg.handlers[0].accepted) == Some(before)
  {
    var last := OneNode(after, Aimed(before, Some(0)), NoBroadcast, [PolicyPush(after)], {});
    var end := OneNode(after, Connected, NoBroadcast, [PolicyPush(after), PolicyPush(before)], {0});
    OfferToOneNode(after, last.connects[0], NoBroadcast, [PolicyPush(after)], {}, before);
    assert [PolicyPush(after)] + [PolicyPush(before)] == [PolicyPush(after), PolicyPush(before)];
    assert Do(last, ConnectSend(0)) == end;
    var send := [ConnectSend(0)] + [];
    RunFirst(last, ConnectSend(0), []);
    var finish := [BroadcastSend] + ([BroadcastDone] + send);
    var broadcast := [BroadcastList(["node"])] + ([BroadcastLookup] + finish);
    RaceSends(before, after, send);
    RaceLists(before, after, finish);
    RaceConnects(before, after, broadcast);
    steps := [Subscribe("node")] + ([ConnectRead(0)] + ([ConnectLookup(0)] + ([Config(after)] + broadcast)));
  }
}
