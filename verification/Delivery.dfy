/** The protocols joined: a config post reaches the frames of a node. The server, the client
    and the agent run on their own; what ties them together is which policies they exchange. */
module Delivery {
  import opened Collections
  import opened PolicyEngine
  import opened PolicyCaches
  import opened Kernel
  import opened VerdictSyncs
  import opened Enforcement
  import opened Pipeline
  import Distributors
  import PushProtocol
  import SigilClients
  import SyncSignals

  /** The policies among the pushes of a stream. */
  function Sent(pushes: seq<Distributors.Push>): seq<Policy> {
    if pushes == [] then []
    else
      var n := |pushes| - 1;
      Sent(pushes[..n]) + if pushes[n].PolicyPush? then [pushes[n].policy] else []
  }

  /** The policies among the bundles a client has handled. */
  function Handled(bundles: seq<SigilClients.Bundle>): seq<Policy> {
    if bundles == [] then []
    else
      var n := |bundles| - 1;
      Handled(bundles[..n]) + if bundles[n].PolicyBundle? then [bundles[n].policy] else []
  }

  /** The policies the agent's cache took over, in order. */
  function Applied(steps: seq<SyncSignals.Step>): seq<Policy> {
    if steps == [] then []
    else (if steps[0].PolicyBundle? then [steps[0].policy] else []) + Applied(steps[1..])
  }

  /** The last policy of a list, or what there was before. */
  function LastOr(before: Policy, policies: seq<Policy>): Policy {
    if policies == [] then before else policies[|policies| - 1]
  }

  lemma {:induction false} LastSent(pushes: seq<Distributors.Push>)
    ensures PushProtocol.LastPolicy(pushes) ==
            if Sent(pushes) == [] then None else Some(Sent(pushes)[|Sent(pushes)| - 1])
  {
    if pushes != [] {
      LastSent(pushes[..|pushes| - 1]);
    }
  }

  lemma {:induction false} LastHandled(bundles: seq<SigilClients.Bundle>)
    ensures SigilClients.NewestPolicy(bundles) == LastOr(INITIAL, Handled(bundles))
  {
    if bundles != [] {
      LastHandled(bundles[..|bundles| - 1]);
    }
  }

  lemma {:induction false} LastApplied(s: SyncSignals.State, steps: seq<SyncSignals.Step>)
    requires SyncSignals.Run(s, steps).Some?
    ensures SyncSignals.Run(s, steps).value.policy == LastOr(s.policy, Applied(steps))
    decreases |steps|
  {
    if steps != [] {
      LastApplied(SyncSignals.Do(s, steps[0]), steps[1..]);
    }
  }

  /** Stream `h` of a server run is registered and connected, lost no push, has delivered
      everything, and did not get its newest policy from an overtaken OnConnect; no config
      post is being broadcast. */
  ghost predicate Drained(engine: Policy, server: seq<PushProtocol.Step>, h: nat) {
    && PushProtocol.Run(PushProtocol.Boot(engine), server).Some?
    && var s := PushProtocol.Run(PushProtocol.Boot(engine), server).value;
    && PushProtocol.KnownHandler(s, h) && s.broadcast.NoBroadcast?
    && var hs := s.reg.handlers[h];
    && Distributors.Live(hs) && s.connects[h].Connected? && hs.dropped == 0 && hs.queue == [] && hs.sending.None?
    && !PushProtocol.NewestPushOvertaken(PushProtocol.Boot(engine), server, h)
  }

  /** What the server delivered on `h` arrived at the client on its open streams, after what
      earlier streams brought, and the agent applied what the client handled. */
  ghost predicate Exchanged(engine: Policy, server: seq<PushProtocol.Step>, h: nat, earlier: seq<Policy>,
                            inputs: seq<SigilClients.Input>, agent: seq<SyncSignals.Step>)
    requires Drained(engine, server, h)
  {
    var delivered := PushProtocol.Run(PushProtocol.Boot(engine), server).value.reg.handlers[h].delivered;
    && Handled(SigilClients.Received(inputs)) == earlier + Sent(delivered)
    && Applied(agent) == Handled(SigilClients.Turns(SigilClients.START, inputs).handled)
  }

  /** The policy of the server has arrived: in the client's state and in the agent's cache. */
  lemma PolicyArrives(engine: Policy, server: seq<PushProtocol.Step>, h: nat, earlier: seq<Policy>,
                      inputs: seq<SigilClients.Input>, agent: seq<SyncSignals.Step>)
    requires Drained(engine, server, h) && Exchanged(engine, server, h, earlier, inputs, agent)
    requires SyncSignals.After(agent).Some?
    ensures var posted := PushProtocol.Run(PushProtocol.Boot(engine), server).value.engine;
            && SigilClients.Turns(SigilClients.START, inputs).policy == posted
            && SyncSignals.After(agent).value.policy == posted
  {
    var s := PushProtocol.Run(PushProtocol.Boot(engine), server).value;
    var hs := s.reg.handlers[h];
    var client := SigilClients.Turns(SigilClients.START, inputs);
    PushProtocol.PolicyConvergence(engine, server, h);
    assert hs.delivered + Distributors.InFlight(hs) + hs.queue == hs.delivered;
    LastSent(hs.delivered);
    SigilClients.EveryRun(inputs, 0);
    LastHandled(client.handled);
    LastApplied(SyncSignals.BOOT, agent);
  }

  /** From a finished config post to the frame: once the stream is drained and the agent has
      come to rest, a frame is dropped exactly when it starts a flow between two of the
      agent's pods that the posted configuration denies. */
  lemma PostReachesFrames(engine: Policy, server: seq<PushProtocol.Step>, h: nat, earlier: seq<Policy>,
                          inputs: seq<SigilClients.Input>, agent: seq<SyncSignals.Step>, cfg: MeshConfig, rules: seq<AllowRule>, frame: seq<bv8>)
    requires Drained(engine, server, h) && Exchanged(engine, server, h, earlier, inputs, agent)
    requires Snapshot(Compiled(cfg).allow, rules)
    requires PushProtocol.Run(PushProtocol.Boot(engine), server).value.engine == Pushed(cfg, rules)
    requires SyncSignals.After(agent).Some?
    requires var a := SyncSignals.After(agent).value;
             && SyncSignals.Idle(a) && !a.initializing && UniqueOwners(a.pods) && |PodKeys(a.pods)| <= CAPACITY
    ensures var a := SyncSignals.After(agent).value;
            KprobeEgress(frame, a.maps) == TC_ACT_SHOT <==>
            exists src, dst :: PodFlow(frame, src, dst) && ConfigDenies(cfg, a.pods, src, dst)
  {
    PolicyArrives(engine, server, h, earlier, inputs, agent);
    SyncSignals.NoLostUpdate(agent, frame);
    var pods := SyncSignals.After(agent).value.pods;
    hide PodFlow, PolicyDenies, ConfigDenies, SyncSignals.After;
    forall src, dst ensures PolicyDenies(Pushed(cfg, rules), pods, src, dst) <==> ConfigDenies(cfg, pods, src, dst) {
      PushedDenies(cfg, rules, pods, src, dst);
    }
  }
}
