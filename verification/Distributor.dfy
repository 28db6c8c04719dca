/** The push server of sigil/internal/distributor/distributor.go: one handler per open
    stream, one registered stream per node, bounded queues filled without blocking. */
module Distributors {
  import opened Collections
  import opened PolicyCaches

  /** Capacity of a stream's send channel. */
  const QUEUE: nat := 64

  datatype Push = CertPush(serviceId: string) | PolicyPush(policy: Policy)

  /** A handler serves, has left its loop, or has run its deferred cleanup. */
  datatype Phase = Serving | Leaving | Gone

  /** One call of Subscribe. The last three fields record what senders did with it. */
  datatype Handler = Handler(
    node: string,
    queue: seq<Push>,
    sending: Option<Push>,
    delivered: seq<Push>,
    cancelled: bool,          // superseded by a newer stream of its node
    disconnected: bool,       // the client went away
    phase: Phase,
    accepted: seq<Push>,
    dropped: nat,
    found: nat
  )

  /** Handlers are numbered in the order of their registration. */
  datatype Registry = Registry(handlers: seq<Handler>, streams: map<string, nat>)

  const NO_AGENTS: Registry := Registry([], map[])

  function NewHandler(node: string): Handler {
    Handler(node, [], None, [], false, false, Serving, [], 0, 0)
  }

  // ---- The regions that run under the lock, and the channel operations ----

  /** The locked part of Subscribe: cancel the node's old stream, register the new one. */
  function Register(r: Registry, node: string): Registry {
    var id := |r.handlers|;
    var superseded :=
      if node in r.streams && r.streams[node] < id
      then r.handlers[r.streams[node] := r.handlers[r.streams[node]].(cancelled := true)]
      else r.handlers;
    Registry(superseded + [NewHandler(node)], r.streams[node := id])
  }

  /** The deferred cleanup: unregister only if the entry is still this handler's. */
  function Cleanup(r: Registry, h: nat): Registry
    requires h < |r.handlers|
  {
    var node := r.handlers[h].node;
    Registry(r.handlers[h := r.handlers[h].(phase := Gone)],
             if node in r.streams && r.streams[node] == h then r.streams - {node} else r.streams)
  }

  /** A non-blocking channel send. */
  function Offer(hs: Handler, push: Push): Handler {
    if |hs.queue| < QUEUE
    then hs.(queue := hs.queue + [push], accepted := hs.accepted + [push], found := hs.found + 1)
    else hs.(dropped := hs.dropped + 1, found := hs.found + 1)
  }

  function OfferTo(r: Registry, h: nat, push: Push): Registry
    requires h < |r.handlers|
  {
    r.(handlers := r.handlers[h := Offer(r.handlers[h], push)])
  }

  /** send: look the node up, then offer; nothing happens for an unknown node. */
  function SendTo(r: Registry, node: string, push: Push): Registry {
    if node in r.streams && r.streams[node] < |r.handlers| then OfferTo(r, r.streams[node], push) else r
  }

  function SendToAll(r: Registry, nodes: seq<string>, push: Push): Registry {
    if nodes == [] then r
    else SendTo(SendToAll(r, nodes[..|nodes| - 1], push), nodes[|nodes| - 1], push)
  }

  function WithHandler(r: Registry, h: nat, hs: Handler): Registry
    requires h < |r.handlers|
  {
    r.(handlers := r.handlers[h := hs])
  }

  // ---- Invariants of the registry ----

  /** The current holder of its node: not superseded, not cleaned up. */
  predicate Live(hs: Handler) {
    !hs.cancelled && hs.phase != Gone
  }

  /** A handler is registered exactly while it is live. */
  ghost predicate Registered(r: Registry) {
    && (forall n :: n in r.streams ==>
          r.streams[n] < |r.handlers| && r.handlers[r.streams[n]].node == n && Live(r.handlers[r.streams[n]]))
    && (forall h :: 0 <= h < |r.handlers| && Live(r.handlers[h]) ==>
          r.handlers[h].node in r.streams && r.streams[r.handlers[h].node] == h)
  }

  function InFlight(hs: Handler): seq<Push> {
    match hs.sending
    case Some(push) => [push]
    case None => []
  }

  /** Accepted pushes are exactly those delivered, being sent, and queued, in order; the
      queue is bounded; every push that found the stream was accepted or dropped. */
  ghost predicate Conserves(hs: Handler) {
    && hs.accepted == hs.delivered + InFlight(hs) + hs.queue
    && |hs.queue| <= QUEUE
    && hs.found == |hs.accepted| + hs.dropped
  }

  ghost predicate Good(r: Registry) {
    Registered(r) && forall h :: 0 <= h < |r.handlers| ==> Conserves(r.handlers[h])
  }

  lemma RegisterKeepsRegistered(r: Registry, node: string)
    requires Registered(r)
    ensures Registered(Register(r, node))
  {
  }

  /** Registration supersedes the node's previous live handler and nobody else. */
  lemma RegisterIsGood(r: Registry, node: string)
    requires Good(r)
    ensures Good(Register(r, node))
    ensures var r' := Register(r, node);
            && Live(r'.handlers[|r.handlers|])
            && forall h :: 0 <= h < |r.handlers| ==>
                 (Live(r'.handlers[h]) <==> Live(r.handlers[h]) && r.handlers[h].node != node)
  {
    hide Conserves;
    RegisterKeepsRegistered(r, node);
    RegisterKeepsBooks(r, node);
  }

  lemma RegisterKeepsBooks(r: Registry, node: string)
    requires forall h :: 0 <= h < |r.handlers| ==> Conserves(r.handlers[h])
    ensures var r' := Register(r, node); forall h :: 0 <= h < |r'.handlers| ==> Conserves(r'.handlers[h])
  {
  }

  /** A late cleanup of a superseded handler leaves every entry in place; the cleanup of a
      live one removes its own entry and no other. */
  lemma CleanupIsGood(r: Registry, h: nat)
    requires Good(r) && h < |r.handlers|
    ensures Good(Cleanup(r, h))
    ensures r.handlers[h].cancelled ==> Cleanup(r, h).streams == r.streams
    ensures Live(r.handlers[h]) ==> Cleanup(r, h).streams == r.streams - {r.handlers[h].node}
  {
  }

  lemma OfferIsGood(r: Registry, h: nat, push: Push)
    requires Good(r) && h < |r.handlers|
    ensures Good(OfferTo(r, h, push))
  {
    var hs := r.handlers[h];
    assert hs.delivered + InFlight(hs) + (hs.queue + [push]) == (hs.delivered + InFlight(hs) + hs.queue) + [push];
  }

  /** What a handler makes of a push: with fewer than 64 queued it is accepted at the end,
      otherwise it is counted as dropped. */
  ghost predicate Took(before: Handler, after: Handler, push: Push) {
    if |before.queue| < 64
    then after == before.(queue := before.queue + [push], accepted := before.accepted + [push], found := before.found + 1)
    else after == before.(dropped := before.dropped + 1, found := before.found + 1)
  }

  lemma OfferMeaning(hs: Handler, push: Push)
    ensures Took(hs, Offer(hs, push), push)
  {
  }

  /** A send reaches the node's registered stream, if there is one, and nothing else. */
  lemma SendMeaning(r: Registry, node: string, push: Push)
    requires Good(r)
    ensures node !in r.streams ==> SendTo(r, node, push) == r
    ensures node in r.streams ==>
              var t, r' := r.streams[node], SendTo(r, node, push);
              && r'.streams == r.streams && |r'.handlers| == |r.handlers| && Took(r.handlers[t], r'.handlers[t], push)
              && forall h :: 0 <= h < |r.handlers| && h != t ==> r'.handlers[h] == r.handlers[h]
  {
  }

  /** Registration adds a fresh handler for the node and cancels its registered one; nothing
      else about the handlers changes. */
  lemma RegisterMeaning(r: Registry, node: string)
    requires Good(r)
    ensures var r', id := Register(r, node), |r.handlers|;
            && r'.streams == r.streams[node := id] && |r'.handlers| == id + 1
            && r'.handlers[id] == Handler(node, [], None, [], false, false, Serving, [], 0, 0)
            && forall h :: 0 <= h < id ==>
                 r'.handlers[h] == if node in r.streams && r.streams[node] == h
                                   then r.handlers[h].(cancelled := true) else r.handlers[h]
  {
  }

  /** A cleanup marks its handler as gone and changes nothing else about the handlers. */
  lemma CleanupMeaning(r: Registry, h: nat)
    requires Good(r) && h < |r.handlers|
    ensures var r' := Cleanup(r, h);
            && |r'.handlers| == |r.handlers|
            && forall k :: 0 <= k < |r.handlers| ==>
                 r'.handlers[k] == if k == h then r.handlers[k].(phase := Gone) else r.handlers[k]
  {
  }

  lemma {:induction false} BroadcastFrame(r: Registry, nodes: seq<string>, push: Push)
    ensures SendToAll(r, nodes, push).streams == r.streams
    ensures |SendToAll(r, nodes, push).handlers| == |r.handlers|
  {
    if nodes != [] {
      BroadcastFrame(r, nodes[..|nodes| - 1], push);
    }
  }

  /** A broadcast offers the push once to every registered stream and to nobody else. */
  lemma {:induction false} BroadcastReaches(r: Registry, nodes: seq<string>, push: Push, h: nat)
    requires Good(r) && h < |r.handlers| && Distinct(nodes)
    ensures var r' := SendToAll(r, nodes, push);
            && Good(r') && r'.streams == r.streams && |r'.handlers| == |r.handlers|
            && r'.handlers[h] ==
               if r.handlers[h].node in nodes && Live(r.handlers[h]) then Offer(r.handlers[h], push) else r.handlers[h]
  {
    hide Conserves;
    if nodes != [] {
      var head, last := nodes[..|nodes| - 1], nodes[|nodes| - 1];
      BroadcastReaches(r, head, push, h);
      var before := SendToAll(r, head, push);
      assert last !in head;
      assert nodes == head + [last];
      if last in before.streams {
        var t := before.streams[last];
        OfferIsGood(before, t, push);
        BroadcastReaches(r, head, push, t);
      }
    }
  }

  datatype SubscribeResult = Subscribed(handler: nat) | InvalidArgument

  class Distributor {
    var handlers: seq<Handler>
    var streams: map<string, nat>

    constructor ()
      ensures State() == NO_AGENTS
    {
      handlers, streams := [], map[];
    }

    function State(): Registry
      reads this
    {
      Registry(handlers, streams)
    }

    /** Subscribe up to its receive loop. */
    method Subscribe(node: string) returns (result: SubscribeResult)
      requires Good(State())
      modifies this
      ensures Good(State())
      ensures node == "" ==> result == InvalidArgument && State() == old(State())
      ensures node != "" ==> result == Subscribed(|old(handlers)|) && State() == Register(old(State()), node)
    {
      if node == "" {
        return InvalidArgument;
      }
      RegisterIsGood(State(), node);
      var id := |handlers|;
      if node in streams {
        var previous := streams[node];
        handlers := handlers[previous := handlers[previous].(cancelled := true)];
      }
      handlers := handlers + [NewHandler(node)];
      streams := streams[node := id];
      return Subscribed(id);
    }

    /** The deferred function of a handler that has left its loop. */
    method CleanUp(h: nat)
      requires Good(State()) && h < |handlers|
      modifies this
      ensures Good(State()) && State() == Cleanup(old(State()), h)
    {
      CleanupIsGood(State(), h);
      var node := handlers[h].node;
      if node in streams && streams[node] == h {
        streams := streams - {node};
      }
      handlers := handlers[h := handlers[h].(phase := Gone)];
    }

    method Send(node: string, push: Push)
      requires Good(State())
      modifies this
      ensures Good(State()) && State() == SendTo(old(State()), node, push)
      ensures node in streams ==> Took(old(handlers)[streams[node]], handlers[streams[node]], push)
    {
      if node !in streams {
        return;
      }
      var h := streams[node];
      OfferIsGood(State(), h, push);
      var hs := handlers[h];
      if |hs.queue| < QUEUE {
        hs := hs.(queue := hs.queue + [push], accepted := hs.accepted + [push], found := hs.found + 1);
      } else {
        hs := hs.(dropped := hs.dropped + 1, found := hs.found + 1);
      }
      assert hs == Offer(handlers[h], push);
      handlers := handlers[h := hs];
    }

    method ConnectedAgents() returns (ids: seq<string>)
      requires Good(State())
      ensures Enumerates(ids, streams.Keys)
    {
      ids := Enumerate(streams.Keys);
    }

    /** BroadcastPolicy with nothing interleaved: every registered stream is offered the push. */
    method BroadcastPolicy(policy: Policy)
      requires Good(State())
      modifies this
      ensures Good(State()) && streams == old(streams) && |handlers| == |old(handlers)|
      ensures forall h :: 0 <= h < |handlers| ==>
                handlers[h] == if Live(old(handlers)[h]) then Offer(old(handlers)[h], PolicyPush(policy)) else old(handlers)[h]
    {
      var nodeIds := ConnectedAgents();
      for i := 0 to |nodeIds|
        invariant Good(State()) && State() == SendToAll(old(State()), nodeIds[..i], PolicyPush(policy))
      {
        Send(nodeIds[i], PolicyPush(policy));
        assert nodeIds[..i + 1][..i] == nodeIds[..i];
      }
      assert nodeIds[..|nodeIds|] == nodeIds;
      ghost var r := old(State());
      BroadcastFrame(r, nodeIds, PolicyPush(policy));
      forall h | 0 <= h < |r.handlers|
        ensures handlers[h] == if Live(r.handlers[h]) then Offer(r.handlers[h], PolicyPush(policy)) else r.handlers[h]
      {
        BroadcastReaches(r, nodeIds, PolicyPush(policy), h);
      }
    }
  }
}
