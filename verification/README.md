# A verified model of MeshLite

MeshLite turns a `mesh.yaml` policy into packet verdicts in the kernel of every node. This
project models the parts of it whose correctness depends on several components at once, and
proves their properties for all inputs, all runs and all orders in which maps may be
iterated. `dafny verify dfyconfig.toml` checks everything.

## The parts

**From a policy to a packet.** `newEngine` merges allow rules into a nested map, `Rules`
prints the map back in arbitrary order, and `PolicyCache` reads the printed list with
first-match semantics (`PolicyEngine.dfy`, `PolicyCache.dfy`). `VerdictSync::sync` expands
the policy over pod addresses into the 4096-entry kernel map, one map operation at a time
(`VerdictSync.dfy`), and `try_intercept` decides each frame (`Kernel.dfy`).
`Enforcement.dfy` proves what frames experience during and after a rebuild, and
`Pipeline.dfy` states the whole path, from the rules of a configuration to the frame.

**Keeping it current.** `PodWatcher.dfy` is the event loop over pods. `SyncSignals.dfy` is
the wiring of the agent: policy pushes, pod events, the forwarder, the two bounded channels
and the task that runs `sync`, interleaved one step at a time, with the two separate locks
under which the task reads its inputs. `SigilClient.dfy` is the reconnecting client.
`Distributor.dfy` and `PushProtocol.dfy` are the push server: stream supersession, guarded
cleanup, bounded queues filled without blocking, `OnConnect` callbacks and config posts.
`Delivery.dfy` joins them: from a finished config post, over the stream and the client, to
the frames of a node.

**Trace store.** `TraceStore.dfy`, `TraceMeaning.dfy`, `TraceSummary.dfy`, `Latencies.dfy`
and `TracePerformance.dfy` show that the store's counters, maps, windows and bounded log are a
function of the record history, what each field and each answer says about the records, that
totals are conserved from records to edges to the
dashboard, and what its percentiles mean.

**Certificates.** `CertTable.dfy` is the table with its two uniqueness constraints;
`RotationClock.dfy` is the rotation loop against the clock.

**Conduit.** `HttpText.dfy`, `HttpHead.dfy` and `HttpBody.dfy` treat host extraction at
egress and ingress and response parsing.

`Collections.dfy` and `Sorting.dfy` hold shared vocabulary. Orders that hash maps choose are
an arbitrary enumeration (`Enumerates`); concurrency is a relation on explicit steps, and
`Run` says which states a list of steps can reach.

## Where the code differs from what is said about it

- `verdict_sync.rs:3-6` claims that no traffic is wrongly blocked between clearing and
  repopulating the map. `Enforcement.NoWindowIffDefaultAllow` shows that a flow which the old
  maps let through and the new policy allows passes throughout a rebuild exactly when the new
  `default_allow` is true;
  `Pipeline.RebuildInterruptsFlow` gives a concrete policy, map and frame.
- `PolicyCache::is_allowed` is documented as falling back to the default; with
  `default_allow` it is stricter than `Engine.Evaluate` for a source that has a rule.
  `PolicyCaches.EvaluatorAgreement` says for exactly which pairs.
- `OnConnect` reads the policy and pushes it in separate steps, so a config post can
  overtake it and leave the agent with the replaced policy.
  `PushProtocol.OvertakenConnectLeavesOldPolicy` is such a run, and
  `PushProtocol.PolicyConvergence` says exactly which streams are affected: those whose last
  policy push in the run is an overtaken one.
- A destination that only a shadowed rule lists passes `is_allowed_destination` although no
  source may reach it (`PolicyCaches.ShadowedDestination`); lists printed by `Rules` cannot
  contain such a rule.
- The dashboard can miss services if names contain a bar (`TraceSummaries.BarsMergeEdges`).
  By `TraceSummaries.SummariesAgree` its summary is the store's exactly when every service is
  named by a record that creates an edge.
- `extract_body` accepts heads with bare line feeds, but cuts their body if it contains
  CRLF CRLF (`HttpBodies.LooseBody`).
- The rotation margin is sufficient exactly if the scan period is at most the whole seconds
  in the last fifth of the lifetime (`RotationClock.RotationKeepsFresh`). A table kept from an
  earlier run stays fresh exactly if its rows outlive the first scan and their own rotation
  (`RotationClock.OpenedTable`).

## Model

| member | source | states |
|---|---|---|
| PolicyEngine.NewEngine | sigil/internal/policy/engine.go:90-112 | the engine is the table the rules denote as a set of pairs, whatever their order, grouping and duplicates; default and cluster are the configured ones and an empty mTLS mode becomes "off" |
| PolicyEngine.MergedSnoc | sigil/internal/policy/engine.go:92-99 | appending a rule extends exactly its source's destinations and leaves other sources alone |
| PolicyEngine.EvaluateMeaning | sigil/internal/policy/engine.go:114-129 | a pair is allowed if and only if some rule lists it or the default allows |
| PolicyEngine.Rules | sigil/internal/policy/engine.go:146-157 | the result lists every source of the table once, with each of its destinations once, in some order |
| PolicyEngine.RulesRoundTrip | sigil/internal/policy/engine.go:146-157 | compiling any list that Rules may print gives back the same engine |
| PolicyCaches.PolicyCache.constructor | crates/meshlite-tls/src/policy_cache.rs:33-41 | a new cache allows every pair |
| PolicyCaches.PolicyCache.Update | crates/meshlite-tls/src/policy_cache.rs:43-48 | the cache then holds exactly the pushed policy |
| PolicyCaches.PolicyCache.IsAllowed | crates/meshlite-tls/src/policy_cache.rs:50-65 | answers with the first-match meaning of the held rules |
| PolicyCaches.PolicyCache.IsAllowedDestination | crates/meshlite-tls/src/policy_cache.rs:67-77 | true if and only if some rule lists the destination or the default allows |
| PolicyCaches.DecideMeaning | crates/meshlite-tls/src/policy_cache.rs:53-65 | first match allows if and only if the earliest rule of the source lists the destination, or there is no such rule and the default allows |
| PolicyCaches.MeshctlIsAllowed | meshctl/cmd/types.go:37-50 | meshctl's evaluator gives the cache's answer on every policy |
| PolicyCaches.EvaluatorAgreement | crates/meshlite-tls/src/policy_cache.rs:53-65 | on printed rules the answer is independent of the order, never allows what Evaluate denies, and equals Evaluate unless the default allows and the source has rules that omit the destination |
| PolicyCaches.DestinationProjection | crates/meshlite-tls/src/policy_cache.rs:67-77 | for arbitrary rules: whoever may be reached passes, and the converse holds if and only if the default allows or a listed destination is listed by a rule that decides for its source |
| PolicyCaches.DestinationProjectionOnSnapshot | crates/meshlite-tls/src/policy_cache.rs:67-77 | on printed rules the destination check holds if and only if some source may reach the destination |
| PolicyCaches.ShadowedDestination | crates/meshlite-tls/src/policy_cache.rs:67-77 | a list with a duplicated source that passes a destination nobody may reach |
| Kernel.ByteOrder | kprobe/kprobe-userspace/src/verdict_sync.rs:96-99 | the key word userspace computes from an address is the word the kernel loads from its four header bytes, and decoding the word gives the address back |
| Kernel.MaskTest | kprobe/kprobe-ebpf/src/main.rs:127-128 | the mask comparison on the loaded word holds if and only if the address is 10.244.x.x |
| Kernel.KeysAreInjective | kprobe/kprobe-ebpf/src/main.rs:45-52 | different address pairs never share a key |
| Kernel.DropMeaning | kprobe/kprobe-ebpf/src/main.rs:76-176 | a frame is dropped if and only if it is well-formed IPv4 between two pod addresses, is UDP or has SYN without ACK, and the maps deny the pair; anything else passes |
| Kernel.LogMeaning | kprobe/kprobe-ebpf/src/main.rs:100-176 | a record is written if and only if the frame is IPv4 with TCP or UDP and holds both ports, dropped or not; it carries the addresses as the map's keys do, the ports in network order, the protocol, and DENY if and only if the frame is dropped |
| Kernel.LogRoundTrip | kprobe/kprobe-userspace/src/main.rs:240-266 | a drop is always reported; exactly the logged frames with a pod address are, with their addresses, ports and protocol and, for maps of verdicts, as allowed if and only if the frame passed |
| VerdictSyncs.VerdictSync.constructor | kprobe/kprobe-userspace/src/verdict_sync.rs:36-42 | takes the maps as found, nothing written yet |
| VerdictSyncs.VerdictSync.InsertKey | kprobe/kprobe-userspace/src/verdict_sync.rs:100-104 | the insert fails, without effect, if and only if the key is new and the map holds 4096 keys; otherwise exactly this entry is set; the recorded operations account for the maps |
| VerdictSyncs.VerdictSync.Clear | kprobe/kprobe-userspace/src/verdict_sync.rs:67-77 | removes every key the map held, once, in some order |
| VerdictSyncs.VerdictSync.InsertBlock | kprobe/kprobe-userspace/src/verdict_sync.rs:93-106 | performs one insert for each pair of addresses, sources outermost |
| VerdictSyncs.VerdictSync.Populate | kprobe/kprobe-userspace/src/verdict_sync.rs:79-108 | performs the inserts of every ordered pair of services in the order of the names |
| VerdictSyncs.VerdictSync.Sync | kprobe/kprobe-userspace/src/verdict_sync.rs:52-115 | performs flag, removals and inserts in that order, for some order of both maps, and leaves the maps these operations produce |
| VerdictSyncs.ApplyAllConcat | kprobe/kprobe-userspace/src/verdict_sync.rs:52-115 | a rebuild stopped anywhere and continued is the rebuild |
| Enforcement.SyncShape | kprobe/kprobe-userspace/src/verdict_sync.rs:57-108 | the flag is written first and once; an insert is performed if and only if two distinct services own its addresses and the policy gives its verdict |
| Enforcement.PopulateIsWanted | kprobe/kprobe-userspace/src/verdict_sync.rs:83-108 | the inserts of the four loops are exactly the pairs of addresses of distinct services with the policy's verdict |
| Enforcement.FlagDuringSync | kprobe/kprobe-userspace/src/verdict_sync.rs:59-65 | at every point after the first write the flag is the new default |
| Enforcement.EntryDuringSync | kprobe/kprobe-userspace/src/verdict_sync.rs:57-108 | at every point of a rebuild the entry of a pod pair is its old one or the new policy's decision |
| Enforcement.MidRebuildSafety | kprobe/kprobe-userspace/src/verdict_sync.rs:57-108 | at every point of a rebuild: under default deny a passed flow was allowed before or is allowed now; under default allow a dropped flow was denied before or is denied now; no capacity assumed |
| Enforcement.NoWindowIffDefaultAllow | kprobe/kprobe-userspace/src/verdict_sync.rs:1-9 | a flow that the old maps let through, by an entry or by the old default, and that the new policy allows passes at every point of the rebuild if and only if the new default is to allow |
| Enforcement.EmptyAfterClear | kprobe/kprobe-userspace/src/verdict_sync.rs:67-77 | after the removals nothing of the old map is left |
| Enforcement.SyncedKeys | kprobe/kprobe-ebpf/src/main.rs:60-64 | a synced map holds only keys of the snapshot, never more than 4096, and all of them if and only if they fit |
| Enforcement.SyncedDenies | kprobe/kprobe-userspace/src/verdict_sync.rs:44-51 | with unique owners and room, the maps deny a pod pair if and only if the policy does |
| Enforcement.EndToEnd | kprobe/kprobe-ebpf/src/main.rs:101-176 | after a completed sync a frame is dropped if and only if it starts a flow between two pods whose distinct known owners are disallowed, or that have no such owners under default deny |
| Enforcement.OrderIndependence | kprobe/kprobe-userspace/src/verdict_sync.rs:79-108 | syncs of the same policy and pods decide every frame alike, whatever the maps held before and in whatever order they were iterated, even when addresses outside the pod range are shared |
| Enforcement.DefaultDenyNeedsNoCapacity | kprobe/kprobe-userspace/src/verdict_sync.rs:79-108 | under default deny a passed flow is allowed by the policy even if the snapshot overflows the map |
| Pipeline.ConfigToPacket | sigil/internal/policy/engine.go:90-112 | from the rules of a configuration, through any printing and any sync, to the frame: it is dropped if and only if it starts a pod flow that the configuration denies |
| Pipeline.EquivalentConfigs | sigil/internal/policy/engine.go:90-112 | configurations that list the same pairs and give rules to the same sources decide every frame alike, however their rules are split, repeated or ordered |
| Pipeline.RebuildInterruptsFlow | kprobe/kprobe-userspace/src/verdict_sync.rs:1-9 | a concrete rebuild of an unchanged policy that drops a frame allowed before and after |
| PodWatchers.PodWatcher.constructor | kprobe/kprobe-userspace/src/pod_watcher.rs:41-46 | starts with the empty snapshot |
| PodWatchers.PodWatcher.TidyAll | kprobe/kprobe-userspace/src/pod_watcher.rs:87-88 | every list becomes the sorted list without repetitions of its elements |
| PodWatchers.PodWatcher.Add | kprobe/kprobe-userspace/src/pod_watcher.rs:82-92 | the relation gains exactly the pair, and every list stays strictly sorted and non-empty |
| PodWatchers.PodWatcher.Remove | kprobe/kprobe-userspace/src/pod_watcher.rs:93-106 | the relation loses exactly the pair, and no empty list is left behind |
| PodWatchers.PodWatcher.Handle | kprobe/kprobe-userspace/src/pod_watcher.rs:80-119 | one event changes the relation as prescribed, keeps the snapshot tidy and signals if and only if it is InitDone or reports or deletes a pod that has an app label and a readable address |
| PodWatchers.PodWatcher.Run | kprobe/kprobe-userspace/src/pod_watcher.rs:60-121 | after any events the snapshot is tidy and stands for the relation they define |
| PodWatchers.PairsAreLiveAdditions | kprobe/kprobe-userspace/src/pod_watcher.rs:80-119 | a pair is in the relation if and only if some event reported a pod with that app label and address and no later event restarted the watch or deleted such a pod |
| PodWatchers.ExtractMeaning | kprobe/kprobe-userspace/src/pod_watcher.rs:123-138 | a pod yields a pair if and only if its app label is the service and its pod address reads as the address |
| PodWatchers.TidyIsCanonical | kprobe/kprobe-userspace/src/pod_watcher.rs:85-104 | the relation determines the snapshot: two tidy snapshots of one relation are equal |
| PodWatchers.RetainKeeps | kprobe/kprobe-userspace/src/pod_watcher.rs:98-98 | retain keeps exactly the other addresses and their strict order |
| PodWatchers.TidyList | kprobe/kprobe-userspace/src/pod_watcher.rs:87-88 | sorting and de-duplicating keeps the elements and yields a strictly sorted list |
| SyncSignals.NoLostUpdate | kprobe/kprobe-userspace/src/main.rs:163-205 | in every interleaving, whenever no signal is queued or due, no sync runs and no watch restart is half done, the maps are those of a sync of the present policy and pods, and every frame is decided by them |
| SyncSignals.EveryPacketJustified | kprobe/kprobe-userspace/src/main.rs:195-205 | at every moment of every run, mid-rebuild or not: under default deny a passed flow is allowed by the inputs of the latest completed sync or of the one under way; under default allow a dropped flow is denied by one of the two |
| SyncSignals.NoInventedVerdict | kprobe/kprobe-userspace/src/main.rs:195-205 | at every moment each entry was asked for by the latest completed sync or the one under way |
| SyncSignals.FlagIsInForce | kprobe/kprobe-userspace/src/main.rs:195-205 | in every reachable state the flag is the default of the sync that last wrote it |
| SyncSignals.AlwaysInv | kprobe/kprobe-userspace/src/main.rs:163-205 | every reachable state satisfies the invariant: stale inputs of the task imply a signal still on its way |
| SyncSignals.InputsOfRun | kprobe/kprobe-userspace/src/main.rs:163-205 | in every reachable state the policy is the last one pushed, the snapshot stands for the relation the watch events define, and a restart is known to be incomplete if and only if it is |
| SyncSignals.FramesFollowInputs | kprobe/kprobe-userspace/src/main.rs:163-205 | in terms of what the agent was told: at rest a frame is dropped if and only if it starts a flow between two pods of the watch events that the last policy pushed denies |
| SyncSignals.SignalsConserved | kprobe/kprobe-userspace/src/main.rs:163-205 | in every run each bundle and each reported change gives one signal, and each signal wakes the task once or is still on its way |
| SyncSignals.NeverStuck | kprobe/kprobe-userspace/src/main.rs:163-205 | unless it is idle the agent can take a step of its own; no bounded channel blocks for good |
| SyncSignals.InternalStepsDescend | kprobe/kprobe-userspace/src/main.rs:163-205 | each step of its own brings the agent strictly closer to rest |
| SyncSignals.Settles | kprobe/kprobe-userspace/src/main.rs:163-205 | every run can be continued without outside news to an idle state |
| Delivery.PolicyArrives | kprobe/kprobe-userspace/src/sigil_client.rs:68-232 | once a converged stream has been delivered and handled, the client's state and the agent's cache hold the policy of the server |
| Delivery.PostReachesFrames | sigil/cmd/server/main.go:450-486 | from a finished config post to the frame: when the stream is drained and the agent at rest, a frame is dropped if and only if it starts a flow between two of the agent's pods that the posted configuration denies |
| Distributors.Distributor.constructor | sigil/internal/distributor/distributor.go:63-72 | starts with no stream |
| Distributors.Distributor.Subscribe | sigil/internal/distributor/distributor.go:102-122 | an empty node id is refused without effect; otherwise the new handler is registered and the old one cancelled, keeping all invariants |
| Distributors.Distributor.CleanUp | sigil/internal/distributor/distributor.go:132-140 | the deferred cleanup of any handler, early or late, keeps all invariants |
| Distributors.Distributor.Send | sigil/internal/distributor/distributor.go:231-244 | the push reaches the registered stream of the node or is dropped, keeping all invariants |
| Distributors.Distributor.ConnectedAgents | sigil/internal/distributor/distributor.go:220-229 | lists each registered node once |
| Distributors.Distributor.BroadcastPolicy | sigil/internal/distributor/distributor.go:197-218 | every live handler is offered the policy exactly once and no other handler changes, whatever the order |
| Distributors.RegisterIsGood | sigil/internal/distributor/distributor.go:116-122 | registration supersedes the live handler of its node and nobody else, and keeps the registry and the books exact |
| Distributors.CleanupIsGood | sigil/internal/distributor/distributor.go:132-140 | a late cleanup of a superseded handler removes no entry; that of a live one removes its own only |
| Distributors.OfferIsGood | sigil/internal/distributor/distributor.go:239-243 | a non-blocking send keeps the order, the bound of 64 and the split into accepted and dropped |
| Distributors.OfferMeaning | sigil/internal/distributor/distributor.go:239-243 | with fewer than 64 queued a push of either kind is accepted at the end of the queue, otherwise it is dropped and counted |
| Distributors.SendMeaning | sigil/internal/distributor/distributor.go:231-244 | a send reaches the registered stream of its node and changes nothing else; without one it changes nothing |
| Distributors.RegisterMeaning | sigil/internal/distributor/distributor.go:107-122 | registration adds an empty handler for the node and cancels its registered one, leaving queues and all other handlers as they were |
| Distributors.CleanupMeaning | sigil/internal/distributor/distributor.go:132-140 | a cleanup ends its handler and changes no other |
| Distributors.BroadcastReaches | sigil/internal/distributor/distributor.go:208-217 | sending to distinct nodes in any order offers the push once to each registered stream among them |
| PushProtocol.RegistryAlwaysExact | sigil/internal/distributor/distributor.go:116-140 | in every interleaving a handler is registered for its node if and only if it is neither superseded nor finished |
| PushProtocol.QueuesAlwaysConserve | sigil/internal/distributor/distributor.go:142-154 | in every interleaving delivered, in-flight and queued pushes are the accepted ones in order, the queue is bounded, and found pushes split into accepted and dropped |
| PushProtocol.StreamStep | sigil/internal/distributor/distributor.go:142-154 | every step either pushes one certificate or policy to the stream, which takes or drops it by the room it has, or leaves its record of pushes alone |
| PushProtocol.Drains | sigil/internal/distributor/distributor.go:142-154 | from every reachable state a serving handler can deliver all it accepted |
| PushProtocol.Closes | sigil/internal/distributor/distributor.go:132-154 | a serving handler whose client goes away, in the middle of a send or not, ends unregistered |
| PushProtocol.EngineIsPosted | sigil/cmd/server/main.go:450-486 | in every reachable state the engine's policy is that of the last config post |
| PushProtocol.LastPolicyMeaning | sigil/internal/distributor/distributor.go:182-218 | a policy is a stream's newest if and only if it was pushed and no policy after it |
| PushProtocol.PolicyConvergence | sigil/cmd/server/main.go:450-481 | with no broadcast in progress, a connected stream that lost no push has the engine's policy as its newest one if and only if the last step of the run that pushed a policy to it was not an OnConnect overtaken by a config post |
| PushProtocol.StaleMeaning | sigil/cmd/server/main.go:117-130 | a stream is marked stale if and only if the last step of the run that pushed a policy to it was an overtaken OnConnect |
| PushProtocol.OvertakenMeaning | sigil/cmd/server/main.go:117-130 | an overtaken OnConnect read the policy before some config post and pushed it after |
| PushProtocol.ConvergenceWithoutRaces | sigil/cmd/server/main.go:117-130 | if no OnConnect is overtaken, every such stream has the engine's policy, through all supersession races between lookup and send |
| PushProtocol.OnlyOvertakingMakesStale | sigil/cmd/server/main.go:117-130 | only an OnConnect overtaken by a config post can leave a stream with a replaced policy |
| PushProtocol.OvertakenConnectLeavesOldPolicy | sigil/cmd/server/main.go:117-130 | a run in which a config post overtakes OnConnect and the replaced policy stays |
| SigilClients.CertStore.Update | crates/meshlite-tls/src/cert_store.rs:36-47 | the service then has the new certificate and all others keep theirs |
| SigilClients.CertStore.FirstCert | crates/meshlite-tls/src/cert_store.rs:64-68 | returns some stored certificate, and none only if the store is empty |
| SigilClients.TurnKeepsInv | kprobe/kprobe-userspace/src/sigil_client.rs:76-231 | every turn keeps the invariant and never drops a service from the store |
| SigilClients.EveryRun | kprobe/kprobe-userspace/src/sigil_client.rs:68-232 | in every run TLS states imply a certificate at hand, so the empty-store error never occurs; the state and the stream are those the inputs call for; the bundles handled are exactly those that arrived on an open stream; the policy and certificates are the newest of them; one signal was sent per bundle; services never lose their certificate |
| SigilClients.TurnFollows | kprobe/kprobe-userspace/src/sigil_client.rs:76-231 | one more input keeps the client where the inputs put it: which stream is open, whether it upgrades, connects or is offline is said by what happened since the last subscription, end, failure or certificate |
| SigilClients.NewestCertMeaning | crates/meshlite-tls/src/cert_store.rs:36-47 | the certificate of a service is the last one handled for it |
| SigilClients.SigilClient.constructor | kprobe/kprobe-userspace/src/sigil_client.rs:57-74 | starts in Bootstrap with empty stores |
| SigilClients.SigilClient.BuildTls | kprobe/kprobe-userspace/src/sigil_client.rs:270-284 | succeeds only with a certificate in the store |
| SigilClients.SigilClient.Apply | kprobe/kprobe-userspace/src/sigil_client.rs:88-112 | the shared stores take over the bundle and one signal is sent |
| SigilClients.SigilClient.Advance | kprobe/kprobe-userspace/src/sigil_client.rs:76-231 | the loop over the shared objects makes exactly the turns of the state machine |
| SigilClients.SigilClient.Run | kprobe/kprobe-userspace/src/sigil_client.rs:68-232 | over any finite stretch the shared stores end as the state machine says, having handled exactly the bundles that arrived on an open stream |
| SigilClients.SigilClient.MakeHello | kprobe/kprobe-userspace/src/sigil_client.rs:236-250 | announces the node and every service of the snapshot exactly once, the node first unless a service has its name |
| TraceStores.Store.constructor | trace/backend/internal/store/store.go:152-163 | starts with no history; the bound defaults to 500 |
| TraceStores.Store.AddRecord | trace/backend/internal/store/store.go:201-260 | the record is completed as prescribed and returned, and counters, nodes, edges, windows and log are again a function of the whole history of completed records |
| TraceStores.ProperName | trace/backend/internal/store/store.go:182-196 | a name that is neither blank nor "unknown" identifies its service whatever the address and surrounding white space, and completing it again changes nothing |
| TraceStores.Store.CountOnEdge | trace/backend/internal/store/store.go:213-251 | exactly one edge changes, and by the one-record step of the fold |
| TraceStores.Store.UpdateEdge | trace/backend/internal/store/store.go:213-251 | each edge is again the fold of the records with its key, which EdgeMeaning and WindowMeaning spell out |
| TraceStores.Store.UpdateNodes | trace/backend/internal/store/store.go:210-211 | each service carries the cluster of the newest record that mentions it |
| TraceStores.Store.UpdateCounters | trace/backend/internal/store/store.go:238-251 | the counters are the numbers of records of each class |
| TraceStores.Store.AppendEvent | trace/backend/internal/store/store.go:262-281 | the log stays the newest records, newest first, cut at the bound |
| TraceStores.Store.Events | trace/backend/internal/store/store.go:328-355 | returns exactly the first matches of the log, newest first, under the 200 and 1000 limits |
| TraceStores.Store.TopologyEdges | trace/backend/internal/store/store.go:299-317 | lists every edge once |
| TraceStores.EventLogAt | trace/backend/internal/store/store.go:262-281 | entry i of the log is the i-th newest record |
| TraceStores.EventLogLength | trace/backend/internal/store/store.go:278-280 | the log holds all records or as many as the bound allows |
| TraceStores.BumpSnoc | trace/backend/internal/store/store.go:226-251 | updating an edge in place, with the window trimmed each time, equals folding the longer history |
| TraceMeanings.KeyPositions | trace/backend/internal/store/store.go:213-224 | the records of an edge are exactly those with its key, in the order they came |
| TraceMeanings.EdgeMeaning | trace/backend/internal/store/store.go:216-251 | an edge has the identity of its first record, the time of its last, the sums of the bytes, and counts its records by the text of their verdict |
| TraceMeanings.LatencyPositions | trace/backend/internal/store/store.go:228-230 | the latencies considered are exactly the positive ones, in order |
| TraceMeanings.WindowMeaning | trace/backend/internal/store/store.go:228-234 | the window holds the last at most 512 positive latencies, by position, and its last one is the last latency |
| TraceMeanings.CountMeaning | trace/backend/internal/store/store.go:238-251 | deny, tls_reject and error are counted by that text, every other verdict as allowed |
| TraceMeanings.SummaryMeaning | trace/backend/internal/store/store.go:207-251 | the summary counts the records of the history by the text of their verdict |
| TraceMeanings.NodeMeaning | trace/backend/internal/store/store.go:210-211 | a service is a node if and only if a record mentions it, with the cluster of the last such record |
| TraceMeanings.LogMeaning | trace/backend/internal/store/store.go:262-281 | entry i of the log shows each field of the i-th newest record |
| TraceMeanings.AnswerMeaning | trace/backend/internal/store/store.go:328-355 | the answer to a query is the first of the entries it asks for, by position: either end is the service if one is named, the verdict is the one named unless empty or "all", 200 without a limit and never more than 1000 |
| TraceMeanings.CompletedRecord | trace/backend/internal/store/store.go:167-196 | each field of a completed record: trimmed names, the host of the address, the address or "unknown" for a blank name or "unknown" in any case, and the defaults for leg, verdict and time |
| TraceSummaries.KeyIsInjective | trace/backend/internal/store/store.go:213-213 | without bars in service names a key determines source, destination and leg |
| TraceSummaries.PartitionByKey | trace/backend/internal/store/store.go:213-251 | splitting the records by key loses none and counts none twice |
| TraceSummaries.EdgesConserve | trace/backend/internal/store/store.go:201-260 | for every history the edge counters add up to the number of records of each class, and requests to all records |
| TraceSummaries.EndpointsAreNodes | trace/backend/internal/store/store.go:210-223 | every edge endpoint is a node, and without bars in names every node is an endpoint |
| TraceSummaries.EndpointMeaning | trace/backend/internal/store/store.go:213-224 | the endpoints of the edges are exactly the services of the records that create an edge |
| TraceSummaries.BuildSummary | trace/frontend/src/App.tsx:101-129 | the accumulators are the sums over the edges and the number of distinct endpoints |
| TraceSummaries.SummariesAgree | trace/frontend/src/App.tsx:101-129 | the dashboard's totals equal the store's for every history and edge order, classes add up to requests, and the service count is never larger; the summaries are equal if and only if every service of the history is an endpoint of a record whose key is new, as it is without bars in names |
| TraceSummaries.BarsMergeEdges | trace/frontend/src/App.tsx:101-129 | with a bar in a name two pairs share an edge and the dashboard misses a service |
| Latencies.Percentile | trace/backend/internal/store/store.go:392-406 | picks the sample at the clamped truncated rank of the sorted samples, zero without samples |
| Latencies.PercentileRank | trace/backend/internal/store/store.go:392-406 | for p in [0,1] the result is a sample with at least floor((n-1)p)+1 samples not above it and n-floor((n-1)p) not below it |
| Latencies.PercentilePermuted | trace/backend/internal/store/store.go:392-406 | the order of the samples does not matter |
| Latencies.PercentileMonotone | trace/backend/internal/store/store.go:392-406 | a higher percentage never gives a smaller result |
| Latencies.PercentileEnds | trace/backend/internal/store/store.go:398-404 | for every percentage the result is a sample, at or below zero a least one and at or above one a greatest one |
| Latencies.MinSlice | trace/backend/internal/store/store.go:408-419 | a least sample, zero without samples |
| Latencies.MaxSlice | trace/backend/internal/store/store.go:421-432 | a greatest sample, zero without samples |
| Latencies.AvgSlice | trace/backend/internal/store/store.go:434-443 | the mean times the number of samples is their sum, zero without samples |
| Latencies.AverageWithin | trace/backend/internal/store/store.go:434-443 | the mean lies between the least and the greatest sample |
| TracePerformance.Report | trace/backend/internal/store/store.go:357-390 | in every row min, p50, p95, p99 and max are in this order, the mean lies between min and max, and the error rate is the share of requests not allowed |
| CertTables.CertAuthority.constructor | sigil/internal/ca/ca.go:60-96 | opens the table with the rows kept from an earlier run; the lifetime is the default unless a positive one is given |
| CertTables.CertAuthority.PersistCert | sigil/internal/ca/ca.go:399-405 | the table takes the row, loses exactly the rows that clash with it, and keeps both constraints |
| CertTables.ReplaceKeepsUnique | sigil/internal/ca/ca.go:300-314 | a replace keeps serials and services unique, keeps exactly the rows that differ in both, deletes at most two rows, and spares all other services if and only if the serial is unused by them |
| CertTables.CertAuthority.Issue | sigil/internal/ca/ca.go:111-178 | the stored row expires after the lifetime and is due after four fifths of it, in whole seconds |
| CertTables.CertAuthority.Revoke | sigil/internal/ca/ca.go:253-261 | exactly the service's row is gone |
| CertTables.CertAuthority.ListCerts | sigil/internal/ca/ca.go:263-286 | lists every row once |
| CertTables.CertAuthority.RotationScan | sigil/cmd/server/main.go:198-222 | a scan with fresh serials leaves every row that is not due when checked, exchanges every due row for one issued at that instant for the same identity, and adds nothing else; identities and both constraints are kept for every lifetime; if four fifths of it are at least a second, no row is left that was due when the scan started |
| CertTables.ReissueKeepsIdentities | sigil/cmd/server/main.go:204-212 | reissuing a stored service under an unused serial preserves the set of identities |
| RotationClock.RotationKeepsFresh | sigil/cmd/server/main.go:191-225 | in every interleaving with issues and revocations, from every table whose rows last long enough, no stored certificate expires, if and only if the time from the start of one scan to the end of the next is at most the whole seconds left after four fifths of the lifetime |
| RotationClock.OpenedTable | sigil/internal/ca/ca.go:60-96 | with that margin a table kept from an earlier run stays fresh in every run if and only if each row outlives the first scan and its own rotation by a period |
| RotationClock.FifthOfLifetime | sigil/internal/ca/ca.go:128-130 | from an empty table a scan period one second short of a fifth of the lifetime keeps every certificate fresh, although both times are truncated |
| RotationClock.ExpiredRun | sigil/cmd/server/main.go:191-225 | whenever the period exceeds that margin there is a run from an empty table in which a stored certificate has expired |
| RotationClock.StepKeepsInv | sigil/cmd/server/main.go:191-225 | every step keeps each row expiring more than a period after the last scan and at least a period after its rotation, and due rows on the list of the scan under way |
| HttpHeads.ExtractHost | conduit/src/egress.rs:226-242 | returns the host of the first line that names one |
| HttpHeads.HostInMeaning | conduit/src/egress.rs:228-242 | a text has a host if and only if one of its lines names it and no earlier line names any |
| HttpHeads.HostFieldMeaning | conduit/src/egress.rs:231-239 | a line yields a host if and only if it is a rendering of it: the letters of host each in either case, a colon, padding of the six white space characters, the host, then a port or padding |
| HttpText.TrimMeaning | conduit/src/egress.rs:233-233 | trimming takes away the white space at both ends and nothing else |
| HttpHeads.HeadRoundTrip | conduit/src/egress.rs:228-242 | extraction inverts rendering of a whole head with other lines around the Host line and either line end |
| HttpHeads.CutHead | conduit/src/ingress.rs:93-108 | a reader of a prefix finds the same host if and only if the prefix reaches the end of the host; otherwise it finds none or a beginning of it |
| HttpHeads.HostEndMeaning | conduit/src/ingress.rs:93-108 | the part that must be read ends with the host, or with the host and its colon |
| HttpHeads.EgressAdmits | conduit/src/egress.rs:69-105 | a request goes on if and only if it names a host and the cache admits that host as a destination |
| HttpHeads.IngressRoute | conduit/src/ingress.rs:99-117 | a request is routed if and only if it names a host: to host and port if the host has a dot, with the suffix between them otherwise |
| HttpHeads.SameBackend | conduit/src/ingress.rs:110-116 | two hosts share a backend if and only if they are equal or one is the undotted short form of the other |
| HttpHeads.CheckedHostIsRouted | conduit/src/ingress.rs:93-116 | ingress, having read a prefix, goes to the backend of the host egress checked if and only if the prefix reaches the end of the host or what it read of it is its undotted short form |
| HttpBodies.ExtractBody | conduit/src/cluster_client.rs:161-185 | returns what follows the first CRLF CRLF, or the first LF LF if there is none, for a status line with 200, and the error otherwise |
| HttpBodies.BodyIsUnique | conduit/src/cluster_client.rs:161-185 | the specification of the result determines it |
| HttpBodies.BodyRoundTrip | conduit/src/cluster_client.rs:164-185 | a rendered response gives back its body exactly, even one containing CRLF CRLF, if its status line has 200, and the error with that line otherwise |
| HttpBodies.LooseBody | conduit/src/cluster_client.rs:161-185 | with bare line feeds the body comes back if and only if it holds no CRLF CRLF; otherwise only what follows its first one does |

## Left out

- Decoding YAML, JSON and protobuf, files, sockets, HTTP servers, logging, metrics and telemetry posting: inputs and outputs are parameters.
- X.509, ECDSA, PEM and TLS: certificates are opaque text, and whether a TLS configuration can be built is an input.
- SQLite, gRPC, tokio, kube and aya: only the table with its constraints, FIFO channels, the event stream and the bounded map are modelled; operations on them do not fail except a full map and a full queue.
- Failed database statements and failed issues in the rotation loop: every scan is assumed to succeed.
- Torn reads of the engine during `*eng = *newEng` and several config posts in flight at once: the code gives no guarantee there.
- A revocation inside a rotation scan: RotationClock allows it, but the scan then reissues the revoked service, as the code does.
- 64-bit overflow of counters, byte sums and times: integers are unbounded.
- Rounding of floating-point numbers: latencies and percentages are reals, and the rotation point is the floor of four fifths of the lifetime.
- IPv4 options and big-endian hosts: the code fixes a 20-byte header and a little-endian target.
- Non-ASCII heads, invalid UTF-8 and IPv6 literal hosts in the Conduit parsers; bytes are characters, and only ASCII white space is trimmed.
- Status codes extracted from responses (`extract_status_code`) and `resolve_service`: they only label telemetry.
- The library's splitting of host and port is a parameter of record completion, the clock another; only ASCII white space and letters are recognised.
- Sorting of nodes, edges and report rows, `ORDER BY` in the certificate listing, `GeneratedAt` and `generated_at`: orders are arbitrary and times of generation are not kept.
- The entry count that `sync` logs.
- The pod watcher ending because no Kubernetes client can be built.
- The delete path of the service registry: it reports a pod name as a best-effort service.
- Network enrolment, the rule mapping of `fetch_policy`, user interfaces, the command line tool except its evaluator, charts and generated code.
- CertTables.CertAuthority.RotationScan: states the preservation of identities for a scan with nothing interleaved and unused serials; a clash of random 128-bit serials deletes another service's row.
- Printing an engine anew for each push: PushProtocol compares policies as printed once for each config post; by EvaluatorAgreement and ConfigToPacket another printing decides alike.
- Delivery.PostReachesFrames: the three runs are tied by which policies they exchange, not by a common clock.
- PushProtocol.PolicyConvergence: says nothing about a stream that lost a push to a full queue, since the code drops it for good.
- Distributors.Distributor.BroadcastPolicy: nothing is interleaved in the method; PushProtocol splits the broadcast into its lookups and sends.
- SyncSignals.NoLostUpdate: assumes that map operations other than inserts into a full map succeed.
