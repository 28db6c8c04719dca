/** The whole path from mesh.yaml to a packet: newEngine merges the rules, Rules prints
    them, a PolicyBundle carries them, sync expands them and the kernel program decides. */
module Pipeline {
  import opened Collections
  import opened PolicyEngine
  import opened PolicyCaches
  import opened Kernel
  import opened VerdictSyncs
  import opened Enforcement

  /** What a configuration lets through, read off its rules: what some rule lists, and by
      default whatever a source without any rule asks for. */
  ghost predicate ConfigAllows(cfg: MeshConfig, from: string, to: string) {
    Lists(cfg.allow, from, to) || (cfg.defaultAllow && !HasRule(cfg.allow, from))
  }

  ghost predicate ConfigDenies(cfg: MeshConfig, pods: Pods, src: Ipv4, dst: Ipv4) {
    if exists f, t :: OwnedPair(pods, f, t, src, dst)
    then exists f, t :: OwnedPair(pods, f, t, src, dst) && !ConfigAllows(cfg, f, t)
    else !cfg.defaultAllow
  }

  /** The policy agents hold after a push of `rules`. */
  function Pushed(cfg: MeshConfig, rules: seq<AllowRule>): Policy {
    Policy(rules, cfg.defaultAllow, Compiled(cfg).mtlsMode)
  }

  lemma PushedPermits(cfg: MeshConfig, rules: seq<AllowRule>, from: string, to: string)
    requires Snapshot(Compiled(cfg).allow, rules)
    ensures Permits(Pushed(cfg, rules), from, to) <==> ConfigAllows(cfg, from, to)
  {
    EvaluatorAgreement(cfg, rules, rules, from, to);
    EvaluateMeaning(cfg, from, to);
  }

  lemma PushedDenies(cfg: MeshConfig, rules: seq<AllowRule>, pods: Pods, src: Ipv4, dst: Ipv4)
    requires Snapshot(Compiled(cfg).allow, rules)
    ensures PolicyDenies(Pushed(cfg, rules), pods, src, dst) <==> ConfigDenies(cfg, pods, src, dst)
  {
    forall f, t ensures Permits(Pushed(cfg, rules), f, t) <==> ConfigAllows(cfg, f, t) {
      PushedPermits(cfg, rules, f, t);
    }
  }

  /** A frame is dropped exactly when it starts a flow between two pods that the
      configuration denies, whatever orders the maps were iterated in on the way. */
  lemma ConfigToPacket(cfg: MeshConfig, rules: seq<AllowRule>, m: KernelMaps, pods: Pods, keys: seq<PacketKey>,
                       names: seq<string>, frame: seq<bv8>)
    requires Snapshot(Compiled(cfg).allow, rules)
    requires SyncOrders(m, pods, keys, names) && UniqueOwners(pods) && |PodKeys(pods)| <= CAPACITY
    ensures KprobeEgress(frame, Synced(m, Pushed(cfg, rules), pods, keys, names)) == TC_ACT_SHOT <==>
            exists src, dst :: PodFlow(frame, src, dst) && ConfigDenies(cfg, pods, src, dst)
  {
    EndToEnd(m, Pushed(cfg, rules), pods, keys, names, frame);
    forall src, dst ensures PolicyDenies(Pushed(cfg, rules), pods, src, dst) <==> ConfigDenies(cfg, pods, src, dst) {
      PushedDenies(cfg, rules, pods, src, dst);
    }
  }

  /** Two configurations that list the same pairs, give rules to the same sources and have
      the same default decide every frame alike, however their rules are split or ordered. */
  lemma EquivalentConfigs(cfg: MeshConfig, cfg': MeshConfig, rules: seq<AllowRule>, rules': seq<AllowRule>,
                          m: KernelMaps, m': KernelMaps, keys: seq<PacketKey>, keys': seq<PacketKey>,
                          names: seq<string>, names': seq<string>, pods: Pods, frame: seq<bv8>)
    requires Snapshot(Compiled(cfg).allow, rules) && Snapshot(Compiled(cfg').allow, rules')
    requires SyncOrders(m, pods, keys, names) && SyncOrders(m', pods, keys', names')
    requires UniqueOwners(pods) && |PodKeys(pods)| <= CAPACITY
    requires cfg.defaultAllow == cfg'.defaultAllow
    requires forall f, t :: Lists(cfg.allow, f, t) == Lists(cfg'.allow, f, t)
    requires forall f :: HasRule(cfg.allow, f) == HasRule(cfg'.allow, f)
    ensures KprobeEgress(frame, Synced(m, Pushed(cfg, rules), pods, keys, names)) ==
            KprobeEgress(frame, Synced(m', Pushed(cfg', rules'), pods, keys', names'))
  {
    var s := Synced(m, Pushed(cfg, rules), pods, keys, names);
    var s' := Synced(m', Pushed(cfg', rules'), pods, keys', names');
    ConfigToPacket(cfg, rules, m, pods, keys, names, frame);
    ConfigToPacket(cfg', rules', m', pods, keys', names', frame);
    forall src, dst ensures ConfigDenies(cfg, pods, src, dst) <==> ConfigDenies(cfg', pods, src, dst) {
      assert forall f, t :: ConfigAllows(cfg, f, t) == ConfigAllows(cfg', f, t);
    }
    DropMeaning(frame, s);
    DropMeaning(frame, s');
  }

  // ---- A concrete rebuild that interrupts an allowed flow ----

  const A: Ipv4 := Ipv4(10, 244, 0, 1)
  const B: Ipv4 := Ipv4(10, 244, 0, 2)

  /** A UDP frame from A to B. */
  function Datagram(): seq<bv8> {
    [0, 0, 0, 0, 0, 0, 0, 0, 0, 0, 0, 0, 0x08, 0x00, 0x45, 0, 0, 0, 0, 0, 0, 0, 64, UDP, 0, 0]
    + [10, 244, 0, 1] + [10, 244, 0, 2] + [0, 53, 0, 53]
  }

  /** Syncing an unchanged policy that allows A to reach B, from the map that says so, drops
      a datagram of that pair at some point in between. */
  lemma RebuildInterruptsFlow() returns (m: KernelMaps, p: Policy, pods: Pods, keys: seq<PacketKey>, names: seq<string>,
                                         n: nat)
    ensures SyncOrders(m, pods, keys, names) && 1 <= n <= |SyncWrites(p, pods, keys, names)|
    ensures OwnedPair(pods, "a", "b", A, B) && Permits(p, "a", "b") && UniqueOwners(pods)
    ensures KprobeEgress(Datagram(), m) == TC_ACT_OK
    ensures KprobeEgress(Datagram(), Synced(m, p, pods, keys, names)) == TC_ACT_OK
    ensures KprobeEgress(Datagram(), ApplyAll(m, SyncWrites(p, pods, keys, names)[..n])) == TC_ACT_SHOT
  {
    p := Policy([AllowRule("a", ["b"])], false, "off");
    pods := map["a" := [A], "b" := [B]];
    m := KernelMaps(map[KeyOf(A, B) := ALLOW], 0);
    keys, names := [KeyOf(A, B)], ["a", "b"];
    var frame := Datagram();
    DatagramIsFlow();
    assert OwnedPair(pods, "a", "b", A, B);
    assert !PolicyDenies(p, pods, A, B);
    var ws := SyncWrites(p, pods, keys, names);
    DropMeaning(frame, m);
    NoWindowIffDefaultAllow(m, p, pods, keys, names, frame, A, B);
    n :| 0 <= n <= |ws| && KprobeEgress(frame, ApplyAll(m, ws[..n])) != TC_ACT_OK;
    assert ws[..0] == [];
    DropMeaning(frame, ApplyAll(m, ws[..n]));
    PodKeysFit(pods);
    SyncedDenies(m, p, pods, keys, names, A, B);
    DropMeaning(frame, Synced(m, p, pods, keys, names));
  }

  lemma DatagramIsFlow()
    ensures PodFlow(Datagram(), A, B)
  {
    assert AddressAt(Datagram(), 26) == A && AddressAt(Datagram(), 30) == B;
  }

  lemma PodKeysFit(pods: Pods)
    requires pods == map["a" := [A], "b" := [B]]
    ensures |PodKeys(pods)| <= CAPACITY
  {
    forall key | key in PodKeys(pods) ensures key in {KeyOf(A, B), KeyOf(B, A)} {
    }
    SubsetSize(PodKeys(pods), {KeyOf(A, B), KeyOf(B, A)});
  }
}
