/** kprobe/kprobe-userspace/src/verdict_sync.rs: the loops that rewrite the kernel maps
    from a policy and a pod snapshot, one map operation at a time. */
module VerdictSyncs {
  import opened Collections
  import opened PolicyCaches
  import opened Kernel

  /** Capacity of VERDICT_MAP. */
  const CAPACITY: nat := 4096

  type Pods = map<string, seq<Ipv4>>

  /** A single operation on the kernel maps; packets may be decided between any two. */
  datatype Write = SetFlag(value: bv32) | Remove(key: PacketKey) | Insert(key: PacketKey, verdict: bv8)

  /** Inserting a new key into a full map fails and leaves it as it was. */
  function Apply(m: KernelMaps, w: Write): KernelMaps {
    match w
    case SetFlag(value) => m.(flag := value)
    case Remove(key) => m.(verdicts := m.verdicts - {key})
    case Insert(key, verdict) =>
      if key in m.verdicts || |m.verdicts| < CAPACITY then m.(verdicts := m.verdicts[key := verdict]) else m
  }

  function ApplyAll(m: KernelMaps, ws: seq<Write>): KernelMaps {
    if ws == [] then m else Apply(ApplyAll(m, ws[..|ws| - 1]), ws[|ws| - 1])
  }

  function VerdictFor(p: Policy, from: string, to: string): bv8 {
    if Permits(p, from, to) then ALLOW else DENY
  }

  /** The innermost loop: one source address against a list of destinations. */
  function RowWrites(src: Ipv4, dsts: seq<Ipv4>, verdict: bv8): seq<Write> {
    if dsts == [] then []
    else RowWrites(src, dsts[..|dsts| - 1], verdict) + [Insert(KeyOf(src, dsts[|dsts| - 1]), verdict)]
  }

  function BlockWrites(srcs: seq<Ipv4>, dsts: seq<Ipv4>, verdict: bv8): seq<Write> {
    if srcs == [] then []
    else BlockWrites(srcs[..|srcs| - 1], dsts, verdict) + RowWrites(srcs[|srcs| - 1], dsts, verdict)
  }

  function PairWrites(p: Policy, pods: Pods, from: string, to: string): seq<Write>
    requires from in pods && to in pods
  {
    if from == to then [] else BlockWrites(pods[from], pods[to], VerdictFor(p, from, to))
  }

  function FromWrites(p: Policy, pods: Pods, from: string, tos: seq<string>): seq<Write>
    requires from in pods && forall t :: t in tos ==> t in pods
  {
    if tos == [] then []
    else FromWrites(p, pods, from, tos[..|tos| - 1]) + PairWrites(p, pods, from, tos[|tos| - 1])
  }

  /** The populate loops over the enumerated service names. */
  function PopulateWrites(p: Policy, pods: Pods, froms: seq<string>, tos: seq<string>): seq<Write>
    requires (forall f :: f in froms ==> f in pods) && (forall t :: t in tos ==> t in pods)
  {
    if froms == [] then []
    else PopulateWrites(p, pods, froms[..|froms| - 1], tos) + FromWrites(p, pods, froms[|froms| - 1], tos)
  }

  lemma RowStep(src: Ipv4, dsts: seq<Ipv4>, verdict: bv8, j: nat)
    requires j < |dsts|
    ensures RowWrites(src, dsts[..j + 1], verdict) == RowWrites(src, dsts[..j], verdict) + [Insert(KeyOf(src, dsts[j]), verdict)]
  {
    assert dsts[..j + 1][..j] == dsts[..j];
  }

  lemma BlockStep(srcs: seq<Ipv4>, dsts: seq<Ipv4>, verdict: bv8, i: nat)
    requires i < |srcs|
    ensures BlockWrites(srcs[..i + 1], dsts, verdict) == BlockWrites(srcs[..i], dsts, verdict) + RowWrites(srcs[i], dsts, verdict)
  {
    assert srcs[..i + 1][..i] == srcs[..i];
  }

  lemma FromStep(p: Policy, pods: Pods, from: string, tos: seq<string>, j: nat)
    requires from in pods && (forall t :: t in tos ==> t in pods) && j < |tos|
    ensures FromWrites(p, pods, from, tos[..j + 1]) == FromWrites(p, pods, from, tos[..j]) + PairWrites(p, pods, from, tos[j])
  {
    assert tos[..j + 1][..j] == tos[..j];
  }

  lemma PopulateStep(p: Policy, pods: Pods, froms: seq<string>, tos: seq<string>, i: nat)
    requires (forall f :: f in froms ==> f in pods) && (forall t :: t in tos ==> t in pods) && i < |froms|
    ensures PopulateWrites(p, pods, froms[..i + 1], tos) ==
            PopulateWrites(p, pods, froms[..i], tos) + FromWrites(p, pods, froms[i], tos)
  {
    assert froms[..i + 1][..i] == froms[..i];
  }

  /** The clear loop over the collected keys. */
  function ClearWrites(keys: seq<PacketKey>): seq<Write> {
    if keys == [] then [] else ClearWrites(keys[..|keys| - 1]) + [Remove(keys[|keys| - 1])]
  }

  function FlagValue(p: Policy): bv32 {
    if p.defaultAllow then 1 else 0
  }

  /** All operations of one sync, in order: the flag, the removals, the inserts. */
  function SyncWrites(p: Policy, pods: Pods, keys: seq<PacketKey>, names: seq<string>): seq<Write>
    requires forall f :: f in names ==> f in pods
  {
    [SetFlag(FlagValue(p))] + ClearWrites(keys) + PopulateWrites(p, pods, names, names)
  }

  /** Orders that a sync may meet: the keys of the map it clears and the service names. */
  ghost predicate SyncOrders(m: KernelMaps, pods: Pods, keys: seq<PacketKey>, names: seq<string>) {
    Enumerates(keys, m.verdicts.Keys) && Enumerates(names, pods.Keys)
  }

  lemma {:induction false} ApplyAllConcat(m: KernelMaps, a: seq<Write>, b: seq<Write>)
    ensures ApplyAll(m, a + b) == ApplyAll(ApplyAll(m, a), b)
  {
    if b == [] {
      assert a + b == a;
    } else {
      assert (a + b)[..|a + b| - 1] == a + b[..|b| - 1];
      ApplyAllConcat(m, a, b[..|b| - 1]);
    }
  }

  lemma ApplySnoc(m: KernelMaps, ws: seq<Write>, w: Write)
    ensures ApplyAll(m, ws + [w]) == Apply(ApplyAll(m, ws), w)
  {
    assert (ws + [w])[..|ws|] == ws;
  }

  class VerdictSync {
    var verdicts: map<PacketKey, bv8>
    var flag: bv32
    /** The maps as they were found, and every operation performed on them since. */
    ghost const initial: KernelMaps
    ghost var writes: seq<Write>

    constructor (found: KernelMaps)
      ensures Valid() && initial == found && writes == []
    {
      verdicts, flag := found.verdicts, found.flag;
      initial := found;
      writes := [];
    }

    function Maps(): KernelMaps
      reads this
    {
      KernelMaps(verdicts, flag)
    }

    /** The recorded operations account for the present maps. */
    ghost predicate Valid()
      reads this
    {
      Maps() == ApplyAll(initial, writes)
    }

    method Set(value: bv32)
      requires Valid()
      modifies this
      ensures Valid() && writes == old(writes) + [SetFlag(value)]
      ensures flag == value && verdicts == old(verdicts)
    {
      hide ApplyAll;
      ApplySnoc(initial, writes, SetFlag(value));
      flag := value;
      writes := writes + [SetFlag(value)];
    }

    method RemoveKey(key: PacketKey)
      requires Valid()
      modifies this
      ensures Valid() && writes == old(writes) + [Remove(key)]
      ensures verdicts == old(verdicts) - {key} && flag == old(flag)
    {
      hide ApplyAll;
      ApplySnoc(initial, writes, Remove(key));
      verdicts := verdicts - {key};
      writes := writes + [Remove(key)];
    }

    /** insert: fails when the key is new and the map is full. */
    method InsertKey(key: PacketKey, verdict: bv8) returns (ok: bool)
      requires Valid()
      modifies this
      ensures Valid() && writes == old(writes) + [Insert(key, verdict)]
      ensures ok <==> key in old(verdicts) || |old(verdicts)| < 4096
      ensures verdicts == (if ok then old(verdicts)[key := verdict] else old(verdicts)) && flag == old(flag)
    {
      hide ApplyAll;
      ApplySnoc(initial, writes, Insert(key, verdict));
      ok := key in verdicts || |verdicts| < CAPACITY;
      if ok {
        verdicts := verdicts[key := verdict];
      }
      writes := writes + [Insert(key, verdict)];
    }

    method InsertRow(src: Ipv4, dsts: seq<Ipv4>, verdict: bv8)
      requires Valid()
      modifies this
      ensures Valid() && writes == old(writes) + RowWrites(src, dsts, verdict)
    {
      for j := 0 to |dsts|
        invariant Valid() && writes == old(writes) + RowWrites(src, dsts[..j], verdict)
      {
        var key := PacketKey(SwapBytes(U32(src)), SwapBytes(U32(dsts[j])));
        var _ := InsertKey(key, verdict);
        RowStep(src, dsts, verdict, j);
        Regroup(old(writes), RowWrites(src, dsts[..j], verdict), [Insert(key, verdict)]);
      }
      assert dsts[..|dsts|] == dsts;
    }

    /** The two inner loops, run while the map is locked. */
    method InsertBlock(srcs: seq<Ipv4>, dsts: seq<Ipv4>, verdict: bv8)
      requires Valid()
      modifies this
      ensures Valid() && writes == old(writes) + BlockWrites(srcs, dsts, verdict)
    {
      for i := 0 to |srcs|
        invariant Valid() && writes == old(writes) + BlockWrites(srcs[..i], dsts, verdict)
      {
        InsertRow(srcs[i], dsts, verdict);
        BlockStep(srcs, dsts, verdict, i);
        Regroup(old(writes), BlockWrites(srcs[..i], dsts, verdict), RowWrites(srcs[i], dsts, verdict));
      }
      assert srcs[..|srcs|] == srcs;
    }

    /** The loop over destination services of one source service. */
    method PopulateFrom(policy: PolicyCache, pods: Pods, from: string, svcNames: seq<string>)
      requires Valid() && from in pods && forall t :: t in svcNames ==> t in pods
      modifies this
      ensures Valid() && writes == old(writes) + FromWrites(policy.Contents(), pods, from, svcNames)
    {
      ghost var p := policy.Contents();
      for j := 0 to |svcNames|
        invariant Valid() && writes == old(writes) + FromWrites(p, pods, from, svcNames[..j])
      {
        var to := svcNames[j];
        FromStep(p, pods, from, svcNames, j);
        Regroup(old(writes), FromWrites(p, pods, from, svcNames[..j]), PairWrites(p, pods, from, to));
        if from != to {
          var allowed := policy.IsAllowed(from, to);
          InsertBlock(pods[from], pods[to], if allowed then ALLOW else DENY);
        }
      }
      assert svcNames[..|svcNames|] == svcNames;
    }

    method Clear() returns (ghost keys: seq<PacketKey>)
      requires Valid()
      modifies this
      ensures Valid() && writes == old(writes) + ClearWrites(keys)
      ensures Enumerates(keys, old(verdicts).Keys)
    {
      var toRemove := Enumerate(verdicts.Keys);
      for i := 0 to |toRemove|
        invariant Valid() && writes == old(writes) + ClearWrites(toRemove[..i])
      {
        RemoveKey(toRemove[i]);
        assert toRemove[..i + 1][..i] == toRemove[..i];
        Regroup(old(writes), ClearWrites(toRemove[..i]), [Remove(toRemove[i])]);
      }
      assert toRemove[..|toRemove|] == toRemove;
      keys := toRemove;
    }

    method Populate(policy: PolicyCache, pods: Pods, svcNames: seq<string>)
      requires Valid() && forall f :: f in svcNames ==> f in pods
      modifies this
      ensures Valid() && writes == old(writes) + PopulateWrites(policy.Contents(), pods, svcNames, svcNames)
    {
      ghost var p := policy.Contents();
      for i := 0 to |svcNames|
        invariant Valid() && writes == old(writes) + PopulateWrites(p, pods, svcNames[..i], svcNames)
      {
        PopulateFrom(policy, pods, svcNames[i], svcNames);
        PopulateStep(p, pods, svcNames, svcNames, i);
        Regroup(old(writes), PopulateWrites(p, pods, svcNames[..i], svcNames), FromWrites(p, pods, svcNames[i], svcNames));
      }
      assert svcNames[..|svcNames|] == svcNames;
    }

    /** sync: flag, clear, populate; the two orders are those the maps happened to give. */
    method Sync(policy: PolicyCache, pods: Pods) returns (ghost keys: seq<PacketKey>, ghost names: seq<string>)
      requires Valid()
      modifies this
      ensures Valid() && SyncOrders(old(Maps()), pods, keys, names)
      ensures writes == old(writes) + SyncWrites(policy.Contents(), pods, keys, names)
      ensures Maps() == ApplyAll(old(Maps()), SyncWrites(policy.Contents(), pods, keys, names))
    {
      Set(if policy.defaultAllow then 1 else 0);
      keys := Clear();
      var svcNames := Enumerate(pods.Keys);
      names := svcNames;
      Populate(policy, pods, svcNames);
      ghost var p := policy.Contents();
      ghost var flagged, populated := [SetFlag(FlagValue(p))], PopulateWrites(p, pods, names, names);
      Regroup(old(writes), flagged, ClearWrites(keys));
      Regroup(old(writes), flagged + ClearWrites(keys), populated);
      ApplyAllConcat(initial, old(writes), SyncWrites(p, pods, keys, names));
    }
  }

  lemma Regroup<T>(w: seq<T>, a: seq<T>, b: seq<T>)
    ensures (w + a) + b == w + (a + b)
  {
  }
}
