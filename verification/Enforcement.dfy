/** What the kernel enforces during and after a sync, in terms of the policy and the pods. */
module Enforcement {
  import opened Collections
  import opened PolicyCaches
  import opened Kernel
  import opened VerdictSyncs

  ghost predicate Owns(pods: Pods, service: string, ip: Ipv4) {
    service in pods && ip in pods[service]
  }

  /** No pod-range address belongs to two services; other addresses may be shared. */
  ghost predicate UniqueOwners(pods: Pods) {
    forall s, t, ip :: Owns(pods, s, ip) && Owns(pods, t, ip) && InPodCidr(ip) ==> s == t
  }

  /** Distinct services `f` and `t` own the two addresses. */
  ghost predicate OwnedPair(pods: Pods, f: string, t: string, src: Ipv4, dst: Ipv4) {
    f != t && Owns(pods, f, src) && Owns(pods, t, dst)
  }

  /** The decision the policy asks for: the owners decide when there are two distinct
      known ones, the default otherwise. */
  ghost predicate PolicyDenies(p: Policy, pods: Pods, src: Ipv4, dst: Ipv4) {
    if exists f, t :: OwnedPair(pods, f, t, src, dst)
    then exists f, t :: OwnedPair(pods, f, t, src, dst) && !Permits(p, f, t)
    else !p.defaultAllow
  }

  /** The keys a snapshot gives rise to. */
  ghost function PodKeys(pods: Pods): set<PacketKey> {
    set f, t, src, dst | f in pods && t in pods && f != t && src in pods[f] && dst in pods[t] :: KeyOf(src, dst)
  }

  ghost predicate Wanted(p: Policy, pods: Pods, w: Write) {
    exists f, t, src, dst ::
      OwnedPair(pods, f, t, src, dst) && w == Insert(KeyOf(src, dst), VerdictFor(p, f, t))
  }

  // ---- Which entries the populate loops write ----

  lemma {:induction false} RowMeaning(src: Ipv4, dsts: seq<Ipv4>, verdict: bv8, w: Write)
    ensures w in RowWrites(src, dsts, verdict) <==> exists dst :: dst in dsts && w == Insert(KeyOf(src, dst), verdict)
  {
    if dsts != [] {
      var n := |dsts| - 1;
      RowMeaning(src, dsts[..n], verdict, w);
      assert dsts == dsts[..n] + [dsts[n]];
    }
  }

  lemma {:induction false} BlockMeaning(srcs: seq<Ipv4>, dsts: seq<Ipv4>, verdict: bv8, w: Write)
    ensures w in BlockWrites(srcs, dsts, verdict) <==>
            exists src, dst :: src in srcs && dst in dsts && w == Insert(KeyOf(src, dst), verdict)
  {
    if srcs != [] {
      var n := |srcs| - 1;
      BlockMeaning(srcs[..n], dsts, verdict, w);
      RowMeaning(srcs[n], dsts, verdict, w);
      assert srcs == srcs[..n] + [srcs[n]];
    }
  }

  ghost predicate FromHas(p: Policy, pods: Pods, from: string, tos: seq<string>, w: Write)
    requires from in pods && forall t :: t in tos ==> t in pods
  {
    exists t :: t in tos && w in PairWrites(p, pods, from, t)
  }

  lemma {:induction false} FromMeaning(p: Policy, pods: Pods, from: string, tos: seq<string>, w: Write)
    requires from in pods && forall t :: t in tos ==> t in pods
    ensures w in FromWrites(p, pods, from, tos) <==> FromHas(p, pods, from, tos, w)
  {
    if tos != [] {
      var n := |tos| - 1;
      FromMeaning(p, pods, from, tos[..n], w);
      assert tos == tos[..n] + [tos[n]];
    }
  }

  lemma {:induction false} PopulateMeaning(p: Policy, pods: Pods, froms: seq<string>, tos: seq<string>, w: Write)
    requires (forall f :: f in froms ==> f in pods) && (forall t :: t in tos ==> t in pods)
    ensures w in PopulateWrites(p, pods, froms, tos) <==> exists f :: f in froms && FromHas(p, pods, f, tos, w)
  {
    if froms != [] {
      var head, last := froms[..|froms| - 1], froms[|froms| - 1];
      assert forall f :: f in froms <==> f in head || f == last;
      PopulateMeaning(p, pods, head, tos, w);
      FromMeaning(p, pods, last, tos, w);
      assert PopulateWrites(p, pods, froms, tos) == PopulateWrites(p, pods, head, tos) + FromWrites(p, pods, last, tos);
    }
  }

  /** The populate loops write the wanted entries, all of them and nothing else. */
  lemma PopulateIsWanted(p: Policy, pods: Pods, names: seq<string>, w: Write)
    requires Enumerates(names, pods.Keys)
    ensures w in PopulateWrites(p, pods, names, names) <==> Wanted(p, pods, w)
    ensures Wanted(p, pods, w) ==> w.Insert?
  {
    PopulateMeaning(p, pods, names, names, w);
    if w in PopulateWrites(p, pods, names, names) {
      var f :| f in names && FromHas(p, pods, f, names, w);
      var t :| t in names && w in PairWrites(p, pods, f, t);
      BlockMeaning(pods[f], pods[t], VerdictFor(p, f, t), w);
      var src, dst :| src in pods[f] && dst in pods[t] && w == Insert(KeyOf(src, dst), VerdictFor(p, f, t));
      assert OwnedPair(pods, f, t, src, dst);
    }
    if Wanted(p, pods, w) {
      var f, t, src, dst :| OwnedPair(pods, f, t, src, dst) && w == Insert(KeyOf(src, dst), VerdictFor(p, f, t));
      BlockMeaning(pods[f], pods[t], VerdictFor(p, f, t), w);
      assert t in names && w in PairWrites(p, pods, f, t);
      assert f in names && FromHas(p, pods, f, names, w);
    }
  }

  // ---- Following the map through a list of operations ----

  function KeySet(ws: seq<Write>): set<PacketKey> {
    set w | w in ws && w.Insert? :: w.key
  }

  lemma EntryAfterWrite(m: KernelMaps, w: Write, key: PacketKey)
    requires key in Apply(m, w).verdicts
    ensures var v := Apply(m, w).verdicts[key];
            (key in m.verdicts && m.verdicts[key] == v) || w == Insert(key, v)
  {
  }

  /** Every entry was there before or was inserted. */
  lemma {:induction false} Provenance(m: KernelMaps, ws: seq<Write>, key: PacketKey)
    requires key in ApplyAll(m, ws).verdicts
    ensures var v := ApplyAll(m, ws).verdicts[key];
            (key in m.verdicts && m.verdicts[key] == v) || Insert(key, v) in ws
  {
    if ws != [] {
      var n := |ws| - 1;
      assert ws == ws[..n] + [ws[n]];
      EntryAfterWrite(ApplyAll(m, ws[..n]), ws[n], key);
      hide Apply;
      if ws[n] != Insert(key, ApplyAll(m, ws).verdicts[key]) {
        Provenance(m, ws[..n], key);
      }
    }
  }

  lemma {:induction false} FlagAfter(m: KernelMaps, ws: seq<Write>)
    requires ws != [] && ws[0].SetFlag? && forall i :: 0 < i < |ws| ==> !ws[i].SetFlag?
    ensures ApplyAll(m, ws).flag == ws[0].value
  {
    if |ws| > 1 {
      FlagAfter(m, ws[..|ws| - 1]);
    } else {
      assert ws[..0] == [];
    }
  }

  lemma {:induction false} Clearing(m: KernelMaps, keys: seq<PacketKey>, k: PacketKey)
    ensures k in ApplyAll(m, ClearWrites(keys)).verdicts ==> k in m.verdicts && k !in keys
  {
    if keys != [] {
      var head, last := keys[..|keys| - 1], keys[|keys| - 1];
      Clearing(m, head, k);
      assert ClearWrites(keys) == ClearWrites(head) + [Remove(last)];
      assert k in keys <==> k in head || k == last;
      ApplyAllConcat(m, ClearWrites(head), [Remove(last)]);
      ApplyOne(ApplyAll(m, ClearWrites(head)), Remove(last));
    }
  }

  lemma ApplyOne(m: KernelMaps, w: Write)
    ensures ApplyAll(m, [w]) == Apply(m, w)
  {
    assert [w][..0] == [];
  }

  /** Filling an empty map: it holds only requested keys, never more than fit, and all of
      them when they fit. */
  lemma {:induction false} Filling(m: KernelMaps, ws: seq<Write>)
    requires m.verdicts == map[] && forall w :: w in ws ==> w.Insert?
    ensures ApplyAll(m, ws).verdicts.Keys <= KeySet(ws)
    ensures |ApplyAll(m, ws).verdicts| <= CAPACITY
    ensures |KeySet(ws)| <= CAPACITY ==> ApplyAll(m, ws).verdicts.Keys == KeySet(ws)
  {
    if ws != [] {
      var n := |ws| - 1;
      var last := ws[n];
      Filling(m, ws[..n]);
      assert ws == ws[..n] + [last];
      assert KeySet(ws) == KeySet(ws[..n]) + {last.key};
      var before := ApplyAll(m, ws[..n]);
      InsertInto(before, last);
      hide KeySet, Apply;
      OneMoreKey(before.verdicts.Keys, KeySet(ws[..n]), last.key, ApplyAll(m, ws).verdicts.Keys);
    }
  }

  lemma OneMoreKey(before: set<PacketKey>, asked: set<PacketKey>, key: PacketKey, after: set<PacketKey>)
    requires before <= asked && (|asked| <= CAPACITY ==> before == asked)
    requires before <= after <= before + {key} && (key !in after ==> |before| == CAPACITY)
    ensures after <= asked + {key}
    ensures |asked + {key}| <= CAPACITY ==> after == asked + {key}
  {
    if |asked + {key}| <= CAPACITY {
      SubsetSize(asked, asked + {key});
    }
  }

  lemma InsertInto(m: KernelMaps, w: Write)
    requires w.Insert? && |m.verdicts| <= CAPACITY
    ensures var keys := Apply(m, w).verdicts.Keys;
            && m.verdicts.Keys <= keys <= m.verdicts.Keys + {w.key}
            && |keys| == |Apply(m, w).verdicts| <= CAPACITY
            && (w.key !in keys ==> |m.verdicts.Keys| == CAPACITY)
  {
    assert |m.verdicts| == |m.verdicts.Keys|;
    if w.key !in m.verdicts {
      var more := m.verdicts[w.key := w.verdict];
      assert |more| == |m.verdicts| + 1 == |more.Keys|;
    } else {
      var same := m.verdicts[w.key := w.verdict];
      assert same.Keys == m.verdicts.Keys && |same| == |same.Keys|;
    }
  }

  // ---- Whole syncs and their prefixes ----

  lemma {:induction false} ClearsAreRemovals(keys: seq<PacketKey>, w: Write)
    ensures w in ClearWrites(keys) ==> w.Remove?
  {
    if keys != [] {
      ClearsAreRemovals(keys[..|keys| - 1], w);
    }
  }

  /** The operations of a sync: the flag first and only once, and every insert is wanted. */
  lemma SyncShape(p: Policy, pods: Pods, keys: seq<PacketKey>, names: seq<string>, w: Write)
    requires Enumerates(names, pods.Keys)
    ensures var ws := SyncWrites(p, pods, keys, names);
            && ws != [] && ws[0] == SetFlag(FlagValue(p))
            && (w in ws[1..] ==> !w.SetFlag?)
            && (w.Insert? ==> (w in ws <==> Wanted(p, pods, w)))
  {
    hide ClearWrites, PopulateWrites, Wanted, FlagValue;
    ClearsAreRemovals(keys, w);
    PopulateIsWanted(p, pods, names, w);
    assert SyncWrites(p, pods, keys, names)[1..] == ClearWrites(keys) + PopulateWrites(p, pods, names, names);
  }

  /** From the flag write on, the flag is the new default. */
  lemma FlagDuringSync(m: KernelMaps, p: Policy, pods: Pods, keys: seq<PacketKey>, names: seq<string>, n: nat)
    requires Enumerates(names, pods.Keys) && 1 <= n <= |SyncWrites(p, pods, keys, names)|
    ensures ApplyAll(m, SyncWrites(p, pods, keys, names)[..n]).flag == FlagValue(p)
  {
    var ws := SyncWrites(p, pods, keys, names);
    forall i | 0 < i < n ensures !ws[..n][i].SetFlag? {
      assert ws[i] == ws[1..][i - 1];
      SyncShape(p, pods, keys, names, ws[i]);
    }
    SyncShape(p, pods, keys, names, ws[0]);
    FlagAfter(m, ws[..n]);
  }

  /** With unique owners, an entry the policy wants for a pod pair carries the policy's
      decision for that pair. */
  lemma WantedDecides(p: Policy, pods: Pods, src: Ipv4, dst: Ipv4, verdict: bv8)
    requires UniqueOwners(pods) && InPodCidr(src) && InPodCidr(dst)
    requires Wanted(p, pods, Insert(KeyOf(src, dst), verdict))
    ensures verdict == if PolicyDenies(p, pods, src, dst) then DENY else ALLOW
  {
    hide KeyOf, InPodCidr, Permits;
    var f, t, s, d :|
      OwnedPair(pods, f, t, s, d) && Insert(KeyOf(src, dst), verdict) == Insert(KeyOf(s, d), VerdictFor(p, f, t));
    KeysAreInjective(src, dst, s, d);
    forall f', t' | OwnedPair(pods, f', t', src, dst) ensures f' == f && t' == t {
    }
  }

  /** At every point of a sync after the flag write, the entry of a pod pair is either its
      old one or the new policy's decision. */
  lemma EntryDuringSync(m: KernelMaps, p: Policy, pods: Pods, keys: seq<PacketKey>, names: seq<string>, n: nat,
                        src: Ipv4, dst: Ipv4)
    requires Enumerates(names, pods.Keys) && 1 <= n <= |SyncWrites(p, pods, keys, names)|
    requires UniqueOwners(pods) && InPodCidr(src) && InPodCidr(dst)
    ensures var now := ApplyAll(m, SyncWrites(p, pods, keys, names)[..n]);
            var key := KeyOf(src, dst);
            key in now.verdicts ==>
              || (key in m.verdicts && m.verdicts[key] == now.verdicts[key])
              || now.verdicts[key] == if PolicyDenies(p, pods, src, dst) then DENY else ALLOW
  {
    var ws := SyncWrites(p, pods, keys, names);
    var now := ApplyAll(m, ws[..n]);
    var key := KeyOf(src, dst);
    if key in now.verdicts {
      Provenance(m, ws[..n], key);
      var w := Insert(key, now.verdicts[key]);
      if w in ws[..n] {
        assert w in ws;
        SyncShape(p, pods, keys, names, w);
        WantedDecides(p, pods, src, dst, now.verdicts[key]);
      }
    }
  }

  /** A frame that starts a flow between two pods. */
  ghost predicate PodFlow(frame: seq<bv8>, src: Ipv4, dst: Ipv4) {
    && WellFormed(frame) && StartsFlow(frame)
    && AddressAt(frame, 26) == src && AddressAt(frame, 30) == dst
    && InPodCidr(src) && InPodCidr(dst)
  }

  ghost predicate HasVerdict(m: KernelMaps, src: Ipv4, dst: Ipv4, verdict: bv8) {
    KeyOf(src, dst) in m.verdicts && m.verdicts[KeyOf(src, dst)] == verdict
  }

  /** Verdict maps hold nothing but the two verdicts. */
  ghost predicate OnlyVerdicts(m: KernelMaps) {
    forall k :: k in m.verdicts ==> m.verdicts[k] == ALLOW || m.verdicts[k] == DENY
  }

  /** Mid-rebuild safety: when the new default is to deny, a flow passes only if the old map
      allowed it or the new policy does; when the new default is to allow, a flow is dropped
      only if the old map denied it or the new policy does. No capacity is assumed. */
  lemma MidRebuildSafety(m: KernelMaps, p: Policy, pods: Pods, keys: seq<PacketKey>, names: seq<string>, n: nat,
                         frame: seq<bv8>, src: Ipv4, dst: Ipv4)
    requires SyncOrders(m, pods, keys, names) && 1 <= n <= |SyncWrites(p, pods, keys, names)|
    requires UniqueOwners(pods) && OnlyVerdicts(m) && PodFlow(frame, src, dst)
    ensures var action := KprobeEgress(frame, ApplyAll(m, SyncWrites(p, pods, keys, names)[..n]));
            && (!p.defaultAllow && action == TC_ACT_OK ==>
                  HasVerdict(m, src, dst, ALLOW) || !PolicyDenies(p, pods, src, dst))
            && (p.defaultAllow && action == TC_ACT_SHOT ==>
                  HasVerdict(m, src, dst, DENY) || PolicyDenies(p, pods, src, dst))
  {
    FlagDuringSync(m, p, pods, keys, names, n);
    EntryDuringSync(m, p, pods, keys, names, n, src, dst);
    DropMeaning(frame, ApplyAll(m, SyncWrites(p, pods, keys, names)[..n]));
  }

  /** Just after the clear loop the map is empty. */
  lemma EmptyAfterClear(m: KernelMaps, p: Policy, pods: Pods, keys: seq<PacketKey>, names: seq<string>)
    requires SyncOrders(m, pods, keys, names)
    ensures |ClearWrites(keys)| + 1 <= |SyncWrites(p, pods, keys, names)|
    ensures ApplyAll(m, SyncWrites(p, pods, keys, names)[..|ClearWrites(keys)| + 1]) == KernelMaps(map[], FlagValue(p))
  {
    var first := [SetFlag(FlagValue(p))];
    var ws := SyncWrites(p, pods, keys, names);
    assert ws[..|ClearWrites(keys)| + 1] == first + ClearWrites(keys);
    ApplyAllConcat(m, first, ClearWrites(keys));
    ApplyOne(m, first[0]);
    var cleared := ApplyAll(m, first + ClearWrites(keys));
    forall k ensures k !in cleared.verdicts {
      Clearing(Apply(m, first[0]), keys, k);
      assert k in keys <==> k in m.verdicts.Keys;
    }
    assert cleared.verdicts == map[];
    FlagDuringSync(m, p, pods, keys, names, |ClearWrites(keys)| + 1);
  }

  /** The claim that no traffic is blocked between clearing and repopulating: a flow that the
      old maps let through, by an entry or by the old default, and that the new policy allows
      passes at every point of the rebuild exactly when the new default is to allow. */
  lemma NoWindowIffDefaultAllow(m: KernelMaps, p: Policy, pods: Pods, keys: seq<PacketKey>, names: seq<string>,
                                frame: seq<bv8>, src: Ipv4, dst: Ipv4)
    requires SyncOrders(m, pods, keys, names) && UniqueOwners(pods) && OnlyVerdicts(m) && PodFlow(frame, src, dst)
    requires KprobeEgress(frame, m) == TC_ACT_OK && !PolicyDenies(p, pods, src, dst)
    ensures var ws := SyncWrites(p, pods, keys, names);
            (forall n :: 0 <= n <= |ws| ==> KprobeEgress(frame, ApplyAll(m, ws[..n])) == TC_ACT_OK) <==> p.defaultAllow
  {
    var ws := SyncWrites(p, pods, keys, names);
    DropMeaning(frame, m);
    if p.defaultAllow {
      forall n | 0 <= n <= |ws| ensures KprobeEgress(frame, ApplyAll(m, ws[..n])) == TC_ACT_OK {
        if n > 0 {
          MidRebuildSafety(m, p, pods, keys, names, n, frame, src, dst);
          DropMeaning(frame, ApplyAll(m, ws[..n]));
        } else {
          assert ws[..0] == [];
        }
      }
    } else {
      EmptyAfterClear(m, p, pods, keys, names);
      var n := |ClearWrites(keys)| + 1;
      DropMeaning(frame, ApplyAll(m, ws[..n]));
      assert KprobeEgress(frame, ApplyAll(m, ws[..n])) == TC_ACT_SHOT;
    }
  }

  // ---- After a completed sync ----

  ghost function Synced(m: KernelMaps, p: Policy, pods: Pods, keys: seq<PacketKey>, names: seq<string>): KernelMaps
    requires SyncOrders(m, pods, keys, names)
  {
    ApplyAll(m, SyncWrites(p, pods, keys, names))
  }

  lemma PodKeysAreWanted(p: Policy, pods: Pods, key: PacketKey)
    ensures key in PodKeys(pods) <==> exists v :: Wanted(p, pods, Insert(key, v))
  {
    if key in PodKeys(pods) {
      var f, t, src, dst :| f in pods && t in pods && f != t && src in pods[f] && dst in pods[t] && key == KeyOf(src, dst);
      assert OwnedPair(pods, f, t, src, dst);
      assert Wanted(p, pods, Insert(key, VerdictFor(p, f, t)));
    }
  }

  lemma PopulatedKeys(p: Policy, pods: Pods, names: seq<string>)
    requires Enumerates(names, pods.Keys)
    ensures var pop := PopulateWrites(p, pods, names, names);
            KeySet(pop) == PodKeys(pods) && forall w :: w in pop ==> w.Insert?
  {
    hide PopulateWrites, PodKeys;
    var pop := PopulateWrites(p, pods, names, names);
    forall w | w in pop ensures w.Insert? {
      PopulateIsWanted(p, pods, names, w);
    }
    forall key ensures key in KeySet(pop) <==> key in PodKeys(pods) {
      PodKeysAreWanted(p, pods, key);
      if key in KeySet(pop) {
        var w :| w in pop && w.Insert? && w.key == key;
        PopulateIsWanted(p, pods, names, w);
      }
      if key in PodKeys(pods) {
        var v :| Wanted(p, pods, Insert(key, v));
        PopulateIsWanted(p, pods, names, Insert(key, v));
      }
    }
  }

  /** The keys of a synced map are keys of the snapshot and fit the map; all keys of the
      snapshot are there exactly when they fit. */
  lemma SyncedKeys(m: KernelMaps, p: Policy, pods: Pods, keys: seq<PacketKey>, names: seq<string>)
    requires SyncOrders(m, pods, keys, names)
    ensures var entries := Synced(m, p, pods, keys, names).verdicts.Keys;
            && entries <= PodKeys(pods) && |entries| <= CAPACITY
            && (entries == PodKeys(pods) <==> |PodKeys(pods)| <= CAPACITY)
  {
    var pop := PopulateWrites(p, pods, names, names);
    var ws := SyncWrites(p, pods, keys, names);
    var c := |ClearWrites(keys)| + 1;
    EmptyAfterClear(m, p, pods, keys, names);
    assert ws == ws[..c] + pop;
    ApplyAllConcat(m, ws[..c], pop);
    PopulatedKeys(p, pods, names);
    hide PopulateWrites, SyncWrites, ClearWrites, KeySet, PodKeys, Enumerates;
    Filling(KernelMaps(map[], FlagValue(p)), pop);
    var final := Synced(m, p, pods, keys, names).verdicts;
    assert |final| == |final.Keys|;
  }

  /** A synced map denies a pod pair exactly when the policy does. */
  lemma SyncedDenies(m: KernelMaps, p: Policy, pods: Pods, keys: seq<PacketKey>, names: seq<string>, src: Ipv4, dst: Ipv4)
    requires SyncOrders(m, pods, keys, names) && UniqueOwners(pods) && |PodKeys(pods)| <= CAPACITY
    requires InPodCidr(src) && InPodCidr(dst)
    ensures Denies(Synced(m, p, pods, keys, names), src, dst) <==> PolicyDenies(p, pods, src, dst)
  {
    var ws := SyncWrites(p, pods, keys, names);
    var final := Synced(m, p, pods, keys, names);
    var key := KeyOf(src, dst);
    assert ws[..|ws|] == ws;
    SyncShape(p, pods, keys, names, ws[0]);
    FlagDuringSync(m, p, pods, keys, names, |ws|);
    SyncedKeys(m, p, pods, keys, names);
    PodKeysAreWanted(p, pods, key);
    if key in final.verdicts {
      FromClearedMap(m, p, pods, keys, names, key);
      WantedDecides(p, pods, src, dst, final.verdicts[key]);
    } else {
      forall f, t ensures !OwnedPair(pods, f, t, src, dst) {
        if OwnedPair(pods, f, t, src, dst) {
          assert Wanted(p, pods, Insert(key, VerdictFor(p, f, t)));
        }
      }
    }
  }

  /** No entry of a synced map is left over from before. */
  lemma FromClearedMap(m: KernelMaps, p: Policy, pods: Pods, keys: seq<PacketKey>, names: seq<string>, key: PacketKey)
    requires SyncOrders(m, pods, keys, names) && key in Synced(m, p, pods, keys, names).verdicts
    ensures Wanted(p, pods, Insert(key, Synced(m, p, pods, keys, names).verdicts[key]))
  {
    var pop := PopulateWrites(p, pods, names, names);
    var ws := SyncWrites(p, pods, keys, names);
    var c := |ClearWrites(keys)| + 1;
    EmptyAfterClear(m, p, pods, keys, names);
    assert ws == ws[..c] + pop;
    ApplyAllConcat(m, ws[..c], pop);
    Provenance(KernelMaps(map[], FlagValue(p)), pop, key);
    PopulateIsWanted(p, pods, names, Insert(key, Synced(m, p, pods, keys, names).verdicts[key]));
  }

  /** End to end: after a completed sync a frame is dropped exactly when it starts a flow
      between two pods that the policy denies. */
  lemma EndToEnd(m: KernelMaps, p: Policy, pods: Pods, keys: seq<PacketKey>, names: seq<string>, frame: seq<bv8>)
    requires SyncOrders(m, pods, keys, names) && UniqueOwners(pods) && |PodKeys(pods)| <= CAPACITY
    ensures KprobeEgress(frame, Synced(m, p, pods, keys, names)) == TC_ACT_SHOT <==>
            exists src, dst :: PodFlow(frame, src, dst) && PolicyDenies(p, pods, src, dst)
  {
    var final := Synced(m, p, pods, keys, names);
    DropMeaning(frame, final);
    if WellFormed(frame) {
      var src, dst := AddressAt(frame, 26), AddressAt(frame, 30);
      if InPodCidr(src) && InPodCidr(dst) {
        SyncedDenies(m, p, pods, keys, names, src, dst);
        if StartsFlow(frame) && PolicyDenies(p, pods, src, dst) {
          assert PodFlow(frame, src, dst);
        }
      }
    }
  }

  /** Whatever the maps held and in whatever order they and the services were listed, two
      syncs of the same policy and pods leave the same decision for every frame. */
  lemma OrderIndependence(m: KernelMaps, keys: seq<PacketKey>, names: seq<string>,
                          m': KernelMaps, keys': seq<PacketKey>, names': seq<string>,
                          p: Policy, pods: Pods, frame: seq<bv8>)
    requires SyncOrders(m, pods, keys, names) && SyncOrders(m', pods, keys', names')
    requires UniqueOwners(pods) && |PodKeys(pods)| <= CAPACITY
    ensures KprobeEgress(frame, Synced(m, p, pods, keys, names)) == KprobeEgress(frame, Synced(m', p, pods, keys', names'))
  {
    EndToEnd(m, p, pods, keys, names, frame);
    EndToEnd(m', p, pods, keys', names', frame);
    DropMeaning(frame, Synced(m, p, pods, keys, names));
    DropMeaning(frame, Synced(m', p, pods, keys', names'));
  }

  /** With default deny, a flow that passes after a sync is allowed by the policy even when
      the snapshot does not fit the map. */
  lemma DefaultDenyNeedsNoCapacity(m: KernelMaps, p: Policy, pods: Pods, keys: seq<PacketKey>, names: seq<string>,
                                   frame: seq<bv8>, src: Ipv4, dst: Ipv4)
    requires SyncOrders(m, pods, keys, names) && UniqueOwners(pods) && !p.defaultAllow && PodFlow(frame, src, dst)
    requires KprobeEgress(frame, Synced(m, p, pods, keys, names)) == TC_ACT_OK
    ensures exists f, t :: OwnedPair(pods, f, t, src, dst) && Permits(p, f, t)
    ensures !PolicyDenies(p, pods, src, dst)
  {
    var ws := SyncWrites(p, pods, keys, names);
    var final := Synced(m, p, pods, keys, names);
    assert ws[..|ws|] == ws;
    SyncShape(p, pods, keys, names, ws[0]);
    FlagDuringSync(m, p, pods, keys, names, |ws|);
    DropMeaning(frame, final);
    var key := KeyOf(src, dst);
    FromClearedMap(m, p, pods, keys, names, key);
    WantedDecides(p, pods, src, dst, final.verdicts[key]);
  }
}
