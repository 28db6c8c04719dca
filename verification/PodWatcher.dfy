/** kprobe/kprobe-userspace/src/pod_watcher.rs: the event loop that keeps the snapshot of
    service addresses. */
module PodWatchers {
  import opened Collections
  import opened Kernel
  import opened Sorting
  import opened VerdictSyncs

  datatype PodStatus = PodStatus(podIp: Option<string>)

  datatype Pod = Pod(labels: Option<map<string, string>>, status: Option<PodStatus>)

  datatype Event =
    | Apply(pod: Pod)
    | InitApply(pod: Pod)
    | Delete(pod: Pod)
    | Init
    | InitDone
    | WatchError

  /** extract_service_and_ip; `parse` is the library's address parser. */
  function ExtractServiceAndIp(pod: Pod, parse: string -> Option<Ipv4>): Option<(string, Ipv4)> {
    if pod.labels.None? || "app" !in pod.labels.value then None
    else if pod.status.None? || pod.status.value.podIp.None? then None
    else
      var ip := parse(pod.status.value.podIp.value);
      if ip.None? then None else Some((pod.labels.value["app"], ip.value))
  }

  /** The pod has the app label `pair.0` and an address that reads as `pair.1`. */
  ghost predicate IsPodOf(pod: Pod, parse: string -> Option<Ipv4>, pair: (string, Ipv4)) {
    && pod.labels.Some? && "app" in pod.labels.value && pod.labels.value["app"] == pair.0
    && pod.status.Some? && pod.status.value.podIp.Some?
    && parse(pod.status.value.podIp.value) == Some(pair.1)
  }

  lemma ExtractMeaning(pod: Pod, parse: string -> Option<Ipv4>, pair: (string, Ipv4))
    ensures ExtractServiceAndIp(pod, parse) == Some(pair) <==> IsPodOf(pod, parse, pair)
  {
  }

  predicate Below(x: bv8, y: bv8) {
    x < y
  }

  /** Addresses compare octet by octet. */
  predicate AddressLe(x: Ipv4, y: Ipv4) {
    Below(x.a, y.a) || (x.a == y.a && (Below(x.b, y.b) || (x.b == y.b &&
    (Below(x.c, y.c) || (x.c == y.c && (Below(x.d, y.d) || x.d == y.d))))))
  }

  lemma OctetOrder(x: bv8, y: bv8, z: bv8)
    ensures Below(x, y) && Below(y, z) ==> Below(x, z)
    ensures Below(x, y) || Below(y, x) || x == y
    ensures !(Below(x, y) && Below(y, x)) && !Below(x, x)
  {
  }

  lemma AddressOrder()
    ensures TotalOrder(AddressLe)
  {
    forall x, y, z ensures AddressLe(x, y) && AddressLe(y, z) ==> AddressLe(x, z) {
      AddressLeOrder(x, y, z);
    }
    forall x, y ensures AddressLe(x, y) || AddressLe(y, x) {
      AddressLeOrder(x, y, x);
    }
    forall x, y ensures AddressLe(x, y) && AddressLe(y, x) ==> x == y {
      AddressLeOrder(x, y, x);
    }
  }

  lemma AddressLeOrder(x: Ipv4, y: Ipv4, z: Ipv4)
    ensures AddressLe(x, y) && AddressLe(y, z) ==> AddressLe(x, z)
    ensures AddressLe(x, y) || AddressLe(y, x)
    ensures AddressLe(x, y) && AddressLe(y, x) ==> x == y
  {
    hide Below;
    OctetOrder(x.a, y.a, z.a);
    OctetOrder(x.b, y.b, z.b);
    OctetOrder(x.c, y.c, z.c);
    OctetOrder(x.d, y.d, z.d);
  }

  // ---- The relation the snapshot stands for ----

  ghost function Pairs(snapshot: Pods): set<(string, Ipv4)> {
    set s, ip | s in snapshot && ip in snapshot[s] :: (s, ip)
  }

  /** Every list is strictly sorted and none is empty. */
  ghost predicate Tidy(snapshot: Pods) {
    forall s :: s in snapshot ==> snapshot[s] != [] && StrictlySorted(snapshot[s], AddressLe)
  }

  /** The pod an event adds, if any. */
  function Added(e: Event, parse: string -> Option<Ipv4>): Option<(string, Ipv4)> {
    if e.Apply? || e.InitApply? then ExtractServiceAndIp(e.pod, parse) else None
  }

  function Removed(e: Event, parse: string -> Option<Ipv4>): Option<(string, Ipv4)> {
    if e.Delete? then ExtractServiceAndIp(e.pod, parse) else None
  }

  ghost function PairsAfterEvent(pairs: set<(string, Ipv4)>, e: Event, parse: string -> Option<Ipv4>): set<(string, Ipv4)> {
    if e.Init? then {}
    else if Added(e, parse).Some? then pairs + {Added(e, parse).value}
    else if Removed(e, parse).Some? then pairs - {Removed(e, parse).value}
    else pairs
  }

  ghost function PairsAfter(start: set<(string, Ipv4)>, events: seq<Event>, parse: string -> Option<Ipv4>): set<(string, Ipv4)> {
    if events == [] then start
    else PairsAfterEvent(PairsAfter(start, events[..|events| - 1], parse), events[|events| - 1], parse)
  }

  /** Whether an event makes the watcher signal a change. */
  predicate Signals(e: Event, parse: string -> Option<Ipv4>) {
    e.InitDone? || Added(e, parse).Some? || Removed(e, parse).Some?
  }

  /** Two tidy snapshots of the same relation are the same map. */
  lemma TidyIsCanonical(a: Pods, b: Pods)
    requires Tidy(a) && Tidy(b) && Pairs(a) == Pairs(b)
    ensures a == b
  {
    AddressOrder();
    forall s ensures s in a <==> s in b {
      if s in a { assert (s, a[s][0]) in Pairs(b); }
      if s in b { assert (s, b[s][0]) in Pairs(a); }
    }
    forall s | s in a ensures a[s] == b[s] {
      forall ip ensures ip in a[s] <==> ip in b[s] {
        assert ip in a[s] <==> (s, ip) in Pairs(a);
        assert ip in b[s] <==> (s, ip) in Pairs(b);
      }
      StrictlySortedIsUnique(a[s], b[s], AddressLe);
    }
  }

  /** The relation holds exactly the pairs added at some point, with no restart of the
      watch and no deletion of that pair since. */
  lemma {:induction false} PairsAreLiveAdditions(events: seq<Event>, parse: string -> Option<Ipv4>, pair: (string, Ipv4))
    ensures pair in PairsAfter({}, events, parse) <==> LiveAddition(events, parse, pair)
  {
    if events != [] {
      var head, last := events[..|events| - 1], events[|events| - 1];
      PairsAreLiveAdditions(head, parse, pair);
      EventMeaning(last, parse, pair);
      hide Added, Removed, IsPodOf;
      if Added(last, parse) == Some(pair) {
        assert AddedAndKept(events, parse, pair, |events| - 1);
      } else if i :| AddedAndKept(events, parse, pair, i) {
        assert AddedAndKept(head, parse, pair, i);
      }
      if i :| AddedAndKept(head, parse, pair, i) {
        if !Clears(last, parse, pair) {
          assert AddedAndKept(events, parse, pair, i);
        }
      }
    }
  }

  /** The event reports a pod of the pair, new or listed. */
  ghost predicate Reports(e: Event, parse: string -> Option<Ipv4>, pair: (string, Ipv4)) {
    (e.Apply? || e.InitApply?) && IsPodOf(e.pod, parse, pair)
  }

  /** The event clears the pair: the watch restarts, or a pod of the pair is deleted. */
  ghost predicate Clears(e: Event, parse: string -> Option<Ipv4>, pair: (string, Ipv4)) {
    e.Init? || (e.Delete? && IsPodOf(e.pod, parse, pair))
  }

  lemma EventMeaning(e: Event, parse: string -> Option<Ipv4>, pair: (string, Ipv4))
    ensures Added(e, parse) == Some(pair) <==> Reports(e, parse, pair)
    ensures e.Init? || Removed(e, parse) == Some(pair) <==> Clears(e, parse, pair)
  {
    if e.Apply? || e.InitApply? || e.Delete? {
      ExtractMeaning(e.pod, parse, pair);
    }
  }

  ghost predicate AddedAndKept(events: seq<Event>, parse: string -> Option<Ipv4>, pair: (string, Ipv4), i: int) {
    && 0 <= i < |events| && Reports(events[i], parse, pair)
    && forall j :: i < j < |events| ==> !Clears(events[j], parse, pair)
  }

  lemma SignalMeaning(e: Event, parse: string -> Option<Ipv4>)
    ensures Signals(e, parse) <==>
            e.InitDone? || ((e.Apply? || e.InitApply? || e.Delete?) && exists pair :: IsPodOf(e.pod, parse, pair))
  {
    if e.Apply? || e.InitApply? || e.Delete? {
      var found := ExtractServiceAndIp(e.pod, parse);
      if found.Some? {
        ExtractMeaning(e.pod, parse, found.value);
      }
      if pair :| IsPodOf(e.pod, parse, pair) {
        ExtractMeaning(e.pod, parse, pair);
      }
    }
  }

  ghost predicate LiveAddition(events: seq<Event>, parse: string -> Option<Ipv4>, pair: (string, Ipv4)) {
    exists i :: AddedAndKept(events, parse, pair, i)
  }

  // ---- The watcher ----

  class PodWatcher {
    var snapshot: Pods
    const parse: string -> Option<Ipv4>

    constructor (parse: string -> Option<Ipv4>)
      ensures this.parse == parse && snapshot == map[]
    {
      this.parse := parse;
      snapshot := map[];
    }

    /** Sorts and de-duplicates every list, in whatever order the map is walked. */
    method TidyAll()
      modifies this
      ensures snapshot.Keys == old(snapshot).Keys
      ensures forall s :: s in snapshot ==> snapshot[s] == Dedup(Sort(old(snapshot)[s], AddressLe))
    {
      var services := Enumerate(snapshot.Keys);
      for i := 0 to |services|
        invariant snapshot.Keys == old(snapshot).Keys
        invariant forall k :: 0 <= k < i ==> snapshot[services[k]] == Dedup(Sort(old(snapshot)[services[k]], AddressLe))
        invariant forall k :: i <= k < |services| ==> snapshot[services[k]] == old(snapshot)[services[k]]
      {
        var s := services[i];
        snapshot := snapshot[s := Dedup(Sort(snapshot[s], AddressLe))];
      }
    }

    method Add(service: string, ip: Ipv4)
      requires Tidy(snapshot)
      modifies this
      ensures Tidy(snapshot) && Pairs(snapshot) == Pairs(old(snapshot)) + {(service, ip)}
    {
      if service !in snapshot {
        snapshot := snapshot[service := []];
      }
      snapshot := snapshot[service := snapshot[service] + [ip]];
      ghost var pushed := snapshot;
      PushedPairs(old(snapshot), pushed, service, ip);
      TidyAll();
      TidiedPairs(pushed, snapshot);
    }

    method Remove(service: string, ip: Ipv4)
      requires Tidy(snapshot)
      modifies this
      ensures Tidy(snapshot) && Pairs(snapshot) == Pairs(old(snapshot)) - {(service, ip)}
    {
      if service in snapshot {
        var ips := Retain(snapshot[service], ip);
        RetainKeeps(snapshot[service], ip);
        if ips == [] {
          snapshot := snapshot - {service};
        } else {
          snapshot := snapshot[service := ips];
        }
      }
    }

    /** One turn of the event loop; `changed` says whether it signals. */
    method Handle(e: Event) returns (changed: bool)
      requires Tidy(snapshot)
      modifies this
      ensures Tidy(snapshot) && Pairs(snapshot) == PairsAfterEvent(Pairs(old(snapshot)), e, parse)
      ensures changed == Signals(e, parse)
      ensures changed <==> e.InitDone? || ((e.Apply? || e.InitApply? || e.Delete?) && exists pair :: IsPodOf(e.pod, parse, pair))
    {
      changed := false;
      SignalMeaning(e, parse);
      match e
      case Apply(pod) =>
        var found := ExtractServiceAndIp(pod, parse);
        if found.Some? {
          Add(found.value.0, found.value.1);
          changed := true;
        }
      case InitApply(pod) =>
        var found := ExtractServiceAndIp(pod, parse);
        if found.Some? {
          Add(found.value.0, found.value.1);
          changed := true;
        }
      case Delete(pod) =>
        var found := ExtractServiceAndIp(pod, parse);
        if found.Some? {
          Remove(found.value.0, found.value.1);
          changed := true;
        }
      case Init =>
        snapshot := map[];
      case InitDone =>
        changed := true;
      case WatchError =>
    }

    /** The loop over a stream of events. */
    method Run(events: seq<Event>)
      requires Tidy(snapshot)
      modifies this
      ensures Tidy(snapshot) && Pairs(snapshot) == PairsAfter(Pairs(old(snapshot)), events, parse)
    {
      for i := 0 to |events|
        invariant Tidy(snapshot) && Pairs(snapshot) == PairsAfter(Pairs(old(snapshot)), events[..i], parse)
      {
        var _ := Handle(events[i]);
        assert events[..i + 1][..i] == events[..i];
      }
      assert events[..|events|] == events;
    }
  }

  /** retain: every element but `ip`. */
  function Retain(ips: seq<Ipv4>, ip: Ipv4): seq<Ipv4> {
    if ips == [] then []
    else if ips[0] == ip then Retain(ips[1..], ip)
    else [ips[0]] + Retain(ips[1..], ip)
  }

  lemma {:induction false} RetainKeeps(ips: seq<Ipv4>, ip: Ipv4)
    ensures forall x :: x in Retain(ips, ip) <==> x in ips && x != ip
    ensures StrictlySorted(ips, AddressLe) ==> StrictlySorted(Retain(ips, ip), AddressLe)
  {
    if ips != [] {
      var rest := Retain(ips[1..], ip);
      RetainKeeps(ips[1..], ip);
      assert ips == [ips[0]] + ips[1..];
      if StrictlySorted(ips, AddressLe) {
        forall k | 0 <= k < |rest| ensures AddressLe(ips[0], rest[k]) && ips[0] != rest[k] {
          assert rest[k] in ips[1..];
          var j :| 0 <= j < |ips| - 1 && ips[1..][j] == rest[k];
          assert ips[j + 1] == rest[k];
        }
      }
    }
  }

  lemma TidyList(ips: seq<Ipv4>)
    requires ips != []
    ensures Dedup(Sort(ips, AddressLe)) != [] && StrictlySorted(Dedup(Sort(ips, AddressLe)), AddressLe)
    ensures forall x :: x in Dedup(Sort(ips, AddressLe)) <==> x in ips
  {
    AddressOrder();
    SortIsSorted(ips, AddressLe);
    SortMultiset(ips, AddressLe);
    DedupOfSorted(Sort(ips, AddressLe), AddressLe);
    forall x ensures x in Sort(ips, AddressLe) <==> x in ips {
      assert x in multiset(Sort(ips, AddressLe)) <==> x in multiset(ips);
    }
  }

  lemma PushedPairs(before: Pods, pushed: Pods, service: string, ip: Ipv4)
    requires pushed == before[service := (if service in before then before[service] else []) + [ip]]
    ensures Pairs(pushed) == Pairs(before) + {(service, ip)}
  {
    forall s, x ensures (s, x) in Pairs(pushed) <==> (s, x) in Pairs(before) || (s == service && x == ip) {
      assert s in pushed <==> s in before || s == service;
    }
  }

  /** Sorting and de-duplicating every list keeps the relation. */
  lemma TidiedPairs(pushed: Pods, tidied: Pods)
    requires tidied.Keys == pushed.Keys
    requires forall s :: s in tidied ==> pushed[s] != [] && tidied[s] == Dedup(Sort(pushed[s], AddressLe))
    ensures Tidy(tidied) && Pairs(tidied) == Pairs(pushed)
  {
    forall s | s in tidied
      ensures tidied[s] != [] && StrictlySorted(tidied[s], AddressLe) && forall x :: x in tidied[s] <==> x in pushed[s]
    {
      TidyList(pushed[s]);
    }
  }
}
