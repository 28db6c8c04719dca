/** The in-memory telemetry store of trace/backend/internal/store/store.go and the
    dashboard's summary in trace/frontend/src/App.tsx. */
module TraceStores {
  import opened Collections
  import HttpText

  /** A telemetry record as it arrives: the fields that may be completed, and the rest. */
  datatype RawRecord = RawRecord(
    source: string, destination: string, sourceIp: string, destIp: string, leg: string, verdict: string,
    timestamp: Option<int>, rest: Record
  )

  /** A telemetry record after its defaults have been filled in. */
  datatype Record = Record(
    source: string, destination: string, clusterId: string, leg: string, verdict: string,
    latencyMs: real, tlsVerified: bool, statusCode: int, errorReason: string, timestamp: int,
    protocol: string, requestId: string, bytesIn: int, bytesOut: int
  )

  datatype Event = Event(
    source: string, destination: string, clusterId: string, leg: string, verdict: string,
    errorReason: string, statusCode: int, latencyMs: real, timestamp: int,
    protocol: string, requestId: string, bytesIn: int, bytesOut: int
  )

  datatype Node = Node(id: string, clusterId: string)

  datatype Edge = Edge(
    source: string, target: string, clusterId: string, leg: string,
    requests: nat, allowCount: nat, denyCount: nat, tlsRejects: nat, errorCount: nat,
    lastLatencyMs: real, lastSeen: int, latencies: seq<real>, bytesIn: int, bytesOut: int
  )

  datatype Summary = Summary(
    totalRequests: nat, allowed: nat, denied: nat, tlsFailures: nat, errors: nat,
    activeEdges: nat, activeServices: nat
  )

  datatype Class = Allowed | Denied | TlsRejected | Failed

  /** Latencies kept for each edge. */
  const WINDOW: nat := 512

  function ClassOf(verdict: string): Class {
    if verdict == "deny" then Denied
    else if verdict == "tls_reject" then TlsRejected
    else if verdict == "error" then Failed
    else Allowed
  }

  /** A name that identifies no service: blank, or "unknown" in any case. */
  predicate Generic(name: string) {
    HttpText.Trim(name) == "" || HttpText.Lower(HttpText.Trim(name)) == "unknown"
  }

  /** normalizeServiceName; `split` is the library's host and port splitter. */
  function ServiceName(name: string, ip: string, split: string -> Option<string>): string {
    if !Generic(name) then HttpText.Trim(name)
    else if ip == "" then "unknown"
    else match split(ip)
         case Some(host) => host
         case None => ip
  }

  /** NormalizeRecord at time `now`. */
  function Normalize(raw: RawRecord, now: int, split: string -> Option<string>): Record {
    raw.rest.(
      source := ServiceName(raw.source, raw.sourceIp, split),
      destination := ServiceName(raw.destination, raw.destIp, split),
      leg := if HttpText.Trim(raw.leg) == "" then "intra_cluster" else raw.leg,
      verdict := if HttpText.Trim(raw.verdict) == "" then "allow" else raw.verdict,
      timestamp := if raw.timestamp.Some? then raw.timestamp.value else now)
  }

  /** Proper names identify services: spelled with whatever white space around them and sent
      from whatever address they stay themselves, also when normalized again. */
  lemma ProperName(name: string, ip: string, ip': string, split: string -> Option<string>)
    requires !Generic(name)
    ensures ServiceName(name, ip, split) == HttpText.Trim(name) && !Generic(ServiceName(name, ip, split))
    ensures ServiceName(ServiceName(name, ip, split), ip', split) == ServiceName(name, ip, split)
  {
    HttpText.TrimTwice(name);
  }

  function KeyOf(r: Record): string {
    r.source + "|" + r.destination + "|" + r.leg
  }

  function EventOf(r: Record): Event {
    Event(r.source, r.destination, r.clusterId, r.leg, r.verdict, r.errorReason, r.statusCode, r.latencyMs,
          r.timestamp, r.protocol, r.requestId, r.bytesIn, r.bytesOut)
  }

  // ---- The state as a function of the record history ----

  function WithKey(history: seq<Record>, key: string): seq<Record> {
    if history == [] then []
    else
      var before, r := WithKey(history[..|history| - 1], key), history[|history| - 1];
      if KeyOf(r) == key then before + [r] else before
  }

  /** How many records there are of a class, or at all. */
  function Count(history: seq<Record>, c: Option<Class>): nat {
    if history == [] then 0
    else
      Count(history[..|history| - 1], c)
      + if c.None? || ClassOf(history[|history| - 1].verdict) == c.value then 1 else 0
  }

  function PositiveLatencies(history: seq<Record>): seq<real> {
    if history == [] then []
    else
      var before, x := PositiveLatencies(history[..|history| - 1]), history[|history| - 1].latencyMs;
      if x > 0.0 then before + [x] else before
  }

  function Newest<T>(s: seq<T>, n: nat): seq<T> {
    if |s| > n then s[|s| - n..] else s
  }

  function BytesIn(history: seq<Record>): int {
    if history == [] then 0 else BytesIn(history[..|history| - 1]) + history[|history| - 1].bytesIn
  }

  function BytesOut(history: seq<Record>): int {
    if history == [] then 0 else BytesOut(history[..|history| - 1]) + history[|history| - 1].bytesOut
  }

  /** The edge made of the records of one key: identity from the first, last-seen time from
      the last, counts, sums and the newest positive latencies. */
  function EdgeOf(rs: seq<Record>): Edge
    requires rs != []
  {
    var ls := PositiveLatencies(rs);
    Edge(rs[0].source, rs[0].destination, rs[0].clusterId, rs[0].leg,
         |rs|, Count(rs, Some(Allowed)), Count(rs, Some(Denied)), Count(rs, Some(TlsRejected)), Count(rs, Some(Failed)),
         if ls == [] then 0.0 else ls[|ls| - 1], rs[|rs| - 1].timestamp, Newest(ls, WINDOW), BytesIn(rs), BytesOut(rs))
  }

  ghost function Keys(history: seq<Record>): set<string> {
    set r | r in history :: KeyOf(r)
  }

  ghost function Names(history: seq<Record>): set<string> {
    (set r | r in history :: r.source) + (set r | r in history :: r.destination)
  }

  /** Newest first, at most `max`. */
  function EventLog(history: seq<Record>, max: nat): seq<Event> {
    if history == [] || max == 0 then []
    else [EventOf(history[|history| - 1])] + EventLog(history[..|history| - 1], max - 1)
  }

  lemma {:induction false} EventLogLength(history: seq<Record>, max: nat)
    ensures |EventLog(history, max)| == if |history| < max then |history| else max
  {
    if history != [] && max != 0 {
      EventLogLength(history[..|history| - 1], max - 1);
    }
  }

  /** The log read by position: entry `i` is the `i`-th newest record. */
  lemma {:induction false} EventLogAt(history: seq<Record>, max: nat, i: nat)
    requires i < |EventLog(history, max)|
    ensures i < |history| && EventLog(history, max)[i] == EventOf(history[|history| - 1 - i])
  {
    if i > 0 {
      EventLogAt(history[..|history| - 1], max - 1, i - 1);
    }
  }

  lemma {:induction false} EventLogPrefix(history: seq<Record>, m: nat, n: nat)
    requires m <= n
    ensures m <= |EventLog(history, n)| ==> EventLog(history, m) == EventLog(history, n)[..m]
    ensures |EventLog(history, n)| <= m ==> EventLog(history, m) == EventLog(history, n)
  {
    if history != [] && m != 0 {
      EventLogPrefix(history[..|history| - 1], m - 1, n - 1);
    }
  }

  lemma {:induction false} WithKeyMembers(history: seq<Record>, key: string, r: Record)
    ensures r in WithKey(history, key) <==> r in history && KeyOf(r) == key
  {
    if history != [] {
      WithKeyMembers(history[..|history| - 1], key, r);
      assert history == history[..|history| - 1] + [history[|history| - 1]];
    }
  }

  lemma WithKeyOccupied(history: seq<Record>, key: string)
    ensures WithKey(history, key) != [] <==> key in Keys(history)
  {
    if key in Keys(history) {
      var r :| r in history && KeyOf(r) == key;
      WithKeyMembers(history, key, r);
    }
    if WithKey(history, key) != [] {
      WithKeyMembers(history, key, WithKey(history, key)[0]);
    }
  }

  lemma WithKeySnoc(history: seq<Record>, r: Record, key: string)
    ensures WithKey(history + [r], key) == WithKey(history, key) + if KeyOf(r) == key then [r] else []
  {
    assert (history + [r])[..|history|] == history;
  }

  lemma KeysSnoc(history: seq<Record>, r: Record)
    ensures Keys(history + [r]) == Keys(history) + {KeyOf(r)}
    ensures Names(history + [r]) == Names(history) + {r.source, r.destination}
  {
    var all := history + [r];
    assert forall q :: q in all <==> q in history || q == r;
  }

  lemma CountSnoc(rs: seq<Record>, r: Record, c: Option<Class>)
    ensures Count(rs + [r], c) == Count(rs, c) + if c.None? || ClassOf(r.verdict) == c.value then 1 else 0
  {
    assert (rs + [r])[..|rs|] == rs;
  }

  lemma LatenciesSnoc(rs: seq<Record>, r: Record)
    ensures PositiveLatencies(rs + [r]) == PositiveLatencies(rs) + if r.latencyMs > 0.0 then [r.latencyMs] else []
    ensures BytesIn(rs + [r]) == BytesIn(rs) + r.bytesIn && BytesOut(rs + [r]) == BytesOut(rs) + r.bytesOut
  {
    assert (rs + [r])[..|rs|] == rs;
  }

  /** Trimming after each append keeps the newest elements of the whole. */
  lemma NewestSnoc<T>(s: seq<T>, x: T, n: nat)
    ensures Newest(Newest(s, n) + [x], n) == Newest(s + [x], n)
  {
  }

  // ---- The store ----

  /** One more record on an edge, as AddRecord counts it. */
  function Bump(e: Edge, r: Record): Edge {
    var seen := e.(requests := e.requests + 1, lastSeen := r.timestamp,
                   bytesIn := e.bytesIn + r.bytesIn, bytesOut := e.bytesOut + r.bytesOut);
    var timed :=
      if r.latencyMs > 0.0
      then seen.(lastLatencyMs := r.latencyMs, latencies := Newest(e.latencies + [r.latencyMs], WINDOW))
      else seen;
    match ClassOf(r.verdict)
    case Denied => timed.(denyCount := e.denyCount + 1)
    case TlsRejected => timed.(tlsRejects := e.tlsRejects + 1)
    case Failed => timed.(errorCount := e.errorCount + 1)
    case Allowed => timed.(allowCount := e.allowCount + 1)
  }

  function EmptyEdge(r: Record): Edge {
    Edge(r.source, r.destination, r.clusterId, r.leg, 0, 0, 0, 0, 0, 0.0, 0, [], 0, 0)
  }

  lemma CountsSnoc(rs: seq<Record>, r: Record)
    ensures forall c :: Count(rs + [r], Some(c)) == Count(rs, Some(c)) + if ClassOf(r.verdict) == c then 1 else 0
  {
    forall c ensures Count(rs + [r], Some(c)) == Count(rs, Some(c)) + if ClassOf(r.verdict) == c then 1 else 0 {
      CountSnoc(rs, r, Some(c));
    }
  }

  lemma BumpSnoc(rs: seq<Record>, r: Record)
    ensures EdgeOf(rs + [r]) == Bump(if rs == [] then EmptyEdge(r) else EdgeOf(rs), r)
  {
    CountsSnoc(rs, r);
    LatenciesSnoc(rs, r);
    NewestSnoc(PositiveLatencies(rs), r.latencyMs, WINDOW);
  }

  ghost function EdgeOfKey(history: seq<Record>, key: string): Edge
    requires key in Keys(history)
  {
    WithKeyOccupied(history, key);
    EdgeOf(WithKey(history, key))
  }

  /** One edge for each key of the history. */
  ghost function EdgeTable(history: seq<Record>): map<string, Edge> {
    map k | k in Keys(history) :: EdgeOfKey(history, k)
  }

  /** A service as the newest record that mentions it described it. */
  function NodeOf(history: seq<Record>, name: string): Node {
    if history == [] then Node(name, "")
    else
      var r := history[|history| - 1];
      if name == r.source || name == r.destination then Node(name, r.clusterId)
      else NodeOf(history[..|history| - 1], name)
  }

  ghost function NodeTable(history: seq<Record>): map<string, Node> {
    map n | n in Names(history) :: NodeOf(history, n)
  }

  /** The class counters of a summary. */
  ghost predicate CountersMatch(s: Summary, history: seq<Record>) {
    && s.totalRequests == |history|
    && s.allowed == Count(history, Some(Allowed)) && s.denied == Count(history, Some(Denied))
    && s.tlsFailures == Count(history, Some(TlsRejected)) && s.errors == Count(history, Some(Failed))
  }

  class Store {
    var nodes: map<string, Node>
    var edges: map<string, Edge>
    var events: seq<Event>
    const maxEvents: nat
    var summary: Summary
    /** Every record added so far. */
    ghost var history: seq<Record>

    constructor (maxEvents: int)
      ensures Valid() && history == []
      ensures this.maxEvents == if maxEvents <= 0 then 500 else maxEvents
    {
      nodes, edges, events := map[], map[], [];
      this.maxEvents := if maxEvents <= 0 then 500 else maxEvents;
      summary := Summary(0, 0, 0, 0, 0, 0, 0);
      history := [];
    }

    /** The store is determined by the history. */
    ghost predicate Valid()
      reads this
    {
      && nodes == NodeTable(history)
      && edges == EdgeTable(history)
      && events == EventLog(history, maxEvents)
      && CountersMatch(summary, history)
      && summary.activeEdges == |edges| && summary.activeServices == |nodes|
    }

    /** The edge half of AddRecord: finds or creates the edge and updates it in place. */
    method UpdateEdge(r: Record)
      requires edges == EdgeTable(history)
      modifies this`edges
      ensures edges == EdgeTable(history + [r])
    {
      EdgesSnoc(history, r);
      CountOnEdge(r);
    }

    method CountOnEdge(r: Record)
      modifies this`edges
      ensures edges == EdgesAfter(old(edges), r)
    {
      var key := r.source + "|" + r.destination + "|" + r.leg;
      var edge := if key in edges then edges[key] else EmptyEdge(r);
      edge := edge.(requests := edge.requests + 1, lastSeen := r.timestamp);
      if r.latencyMs > 0.0 {
        edge := edge.(lastLatencyMs := r.latencyMs, latencies := edge.latencies + [r.latencyMs]);
        if |edge.latencies| > WINDOW {
          edge := edge.(latencies := edge.latencies[|edge.latencies| - WINDOW..]);
        }
      }
      edge := edge.(bytesIn := edge.bytesIn + r.bytesIn, bytesOut := edge.bytesOut + r.bytesOut);
      if r.verdict == "deny" {
        edge := edge.(denyCount := edge.denyCount + 1);
      } else if r.verdict == "tls_reject" {
        edge := edge.(tlsRejects := edge.tlsRejects + 1);
      } else if r.verdict == "error" {
        edge := edge.(errorCount := edge.errorCount + 1);
      } else {
        edge := edge.(allowCount := edge.allowCount + 1);
      }
      edges := edges[key := edge];
    }

    method UpdateNodes(r: Record)
      requires nodes == NodeTable(history)
      modifies this`nodes
      ensures nodes == NodeTable(history + [r])
    {
      nodes := nodes[r.source := Node(r.source, r.clusterId)];
      nodes := nodes[r.destination := Node(r.destination, r.clusterId)];
      NodesSnoc(history, r);
    }

    method UpdateCounters(r: Record)
      requires CountersMatch(summary, history)
      modifies this`summary
      ensures CountersMatch(summary, history + [r])
    {
      summary := summary.(totalRequests := summary.totalRequests + 1);
      if r.verdict == "deny" {
        summary := summary.(denied := summary.denied + 1);
      } else if r.verdict == "tls_reject" {
        summary := summary.(tlsFailures := summary.tlsFailures + 1);
      } else if r.verdict == "error" {
        summary := summary.(errors := summary.errors + 1);
      } else {
        summary := summary.(allowed := summary.allowed + 1);
      }
      CountsSnoc(history, r);
    }

    /** AddRecord at time `now`: completes the record and lets counters, topology and log
        move on by it. */
    method AddRecord(record: RawRecord, now: int, split: string -> Option<string>) returns (r: Record)
      requires Valid()
      modifies this
      ensures Valid() && history == old(history) + [r] && r == Normalize(record, now, split)
    {
      r := Normalize(record, now, split);
      hide EdgeTable, NodeTable, EventLog, Count;
      UpdateNodes(r);
      UpdateEdge(r);
      UpdateCounters(r);
      summary := summary.(activeEdges := |edges|, activeServices := |nodes|);
      AppendEvent(r);
      history := history + [r];
    }

    /** appendEventLocked: newest first, trimmed to the bound. */
    method AppendEvent(r: Record)
      requires events == EventLog(history, maxEvents)
      modifies this`events
      ensures events == EventLog(history + [r], maxEvents)
    {
      events := [EventOf(r)] + events;
      assert (history + [r])[..|history|] == history;
      EventLogLength(history, maxEvents);
      if maxEvents > 0 {
        EventLogPrefix(history, maxEvents - 1, maxEvents);
      }
      if |events| > maxEvents {
        events := events[..maxEvents];
      }
    }

    /** Events: the first matches, newest first, up to the limit. */
    method Events(service: string, verdict: string, wanted: int) returns (out: seq<Event>)
      ensures out == First(Matching(events, service, verdict), Limit(wanted))
    {
      var limit := wanted;
      if limit <= 0 {
        limit := 200;
      }
      if limit > 1000 {
        limit := 1000;
      }
      out := [];
      var i := 0;
      assert events[..0] == [];
      while i < |events|
        invariant 0 <= i <= |events| && out == Matching(events[..i], service, verdict) && |out| <= limit
      {
        if |out| >= limit {
          break;
        }
        var event := events[i];
        assert events[..i + 1][..i] == events[..i];
        i := i + 1;
        if service != "" && event.source != service && event.destination != service {
          continue;
        }
        if verdict != "" && verdict != "all" && event.verdict != verdict {
          continue;
        }
        out := out + [event];
      }
      MatchingPrefix(events, i, service, verdict);
      assert events[..|events|] == events;
    }

    /** Topology: the edges in some order; sorting them afterwards is another such order. */
    method TopologyEdges() returns (listed: seq<Edge>)
      ensures exists keys :: Enumerates(keys, edges.Keys) && listed == EdgesAt(edges, keys)
    {
      var ks := Enumerate(edges.Keys);
      listed := [];
      for i := 0 to |ks|
        invariant listed == EdgesAt(edges, ks[..i])
      {
        assert ks[..i + 1][..i] == ks[..i];
        assert ks[i] in edges.Keys;
        listed := listed + [edges[ks[i]]];
      }
      assert ks[..|ks|] == ks;
    }
  }

  ghost function EdgesAfter(edges: map<string, Edge>, r: Record): map<string, Edge> {
    edges[KeyOf(r) := Bump(if KeyOf(r) in edges then edges[KeyOf(r)] else EmptyEdge(r), r)]
  }

  lemma EdgeSnoc(h: seq<Record>, r: Record, k: string)
    requires k in Keys(h + [r])
    ensures EdgeOfKey(h + [r], k) ==
            if k != KeyOf(r) then (KeysSnoc(h, r); EdgeOfKey(h, k))
            else Bump(if k in Keys(h) then EdgeOfKey(h, k) else EmptyEdge(r), r)
  {
    KeysSnoc(h, r);
    WithKeySnoc(h, r, k);
    WithKeyOccupied(h, k);
    if k == KeyOf(r) {
      BumpSnoc(WithKey(h, k), r);
    } else {
      assert WithKey(h, k) + [] == WithKey(h, k);
    }
  }

  lemma EdgesSnoc(h: seq<Record>, r: Record)
    ensures EdgeTable(h + [r]) == EdgesAfter(EdgeTable(h), r)
  {
    hide EdgeOfKey, Bump;
    KeysSnoc(h, r);
    forall k | k in Keys(h + [r]) ensures EdgeTable(h + [r])[k] == EdgesAfter(EdgeTable(h), r)[k] {
      EdgeSnoc(h, r, k);
    }
  }

  lemma NodesSnoc(h: seq<Record>, r: Record)
    ensures NodeTable(h + [r]) ==
            NodeTable(h)[r.source := Node(r.source, r.clusterId)][r.destination := Node(r.destination, r.clusterId)]
  {
    KeysSnoc(h, r);
    assert (h + [r])[..|h|] == h;
  }

  // ---- Queries ----

  function Limit(wanted: int): nat {
    if wanted <= 0 then 200 else if wanted > 1000 then 1000 else wanted
  }

  predicate Matches(e: Event, service: string, verdict: string) {
    && (service == "" || e.source == service || e.destination == service)
    && (verdict == "" || verdict == "all" || e.verdict == verdict)
  }

  function Matching(events: seq<Event>, service: string, verdict: string): seq<Event> {
    if events == [] then []
    else
      var before, e := Matching(events[..|events| - 1], service, verdict), events[|events| - 1];
      if Matches(e, service, verdict) then before + [e] else before
  }

  function First<T>(s: seq<T>, n: nat): seq<T> {
    if |s| > n then s[..n] else s
  }

  lemma {:induction false} MatchingPrefix(events: seq<Event>, i: nat, service: string, verdict: string)
    requires i <= |events|
    ensures Matching(events[..i], service, verdict) <= Matching(events, service, verdict)
  {
    if i < |events| {
      MatchingPrefix(events[..|events| - 1], i, service, verdict);
      assert events[..|events| - 1][..i] == events[..i];
    } else {
      assert events[..i] == events;
    }
  }

  ghost function EdgesAt(edges: map<string, Edge>, keys: seq<string>): seq<Edge>
    requires forall k :: k in keys ==> k in edges
  {
    if keys == [] then [] else EdgesAt(edges, keys[..|keys| - 1]) + [edges[keys[|keys| - 1]]]
  }
}
