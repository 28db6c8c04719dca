/** What the store holds and answers, in terms of the records themselves. */
module TraceMeanings {
  import opened Collections
  import opened HttpText
  import opened TraceStores

  // ---- Positions ----

  /** `at` are the positions of the records with the key. */
  ghost predicate KeyAt(history: seq<Record>, key: string, at: seq<int>) {
    Positions(at, |history|) && forall i :: 0 <= i < |history| ==> (i in at <==> KeyOf(history[i]) == key)
  }

  /** The records of an edge are those with its key, in the order they came. */
  lemma {:induction false} KeyPositions(history: seq<Record>, key: string) returns (at: seq<int>)
    ensures KeyAt(history, key, at) && |WithKey(history, key)| == |at|
    ensures forall k :: 0 <= k < |at| ==> WithKey(history, key)[k] == history[at[k]]
  {
    hide KeyOf;
    at := [];
    if history != [] {
      var n := |history| - 1;
      at := KeyPositions(history[..n], key);
      if KeyOf(history[n]) == key {
        at := at + [n];
      }
    }
  }

  /** `at` are the positions of the records with a positive latency. */
  ghost predicate TimedAt(rs: seq<Record>, at: seq<int>) {
    Positions(at, |rs|) && forall i :: 0 <= i < |rs| ==> (i in at <==> rs[i].latencyMs > 0.0)
  }

  lemma {:induction false} LatencyPositions(rs: seq<Record>) returns (at: seq<int>)
    ensures TimedAt(rs, at) && |PositiveLatencies(rs)| == |at|
    ensures forall k :: 0 <= k < |at| ==> PositiveLatencies(rs)[k] == rs[at[k]].latencyMs
  {
    at := [];
    if rs != [] {
      var n := |rs| - 1;
      at := LatencyPositions(rs[..n]);
      if rs[n].latencyMs > 0.0 {
        at := at + [n];
      }
    }
  }

  // ---- Counters ----

  ghost function Having(rs: seq<Record>, verdict: string): set<int> {
    set i | 0 <= i < |rs| && rs[i].verdict == verdict
  }

  /** Any verdict but the three that the counters know counts as allowed. */
  ghost function Other(rs: seq<Record>): set<int> {
    set i | 0 <= i < |rs| && rs[i].verdict != "deny" && rs[i].verdict != "tls_reject" && rs[i].verdict != "error"
  }

  /** The counters count the records by the text of their verdict. */
  lemma {:induction false} CountMeaning(rs: seq<Record>)
    ensures Count(rs, Some(Denied)) == |Having(rs, "deny")|
    ensures Count(rs, Some(TlsRejected)) == |Having(rs, "tls_reject")|
    ensures Count(rs, Some(Failed)) == |Having(rs, "error")|
    ensures Count(rs, Some(Allowed)) == |Other(rs)|
    ensures Count(rs, None) == |rs|
  {
    if rs != [] {
      var n := |rs| - 1;
      CountMeaning(rs[..n]);
      HavingSnoc(rs, "deny");
      HavingSnoc(rs, "tls_reject");
      HavingSnoc(rs, "error");
      OtherSnoc(rs);
      hide Having, Other;
    }
  }

  lemma HavingSnoc(rs: seq<Record>, verdict: string)
    requires rs != []
    ensures var n := |rs| - 1;
            |Having(rs, verdict)| == |Having(rs[..n], verdict)| + if rs[n].verdict == verdict then 1 else 0
  {
    var n := |rs| - 1;
    assert Having(rs, verdict) == Having(rs[..n], verdict) + if rs[n].verdict == verdict then {n} else {};
  }

  lemma OtherSnoc(rs: seq<Record>)
    requires rs != []
    ensures var n := |rs| - 1;
            var v := rs[n].verdict;
            |Other(rs)| == |Other(rs[..n])| + if v == "deny" || v == "tls_reject" || v == "error" then 0 else 1
  {
    var n := |rs| - 1;
    var v := rs[n].verdict;
    assert Other(rs) == Other(rs[..n]) + if v == "deny" || v == "tls_reject" || v == "error" then {} else {n};
  }

  /** The summary counts the records of the history by the text of their verdict. */
  lemma SummaryMeaning(s: Summary, history: seq<Record>)
    requires CountersMatch(s, history)
    ensures s.totalRequests == |history| && s.denied == |Having(history, "deny")|
    ensures s.tlsFailures == |Having(history, "tls_reject")| && s.errors == |Having(history, "error")|
    ensures s.allowed == |Other(history)|
  {
    CountMeaning(history);
  }

  // ---- Edges ----

  function Total(xs: seq<int>): int {
    if xs == [] then 0 else xs[0] + Total(xs[1..])
  }

  lemma {:induction false} TotalSnoc(xs: seq<int>, x: int)
    ensures Total(xs + [x]) == Total(xs) + x
  {
    if xs == [] {
      assert [] + [x] == [x] && [x][1..] == [];
    } else {
      assert (xs + [x])[1..] == xs[1..] + [x];
      TotalSnoc(xs[1..], x);
    }
  }

  lemma {:induction false} BytesMeaning(rs: seq<Record>)
    ensures BytesIn(rs) == Total(seq(|rs|, i requires 0 <= i < |rs| => rs[i].bytesIn))
    ensures BytesOut(rs) == Total(seq(|rs|, i requires 0 <= i < |rs| => rs[i].bytesOut))
  {
    if rs != [] {
      var n := |rs| - 1;
      var head := rs[..n];
      BytesMeaning(head);
      var ins, outs := seq(n, i requires 0 <= i < n => head[i].bytesIn), seq(n, i requires 0 <= i < n => head[i].bytesOut);
      TotalSnoc(ins, rs[n].bytesIn);
      TotalSnoc(outs, rs[n].bytesOut);
      assert seq(|rs|, i requires 0 <= i < |rs| => rs[i].bytesIn) == ins + [rs[n].bytesIn];
      assert seq(|rs|, i requires 0 <= i < |rs| => rs[i].bytesOut) == outs + [rs[n].bytesOut];
    }
  }

  /** The edge's window holds the last at most 512 of the latencies `ls`, in order. */
  ghost predicate IsWindow(e: Edge, ls: seq<real>) {
    var window := e.latencies;
    && |window| == (if |ls| < 512 then |ls| else 512)
    && (forall i :: 0 <= i < |window| ==> window[i] == ls[|ls| - |window| + i])
    && (ls != [] ==> window[|window| - 1] == ls[|ls| - 1] == e.lastLatencyMs)
    && (ls == [] ==> e.lastLatencyMs == 0.0)
  }

  /** The window of an edge is that of the positive latencies of its records. */
  lemma WindowMeaning(history: seq<Record>, key: string)
    requires key in Keys(history)
    ensures IsWindow(EdgeTable(history)[key], PositiveLatencies(WithKey(history, key)))
  {
    EdgeOfTable(history, key);
    hide IsWindow, EdgeTable, EdgeOf, WithKey, PositiveLatencies;
    WindowOf(WithKey(history, key));
  }

  lemma WindowOf(rs: seq<Record>)
    requires rs != []
    ensures IsWindow(EdgeOf(rs), PositiveLatencies(rs))
  {
    hide WithKey, Count, BytesIn, BytesOut;
  }

  lemma EdgeOfTable(history: seq<Record>, key: string)
    requires key in Keys(history)
    ensures WithKey(history, key) != [] && EdgeTable(history)[key] == EdgeOf(WithKey(history, key))
  {
    WithKeyOccupied(history, key);
  }

  /** Everything else an edge holds, in terms of its records. */
  lemma EdgeMeaning(history: seq<Record>, key: string)
    requires key in Keys(history)
    ensures WithKey(history, key) != []
    ensures var e, rs := EdgeTable(history)[key], WithKey(history, key);
            && e.source == rs[0].source && e.target == rs[0].destination
            && e.clusterId == rs[0].clusterId && e.leg == rs[0].leg
            && e.requests == |rs| && e.lastSeen == rs[|rs| - 1].timestamp
            && e.denyCount == |Having(rs, "deny")| && e.tlsRejects == |Having(rs, "tls_reject")|
            && e.errorCount == |Having(rs, "error")| && e.allowCount == |Other(rs)|
            && e.bytesIn == Total(seq(|rs|, i requires 0 <= i < |rs| => rs[i].bytesIn))
            && e.bytesOut == Total(seq(|rs|, i requires 0 <= i < |rs| => rs[i].bytesOut))
  {
    var rs := WithKey(history, key);
    WithKeyOccupied(history, key);
    CountMeaning(rs);
    BytesMeaning(rs);
  }

  // ---- Nodes ----

  predicate Mentions(r: Record, name: string) {
    r.source == name || r.destination == name
  }

  /** A node is a service some record mentions, with the cluster of the last such record. */
  lemma {:induction false} NodeMeaning(history: seq<Record>, name: string, clusterId: string)
    ensures name in NodeTable(history) && NodeTable(history)[name] == Node(name, clusterId) <==>
            exists i :: LastMention(history, name, clusterId, i)
  {
    if history != [] {
      var head, last := history[..|history| - 1], history[|history| - 1];
      assert history == head + [last];
      NodesSnoc(head, last);
      NodeMeaning(head, name, clusterId);
      forall i ensures LastMention(history, name, clusterId, i) <==>
        if i == |head| then Mentions(last, name) && last.clusterId == clusterId
        else LastMention(head, name, clusterId, i) && !Mentions(last, name)
      {
      }
      if Mentions(last, name) && last.clusterId == clusterId {
        assert LastMention(history, name, clusterId, |head|);
      }
    }
  }

  ghost predicate LastMention(history: seq<Record>, name: string, clusterId: string, i: int) {
    && 0 <= i < |history| && Mentions(history[i], name) && history[i].clusterId == clusterId
    && forall j :: i < j < |history| ==> !Mentions(history[j], name)
  }

  // ---- The log and its queries ----

  /** Entry `i` of the log shows the fields of the `i`-th newest record. */
  lemma LogMeaning(history: seq<Record>, max: nat, i: nat)
    requires i < |EventLog(history, max)|
    ensures i < |history|
    ensures var e, r := EventLog(history, max)[i], history[|history| - 1 - i];
            && e.source == r.source && e.destination == r.destination && e.clusterId == r.clusterId && e.leg == r.leg
            && e.verdict == r.verdict && e.errorReason == r.errorReason && e.statusCode == r.statusCode
            && e.latencyMs == r.latencyMs && e.timestamp == r.timestamp && e.protocol == r.protocol
            && e.requestId == r.requestId && e.bytesIn == r.bytesIn && e.bytesOut == r.bytesOut
  {
    EventLogAt(history, max, i);
  }

  /** What a query asks for: one end is the service, unless none is named; the verdict is the
      one named, unless that is empty or "all". */
  ghost predicate Asked(e: Event, service: string, verdict: string) {
    && (service != "" ==> e.source == service || e.destination == service)
    && (verdict != "" && verdict != "all" ==> e.verdict == verdict)
  }

  lemma MatchesAsked(e: Event, service: string, verdict: string)
    ensures Matches(e, service, verdict) <==> Asked(e, service, verdict)
  {
  }

  ghost predicate AskedAt(events: seq<Event>, service: string, verdict: string, at: seq<int>) {
    Positions(at, |events|) && forall i :: 0 <= i < |events| ==> (i in at <==> Asked(events[i], service, verdict))
  }

  lemma {:induction false} MatchPositions(events: seq<Event>, service: string, verdict: string) returns (at: seq<int>)
    ensures AskedAt(events, service, verdict, at) && |Matching(events, service, verdict)| == |at|
    ensures forall k :: 0 <= k < |at| ==> Matching(events, service, verdict)[k] == events[at[k]]
  {
    at := [];
    if events != [] {
      var n := |events| - 1;
      at := MatchPositions(events[..n], service, verdict);
      MatchesAsked(events[n], service, verdict);
      hide Matches, Asked;
      if Asked(events[n], service, verdict) {
        at := at + [n];
      }
    }
  }

  /** The answer to a query: with `at` the positions of what it asks for, the first of them,
      200 without a limit, and never more than 1000. */
  lemma AnswerMeaning(events: seq<Event>, service: string, verdict: string, wanted: int, out: seq<Event>)
    returns (at: seq<int>)
    requires out == First(Matching(events, service, verdict), Limit(wanted))
    ensures AskedAt(events, service, verdict, at)
    ensures var limit := if wanted <= 0 then 200 else if wanted <= 1000 then wanted else 1000;
            |out| == if |at| < limit then |at| else limit
    ensures forall k :: 0 <= k < |out| ==> out[k] == events[at[k]]
  {
    at := MatchPositions(events, service, verdict);
  }

  // ---- Completing records ----

  /** What completion does to each field: white space around a name is dropped, a blank name
      or "unknown" in any case gives way to the host of the address, the address, or
      "unknown"; a blank leg or verdict and a missing time get their defaults. */
  lemma CompletedRecord(raw: RawRecord, now: int, split: string -> Option<string>)
    ensures var r := Normalize(raw, now, split);
            && CompletedName(raw.source, raw.sourceIp, split, r.source)
            && CompletedName(raw.destination, raw.destIp, split, r.destination)
            && r.leg == (if AllWhite(raw.leg) then "intra_cluster" else raw.leg)
            && r.verdict == (if AllWhite(raw.verdict) then "allow" else raw.verdict)
            && (raw.timestamp == None ==> r.timestamp == now)
            && (raw.timestamp != None ==> raw.timestamp == Some(r.timestamp))
            && r == raw.rest.(source := r.source, destination := r.destination, leg := r.leg, verdict := r.verdict,
                              timestamp := r.timestamp)
  {
    ServiceNameMeaning(raw.source, raw.sourceIp, split);
    ServiceNameMeaning(raw.destination, raw.destIp, split);
    TrimToNothing(raw.leg);
    TrimToNothing(raw.verdict);
    hide CompletedName, ServiceName, Trim, AllWhite;
  }

  /** `name` completes a given name and address. */
  ghost predicate CompletedName(given: string, ip: string, split: string -> Option<string>, name: string) {
    if AllWhite(given) || Unknown(given) then
      if ip == "" then name == "unknown"
      else if split(ip) == None then name == ip
      else split(ip) == Some(name)
    else
      && (exists pad, tail :: Around(given, pad, name, tail))
      && (name != "" ==> !White(name[0]) && !White(name[|name| - 1]))
  }

  ghost predicate Unknown(given: string) {
    exists pad, core, tail :: Around(given, pad, core, tail) && SpellsUnknown(core)
  }

  lemma TrimToNothing(s: string)
    ensures Trim(s) == "" <==> AllWhite(s)
  {
    var pad, tail := TrimParts(s);
    if AllWhite(s) {
      assert Around(s, s, "", "");
      TrimOf(s, s, "", "");
    }
  }

  lemma UnknownMeaning(given: string)
    ensures Unknown(given) <==> SpellsUnknown(Trim(given))
  {
    var pad, tail := TrimParts(given);
    forall pad, core, tail | Around(given, pad, core, tail) && SpellsUnknown(core) ensures Trim(given) == core {
      TrimOf(given, pad, core, tail);
    }
  }

  lemma ServiceNameMeaning(given: string, ip: string, split: string -> Option<string>)
    ensures CompletedName(given, ip, split, ServiceName(given, ip, split))
  {
    TrimToNothing(given);
    UnknownSpelling(Trim(given));
    UnknownMeaning(given);
    var pad, tail := TrimParts(given);
    hide Trim, Lower, AllWhite, White, SpellsUnknown, Unknown;
  }
}
