/** Conservation between the store's summary, its edges and the dashboard's summary. */
module TraceSummaries {
  import opened Collections
  import opened TraceStores

  // ---- Keys ----

  /** The text before the first bar is determined by the whole. */
  lemma FirstField(a: string, x: string, b: string, y: string)
    requires '|' !in a && '|' !in b && a + "|" + x == b + "|" + y
    ensures a == b && x == y
  {
    var whole := a + "|" + x;
    assert forall i :: 0 <= i < |a| ==> whole[i] == a[i];
    assert forall i :: 0 <= i < |b| ==> whole[i] == b[i];
    assert whole[|a|] == '|' && whole[|b|] == '|';
    assert a == whole[..|a|] && b == whole[..|b|];
    assert x == whole[|a| + 1..] && y == whole[|b| + 1..];
  }

  predicate PlainNames(r: Record) {
    '|' !in r.source && '|' !in r.destination
  }

  /** Keys identify source, destination and leg when the service names hold no bar. */
  lemma KeyIsInjective(r: Record, q: Record)
    requires PlainNames(r) && PlainNames(q) && KeyOf(r) == KeyOf(q)
    ensures r.source == q.source && r.destination == q.destination && r.leg == q.leg
  {
    assert KeyOf(r) == r.source + "|" + (r.destination + "|" + r.leg);
    assert KeyOf(q) == q.source + "|" + (q.destination + "|" + q.leg);
    FirstField(r.source, r.destination + "|" + r.leg, q.source, q.destination + "|" + q.leg);
    FirstField(r.destination, r.leg, q.destination, q.leg);
  }

  // ---- Summing over edges ----

  /** Requests of a class, or all requests, recorded on an edge. */
  function Tally(e: Edge, c: Option<Class>): nat {
    match c
    case None => e.requests
    case Some(Allowed) => e.allowCount
    case Some(Denied) => e.denyCount
    case Some(TlsRejected) => e.tlsRejects
    case Some(Failed) => e.errorCount
  }

  function SumTally(edges: seq<Edge>, c: Option<Class>): nat {
    if edges == [] then 0 else SumTally(edges[..|edges| - 1], c) + Tally(edges[|edges| - 1], c)
  }

  /** The same sum taken over the records of each key. */
  function SumByKey(history: seq<Record>, keys: seq<string>, c: Option<Class>): nat {
    if keys == [] then 0
    else SumByKey(history, keys[..|keys| - 1], c) + Count(WithKey(history, keys[|keys| - 1]), c)
  }

  lemma {:induction false} CountAll(history: seq<Record>)
    ensures Count(history, None) == |history|
    ensures Count(history, Some(Allowed)) + Count(history, Some(Denied)) + Count(history, Some(TlsRejected))
            + Count(history, Some(Failed)) == |history|
  {
    if history != [] {
      CountAll(history[..|history| - 1]);
    }
  }

  lemma CountWithKeySnoc(history: seq<Record>, r: Record, key: string, c: Option<Class>)
    ensures Count(WithKey(history + [r], key), c) ==
            Count(WithKey(history, key), c) + if KeyOf(r) == key then Count([r], c) else 0
  {
    WithKeySnoc(history, r, key);
    CountSnoc(WithKey(history, key), r, c);
    CountOne(r, c);
    assert WithKey(history, key) + [] == WithKey(history, key);
  }

  lemma CountOne(r: Record, c: Option<Class>)
    ensures Count([r], c) == if c.None? || ClassOf(r.verdict) == c.value then 1 else 0
  {
    CountSnoc([], r, c);
    assert [] + [r] == [r];
  }

  /** One more record adds to the sum once, under its own key. */
  lemma {:induction false} SumByKeySnoc(history: seq<Record>, r: Record, keys: seq<string>, c: Option<Class>)
    requires Distinct(keys)
    ensures SumByKey(history + [r], keys, c) ==
            SumByKey(history, keys, c) + if KeyOf(r) in keys then Count([r], c) else 0
  {
    hide WithKey, Count, KeyOf;
    if keys != [] {
      var head, last := keys[..|keys| - 1], keys[|keys| - 1];
      assert keys == head + [last];
      SumByKeySnoc(history, r, head, c);
      CountWithKeySnoc(history, r, last, c);
    }
  }

  lemma {:induction false} SumOverNothing(keys: seq<string>, c: Option<Class>)
    ensures SumByKey([], keys, c) == 0
  {
    if keys != [] {
      SumOverNothing(keys[..|keys| - 1], c);
    }
  }

  /** Partitioning the records by key loses none and counts none twice. */
  lemma {:induction false} PartitionByKey(history: seq<Record>, keys: seq<string>, c: Option<Class>)
    requires Distinct(keys) && forall r :: r in history ==> KeyOf(r) in keys
    ensures SumByKey(history, keys, c) == Count(history, c)
  {
    if history == [] {
      SumOverNothing(keys, c);
    } else {
      var head, r := history[..|history| - 1], history[|history| - 1];
      assert history == head + [r];
      PartitionByKey(head, keys, c);
      SumByKeySnoc(head, r, keys, c);
      CountSnoc(head, r, c);
      CountOne(r, c);
    }
  }

  lemma TallyOfEdge(rs: seq<Record>, c: Option<Class>)
    requires rs != []
    ensures Tally(EdgeOf(rs), c) == Count(rs, c)
  {
    CountAll(rs);
  }

  lemma {:induction false} TalliesAreSums(history: seq<Record>, keys: seq<string>, c: Option<Class>)
    requires forall k :: k in keys ==> k in Keys(history)
    ensures SumTally(EdgesAt(EdgeTable(history), keys), c) == SumByKey(history, keys, c)
  {
    if keys != [] {
      var head, last := keys[..|keys| - 1], keys[|keys| - 1];
      TalliesAreSums(history, head, c);
      var edges := EdgesAt(EdgeTable(history), keys);
      assert edges[..|edges| - 1] == EdgesAt(EdgeTable(history), head);
      WithKeyOccupied(history, last);
      TallyOfEdge(WithKey(history, last), c);
    }
  }

  /** Conservation: for every history, over the edges in any order, the edge counters add up
      to the number of records of each class, and the classes to the number of records. */
  lemma EdgesConserve(history: seq<Record>, keys: seq<string>, c: Option<Class>)
    requires Enumerates(keys, Keys(history))
    ensures SumTally(EdgesAt(EdgeTable(history), keys), c) == Count(history, c)
    ensures c.None? ==> Count(history, c) == |history|
  {
    TalliesAreSums(history, keys, c);
    PartitionByKey(history, keys, c);
    CountAll(history);
  }

  // ---- The dashboard ----

  function Endpoints(edges: seq<Edge>): set<string> {
    (set e | e in edges :: e.source) + (set e | e in edges :: e.target)
  }

  /** buildSummary: one pass over the edges with six accumulators and a set. */
  method BuildSummary(edges: seq<Edge>) returns (s: Summary)
    ensures s == Summary(SumTally(edges, None), SumTally(edges, Some(Allowed)), SumTally(edges, Some(Denied)),
                         SumTally(edges, Some(TlsRejected)), SumTally(edges, Some(Failed)), |edges|, |Endpoints(edges)|)
  {
    var services: set<string> := {};
    var allowed, denied, tlsFailures, errors, totalRequests := 0, 0, 0, 0, 0;
    for i := 0 to |edges|
      invariant services == Endpoints(edges[..i])
      invariant totalRequests == SumTally(edges[..i], None) && allowed == SumTally(edges[..i], Some(Allowed))
      invariant denied == SumTally(edges[..i], Some(Denied)) && tlsFailures == SumTally(edges[..i], Some(TlsRejected))
      invariant errors == SumTally(edges[..i], Some(Failed))
    {
      var edge := edges[i];
      assert edges[..i + 1][..i] == edges[..i];
      EndpointsSnoc(edges[..i], edge);
      assert edges[..i + 1] == edges[..i] + [edge];
      services := services + {edge.source};
      services := services + {edge.target};
      totalRequests := totalRequests + edge.requests;
      allowed := allowed + edge.allowCount;
      denied := denied + edge.denyCount;
      tlsFailures := tlsFailures + edge.tlsRejects;
      errors := errors + edge.errorCount;
    }
    assert edges[..|edges|] == edges;
    s := Summary(totalRequests, allowed, denied, tlsFailures, errors, |edges|, |services|);
  }

  lemma EndpointsSnoc(edges: seq<Edge>, e: Edge)
    ensures Endpoints(edges + [e]) == Endpoints(edges) + {e.source, e.target}
  {
    assert forall x :: x in edges + [e] <==> x in edges || x == e;
  }

  lemma {:induction false} EdgesAtMembers(edges: map<string, Edge>, keys: seq<string>, e: Edge)
    requires forall k :: k in keys ==> k in edges
    ensures |EdgesAt(edges, keys)| == |keys|
    ensures e in EdgesAt(edges, keys) <==> exists k :: k in keys && edges[k] == e
  {
    if keys != [] {
      EdgesAtMembers(edges, keys[..|keys| - 1], e);
      assert keys == keys[..|keys| - 1] + [keys[|keys| - 1]];
    }
  }

  /** The identity of an edge is that of the first record with its key. */
  lemma EdgeIdentity(history: seq<Record>, key: string) returns (first: Record)
    requires key in Keys(history)
    ensures first in history && KeyOf(first) == key
    ensures EdgeTable(history)[key].source == first.source && EdgeTable(history)[key].target == first.destination
  {
    WithKeyOccupied(history, key);
    first := WithKey(history, key)[0];
    WithKeyMembers(history, key, first);
  }

  lemma ListedEndpoint(history: seq<Record>, keys: seq<string>, e: Edge)
    requires Enumerates(keys, Keys(history)) && e in EdgesAt(EdgeTable(history), keys)
    ensures e.source in Names(history) && e.target in Names(history)
  {
    EdgesAtMembers(EdgeTable(history), keys, e);
    var k :| k in keys && EdgeTable(history)[k] == e;
    var first := EdgeIdentity(history, k);
  }

  lemma PlainEndpoint(history: seq<Record>, keys: seq<string>, r: Record)
    requires Enumerates(keys, Keys(history)) && r in history && forall q :: q in history ==> PlainNames(q)
    ensures r.source in Endpoints(EdgesAt(EdgeTable(history), keys))
    ensures r.destination in Endpoints(EdgesAt(EdgeTable(history), keys))
  {
    var k := KeyOf(r);
    assert k in Keys(history);
    var first := EdgeIdentity(history, k);
    KeyIsInjective(r, first);
    EdgesAtMembers(EdgeTable(history), keys, EdgeTable(history)[k]);
    assert EdgeTable(history)[k] in EdgesAt(EdgeTable(history), keys);
  }

  // ---- Which services the edges name ----

  /** Record `i` creates the edge of its key. */
  ghost predicate Creates(history: seq<Record>, i: int) {
    0 <= i < |history| && KeyOf(history[i]) !in Keys(history[..i])
  }

  /** The service is an endpoint of a record that creates an edge. */
  ghost predicate NamedAtCreation(history: seq<Record>, name: string) {
    exists i :: Creates(history, i) && (name == history[i].source || name == history[i].destination)
  }

  /** The first record of a key is the one that creates its edge. */
  lemma {:induction false} FirstOfKey(history: seq<Record>, i: nat)
    requires Creates(history, i)
    ensures WithKey(history, KeyOf(history[i])) != [] && WithKey(history, KeyOf(history[i]))[0] == history[i]
  {
    var head, last := history[..|history| - 1], history[|history| - 1];
    var key := KeyOf(history[i]);
    assert history == head + [last];
    WithKeySnoc(head, last, key);
    if i < |head| {
      assert head[..i] == history[..i];
      FirstOfKey(head, i);
    } else {
      WithKeyOccupied(head, key);
    }
  }

  lemma {:induction false} CreatorOf(history: seq<Record>, key: string) returns (i: nat)
    requires key in Keys(history)
    ensures Creates(history, i) && KeyOf(history[i]) == key
  {
    var head, last := history[..|history| - 1], history[|history| - 1];
    assert history == head + [last];
    KeysSnoc(head, last);
    if key in Keys(head) {
      i := CreatorOf(head, key);
      assert head[..i] == history[..i];
    } else {
      i := |head|;
    }
  }

  /** The endpoints of the edges are exactly the services named when an edge is created. */
  lemma EndpointMeaning(history: seq<Record>, keys: seq<string>, name: string)
    requires Enumerates(keys, Keys(history))
    ensures name in Endpoints(EdgesAt(EdgeTable(history), keys)) <==> NamedAtCreation(history, name)
  {
    hide WithKey, KeyOf, Endpoints;
    var listed := EdgesAt(EdgeTable(history), keys);
    if e :| e in listed && (name == e.source || name == e.target) {
      EdgesAtMembers(EdgeTable(history), keys, e);
      var k :| k in keys && EdgeTable(history)[k] == e;
      var i := CreatorOf(history, k);
      var _ := EdgeOfCreator(history, i);
    }
    if i :| Creates(history, i) && (name == history[i].source || name == history[i].destination) {
      var e := EdgeOfCreator(history, i);
      EdgesAtMembers(EdgeTable(history), keys, e);
      assert e in listed;
    }
    EndpointIn(listed, name);
  }

  lemma EndpointIn(edges: seq<Edge>, name: string)
    ensures name in Endpoints(edges) <==> exists e :: e in edges && (name == e.source || name == e.target)
  {
  }

  lemma EdgeOfCreator(history: seq<Record>, i: nat) returns (e: Edge)
    requires Creates(history, i)
    ensures KeyOf(history[i]) in Keys(history) && e == EdgeTable(history)[KeyOf(history[i])]
    ensures e.source == history[i].source && e.target == history[i].destination
  {
    assert history[i] in history;
    FirstOfKey(history, i);
    e := EdgeTable(history)[KeyOf(history[i])];
  }

  /** Every edge endpoint is a node; when no service name holds a bar, every node is an
      edge endpoint too. */
  lemma EndpointsAreNodes(history: seq<Record>, keys: seq<string>)
    requires Enumerates(keys, Keys(history))
    ensures Endpoints(EdgesAt(EdgeTable(history), keys)) <= NodeTable(history).Keys
    ensures (forall r :: r in history ==> PlainNames(r)) ==>
              Endpoints(EdgesAt(EdgeTable(history), keys)) == NodeTable(history).Keys
  {
    var listed := EdgesAt(EdgeTable(history), keys);
    hide EdgeTable, EdgesAt;
    forall e | e in listed ensures e.source in Names(history) && e.target in Names(history) {
      ListedEndpoint(history, keys, e);
    }
    if forall r :: r in history ==> PlainNames(r) {
      forall r | r in history
        ensures r.source in Endpoints(listed) && r.destination in Endpoints(listed)
      {
        PlainEndpoint(history, keys, r);
      }
    }
  }

  /** The dashboard's totals are the store's, whatever order the topology lists its edges in;
      its service count is never larger, and equal exactly when every service of the history
      is named by a record that creates an edge; that is so when no service name holds a bar. */
  lemma SummariesAgree(history: seq<Record>, keys: seq<string>, stored: Summary, shown: Summary)
    requires Enumerates(keys, Keys(history))
    requires CountersMatch(stored, history)
    requires stored.activeEdges == |EdgeTable(history)| && stored.activeServices == |NodeTable(history)|
    requires var edges := EdgesAt(EdgeTable(history), keys);
             shown == Summary(SumTally(edges, None), SumTally(edges, Some(Allowed)), SumTally(edges, Some(Denied)),
                              SumTally(edges, Some(TlsRejected)), SumTally(edges, Some(Failed)), |edges|, |Endpoints(edges)|)
    ensures shown.(activeServices := stored.activeServices) == stored
    ensures shown.activeServices <= stored.activeServices
    ensures shown == stored <==> forall name :: name in Names(history) ==> NamedAtCreation(history, name)
    ensures (forall r :: r in history ==> PlainNames(r)) ==> shown == stored
    ensures stored.totalRequests == stored.allowed + stored.denied + stored.tlsFailures + stored.errors
  {
    CountAll(history);
    forall c ensures SumTally(EdgesAt(EdgeTable(history), keys), c) == Count(history, c) {
      EdgesConserve(history, keys, c);
    }
    EndpointsAreNodes(history, keys);
    var table := EdgeTable(history);
    assert |table| == |table.Keys| && |NodeTable(history)| == |NodeTable(history).Keys|;
    EnumerationSize(keys, table.Keys);
    EdgeCount(table, keys);
    SubsetSize(Endpoints(EdgesAt(table, keys)), NodeTable(history).Keys);
    AllNamesShown(history, keys);
  }

  lemma AllNamesShown(history: seq<Record>, keys: seq<string>)
    requires Enumerates(keys, Keys(history))
    ensures |Endpoints(EdgesAt(EdgeTable(history), keys))| == |NodeTable(history)| <==>
            forall name :: name in Names(history) ==> NamedAtCreation(history, name)
  {
    var shown, known := Endpoints(EdgesAt(EdgeTable(history), keys)), NodeTable(history).Keys;
    EndpointsAreNodes(history, keys);
    assert known == Names(history) && |NodeTable(history)| == |known|;
    hide Endpoints, EdgesAt, EdgeTable, NodeTable, Names, NamedAtCreation;
    forall name ensures name in shown <==> NamedAtCreation(history, name) {
      EndpointMeaning(history, keys, name);
    }
    if |shown| == |known| {
      SubsetOfSameSize(shown, known);
    } else {
      assert shown != known;
      var name :| name in known && name !in shown;
    }
  }

  lemma SubsetOfSameSize<T>(a: set<T>, b: set<T>)
    requires a <= b && |a| == |b|
    ensures a == b
  {
    assert b == a + (b - a);
  }

  lemma EdgeCount(edges: map<string, Edge>, keys: seq<string>)
    requires forall k :: k in keys ==> k in edges
    ensures |EdgesAt(edges, keys)| == |keys|
  {
  }

  lemma TwoOnOneEdge(one: Record, two: Record)
    requires KeyOf(one) == KeyOf(two)
    ensures WithKey([one, two], KeyOf(one)) == [one, two]
    ensures Keys([one, two]) == {KeyOf(one)}
  {
    hide KeyOf;
    WithKeySnoc([], one, KeyOf(one));
    WithKeySnoc([one], two, KeyOf(one));
    assert [] + [one] == [one] && [one] + [two] == [one, two];
    assert one in [one, two];
  }

  lemma SourceIsNode(history: seq<Record>, r: Record)
    requires r in history
    ensures r.source in NodeTable(history).Keys
  {
  }

  /** A history on one edge: a source that is no endpoint of its first record is missed. */
  lemma MergedPairIsMissed(history: seq<Record>, k: string, two: Record)
    requires Keys(history) == {k} && two in history
    requires WithKey(history, k) != []
    requires two.source != WithKey(history, k)[0].source && two.source != WithKey(history, k)[0].destination
    ensures Endpoints(EdgesAt(EdgeTable(history), [k])) < NodeTable(history).Keys
  {
    hide EdgeTable, EdgesAt, WithKey, Endpoints, PlainNames, NodeTable, Keys;
    OnlyEdge(history, k);
    EndpointsAreNodes(history, [k]);
    SourceIsNode(history, two);
  }

  /** With a bar in a name two pairs of services can share an edge, and the dashboard then
      misses services that the store knows. */
  lemma BarsMergeEdges(one: Record, two: Record)
    requires one.source == "a|b" && one.destination == "c" && one.leg == "x"
    requires two.source == "a" && two.destination == "b|c" && two.leg == "x"
    ensures Enumerates([KeyOf(one)], Keys([one, two]))
    ensures Endpoints(EdgesAt(EdgeTable([one, two]), [KeyOf(one)])) < NodeTable([one, two]).Keys
  {
    assert KeyOf(one) == KeyOf(two) by {
      assert "a|b" + "|" + "c" + "|" + "x" == "a" + "|" + "b|c" + "|" + "x";
    }
    assert "a" != "a|b" && "a"[0] != "c"[0];
    TwoOnOneEdge(one, two);
    hide KeyOf, WithKey, EdgeTable, EdgesAt, NodeTable, Endpoints;
    assert two in [one, two];
    MergedPairIsMissed([one, two], KeyOf(one), two);
  }

  lemma OnlyEdge(history: seq<Record>, k: string)
    requires Keys(history) == {k}
    ensures WithKey(history, k) != []
    ensures Endpoints(EdgesAt(EdgeTable(history), [k])) == {WithKey(history, k)[0].source, WithKey(history, k)[0].destination}
  {
    hide WithKey, Count, PositiveLatencies, BytesIn, BytesOut;
    WithKeyOccupied(history, k);
    var e := EdgeTable(history)[k];
    assert [k][..0] == [];
    assert EdgesAt(EdgeTable(history), [k]) == [e];
    EndpointsSnoc([], e);
    assert [] + [e] == [e];
  }
}
