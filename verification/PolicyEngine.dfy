/** The policy compiler of sigil/internal/policy/engine.go: a list of allow rules is
    merged into a nested table, queried, and printed back in map order. */
module PolicyEngine {
  import opened Collections

  datatype Decision = Deny | Allow

  datatype AllowRule = AllowRule(from: string, to: seq<string>)

  datatype MeshConfig = MeshConfig(mtlsMode: string, defaultAllow: bool, allow: seq<AllowRule>, clusterId: string)

  type AllowTable = map<string, map<string, bool>>

  datatype Engine = Engine(allow: AllowTable, defaultAllow: bool, mtlsMode: string, clusterId: string)

  /** Some rule names `from` as its source. */
  ghost predicate HasRule(rules: seq<AllowRule>, from: string) {
    exists r :: r in rules && r.from == from
  }

  /** Some rule allows `from` to reach `to`. */
  ghost predicate Lists(rules: seq<AllowRule>, from: string, to: string) {
    exists r :: r in rules && r.from == from && to in r.to
  }

  function Sources(rules: seq<AllowRule>): set<string> {
    set r | r in rules :: r.from
  }

  function Destinations(rules: seq<AllowRule>, from: string): set<string> {
    set r, t | r in rules && r.from == from && t in r.to :: t
  }

  function Row(destinations: set<string>): map<string, bool> {
    map t | t in destinations :: true
  }

  /** The table a list of rules denotes, whatever the order and grouping of the rules. */
  function Merged(rules: seq<AllowRule>): AllowTable {
    map f | f in Sources(rules) :: Row(Destinations(rules, f))
  }

  /** The engine a configuration denotes. */
  function Compiled(cfg: MeshConfig): Engine {
    Engine(Merged(cfg.allow), cfg.defaultAllow, if cfg.mtlsMode == "" then "off" else cfg.mtlsMode, cfg.clusterId)
  }

  function Elements(names: seq<string>): set<string> {
    set t | t in names
  }

  /** The table after one more rule. */
  lemma MergedSnoc(rules: seq<AllowRule>, r: AllowRule)
    ensures Merged(rules + [r]) == Merged(rules)[r.from := Row(Destinations(rules, r.from) + Elements(r.to))]
  {
    var all := rules + [r];
    assert r in all && forall q :: q in all <==> q in rules || q == r;
    assert Sources(all) == Sources(rules) + {r.from};
    forall f, t | t in Destinations(rules, f) ensures t in Destinations(all, f) {
      var q :| q in rules && q.from == f && t in q.to;
      assert q in all;
    }
    assert Destinations(all, r.from) == Destinations(rules, r.from) + Elements(r.to);
    forall f | f != r.from ensures Destinations(all, f) == Destinations(rules, f) {
    }
  }

  /** The inner loop of newEngine: marks each destination of one rule. */
  method MarkDestinations(row: map<string, bool>, to: seq<string>) returns (marked: map<string, bool>)
    requires row == Row(row.Keys)
    ensures marked == Row(row.Keys + Elements(to))
  {
    marked := row;
    for j := 0 to |to|
      invariant marked == Row(row.Keys + Elements(to[..j]))
    {
      assert Elements(to[..j + 1]) == Elements(to[..j]) + {to[j]};
      marked := marked[to[j] := true];
    }
    assert to[..|to|] == to;
  }

  /** newEngine: merges the rules one at a time. */
  method NewEngine(cfg: MeshConfig) returns (e: Engine)
    ensures e == Compiled(cfg)
    ensures e.defaultAllow == cfg.defaultAllow && e.clusterId == cfg.clusterId
    ensures e.mtlsMode == if cfg.mtlsMode == "" then "off" else cfg.mtlsMode
  {
    var allow: AllowTable := map[];
    for i := 0 to |cfg.allow|
      invariant allow == Merged(cfg.allow[..i])
    {
      var rule := cfg.allow[i];
      MergedSnoc(cfg.allow[..i], rule);
      assert cfg.allow[..i + 1] == cfg.allow[..i] + [rule];
      if rule.from !in allow {
        assert Destinations(cfg.allow[..i], rule.from) == {};
        allow := allow[rule.from := map[]];
      }
      assert allow[rule.from].Keys == Destinations(cfg.allow[..i], rule.from);
      var row := MarkDestinations(allow[rule.from], rule.to);
      allow := allow[rule.from := row];
    }
    assert cfg.allow[..|cfg.allow|] == cfg.allow;
    var mtls := cfg.mtlsMode;
    if mtls == "" {
      mtls := "off";
    }
    e := Engine(allow, cfg.defaultAllow, mtls, cfg.clusterId);
  }

  /** Evaluate: an explicit entry, then the default. */
  function Evaluate(e: Engine, from: string, to: string): Decision {
    if from in e.allow && to in e.allow[from] && e.allow[from][to] then Allow
    else if e.defaultAllow then Allow
    else Deny
  }

  /** The compiled engine allows exactly what some rule lists, or everything by default. */
  lemma EvaluateMeaning(cfg: MeshConfig, from: string, to: string)
    ensures Evaluate(Compiled(cfg), from, to) == Allow <==> Lists(cfg.allow, from, to) || cfg.defaultAllow
  {
    var table := Merged(cfg.allow);
    if Lists(cfg.allow, from, to) {
      var r :| r in cfg.allow && r.from == from && to in r.to;
      assert to in Destinations(cfg.allow, from);
    } else {
      assert to !in Destinations(cfg.allow, from);
    }
  }

  /** What Rules may return: one rule for each source of the table, listing its
      destinations, everything in an arbitrary order. */
  ghost predicate Snapshot(table: AllowTable, rules: seq<AllowRule>) {
    && (forall i, j :: 0 <= i < j < |rules| ==> rules[i].from != rules[j].from)
    && (forall r :: r in rules ==> r.from in table && Enumerates(r.to, table[r.from].Keys))
    && (forall f :: f in table ==> HasRule(rules, f))
  }

  /** Rules: prints the table back, iterating both maps in whatever order they give. */
  method Rules(e: Engine) returns (rules: seq<AllowRule>)
    ensures Snapshot(e.allow, rules)
  {
    var sources := Enumerate(e.allow.Keys);
    rules := [];
    for i := 0 to |sources|
      invariant |rules| == i
      invariant forall k :: 0 <= k < i ==> rules[k].from == sources[k]
      invariant forall k :: 0 <= k < i ==> Enumerates(rules[k].to, e.allow[sources[k]].Keys)
    {
      assert sources[i] in e.allow.Keys;
      var to := Enumerate(e.allow[sources[i]].Keys);
      rules := rules + [AllowRule(sources[i], to)];
    }
    forall r | r in rules ensures r.from in e.allow && Enumerates(r.to, e.allow[r.from].Keys) {
      var k :| 0 <= k < |rules| && rules[k] == r;
      assert sources[k] in e.allow.Keys;
    }
    forall f | f in e.allow ensures HasRule(rules, f) {
      assert f in sources;
      var k :| 0 <= k < |sources| && sources[k] == f;
      assert rules[k] in rules && rules[k].from == f;
    }
  }

  /** Rules occurring at two places of a snapshot are the same rule when they share a source. */
  lemma SnapshotRule(table: AllowTable, rules: seq<AllowRule>, r: AllowRule, q: AllowRule)
    requires Snapshot(table, rules) && r in rules && q in rules && r.from == q.from
    ensures r == q
  {
    var i :| 0 <= i < |rules| && rules[i] == r;
    var j :| 0 <= j < |rules| && rules[j] == q;
  }

  /** Compiling a printed policy gives back the engine it was printed from, in every
      order Rules may choose. */
  lemma RulesRoundTrip(cfg: MeshConfig, rules: seq<AllowRule>)
    requires Snapshot(Compiled(cfg).allow, rules)
    ensures Compiled(MeshConfig(Compiled(cfg).mtlsMode, cfg.defaultAllow, rules, cfg.clusterId)) == Compiled(cfg)
  {
    var table := Merged(cfg.allow);
    assert Sources(rules) == table.Keys by {
      forall f | f in table ensures f in Sources(rules) {
        var r :| r in rules && r.from == f;
      }
    }
    forall f | f in table ensures Row(Destinations(rules, f)) == table[f] {
      var r :| r in rules && r.from == f;
      forall t | t in table[f].Keys ensures t in Destinations(rules, f) {
        assert t in r.to;
      }
      forall t | t in Destinations(rules, f) ensures t in table[f].Keys {
        var q :| q in rules && q.from == f && t in q.to;
        SnapshotRule(table, rules, r, q);
      }
      assert Destinations(rules, f) == table[f].Keys == Destinations(cfg.allow, f);
    }
  }
}
