/** The agents' copy of the policy: crates/meshlite-tls/src/policy_cache.rs and the
    third evaluator in meshctl/cmd/types.go, related to the engine that prints the rules. */
module PolicyCaches {
  import opened Collections
  import opened PolicyEngine

  /** The contents of a PolicyBundle. */
  datatype Policy = Policy(rules: seq<AllowRule>, defaultAllow: bool, mtlsMode: string)

  /** The policy before the first bundle: allow everything. */
  const INITIAL: Policy := Policy([], true, "off")

  /** First match: the first rule for `from` decides, otherwise the default. */
  predicate Decide(rules: seq<AllowRule>, defaultAllow: bool, from: string, to: string) {
    if rules == [] then defaultAllow
    else if rules[0].from == from then to in rules[0].to
    else Decide(rules[1..], defaultAllow, from, to)
  }

  predicate Permits(p: Policy, from: string, to: string) {
    Decide(p.rules, p.defaultAllow, from, to)
  }

  /** Rule `i` is the one that decides for its source. */
  ghost predicate Decides(rules: seq<AllowRule>, i: int) {
    0 <= i < |rules| && forall j :: 0 <= j < i ==> rules[j].from != rules[i].from
  }

  /** First-match search says what its name says. */
  lemma {:induction false} DecideMeaning(rules: seq<AllowRule>, defaultAllow: bool, from: string, to: string)
    ensures Decide(rules, defaultAllow, from, to) <==>
            if HasRule(rules, from)
            then exists i :: Decides(rules, i) && rules[i].from == from && to in rules[i].to
            else defaultAllow
  {
    if rules == [] {
    } else if rules[0].from == from {
      assert Decides(rules, 0);
    } else {
      var rest := rules[1..];
      DecideMeaning(rest, defaultAllow, from, to);
      assert HasRule(rules, from) <==> HasRule(rest, from) by {
        assert forall r :: r in rules <==> r == rules[0] || r in rest;
      }
      forall i | Decides(rest, i) && rest[i].from == from ensures Decides(rules, i + 1) {
        assert forall j :: 0 < j < |rules| ==> rules[j] == rest[j - 1];
      }
      forall i | Decides(rules, i) && rules[i].from == from ensures i > 0 && Decides(rest, i - 1) && rest[i - 1] == rules[i] {
        assert forall j :: 0 <= j < |rest| ==> rest[j] == rules[j + 1];
      }
      if i :| Decides(rules, i) && rules[i].from == from && to in rules[i].to {
        assert Decides(rest, i - 1) && to in rest[i - 1].to;
      }
      if i :| Decides(rest, i) && rest[i].from == from && to in rest[i].to {
        assert Decides(rules, i + 1) && to in rules[i + 1].to;
      }
    }
  }

  /** Some rule lists `to` as a destination. */
  ghost predicate ListedDestination(rules: seq<AllowRule>, to: string) {
    exists r :: r in rules && to in r.to
  }

  class PolicyCache {
    var rules: seq<AllowRule>
    var defaultAllow: bool
    var mtlsMode: string

    constructor ()
      ensures Contents() == INITIAL && forall from, to :: Permits(Contents(), from, to)
    {
      rules, defaultAllow, mtlsMode := [], true, "off";
    }

    function Contents(): Policy
      reads this
    {
      Policy(rules, defaultAllow, mtlsMode)
    }

    /** update: replaces the policy by a pushed bundle. */
    method Update(rules: seq<AllowRule>, defaultAllow: bool, mtlsMode: string)
      modifies this
      ensures Contents() == Policy(rules, defaultAllow, mtlsMode)
    {
      this.rules := rules;
      this.defaultAllow := defaultAllow;
      this.mtlsMode := mtlsMode;
    }

    /** is_allowed: scans for the first rule of `from`. */
    method IsAllowed(from: string, to: string) returns (allowed: bool)
      ensures allowed == Permits(Contents(), from, to)
    {
      assert rules[0..] == rules;
      for i := 0 to |rules|
        invariant Decide(rules, defaultAllow, from, to) == Decide(rules[i..], defaultAllow, from, to)
      {
        if rules[i].from == from {
          return to in rules[i].to;
        }
        assert rules[i..][1..] == rules[i + 1..];
      }
      return defaultAllow;
    }

    /** is_allowed_destination: scans for any rule listing `to`. */
    method IsAllowedDestination(to: string) returns (allowed: bool)
      ensures allowed <==> ListedDestination(rules, to) || defaultAllow
    {
      for i := 0 to |rules|
        invariant forall j :: 0 <= j < i ==> to !in rules[j].to
      {
        if to in rules[i].to {
          return true;
        }
      }
      return defaultAllow;
    }
  }

  /** meshctl's isAllowed over a policy response. */
  method MeshctlIsAllowed(policy: Policy, from: string, to: string) returns (allowed: bool)
    ensures allowed == Permits(policy, from, to)
  {
    var rules := policy.rules;
    assert rules[0..] == rules;
    for i := 0 to |rules|
      invariant Permits(policy, from, to) == Decide(rules[i..], policy.defaultAllow, from, to)
    {
      assert rules[i..][1..] == rules[i + 1..];
      if rules[i].from != from {
        continue;
      }
      for j := 0 to |rules[i].to|
        invariant to !in rules[i].to[..j]
      {
        if rules[i].to[j] == to {
          return true;
        }
      }
      assert rules[i].to[..|rules[i].to|] == rules[i].to;
      return false;
    }
    return policy.defaultAllow;
  }

  /** On printed rules the answer depends on the table alone, not on the printing order. */
  lemma DecideOnSnapshot(table: AllowTable, rules: seq<AllowRule>, defaultAllow: bool, from: string, to: string)
    requires Snapshot(table, rules)
    ensures Decide(rules, defaultAllow, from, to) <==> if from in table then to in table[from] else defaultAllow
  {
    DecideMeaning(rules, defaultAllow, from, to);
    if from in table {
      var r :| r in rules && r.from == from;
      var i :| 0 <= i < |rules| && rules[i] == r;
      assert Decides(rules, i);
      forall j | Decides(rules, j) && rules[j].from == from ensures rules[j] == r {
        SnapshotRule(table, rules, r, rules[j]);
      }
    }
  }

  /** A source that has a rule, none of whose destinations is `to`. */
  ghost predicate SourceOmits(cfg: MeshConfig, from: string, to: string) {
    HasRule(cfg.allow, from) && !Lists(cfg.allow, from, to)
  }

  /** The three evaluators compared: any two printed orders agree, nothing is allowed
      that Evaluate denies, and Evaluate allows more exactly when the default is to allow
      and the source has a rule that omits the destination. */
  lemma EvaluatorAgreement(cfg: MeshConfig, rules: seq<AllowRule>, other: seq<AllowRule>, from: string, to: string)
    requires Snapshot(Compiled(cfg).allow, rules) && Snapshot(Compiled(cfg).allow, other)
    ensures Decide(rules, cfg.defaultAllow, from, to) == Decide(other, cfg.defaultAllow, from, to)
    ensures Decide(rules, cfg.defaultAllow, from, to) ==> Evaluate(Compiled(cfg), from, to) == Allow
    ensures (Decide(rules, cfg.defaultAllow, from, to) <==> Evaluate(Compiled(cfg), from, to) == Allow) <==>
            !(cfg.defaultAllow && SourceOmits(cfg, from, to))
  {
    var table := Compiled(cfg).allow;
    DecideOnSnapshot(table, rules, cfg.defaultAllow, from, to);
    DecideOnSnapshot(table, other, cfg.defaultAllow, from, to);
    EvaluateMeaning(cfg, from, to);
    assert from in table <==> HasRule(cfg.allow, from);
    if from in table {
      assert to in table[from] <==> Lists(cfg.allow, from, to);
    }
  }

  /** A name longer than every name of a finite set is not in it. */
  lemma FreshName(names: set<string>) returns (unused: string)
    ensures unused !in names
  {
    unused := "";
    var rest := names;
    while rest != {}
      invariant rest <= names
      invariant forall n :: n in names - rest ==> |n| < |unused|
      decreases rest
    {
      var n :| n in rest;
      unused := seq(|unused| + |n| + 1, _ => 'x');
      rest := rest - {n};
    }
    assert names - rest == names;
  }

  /** Whether some source is allowed to reach `to`. */
  ghost predicate ReachableBySomeone(rules: seq<AllowRule>, defaultAllow: bool, to: string) {
    exists from :: Decide(rules, defaultAllow, from, to)
  }

  /** Some rule that decides for its source lists `to`. */
  ghost predicate ListedByDecidingRule(rules: seq<AllowRule>, to: string) {
    exists i :: Decides(rules, i) && to in rules[i].to
  }

  /** For arbitrary rules, whoever may be reached passes the destination check, and the
      check is the projection of the pair check exactly when the default is to allow, or
      a destination that is listed is listed by a rule that decides for its source. */
  lemma DestinationProjection(rules: seq<AllowRule>, defaultAllow: bool, to: string)
    ensures ReachableBySomeone(rules, defaultAllow, to) ==> ListedDestination(rules, to) || defaultAllow
    ensures (ReachableBySomeone(rules, defaultAllow, to) <==> ListedDestination(rules, to) || defaultAllow) <==>
            defaultAllow || (ListedDestination(rules, to) ==> ListedByDecidingRule(rules, to))
  {
    forall from | Decide(rules, defaultAllow, from, to) ensures defaultAllow || ListedByDecidingRule(rules, to) {
      DecideMeaning(rules, defaultAllow, from, to);
    }
    if i :| Decides(rules, i) && to in rules[i].to {
      assert rules[i] in rules;
      DecideMeaning(rules, defaultAllow, rules[i].from, to);
    }
    if defaultAllow {
      var from := FreshName(Sources(rules));
      DecideMeaning(rules, defaultAllow, from, to);
      assert Decide(rules, defaultAllow, from, to);
    }
  }

  /** Printed rules have one rule per source, so for them the projection always holds. */
  lemma DestinationProjectionOnSnapshot(table: AllowTable, rules: seq<AllowRule>, defaultAllow: bool, to: string)
    requires Snapshot(table, rules)
    ensures ListedDestination(rules, to) || defaultAllow <==> ReachableBySomeone(rules, defaultAllow, to)
  {
    if r :| r in rules && to in r.to {
      var i :| 0 <= i < |rules| && rules[i] == r;
      assert Decides(rules, i);
    }
    DestinationProjection(rules, defaultAllow, to);
  }

  /** With a source listed twice the destination check can pass a destination nobody may reach. */
  lemma ShadowedDestination()
    ensures var rules := [AllowRule("a", []), AllowRule("a", ["b"])];
            ListedDestination(rules, "b") && !ReachableBySomeone(rules, false, "b")
  {
    var rules := [AllowRule("a", []), AllowRule("a", ["b"])];
    assert rules[1] in rules;
    forall from ensures !Decide(rules, false, from, "b") {
      DecideMeaning(rules, false, from, "b");
      assert !Decides(rules, 1) by { assert rules[0].from == rules[1].from; }
    }
  }
}
