/** The rotation loop against the clock: certificates are issued, revoked and expire while
    scans run row by row (sigil/cmd/server/main.go, sigil/internal/ca/ca.go). */
module RotationClock {
  import opened Collections
  import opened CertTables

  /** A scan works through the rows it listed when it started. */
  datatype Scan = Scan(start: int, todo: set<Row>)

  datatype State = State(now: int, rows: set<Row>, lastScan: int, scan: Option<Scan>)

  /** The certificate lifetime, and the longest time from the start of one scan to the end
      of the next. */
  datatype Setting = Setting(ttl: int, period: int)

  /** Check tests a listed row and, if it is due, reissues it; a row due when tested is still
      due when its replacement is issued, so one reading of the clock stands for both. */
  datatype Step =
    | Tick(to: int)
    | Issue(serial: string, id: Identity, pem: string)
    | Revoke(serviceId: string)
    | ScanStart
    | Check(row: Row, serial: string, pem: string)
    | ScanEnd

  ghost predicate Enabled(c: Setting, s: State, step: Step) {
    match step
    case Tick(to) => s.now <= to <= s.lastScan + c.period
    case Issue(_, _, _) => true
    case Revoke(_) => true
    case ScanStart => s.scan.None?
    case Check(row, _, _) => s.scan.Some? && row in s.scan.value.todo
    case ScanEnd => s.scan.Some? && s.scan.value.todo == {}
  }

  ghost function Do(c: Setting, s: State, step: Step): State
    requires Enabled(c, s, step)
  {
    match step
    case Tick(to) => s.(now := to)
    case Issue(serial, id, pem) => s.(rows := Replaced(s.rows, Issued(s.now, c.ttl, serial, id, pem)))
    case Revoke(serviceId) => s.(rows := set r | r in s.rows && r.serviceId != serviceId)
    case ScanStart => s.(scan := Some(Scan(s.now, s.rows)))
    case Check(row, serial, pem) =>
      var checked := s.(scan := Some(s.scan.value.(todo := s.scan.value.todo - {row})));
      if s.now < row.rotateAt * SECOND then checked
      else checked.(rows := Replaced(s.rows, Issued(s.now, c.ttl, serial, IdentityOf(row), pem)))
    case ScanEnd => s.(scan := None, lastScan := s.scan.value.start)
  }

  ghost function Run(c: Setting, s: State, steps: seq<Step>): Option<State>
    decreases |steps|
  {
    if steps == [] then Some(s)
    else if Enabled(c, s, steps[0]) then Run(c, Do(c, s, steps[0]), steps[1..])
    else None
  }

  /** The server opens its table at instant `t`, empty or kept from an earlier run. */
  function Boot(t: int, rows: set<Row>): State {
    State(t, rows, t, None)
  }

  /** No stored certificate has expired. */
  ghost predicate AllFresh(s: State) {
    forall r :: r in s.rows ==> s.now < r.expiresAt * SECOND
  }

  /** No certificate expires in the table in any run from the opened table. */
  ghost predicate AlwaysFresh(c: Setting, t: nat, rows: set<Row>) {
    forall steps :: Run(c, Boot(t, rows), steps).Some? ==> AllFresh(Run(c, Boot(t, rows), steps).value)
  }

  /** A row found at `t` outlives the first scan, and outlives its rotation by a period. */
  predicate LastsLong(c: Setting, t: int, r: Row) {
    t + c.period < r.expiresAt * SECOND && r.rotateAt * SECOND + c.period <= r.expiresAt * SECOND
  }

  ghost predicate AllLastLong(c: Setting, t: int, rows: set<Row>) {
    forall r :: r in rows ==> LastsLong(c, t, r)
  }

  /** What is left of the lifetime once rotation is due, in whole seconds. */
  function Margin(ttl: int): int {
    Unix(ttl - 4 * ttl / 5) * SECOND
  }

  // ---- Enough margin keeps certificates fresh ----

  ghost predicate RowInv(c: Setting, s: State, r: Row) {
    && LastsLong(c, s.lastScan, r)
    && (s.scan.Some? ==> s.scan.value.start < r.rotateAt * SECOND || r in s.scan.value.todo)
  }

  ghost predicate Inv(c: Setting, s: State) {
    && s.lastScan <= s.now <= s.lastScan + c.period
    && (s.scan.Some? ==> s.lastScan <= s.scan.value.start <= s.now)
    && Unique(s.rows)
    && forall r :: r in s.rows ==> RowInv(c, s, r)
  }

  /** Rounding both times down costs less than a second of the margin. */
  lemma MarginOfIssued(c: Setting, now: int)
    requires 0 < c.period <= Margin(c.ttl)
    ensures now < Unix(now + 4 * c.ttl / 5) * SECOND
    ensures Unix(now + 4 * c.ttl / 5) * SECOND + c.period <= Unix(now + c.ttl) * SECOND
  {
    var rotate := now + 4 * c.ttl / 5;
    var left := c.ttl - 4 * c.ttl / 5;
    assert now + c.ttl >= Unix(rotate) * SECOND + Unix(left) * SECOND;
    assert Unix(left) >= 1;
  }

  lemma StepKeepsInv(c: Setting, s: State, step: Step)
    requires 0 < c.period <= Margin(c.ttl) && Inv(c, s) && Enabled(c, s, step)
    ensures Inv(c, Do(c, s, step))
  {
    MarginOfIssued(c, s.now);
    var s' := Do(c, s, step);
    match step {
      case Issue(serial, id, pem) =>
        ReplaceKeepsUnique(s.rows, Issued(s.now, c.ttl, serial, id, pem));
      case Check(row, serial, pem) =>
        ReplaceKeepsUnique(s.rows, Issued(s.now, c.ttl, serial, IdentityOf(row), pem));
      case _ =>
    }
    forall r | r in s'.rows ensures RowInv(c, s', r) {
      if r in s.rows {
        assert RowInv(c, s, r);
      }
    }
  }

  lemma {:induction false} RunKeepsInv(c: Setting, s: State, steps: seq<Step>)
    requires 0 < c.period <= Margin(c.ttl) && Inv(c, s) && Run(c, s, steps).Some?
    ensures Inv(c, Run(c, s, steps).value)
    decreases |steps|
  {
    if steps != [] {
      StepKeepsInv(c, s, steps[0]);
      RunKeepsInv(c, Do(c, s, steps[0]), steps[1..]);
    }
  }

  // ---- Too little margin lets one expire ----

  lemma {:induction false} RunConcat(c: Setting, s: State, a: seq<Step>, b: seq<Step>)
    requires Run(c, s, a).Some?
    ensures Run(c, s, a + b) == Run(c, Run(c, s, a).value, b)
    decreases |a|
  {
    if a == [] {
      assert a + b == b;
    } else {
      assert (a + b)[1..] == a[1..] + b;
      RunConcat(c, Do(c, s, a[0]), a[1..], b);
    }
  }

  /** Scans at most `period` apart that all find the only row not yet due. */
  lemma {:induction false} ScansUntil(c: Setting, row: Row, start: int, target: int) returns (steps: seq<Step>)
    requires c.period > 0 && start <= target < row.rotateAt * SECOND
    ensures Run(c, State(start, {row}, start, None), steps) == Some(State(target, {row}, target, None))
    decreases target - start
  {
    var s := State(start, {row}, start, None);
    if start == target {
      return [];
    }
    var next := if start + c.period < target then start + c.period else target;
    var scan := [Tick(next), ScanStart, Check(row, "", ""), ScanEnd];
    var s1 := Do(c, s, Tick(next));
    var s2 := Do(c, s1, ScanStart);
    var s3 := Do(c, s2, Check(row, "", ""));
    assert s3.scan.value.todo == {};
    var s4 := Do(c, s3, ScanEnd);
    assert s1.scan.None? && row in s2.scan.value.todo && s1.now < row.rotateAt * SECOND;
    assert scan[1..][1..] == scan[2..] && scan[2..][1..] == scan[3..] && scan[3..][1..] == [];
    assert Run(c, s4, []) == Some(s4);
    assert Run(c, s3, scan[3..]) == Some(s4);
    assert Run(c, s2, scan[2..]) == Some(s4);
    assert Run(c, s1, scan[1..]) == Some(s4);
    assert Run(c, s, scan) == Some(s4);
    var rest := ScansUntil(c, row, next, target);
    RunConcat(c, s, scan, rest);
    return scan + rest;
  }

  /** Revoking the other services leaves one row. */
  lemma {:induction false} RevokeOthers(c: Setting, t: int, rows: set<Row>, row: Row) returns (steps: seq<Step>)
    requires Unique(rows) && row in rows
    ensures Run(c, Boot(t, rows), steps) == Some(Boot(t, {row}))
    decreases |rows|
  {
    if q :| q in rows && q != row {
      var rest := set r | r in rows && r.serviceId != q.serviceId;
      assert rest == rows - {q};
      var more := RevokeOthers(c, t, rest, row);
      steps := [Revoke(q.serviceId)] + more;
      assert steps[1..] == more;
    } else {
      assert rows == {row};
      steps := [];
    }
  }

  /** A row that does not last long enough is seen expired in some run: late in the first
      scan, or in the scan after one that begins just before it is due. */
  lemma ExpiresLate(c: Setting, t: int, row: Row) returns (steps: seq<Step>)
    requires c.period > 0 && !LastsLong(c, t, row)
    ensures Run(c, Boot(t, {row}), steps).Some? && !AllFresh(Run(c, Boot(t, {row}), steps).value)
  {
    var last := if t + c.period >= row.expiresAt * SECOND then t else row.rotateAt * SECOND - 1;
    var scans := [];
    if last != t {
      scans := ScansUntil(c, row, t, last);
    }
    var end := Boot(last, {row});
    var late := end.(now := last + c.period);
    assert Run(c, end, [Tick(last + c.period)]) == Some(late) by {
      assert [Tick(last + c.period)][1..] == [];
    }
    RunConcat(c, Boot(t, {row}), scans, [Tick(last + c.period)]);
    assert row in late.rows;
    return scans + [Tick(last + c.period)];
  }

  /** A run from an empty table in which a certificate is seen expired: it is issued so that
      its rotation falls on a whole second. */
  lemma ExpiredRun(c: Setting) returns (t: nat, steps: seq<Step>)
    requires c.ttl > 0 && c.period > Margin(c.ttl) && c.period > 0
    ensures Run(c, Boot(t, {}), steps).Some? && !AllFresh(Run(c, Boot(t, {}), steps).value)
  {
    t := WholeSecondIssue(c.ttl);
    var issue := Issue("1", Identity("svc", "", ""), "");
    var row := Issued(t, c.ttl, "1", Identity("svc", "", ""), "");
    assert Do(c, Boot(t, {}), issue) == Boot(t, {row}) by {
      assert Replaced({}, row) == {row};
    }
    var more := ExpiresLate(c, t, row);
    assert ([issue] + more)[1..] == more;
    return t, [issue] + more;
  }

  /** An instant from which the rotation point is a whole second away. */
  lemma WholeSecondIssue(ttl: int) returns (t: nat)
    requires ttl > 0
    ensures Unix(t + ttl) * SECOND == Unix(t + 4 * ttl / 5) * SECOND + Margin(ttl)
  {
    var wait := 4 * ttl / 5;
    t := wait * SECOND - wait;
    UnixShift(wait, ttl - wait);
    UnixShift(wait, 0);
    hide Unix;
    assert t + ttl == wait * SECOND + (ttl - wait) && t + wait == wait * SECOND + 0;
  }

  lemma UnixShift(seconds: int, rest: int)
    ensures Unix(seconds * SECOND + rest) == seconds + Unix(rest) && Unix(0) == 0
  {
  }

  // ---- The exact conditions ----

  /** Tables whose rows last long enough stay fresh in every run, whatever is issued and
      revoked in between, exactly when the period is within the whole seconds of margin. */
  lemma RotationKeepsFresh(c: Setting)
    requires c.ttl > 0 && c.period > 0
    ensures (forall t: nat, rows :: Unique(rows) && AllLastLong(c, t, rows) ==> AlwaysFresh(c, t, rows)) <==>
            c.period <= Margin(c.ttl)
  {
    if c.period <= Margin(c.ttl) {
      forall t: nat, rows | Unique(rows) && AllLastLong(c, t, rows) ensures AlwaysFresh(c, t, rows) {
        StaysFresh(c, t, rows);
      }
    } else {
      var t, steps := ExpiredRun(c);
      assert Unique({}) && AllLastLong(c, t, {}) && !AlwaysFresh(c, t, {});
    }
  }

  lemma StaysFresh(c: Setting, t: nat, rows: set<Row>)
    requires 0 < c.period <= Margin(c.ttl) && Unique(rows) && AllLastLong(c, t, rows)
    ensures AlwaysFresh(c, t, rows)
  {
    forall steps | Run(c, Boot(t, rows), steps).Some? ensures AllFresh(Run(c, Boot(t, rows), steps).value) {
      assert forall r :: r in rows ==> RowInv(c, Boot(t, rows), r);
      RunKeepsInv(c, Boot(t, rows), steps);
      InvIsFresh(c, Run(c, Boot(t, rows), steps).value);
    }
  }

  lemma InvIsFresh(c: Setting, s: State)
    requires Inv(c, s)
    ensures AllFresh(s)
  {
    forall r | r in s.rows ensures s.now < r.expiresAt * SECOND {
      assert RowInv(c, s, r);
    }
  }

  /** With enough margin, a table opened at `t` stays fresh in every run exactly when each
      row found in it outlives the first scan and its own rotation by a period. */
  lemma OpenedTable(c: Setting, t: nat, rows: set<Row>)
    requires 0 < c.period <= Margin(c.ttl) && Unique(rows)
    ensures AlwaysFresh(c, t, rows) <==> AllLastLong(c, t, rows)
  {
    if AllLastLong(c, t, rows) {
      StaysFresh(c, t, rows);
    } else {
      var row :| row in rows && !LastsLong(c, t, row);
      var alone := RevokeOthers(c, t, rows, row);
      var late := ExpiresLate(c, t, row);
      RunConcat(c, Boot(t, rows), alone, late);
    }
  }

  /** A period one second short of a fifth of the lifetime is enough for an empty table. */
  lemma FifthOfLifetime(c: Setting, t: nat)
    requires c.ttl > 0 && c.period > 0 && 5 * (c.period + SECOND) <= c.ttl
    ensures AlwaysFresh(c, t, {})
  {
    StaysFresh(c, t, {});
  }
}
