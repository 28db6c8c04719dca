/** The certificate table of sigil/internal/ca/ca.go and the rotation loop of
    sigil/cmd/server/main.go. Times are nanoseconds since the epoch; the table keeps whole
    seconds. */
module CertTables {
  import opened Collections

  const SECOND: int := 1_000_000_000
  const DEFAULT_TTL: int := 24 * 3600 * SECOND

  /** A row of certs; the serial and the service are both unique. */
  datatype Row = Row(serial: string, serviceId: string, clusterId: string, ns: string, certPem: string,
                     expiresAt: int, rotateAt: int)

  datatype Identity = Identity(serviceId: string, clusterId: string, ns: string)

  /** time.Unix: whole seconds, rounded down. */
  function Unix(t: int): int {
    t / SECOND
  }

  /** The row Issue stores at `now`: it expires after the lifetime and is due for rotation
      after four fifths of it. */
  function Issued(now: int, ttl: int, serial: string, id: Identity, pem: string): Row {
    Row(serial, id.serviceId, id.clusterId, id.ns, pem, Unix(now + ttl), Unix(now + 4 * ttl / 5))
  }

  function IdentityOf(r: Row): Identity {
    Identity(r.serviceId, r.clusterId, r.ns)
  }

  ghost function Identities(rows: set<Row>): set<Identity> {
    set r | r in rows :: IdentityOf(r)
  }

  predicate Clash(r: Row, q: Row) {
    r.serial == q.serial || r.serviceId == q.serviceId
  }

  /** Both uniqueness constraints. */
  ghost predicate Unique(rows: set<Row>) {
    forall r, q :: r in rows && q in rows && Clash(r, q) ==> r == q
  }

  function Clashing(rows: set<Row>, row: Row): set<Row> {
    set r | r in rows && Clash(r, row)
  }

  /** INSERT OR REPLACE: deletes whatever violates a constraint, then inserts. */
  function Replaced(rows: set<Row>, row: Row): set<Row> {
    rows - Clashing(rows, row) + {row}
  }

  /** A replace keeps both constraints, deletes at most two rows, and deletes rows of other
      services exactly when one of them has the new serial. */
  lemma ReplaceKeepsUnique(rows: set<Row>, row: Row)
    requires Unique(rows)
    ensures Unique(Replaced(rows, row))
    ensures forall r :: r in Replaced(rows, row) <==>
              r == row || (r in rows && r.serial != row.serial && r.serviceId != row.serviceId)
    ensures |Clashing(rows, row)| <= 2
    ensures (forall r :: r in rows && r.serviceId != row.serviceId ==> r in Replaced(rows, row)) <==>
            (forall r :: r in rows && r.serial == row.serial ==> r.serviceId == row.serviceId)
  {
    FewClashes(rows, row);
  }

  lemma FewClashes(rows: set<Row>, row: Row)
    requires Unique(rows)
    ensures |Clashing(rows, row)| <= 2
  {
    var bySerial, byService := WithSerial(rows, row.serial), WithService(rows, row.serviceId);
    assert Clashing(rows, row) == bySerial + byService;
    OneWithSerial(rows, row.serial);
    OneWithService(rows, row.serviceId);
    hide WithSerial, WithService, Unique, Clashing;
    assert |bySerial + byService| <= |bySerial| + |byService|;
  }

  function WithSerial(rows: set<Row>, serial: string): set<Row> {
    set r | r in rows && r.serial == serial
  }

  function WithService(rows: set<Row>, serviceId: string): set<Row> {
    set r | r in rows && r.serviceId == serviceId
  }

  lemma OneWithSerial(rows: set<Row>, serial: string)
    requires Unique(rows)
    ensures |WithSerial(rows, serial)| <= 1
  {
    if r :| r in WithSerial(rows, serial) {
      forall q | q in WithSerial(rows, serial) ensures q == r {
        assert Clash(r, q);
      }
      assert WithSerial(rows, serial) == {r};
    }
  }

  lemma OneWithService(rows: set<Row>, serviceId: string)
    requires Unique(rows)
    ensures |WithService(rows, serviceId)| <= 1
  {
    if r :| r in WithService(rows, serviceId) {
      forall q | q in WithService(rows, serviceId) ensures q == r {
        assert Clash(r, q);
      }
      assert WithService(rows, serviceId) == {r};
    }
  }

  /** Reissuing a stored service under an unused serial keeps the set of identities. */
  lemma ReissueKeepsIdentities(rows: set<Row>, stored: Row, row: Row)
    requires Unique(rows) && stored in rows && IdentityOf(row) == IdentityOf(stored)
    requires forall r :: r in rows ==> r.serial != row.serial
    ensures Identities(Replaced(rows, row)) == Identities(rows)
  {
    var after := Replaced(rows, row);
    forall r | r in rows ensures IdentityOf(r) in Identities(after) {
      if r.serviceId == row.serviceId {
        assert row in after;
      } else {
        assert r in after;
      }
    }
    forall r | r in after ensures IdentityOf(r) in Identities(rows) {
      if r == row {
        assert stored in rows;
      }
    }
  }

  class CertAuthority {
    var rows: set<Row>
    const leafTtl: int

    /** New opens a table that may hold the rows of an earlier run. */
    constructor (stored: set<Row>, leafTtl: int)
      ensures rows == stored && this.leafTtl == if leafTtl <= 0 then 86_400 * 1_000_000_000 else leafTtl
    {
      rows := stored;
      this.leafTtl := if leafTtl <= 0 then DEFAULT_TTL else leafTtl;
    }

    method PersistCert(row: Row)
      requires Unique(rows)
      modifies this
      ensures Unique(rows) && rows == Replaced(old(rows), row)
    {
      ReplaceKeepsUnique(rows, row);
      rows := rows - set r | r in rows && (r.serial == row.serial || r.serviceId == row.serviceId);
      rows := rows + {row};
    }

    /** Issue at time `now`, with the serial and certificate the library produced. */
    method Issue(now: int, serial: string, id: Identity, pem: string)
      requires Unique(rows)
      modifies this
      ensures Unique(rows) && rows == Replaced(old(rows), Issued(now, leafTtl, serial, id, pem))
      ensures Row(serial, id.serviceId, id.clusterId, id.ns, pem, (now + leafTtl) / SECOND,
                  (now + 4 * leafTtl / 5) / SECOND) in rows
    {
      var expiry := now + leafTtl;
      var rotateAtTime := now + 4 * leafTtl / 5;
      PersistCert(Row(serial, id.serviceId, id.clusterId, id.ns, pem, Unix(expiry), Unix(rotateAtTime)));
    }

    method Revoke(serviceId: string)
      requires Unique(rows)
      modifies this
      ensures Unique(rows) && rows == set r | r in old(rows) && r.serviceId != serviceId
    {
      rows := rows - set r | r in rows && r.serviceId == serviceId;
    }

    method ListCerts() returns (certs: seq<Row>)
      ensures Enumerates(certs, rows)
    {
      certs := Enumerate(rows);
    }

    /** One pass of the rotation loop, begun at `start` and with nothing interleaved: the
        `i`-th listed row is checked at `clock[i]` and, if due, reissued under `serials[i]`.
        The listed rows are those of the table, in the order of `certs`. */
    method RotationScan(start: int, clock: seq<int>, serials: seq<string>, pems: seq<string>)
      returns (ghost certs: seq<Row>)
      requires Unique(rows) && |clock| == |serials| == |pems| == |rows|
      requires forall i, j :: 0 <= i < j < |serials| ==> serials[i] != serials[j]
      requires forall i, r :: 0 <= i < |serials| && r in rows ==> serials[i] != r.serial
      requires forall i :: 0 <= i < |clock| ==> start <= clock[i]
      modifies this
      ensures Unique(rows) && Identities(rows) == Identities(old(rows))
      ensures Enumerates(certs, old(rows)) && |certs| == |clock|
      ensures ScannedTo(rows, certs, clock, serials, pems, leafTtl, |certs|)
      ensures forall r :: r in old(rows) && (forall i :: 0 <= i < |clock| ==> clock[i] < r.rotateAt * SECOND) ==> r in rows
      ensures 4 * leafTtl / 5 >= SECOND ==> forall r :: r in rows ==> r.rotateAt * SECOND > start
    {
      ghost var before := rows;
      var listed := ListCerts();
      certs := listed;
      EnumerationSize(certs, rows);
      NothingScanned(rows, certs, clock, serials, pems, leafTtl);
      for i := 0 to |listed|
        invariant Unique(rows) && Identities(rows) == Identities(before)
        invariant ScannedTo(rows, certs, clock, serials, pems, leafTtl, i)
      {
        var c := listed[i];
        ghost var held := rows;
        hide ScannedTo, Issued, Identities, Replaced, Unique;
        NextToCheck(held, before, certs, clock, serials, pems, leafTtl, i);
        if clock[i] >= c.rotateAt * SECOND {
          Issue(clock[i], serials[i], Identity(c.serviceId, c.clusterId, c.ns), pems[i]);
          ghost var row := Issued(clock[i], leafTtl, serials[i], IdentityOf(c), pems[i]);
          IssuedIdentity(clock[i], leafTtl, serials[i], IdentityOf(c), pems[i]);
          ReissueKeepsIdentities(held, c, row);
          ReplacedListed(held, c, row);
        }
        NextScanned(held, before, certs, clock, serials, pems, leafTtl, i, rows);
      }
      NotDueStays(before, rows, certs, clock, serials, pems, leafTtl);
      if 4 * leafTtl / 5 >= SECOND {
        forall r | r in rows ensures r.rotateAt * SECOND > start {
          LaterThanStart(r, certs, clock, serials, pems, leafTtl, start);
        }
      }
    }
  }

  lemma NothingScanned(rows: set<Row>, certs: seq<Row>, clock: seq<int>, serials: seq<string>, pems: seq<string>, ttl: int)
    requires |certs| == |clock| == |serials| == |pems| && Enumerates(certs, rows)
    ensures ScannedTo(rows, certs, clock, serials, pems, ttl, 0)
  {
  }

  lemma IssuedIdentity(now: int, ttl: int, serial: string, id: Identity, pem: string)
    ensures var row := Issued(now, ttl, serial, id, pem);
            IdentityOf(row) == id && row.serial == serial && row.serviceId == id.serviceId
  {
  }

  /** The next listed row is still stored, and its new serial still unused. */
  lemma NextToCheck(rows: set<Row>, before: set<Row>, certs: seq<Row>, clock: seq<int>, serials: seq<string>,
                    pems: seq<string>, ttl: int, i: nat)
    requires |certs| == |clock| == |serials| == |pems| && i < |certs| && Enumerates(certs, before)
    requires forall k, r :: 0 <= k < |serials| && r in before ==> serials[k] != r.serial
    requires forall k, j :: 0 <= k < j < |serials| ==> serials[k] != serials[j]
    requires ScannedTo(rows, certs, clock, serials, pems, ttl, i)
    ensures certs[i] in rows && forall r :: r in rows ==> r.serial != serials[i]
  {
  }

  lemma NotDueStays(before: set<Row>, rows: set<Row>, certs: seq<Row>, clock: seq<int>, serials: seq<string>,
                    pems: seq<string>, ttl: int)
    requires |certs| == |clock| == |serials| == |pems| && Enumerates(certs, before)
    requires ScannedTo(rows, certs, clock, serials, pems, ttl, |certs|)
    ensures forall r :: r in before && (forall i :: 0 <= i < |clock| ==> clock[i] < r.rotateAt * SECOND) ==> r in rows
  {
  }

  /** The row was listed and not due, or was issued for the identity of a listed row that was
      due, or is still to be checked. */
  ghost predicate Accounted(r: Row, certs: seq<Row>, clock: seq<int>, serials: seq<string>, pems: seq<string>, ttl: int,
                            checked: nat)
    requires |certs| == |clock| == |serials| == |pems|
  {
    exists i :: 0 <= i < |certs| &&
      if i < checked && clock[i] >= certs[i].rotateAt * SECOND
      then r == Issued(clock[i], ttl, serials[i], IdentityOf(certs[i]), pems[i])
      else r == certs[i]
  }

  /** The table after `checked` rows of a scan. */
  ghost predicate ScannedTo(rows: set<Row>, certs: seq<Row>, clock: seq<int>, serials: seq<string>, pems: seq<string>,
                            ttl: int, checked: nat)
    requires |certs| == |clock| == |serials| == |pems|
  {
    && (forall r :: r in rows ==> Accounted(r, certs, clock, serials, pems, ttl, checked))
    && (forall i :: 0 <= i < |certs| && (i >= checked || clock[i] < certs[i].rotateAt * SECOND) ==> certs[i] in rows)
    && (forall i :: 0 <= i < |certs| && i < checked && clock[i] >= certs[i].rotateAt * SECOND ==>
          certs[i] !in rows && Issued(clock[i], ttl, serials[i], IdentityOf(certs[i]), pems[i]) in rows)
  }

  /** Replacing a stored row of the same service under an unused serial exchanges the two. */
  lemma ReplacedListed(rows: set<Row>, c: Row, row: Row)
    requires Unique(rows) && c in rows && row.serviceId == c.serviceId && forall r :: r in rows ==> r.serial != row.serial
    ensures Replaced(rows, row) == rows - {c} + {row}
  {
    forall r | r in rows && Clash(r, row) ensures r == c {
      assert Clash(r, c);
    }
  }

  lemma NextScanned(held: set<Row>, before: set<Row>, certs: seq<Row>, clock: seq<int>, serials: seq<string>,
                    pems: seq<string>, ttl: int, i: nat, rows: set<Row>)
    requires |certs| == |clock| == |serials| == |pems| && i < |certs|
    requires Unique(before) && Enumerates(certs, before)
    requires forall k, r :: 0 <= k < |serials| && r in before ==> serials[k] != r.serial
    requires forall k, j :: 0 <= k < j < |serials| ==> serials[k] != serials[j]
    requires ScannedTo(held, certs, clock, serials, pems, ttl, i)
    requires rows == if clock[i] >= certs[i].rotateAt * SECOND
                     then held - {certs[i]} + {Issued(clock[i], ttl, serials[i], IdentityOf(certs[i]), pems[i])}
                     else held
    ensures ScannedTo(rows, certs, clock, serials, pems, ttl, i + 1)
  {
  }

  lemma LaterThanStart(r: Row, certs: seq<Row>, clock: seq<int>, serials: seq<string>, pems: seq<string>, ttl: int,
                       start: int)
    requires |certs| == |clock| == |serials| == |pems| && 4 * ttl / 5 >= SECOND
    requires forall i :: 0 <= i < |clock| ==> start <= clock[i]
    requires Accounted(r, certs, clock, serials, pems, ttl, |certs|)
    ensures r.rotateAt * SECOND > start
  {
  }
}
