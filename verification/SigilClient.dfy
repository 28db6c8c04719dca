/** The reconnecting client of kprobe/kprobe-userspace/src/sigil_client.rs and the
    certificate store of crates/meshlite-tls/src/cert_store.rs. */
module SigilClients {
  import opened Collections
  import opened PolicyCaches

  /** Leaf certificate, root certificate and key, kept as opaque text. */
  datatype StoredCert = StoredCert(leafPem: string, rootPem: string, keyPem: string)

  class CertStore {
    var certs: map<string, StoredCert>

    constructor ()
      ensures certs == map[]
    {
      certs := map[];
    }

    method Update(serviceId: string, cert: StoredCert)
      modifies this
      ensures certs == old(certs)[serviceId := cert]
    {
      certs := certs[serviceId := cert];
    }

    /** Any stored certificate, whichever the map yields first. */
    method FirstCert() returns (cert: Option<StoredCert>)
      ensures cert.None? <==> certs == map[]
      ensures cert.Some? ==> exists s :: s in certs && certs[s] == cert.value
    {
      if certs.Keys == {} {
        return None;
      }
      var s :| s in certs;
      return Some(certs[s]);
    }
  }

  datatype Mode = Bootstrap | UpgradingTLS | ConnectedTLS

  datatype Bundle = CertBundle(serviceId: string, cert: StoredCert) | PolicyBundle(policy: Policy)

  /** What the network does next: a channel or TLS configuration cannot be built, the
      Subscribe call fails or succeeds, or the stream yields a message or ends. */
  datatype Input =
    | ChannelFailed
    | SubscribeFailed
    | Subscribed
    | Message(bundle: Option<Bundle>)
    | StreamEnded

  datatype Client = Client(
    mode: Mode,
    streaming: bool,
    certs: map<string, StoredCert>,
    policy: Policy,
    signals: nat,
    handled: seq<Bundle>,       // every bundle applied so far
    emptyStore: nat             // how often a TLS channel was built from an empty store
  )

  const START: Client := Client(Bootstrap, false, map[], INITIAL, 0, [], 0)

  function Handle(c: Client, bundle: Bundle): Client {
    var counted := c.(signals := c.signals + 1, handled := c.handled + [bundle]);
    match bundle
    case CertBundle(serviceId, cert) => counted.(certs := c.certs[serviceId := cert])
    case PolicyBundle(policy) => counted.(policy := policy)
  }

  /** One turn of the run loop; an input that cannot occur at this point changes nothing. */
  function Turn(c: Client, input: Input): Client {
    if c.streaming then
      match input
      case Message(Some(bundle)) =>
        var next := Handle(c, bundle);
        if c.mode == Bootstrap && bundle.CertBundle? then next.(mode := UpgradingTLS, streaming := false) else next
      case StreamEnded =>
        c.(streaming := false, mode := if c.mode == ConnectedTLS then UpgradingTLS else c.mode)
      case _ => c
    else
      match c.mode
      case Bootstrap => if input.Subscribed? then c.(streaming := true) else c
      case UpgradingTLS =>
        if c.certs == map[] then c.(mode := Bootstrap, emptyStore := c.emptyStore + 1)
        else if input.ChannelFailed? then c.(mode := Bootstrap)
        else if input.Subscribed? then c.(mode := ConnectedTLS)
        else c
      case ConnectedTLS =>
        if c.certs == map[] then c.(mode := UpgradingTLS, emptyStore := c.emptyStore + 1)
        else if input.Subscribed? then c.(streaming := true)
        else if input.ChannelFailed? || input.SubscribeFailed? then c.(mode := UpgradingTLS)
        else c
  }

  function Turns(c: Client, inputs: seq<Input>): Client {
    if inputs == [] then c else Turn(Turns(c, inputs[..|inputs| - 1]), inputs[|inputs| - 1])
  }

  // ---- Where the client is, read off the inputs ----

  predicate Brings(input: Input, certificate: bool) {
    input.Message? && input.bundle.Some? && (certificate ==> input.bundle.value.CertBundle?)
  }

  /** The bootstrap stream is open: it was subscribed to while the client was offline, and has
      neither ended nor brought a certificate since. */
  ghost predicate PlainOpen(t: seq<Input>)
    decreases |t|, 2
  {
    exists i :: PlainOpenSince(t, i)
  }

  ghost predicate PlainOpenSince(t: seq<Input>, i: int)
    decreases |t|, 1
  {
    0 <= i < |t| && Offline(t[..i]) && t[i].Subscribed? &&
    forall j :: i < j < |t| ==> !t[j].StreamEnded? && !Brings(t[j], true)
  }

  /** Without a stream in Bootstrap: from the beginning, since the bootstrap stream ended, or
      since no TLS channel could be built for the upgrade. */
  ghost predicate Offline(t: seq<Input>)
    decreases |t|, 2
  {
    NeverSubscribed(t) || exists i :: OfflineSince(t, i)
  }

  ghost predicate NeverSubscribed(t: seq<Input>) {
    forall j :: 0 <= j < |t| ==> !t[j].Subscribed?
  }

  ghost predicate OfflineSince(t: seq<Input>, i: int)
    decreases |t|, 1
  {
    0 <= i < |t| && GoesOffline(t[..i], t[i]) && forall j :: i < j < |t| ==> !t[j].Subscribed?
  }

  ghost predicate GoesOffline(t: seq<Input>, x: Input)
    decreases |t|, 3
  {
    (PlainOpen(t) && x.StreamEnded?) || (Upgrading(t) && x.ChannelFailed?)
  }

  /** Upgrading: since the bootstrap stream brought a certificate, the TLS stream ended, or a
      TLS connection failed. */
  ghost predicate Upgrading(t: seq<Input>)
    decreases |t|, 2
  {
    exists i :: UpgradingSince(t, i)
  }

  ghost predicate UpgradingSince(t: seq<Input>, i: int)
    decreases |t|, 1
  {
    0 <= i < |t| && StartsUpgrade(t[..i], t[i]) &&
    forall j :: i < j < |t| ==> !t[j].Subscribed? && !t[j].ChannelFailed?
  }

  ghost predicate StartsUpgrade(t: seq<Input>, x: Input)
    decreases |t|, 3
  {
    || (PlainOpen(t) && Brings(x, true))
    || (TlsOpen(t) && x.StreamEnded?)
    || (Connecting(t) && (x.ChannelFailed? || x.SubscribeFailed?))
  }

  /** Connected, with the stream still to be opened: the upgrade subscribed, and nothing
      succeeded or failed since. */
  ghost predicate Connecting(t: seq<Input>)
    decreases |t|, 2
  {
    exists i :: ConnectingSince(t, i)
  }

  ghost predicate ConnectingSince(t: seq<Input>, i: int)
    decreases |t|, 1
  {
    0 <= i < |t| && Upgrading(t[..i]) && t[i].Subscribed? &&
    forall j :: i < j < |t| ==> !t[j].Subscribed? && !t[j].ChannelFailed? && !t[j].SubscribeFailed?
  }

  /** The TLS stream is open: it was subscribed to when connected, and has not ended since. */
  ghost predicate TlsOpen(t: seq<Input>)
    decreases |t|, 2
  {
    exists i :: TlsOpenSince(t, i)
  }

  ghost predicate TlsOpenSince(t: seq<Input>, i: int)
    decreases |t|, 1
  {
    0 <= i < |t| && Connecting(t[..i]) && t[i].Subscribed? &&
    forall j :: i < j < |t| ==> !t[j].StreamEnded?
  }

  lemma PlainOpenSnoc(t: seq<Input>, x: Input)
    ensures PlainOpen(t + [x]) <==> (Offline(t) && x.Subscribed?) || (PlainOpen(t) && !x.StreamEnded? && !Brings(x, true))
  {
    hide Offline;
    var all, n := t + [x], |t|;
    assert all[..n] == t && all[n] == x;
    forall i ensures PlainOpenSince(all, i) <==> if i == n then Offline(t) && x.Subscribed? else PlainOpenSince(t, i) && !x.StreamEnded? && !Brings(x, true) {
      if 0 <= i < n {
        assert all[..i] == t[..i] && all[i] == t[i];
        assert PlainOpenSince(all, i) ==> !all[n].StreamEnded? && !Brings(all[n], true);
      }
    }
    assert Offline(t) && x.Subscribed? ==> PlainOpenSince(all, n);
    if i :| PlainOpenSince(t, i) {
      assert !x.StreamEnded? && !Brings(x, true) ==> PlainOpenSince(all, i);
    }
  }

  lemma OfflineSnoc(t: seq<Input>, x: Input)
    ensures Offline(t + [x]) <==> GoesOffline(t, x) || (Offline(t) && !x.Subscribed?)
  {
    hide GoesOffline;
    var all, n := t + [x], |t|;
    assert all[..n] == t && all[n] == x;
    forall i ensures OfflineSince(all, i) <==> if i == n then GoesOffline(t, x) else OfflineSince(t, i) && !x.Subscribed? {
      if 0 <= i < n {
        assert all[..i] == t[..i] && all[i] == t[i];
        assert OfflineSince(all, i) ==> !all[n].Subscribed?;
      }
    }
    assert NeverSubscribed(all) <==> NeverSubscribed(t) && !x.Subscribed? by {
      assert NeverSubscribed(all) ==> !all[n].Subscribed? && forall j :: 0 <= j < n ==> !all[j].Subscribed?;
    }
    assert GoesOffline(t, x) ==> OfflineSince(all, n);
    if i :| OfflineSince(t, i) {
      assert !x.Subscribed? ==> OfflineSince(all, i);
    }
  }

  lemma UpgradingSnoc(t: seq<Input>, x: Input)
    ensures Upgrading(t + [x]) <==> (StartsUpgrade(t, x)) || (Upgrading(t) && !x.Subscribed? && !x.ChannelFailed?)
  {
    hide StartsUpgrade;
    var all, n := t + [x], |t|;
    assert all[..n] == t && all[n] == x;
    forall i ensures UpgradingSince(all, i) <==> if i == n then StartsUpgrade(t, x) else UpgradingSince(t, i) && !x.Subscribed? && !x.ChannelFailed? {
      if 0 <= i < n {
        assert all[..i] == t[..i] && all[i] == t[i];
        assert UpgradingSince(all, i) ==> !all[n].Subscribed? && !all[n].ChannelFailed?;
      }
    }
    assert StartsUpgrade(t, x) ==> UpgradingSince(all, n);
    if i :| UpgradingSince(t, i) {
      assert !x.Subscribed? && !x.ChannelFailed? ==> UpgradingSince(all, i);
    }
  }

  lemma ConnectingSnoc(t: seq<Input>, x: Input)
    ensures Connecting(t + [x]) <==> (Upgrading(t) && x.Subscribed?) || (Connecting(t) && !x.Subscribed? && !x.ChannelFailed? && !x.SubscribeFailed?)
  {
    hide Upgrading;
    var all, n := t + [x], |t|;
    assert all[..n] == t && all[n] == x;
    forall i ensures ConnectingSince(all, i) <==> if i == n then Upgrading(t) && x.Subscribed? else ConnectingSince(t, i) && !x.Subscribed? && !x.ChannelFailed? && !x.SubscribeFailed? {
      if 0 <= i < n {
        assert all[..i] == t[..i] && all[i] == t[i];
        assert ConnectingSince(all, i) ==> !all[n].Subscribed? && !all[n].ChannelFailed? && !all[n].SubscribeFailed?;
      }
    }
    assert Upgrading(t) && x.Subscribed? ==> ConnectingSince(all, n);
    if i :| ConnectingSince(t, i) {
      assert !x.Subscribed? && !x.ChannelFailed? && !x.SubscribeFailed? ==> ConnectingSince(all, i);
    }
  }

  lemma TlsOpenSnoc(t: seq<Input>, x: Input)
    ensures TlsOpen(t + [x]) <==> (Connecting(t) && x.Subscribed?) || (TlsOpen(t) && !x.StreamEnded?)
  {
    hide Connecting;
    var all, n := t + [x], |t|;
    assert all[..n] == t && all[n] == x;
    forall i ensures TlsOpenSince(all, i) <==> if i == n then Connecting(t) && x.Subscribed? else TlsOpenSince(t, i) && !x.StreamEnded? {
      if 0 <= i < n {
        assert all[..i] == t[..i] && all[i] == t[i];
        assert TlsOpenSince(all, i) ==> !all[n].StreamEnded?;
      }
    }
    assert Connecting(t) && x.Subscribed? ==> TlsOpenSince(all, n);
    if i :| TlsOpenSince(t, i) {
      assert !x.StreamEnded? ==> TlsOpenSince(all, i);
    }
  }

  /** The state and the stream of the client are those the inputs call for. */
  ghost predicate Follows(c: Client, t: seq<Input>) {
    && (PlainOpen(t) <==> c.mode == Bootstrap && c.streaming)
    && (Offline(t) <==> c.mode == Bootstrap && !c.streaming)
    && (Upgrading(t) <==> c.mode == UpgradingTLS)
    && (Connecting(t) <==> c.mode == ConnectedTLS && !c.streaming)
    && (TlsOpen(t) <==> c.mode == ConnectedTLS && c.streaming)
  }

  lemma TurnFollows(c: Client, t: seq<Input>, x: Input)
    requires Follows(c, t) && ClientInv(c)
    ensures Follows(Turn(c, x), t + [x])
  {
    PlainOpenSnoc(t, x);
    OfflineSnoc(t, x);
    UpgradingSnoc(t, x);
    ConnectingSnoc(t, x);
    TlsOpenSnoc(t, x);
    hide PlainOpen, Offline, Upgrading, Connecting, TlsOpen, NewestPolicy, NewestCerts;
  }

  /** The bundles that arrive while a stream is open, in order. */
  ghost function Received(t: seq<Input>): seq<Bundle> {
    if t == [] then []
    else
      var head, last := t[..|t| - 1], t[|t| - 1];
      Received(head) +
      if (PlainOpen(head) || TlsOpen(head)) && Brings(last, false) then [last.bundle.value] else []
  }

  lemma TurnReceives(c: Client, t: seq<Input>, x: Input)
    requires Follows(c, t) && c.handled == Received(t) && (c.streaming ==> c.mode != UpgradingTLS)
    ensures Turn(c, x).handled == Received(t + [x])
  {
    assert (t + [x])[..|t|] == t && (t + [x])[|t|] == x;
    hide PlainOpen, Offline, Upgrading, Connecting, TlsOpen, ClientInv;
  }

  // ---- What the handled bundles determine ----

  function NewestPolicy(handled: seq<Bundle>): Policy {
    if handled == [] then INITIAL
    else if handled[|handled| - 1].PolicyBundle? then handled[|handled| - 1].policy
    else NewestPolicy(handled[..|handled| - 1])
  }

  /** The newest certificate of each service that got one. */
  function NewestCerts(handled: seq<Bundle>): map<string, StoredCert> {
    if handled == [] then map[]
    else
      var before, last := NewestCerts(handled[..|handled| - 1]), handled[|handled| - 1];
      if last.CertBundle? then before[last.serviceId := last.cert] else before
  }

  /** A service's newest certificate is the last one that arrived for it. */
  lemma {:induction false} NewestCertMeaning(handled: seq<Bundle>, s: string, cert: StoredCert)
    ensures s in NewestCerts(handled) && NewestCerts(handled)[s] == cert <==>
            exists i :: LastCert(handled, s, cert, i)
  {
    if handled != [] {
      var head, last := handled[..|handled| - 1], handled[|handled| - 1];
      NewestCertMeaning(head, s, cert);
      forall i ensures LastCert(handled, s, cert, i) <==>
        if i == |head| then last == CertBundle(s, cert)
        else LastCert(head, s, cert, i) && !(last.CertBundle? && last.serviceId == s)
      {
      }
      if last == CertBundle(s, cert) {
        assert LastCert(handled, s, cert, |head|);
      }
    }
  }

  ghost predicate LastCert(handled: seq<Bundle>, s: string, cert: StoredCert, i: int) {
    && 0 <= i < |handled| && handled[i] == CertBundle(s, cert)
    && forall j :: i < j < |handled| ==> !(handled[j].CertBundle? && handled[j].serviceId == s)
  }

  predicate ClientInv(c: Client) {
    && (c.mode != Bootstrap ==> c.certs != map[])
    && (c.streaming ==> c.mode != UpgradingTLS)
    && c.emptyStore == 0
    && c.signals == |c.handled|
    && c.policy == NewestPolicy(c.handled)
    && c.certs == NewestCerts(c.handled)
  }

  lemma TurnKeepsInv(c: Client, input: Input)
    requires ClientInv(c)
    ensures ClientInv(Turn(c, input))
    ensures c.certs.Keys <= Turn(c, input).certs.Keys
  {
    if c.streaming && input.Message? && input.bundle.Some? {
      var bundle := input.bundle.value;
      assert (c.handled + [bundle])[..|c.handled|] == c.handled;
      assert bundle.CertBundle? ==> bundle.serviceId in Turn(c, input).certs;
    }
  }

  /** In every run: TLS is only attempted with a certificate at hand, so the empty-store
      error never occurs; services never lose their certificate; the client's state and stream
      are those the inputs call for; the bundles handled are exactly those that arrived on an
      open stream; the policy and the certificates are the newest of them; one signal was sent
      for each. */
  lemma {:induction false} EveryRun(inputs: seq<Input>, n: nat)
    requires n <= |inputs|
    ensures ClientInv(Turns(START, inputs))
    ensures Follows(Turns(START, inputs), inputs) && Turns(START, inputs).handled == Received(inputs)
    ensures Turns(START, inputs[..n]).certs.Keys <= Turns(START, inputs).certs.Keys
  {
    if inputs == [] {
    } else {
      var head := inputs[..|inputs| - 1];
      if n == |inputs| {
        assert inputs[..n] == inputs;
        EveryRun(head, 0);
      } else {
        assert inputs[..n] == head[..n];
        EveryRun(head, n);
      }
      var c, last := Turns(START, head), inputs[|inputs| - 1];
      assert inputs == head + [last];
      assert c.streaming ==> c.mode != UpgradingTLS;
      hide ClientInv, Follows, Received, Turn;
      TurnKeepsInv(c, last);
      TurnFollows(c, head, last);
      TurnReceives(c, head, last);
    }
  }

  class SigilClient {
    var mode: Mode
    var streaming: bool
    const certStore: CertStore
    const policyCache: PolicyCache
    var signals: nat
    ghost var handled: seq<Bundle>
    var emptyStore: nat

    constructor (certStore: CertStore, policyCache: PolicyCache)
      requires certStore.certs == map[] && policyCache.Contents() == INITIAL
      ensures this.certStore == certStore && this.policyCache == policyCache
      ensures State() == START
    {
      mode, streaming := Bootstrap, false;
      this.certStore, this.policyCache := certStore, policyCache;
      signals, handled, emptyStore := 0, [], 0;
    }

    ghost function State(): Client
      reads this, certStore, policyCache
    {
      Client(mode, streaming, certStore.certs, policyCache.Contents(), signals, handled, emptyStore)
    }

    /** Applies a bundle to the shared stores and signals. */
    method Apply(bundle: Bundle)
      modifies this, certStore, policyCache
      ensures State() == Handle(old(State()), bundle)
    {
      match bundle {
        case CertBundle(serviceId, cert) => certStore.Update(serviceId, cert);
        case PolicyBundle(p) => policyCache.Update(p.rules, p.defaultAllow, p.mtlsMode);
      }
      signals := signals + 1;
      handled := handled + [bundle];
    }

    /** A channel for the given outcome of the network; None when it cannot be built. */
    method BuildTls(input: Input) returns (built: bool)
      modifies this`emptyStore
      ensures built <==> certStore.certs != map[] && !input.ChannelFailed?
      ensures emptyStore == old(emptyStore) + if certStore.certs == map[] then 1 else 0
    {
      var cert := certStore.FirstCert();
      if cert.None? {
        emptyStore := emptyStore + 1;
        return false;
      }
      return !input.ChannelFailed?;
    }

    /** One turn of the loop of run. */
    method Advance(input: Input)
      modifies this, certStore, policyCache
      ensures State() == Turn(old(State()), input)
    {
      if streaming {
        if input.Message? && input.bundle.Some? {
          Apply(input.bundle.value);
          if mode == Bootstrap && input.bundle.value.CertBundle? {
            mode, streaming := UpgradingTLS, false;
          }
        } else if input.StreamEnded? {
          streaming := false;
          if mode == ConnectedTLS {
            mode := UpgradingTLS;
          }
        }
      } else {
        match mode
        case Bootstrap =>
          if input.Subscribed? {
            streaming := true;
          }
        case UpgradingTLS =>
          var built := BuildTls(input);
          if !built {
            mode := Bootstrap;
          } else if input.Subscribed? {
            mode := ConnectedTLS;
          }
        case ConnectedTLS =>
          var built := BuildTls(input);
          if !built {
            mode := UpgradingTLS;
          } else if input.Subscribed? {
            streaming := true;
          } else if input.SubscribeFailed? {
            mode := UpgradingTLS;
          }
      }
    }

    /** run, over any finite stretch of what the network does. */
    method Run(inputs: seq<Input>)
      requires State() == START
      modifies this, certStore, policyCache
      ensures State() == Turns(START, inputs) && ClientInv(State())
      ensures Follows(State(), inputs) && handled == Received(inputs)
    {
      for i := 0 to |inputs|
        invariant State() == Turns(START, inputs[..i])
      {
        Advance(inputs[i]);
        assert inputs[..i + 1][..i] == inputs[..i];
      }
      assert inputs[..|inputs|] == inputs;
      EveryRun(inputs, 0);
    }

    /** make_hello: the services of the snapshot in some order, after the node itself unless
        a service already has its name. */
    method MakeHello(nodeId: string, services: set<string>) returns (ids: seq<string>)
      ensures Enumerates(ids, services + {nodeId})
      ensures nodeId !in services ==> ids != [] && ids[0] == nodeId
    {
      ids := Enumerate(services);
      if nodeId !in ids {
        ids := [nodeId] + ids;
      } else {
        assert services + {nodeId} == services;
      }
    }
  }
}
