/** The traffic-control program of kprobe/kprobe-ebpf/src/main.rs, on a little-endian
    host, and the decoding of its log records in kprobe/kprobe-userspace/src/main.rs. */
module Kernel {
  import opened Collections

  /** An address as its four octets, most significant first. */
  datatype Ipv4 = Ipv4(a: bv8, b: bv8, c: bv8, d: bv8)

  /** Four bytes as a number, most significant first. */
  function Pack(a: bv8, b: bv8, c: bv8, d: bv8): bv32 {
    ((a as bv32) << 24) | ((b as bv32) << 16) | ((c as bv32) << 8) | (d as bv32)
  }

  /** The byte of a word that `Pack` got as its first, second, third or fourth argument. */
  function Byte(x: bv32, position: nat): bv8 {
    if position == 0 then (x >> 24) as bv8
    else if position == 1 then ((x >> 16) & 0xFF) as bv8
    else if position == 2 then ((x >> 8) & 0xFF) as bv8
    else (x & 0xFF) as bv8
  }

  /** u32::from(ip): the octets as a host-order number. */
  function U32(ip: Ipv4): bv32 {
    Pack(ip.a, ip.b, ip.c, ip.d)
  }

  /** Ipv4Addr::from(u32). */
  function FromU32(x: bv32): Ipv4 {
    Ipv4(Byte(x, 0), Byte(x, 1), Byte(x, 2), Byte(x, 3))
  }

  /** to_be and from_be: on a little-endian host both reverse the bytes. */
  function SwapBytes(x: bv32): bv32 {
    ((x & 0xFF) << 24) | ((x & 0xFF00) << 8) | ((x >> 8) & 0xFF00) | ((x >> 24) & 0xFF)
  }

  function SwapBytes16(x: bv16): bv16 {
    ((x & 0xFF) << 8) | ((x >> 8) & 0xFF)
  }

  /** What a little-endian load of four consecutive bytes yields. */
  function WordOf(b0: bv8, b1: bv8, b2: bv8, b3: bv8): bv32 {
    (b0 as bv32) | ((b1 as bv32) << 8) | ((b2 as bv32) << 16) | ((b3 as bv32) << 24)
  }

  function HalfOf(b0: bv8, b1: bv8): bv16 {
    (b0 as bv16) | ((b1 as bv16) << 8)
  }

  const POD_CIDR_NET: bv32 := SwapBytes(0x0AF40000)
  const POD_CIDR_MASK: bv32 := SwapBytes(0xFFFF0000)
  const ETHERTYPE_IPV4: bv16 := SwapBytes16(0x0800)
  const TCP: bv8 := 6
  const UDP: bv8 := 17
  const ALLOW: bv8 := 0
  const DENY: bv8 := 1
  const TC_ACT_OK: int := 0
  const TC_ACT_SHOT: int := 2

  /** Both fields hold the header bytes as loaded. */
  datatype PacketKey = PacketKey(srcIp: bv32, dstIp: bv32)

  /** VERDICT_MAP and the single element of POLICY_FLAGS. */
  datatype KernelMaps = KernelMaps(verdicts: map<PacketKey, bv8>, flag: bv32)

  datatype PacketLog = PacketLog(srcIp: bv32, dstIp: bv32, srcPort: bv16, dstPort: bv16, proto: bv8, verdict: bv8)

  datatype Outcome = Outcome(action: int, log: Option<PacketLog>)

  function Load8(frame: seq<bv8>, o: nat): Option<bv8> {
    if o < |frame| then Some(frame[o]) else None
  }

  function Load16(frame: seq<bv8>, o: nat): Option<bv16> {
    if o + 2 <= |frame| then Some(HalfOf(frame[o], frame[o + 1])) else None
  }

  function Load32(frame: seq<bv8>, o: nat): Option<bv32> {
    if o + 4 <= |frame| then Some(WordOf(frame[o], frame[o + 1], frame[o + 2], frame[o + 3])) else None
  }

  /** Step 5: explicit verdict, then the default flag, for pod-to-pod traffic only. */
  function Lookup(maps: KernelMaps, srcIp: bv32, dstIp: bv32): bv8 {
    if srcIp & POD_CIDR_MASK == POD_CIDR_NET && dstIp & POD_CIDR_MASK == POD_CIDR_NET then
      var key := PacketKey(srcIp, dstIp);
      if key in maps.verdicts then maps.verdicts[key]
      else if maps.flag == 0 then DENY
      else ALLOW
    else ALLOW
  }

  /** try_intercept; None is its error result. */
  function TryIntercept(frame: seq<bv8>, maps: KernelMaps): Option<Outcome> {
    var ethertype := Load16(frame, 12);
    if ethertype.None? then None
    else if ethertype.value != ETHERTYPE_IPV4 then Some(Outcome(TC_ACT_OK, None))
    else
      var proto := Load8(frame, 23);
      if proto.None? then None
      else if proto.value != TCP && proto.value != UDP then Some(Outcome(TC_ACT_OK, None))
      else
        var srcIp, dstIp := Load32(frame, 26), Load32(frame, 30);
        var srcPort, dstPort := Load16(frame, 34), Load16(frame, 36);
        if srcIp.None? || dstIp.None? || srcPort.None? || dstPort.None? then None
        else
          var looked := Lookup(maps, srcIp.value, dstIp.value);
          var verdict :=
            if proto.value == TCP && looked == DENY then
              var flags := Load8(frame, 47);
              if flags.Some? && flags.value & 0x12 == 0x02 then DENY else ALLOW
            else looked;
          var log := PacketLog(srcIp.value, dstIp.value, SwapBytes16(srcPort.value), SwapBytes16(dstPort.value),
                               proto.value, verdict);
          Some(Outcome(if verdict == DENY then TC_ACT_SHOT else TC_ACT_OK, Some(log)))
  }

  /** kprobe_egress: a parse error passes the packet. */
  function KprobeEgress(frame: seq<bv8>, maps: KernelMaps): int {
    var r := TryIntercept(frame, maps);
    if r.Some? then r.value.action else TC_ACT_OK
  }

  // ---- What the bytes mean, following sections 3.1 of RFC 791 and RFC 9293 ----

  /** A pod address: 10.244.x.x. */
  predicate InPodCidr(ip: Ipv4) {
    ip.a == 10 && ip.b == 244
  }

  function AddressAt(frame: seq<bv8>, o: nat): Ipv4
    requires o + 4 <= |frame|
  {
    Ipv4(frame[o], frame[o + 1], frame[o + 2], frame[o + 3])
  }

  /** An Ethernet frame carrying a 20-byte IPv4 header and UDP, or TCP up to its flags. */
  predicate WellFormed(frame: seq<bv8>) {
    && |frame| >= 38
    && frame[12] == 0x08 && frame[13] == 0x00
    && (frame[23] == UDP || (frame[23] == TCP && |frame| >= 48))
  }

  /** UDP, or the first segment of a TCP connection: SYN set and ACK clear. */
  predicate StartsFlow(frame: seq<bv8>)
    requires WellFormed(frame)
  {
    frame[23] == UDP || (frame[47] & 0x02 != 0 && frame[47] & 0x10 == 0)
  }

  /** The key userspace writes for a pair of addresses. */
  function KeyOf(src: Ipv4, dst: Ipv4): PacketKey {
    PacketKey(SwapBytes(U32(src)), SwapBytes(U32(dst)))
  }

  /** What the maps say about a pair of addresses. */
  predicate Denies(maps: KernelMaps, src: Ipv4, dst: Ipv4) {
    if KeyOf(src, dst) in maps.verdicts then maps.verdicts[KeyOf(src, dst)] == DENY else maps.flag == 0
  }

  lemma SwapPacked(a: bv8, b: bv8, c: bv8, d: bv8)
    ensures SwapBytes(Pack(a, b, c, d)) == WordOf(a, b, c, d)
  {
  }

  lemma UnpackBytes(a: bv8, b: bv8, c: bv8, d: bv8)
    ensures var x := Pack(a, b, c, d);
            Byte(x, 0) == a && Byte(x, 1) == b && Byte(x, 2) == c && Byte(x, 3) == d
  {
  }

  lemma SwapTwice(x: bv32)
    ensures SwapBytes(SwapBytes(x)) == x
  {
  }

  /** Network byte order: the word userspace computes from an address is the word the
      kernel loads from its four header bytes. */
  lemma ByteOrder(ip: Ipv4)
    ensures SwapBytes(U32(ip)) == WordOf(ip.a, ip.b, ip.c, ip.d)
    ensures FromU32(SwapBytes(WordOf(ip.a, ip.b, ip.c, ip.d))) == ip
  {
    hide SwapBytes, Pack, WordOf, Byte;
    SwapPacked(ip.a, ip.b, ip.c, ip.d);
    SwapTwice(U32(ip));
    UnpackBytes(ip.a, ip.b, ip.c, ip.d);
  }

  lemma MaskTest(ip: Ipv4)
    ensures WordOf(ip.a, ip.b, ip.c, ip.d) & POD_CIDR_MASK == POD_CIDR_NET <==> InPodCidr(ip)
  {
  }

  lemma EthertypeTest(b0: bv8, b1: bv8)
    ensures HalfOf(b0, b1) == ETHERTYPE_IPV4 <==> b0 == 0x08 && b1 == 0x00
  {
  }

  lemma FlagsTest(flags: bv8)
    ensures flags & 0x12 == 0x02 <==> flags & 0x02 != 0 && flags & 0x10 == 0
  {
  }

  /** Different address pairs have different keys. */
  lemma KeysAreInjective(s: Ipv4, d: Ipv4, s': Ipv4, d': Ipv4)
    requires KeyOf(s, d) == KeyOf(s', d')
    ensures s == s' && d == d'
  {
    ByteOrder(s); ByteOrder(s'); ByteOrder(d); ByteOrder(d');
  }

  lemma LookupMeaning(maps: KernelMaps, src: Ipv4, dst: Ipv4)
    ensures Lookup(maps, KeyOf(src, dst).srcIp, KeyOf(src, dst).dstIp) == DENY <==>
            InPodCidr(src) && InPodCidr(dst) && Denies(maps, src, dst)
  {
    ByteOrder(src);
    ByteOrder(dst);
    MaskTest(src);
    MaskTest(dst);
  }

  lemma LoadAddress(frame: seq<bv8>, o: nat)
    requires o + 4 <= |frame|
    ensures Load32(frame, o) == Some(SwapBytes(U32(AddressAt(frame, o))))
  {
    ByteOrder(AddressAt(frame, o));
  }

  /** A frame is dropped exactly when it is well formed, runs between two pod addresses,
      starts a flow, and the maps deny the pair. */
  lemma DropMeaning(frame: seq<bv8>, maps: KernelMaps)
    ensures KprobeEgress(frame, maps) == TC_ACT_SHOT <==>
            && WellFormed(frame)
            && StartsFlow(frame)
            && InPodCidr(AddressAt(frame, 26)) && InPodCidr(AddressAt(frame, 30))
            && Denies(maps, AddressAt(frame, 26), AddressAt(frame, 30))
    ensures KprobeEgress(frame, maps) == TC_ACT_SHOT || KprobeEgress(frame, maps) == TC_ACT_OK
  {
    if |frame| >= 38 {
      EthertypeTest(frame[12], frame[13]);
      LoadAddress(frame, 26);
      LoadAddress(frame, 30);
      LookupMeaning(maps, AddressAt(frame, 26), AddressAt(frame, 30));
      if |frame| >= 48 {
        FlagsTest(frame[47]);
      }
    }
  }

  // ---- The log ----

  /** What the program writes to the perf ring for a frame. */
  function Emitted(frame: seq<bv8>, maps: KernelMaps): Option<PacketLog> {
    match TryIntercept(frame, maps)
    case Some(outcome) => outcome.log
    case None => None
  }

  /** IPv4 with TCP or UDP and both ports present. */
  predicate Logged(frame: seq<bv8>) {
    |frame| >= 38 && frame[12] == 0x08 && frame[13] == 0x00 && (frame[23] == TCP || frame[23] == UDP)
  }

  /** Two bytes in network order. */
  function BigEndian(b0: bv8, b1: bv8): bv16 {
    ((b0 as bv16) << 8) | (b1 as bv16)
  }

  lemma PortOrder(b0: bv8, b1: bv8)
    ensures SwapBytes16(HalfOf(b0, b1)) == BigEndian(b0, b1)
  {
  }

  /** A record is written exactly for the frames that are IPv4 with TCP or UDP and long enough
      to hold the ports, dropped or not. It carries the addresses in the form of the map's
      keys, the ports as numbers, the protocol, and DENY exactly if the frame is dropped. */
  lemma LogMeaning(frame: seq<bv8>, maps: KernelMaps)
    ensures Emitted(frame, maps).Some? <==> Logged(frame)
    ensures KprobeEgress(frame, maps) == TC_ACT_SHOT ==> Logged(frame)
    ensures Logged(frame) ==>
              var log, key := Emitted(frame, maps).value, KeyOf(AddressAt(frame, 26), AddressAt(frame, 30));
              && log.srcIp == key.srcIp && log.dstIp == key.dstIp
              && log.srcPort == BigEndian(frame[34], frame[35]) && log.dstPort == BigEndian(frame[36], frame[37])
              && log.proto == frame[23]
              && (log.verdict == DENY <==> KprobeEgress(frame, maps) == TC_ACT_SHOT)
  {
    if |frame| >= 14 {
      EthertypeTest(frame[12], frame[13]);
    }
    if |frame| >= 38 {
      LoadAddress(frame, 26);
      LoadAddress(frame, 30);
      PortOrder(frame[34], frame[35]);
      PortOrder(frame[36], frame[37]);
    }
    hide HalfOf, WordOf, SwapBytes, SwapBytes16, BigEndian, Pack, Lookup;
  }

  /** One decoded record of the perf ring. */
  datatype Intercepted = Intercepted(src: Ipv4, srcPort: bv16, dst: Ipv4, dstPort: bv16, tcp: bool, allowed: bool)

  /** The perf reader: a record with another protocol number, or with neither address in
      the pod range, is not reported. */
  function Reported(log: PacketLog): Option<Intercepted> {
    var src, dst := FromU32(SwapBytes(log.srcIp)), FromU32(SwapBytes(log.dstIp));
    if log.proto != TCP && log.proto != UDP then None
    else if InPodCidr(src) || InPodCidr(dst)
    then Some(Intercepted(src, log.srcPort, dst, log.dstPort, log.proto == TCP, log.verdict == ALLOW))
    else None
  }

  /** Through both sides of the ring: a drop is always reported. What is reported is exactly
      the logged frames with a pod address, with their addresses, ports and protocol and, when
      the map holds only verdicts, as allowed exactly when the frame passed. */
  lemma LogRoundTrip(frame: seq<bv8>, maps: KernelMaps)
    requires forall k :: k in maps.verdicts ==> maps.verdicts[k] == ALLOW || maps.verdicts[k] == DENY
    ensures Emitted(frame, maps).Some? <==> Logged(frame)
    ensures Logged(frame) ==>
              var src, dst := AddressAt(frame, 26), AddressAt(frame, 30);
              Reported(Emitted(frame, maps).value) ==
              if InPodCidr(src) || InPodCidr(dst)
              then Some(Intercepted(src, BigEndian(frame[34], frame[35]), dst, BigEndian(frame[36], frame[37]),
                                    frame[23] == TCP, KprobeEgress(frame, maps) == TC_ACT_OK))
              else None
    ensures KprobeEgress(frame, maps) == TC_ACT_SHOT ==> Logged(frame) && Reported(Emitted(frame, maps).value).Some?
  {
    LogMeaning(frame, maps);
    DropMeaning(frame, maps);
    if Logged(frame) {
      LoggedVerdict(frame, maps);
      var src, dst := AddressAt(frame, 26), AddressAt(frame, 30);
      ByteOrder(src);
      ByteOrder(dst);
      hide TryIntercept, WordOf, SwapBytes, FromU32, U32, BigEndian;
    }
  }

  lemma LoggedVerdict(frame: seq<bv8>, maps: KernelMaps)
    requires forall k :: k in maps.verdicts ==> maps.verdicts[k] == ALLOW || maps.verdicts[k] == DENY
    requires Emitted(frame, maps).Some?
    ensures Emitted(frame, maps).value.verdict == ALLOW || Emitted(frame, maps).value.verdict == DENY
  {
    hide HalfOf, WordOf, SwapBytes, SwapBytes16;
  }
}
