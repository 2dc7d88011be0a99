/** traffic_generator.c extract_pktgen_pkt, and what it finds in the frames of the builder. */
module Extractor {
  import opened Arith
  import opened Bytes
  import opened Checksum
  import opened Pieces
  import opened Packets

  /** The fields of struct flow that are filled in, with the generator header. */
  datatype Flow = Flow(dlSrc: seq<byte>, dlDst: seq<byte>, dlType: int, dlVlan: int, nwSrc: seq<byte>, nwDst: seq<byte>,
                       nwProto: int, tpSrc: int, tpDst: int, seqNum: int, sec: int, usec: int)

  /** ntohs on a little-endian host. */
  function Swap16(x: int): int {
    x % 256 * 256 + x / 256
  }

  /** How long the link header is, or 0 when it is not one of the two kinds. */
  function LinkLength(b: seq<byte>): int
    requires |b| >= 14 && (Get16(b, 12) == 0x8100 ==> |b| >= 18)
  {
    if Get16(b, 12) == 0x8100 && Get16(b, 16) == 0x0800 then 18
    else if Get16(b, 12) == 0x0800 then 14
    else 0
  }

  /** Everything the extractor looks at is inside the captured bytes. */
  predicate Readable(b: seq<byte>) {
    && |b| >= 14 && (Get16(b, 12) == 0x8100 ==> |b| >= 18)
    && var l := LinkLength(b);
       l > 0 ==>
         && |b| > l
         && var ip := b[l] as int % 16 * 4; ip <= |b| - l ==> l + ip + 24 <= |b|
  }

  /** The VLAN id as the extractor computes it from the bit fields. */
  function VlanOf(b: seq<byte>): int
    requires |b| >= 18
  {
    var vid := (b[14] as int + b[15] as int * 256) / 16;
    Swap16(vid * 16) % 4096
  }

  /** The flow and generator header of a frame with its link header of length l and its UDP header
      at udp. */
  function FlowAt(b: seq<byte>, l: int, udp: int): Flow
    requires 14 <= l <= udp && udp + 24 <= |b| && l + 20 <= |b| && (Get16(b, 12) == 0x8100 ==> |b| >= 18)
  {
    var tagged := Get16(b, 12) == 0x8100;
    Flow(b[6..12], b[0..6], if tagged then Get16(b, 16) else Get16(b, 12), if tagged then VlanOf(b) else 0xffff,
         b[l + 12..l + 16], b[l + 16..l + 20], 17, Get16(b, udp), Get16(b, udp + 2),
         Get32(b, udp + 12), Get32(b, udp + 16), Get32(b, udp + 20))
  }

  /** extract_pktgen_pkt on a PCAP channel. The test of the port lets one index too many through. */
  function Extract(b: seq<byte>, port: int, channels: int): Option<Flow>
    requires Readable(b)
  {
    var l := LinkLength(b);
    if port < 0 || port > channels || l == 0 then None
    else
      var ip := b[l] as int % 16 * 4;
      if |b| - l < ip then None else Some(FlowAt(b, l, l + ip))
  }

  /** Where the generator header of a frame is. */
  function HeaderAt(b: seq<byte>): int
    requires Readable(b) && LinkLength(b) > 0
  {
    LinkLength(b) + b[LinkLength(b)] as int % 16 * 4 + 8
  }

  /** The four bytes at an offset, turned around. */
  function Reversed(b: seq<byte>, at: int): (t: seq<byte>)
    requires 0 <= at && at + 4 <= |b|
    ensures |t| == |b|
  {
    Splice(b, at, [b[at + 3], b[at + 2], b[at + 1], b[at]])
  }

  /** The generator header at h with time and sequence number turned into host order. */
  function HostOrder(b: seq<byte>, h: int): (t: seq<byte>)
    requires 0 <= h && h + 16 <= |b|
    ensures |t| == |b|
  {
    Reversed(Reversed(Reversed(b, h + 8), h + 12), h + 4)
  }

  /** The header that the caller gets a pointer to reads as the numbers that were on the wire, and no
      byte outside its three fields changed. */
  lemma HostOrderReads(b: seq<byte>, h: int)
    requires 0 <= h && h + 16 <= |b|
    ensures var t := HostOrder(b, h);
            && GetHost32(t, h + 4) == Get32(b, h + 4) && GetHost32(t, h + 8) == Get32(b, h + 8)
            && GetHost32(t, h + 12) == Get32(b, h + 12)
            && t[..h + 4] == b[..h + 4] && t[h + 16..] == b[h + 16..]
  {
  }

  /** The numbers behind the pointer are those of the flow. */
  lemma PointerReadsFlow(b: seq<byte>, port: int, channels: int)
    requires Readable(b) && Extract(b, port, channels).Some?
    ensures var h := HeaderAt(b);
            var t, flow := HostOrder(b, h), Extract(b, port, channels).value;
            GetHost32(t, h + 4) == flow.seqNum && GetHost32(t, h + 8) == flow.sec && GetHost32(t, h + 12) == flow.usec
  {
    HostOrderReads(b, HeaderAt(b));
  }

  /** When there is an answer: the port passes the test, the frame is IP, plain or with one tag, and the
      capture holds as many bytes as the IP header says it has. */
  lemma ExtractAnswersIff(b: seq<byte>, port: int, channels: int)
    requires Readable(b)
    ensures Extract(b, port, channels).Some? <==>
              && 0 <= port <= channels
              && (b[12..14] == [0x08, 0x00] || (b[12..14] == [0x81, 0x00] && b[16..18] == [0x08, 0x00]))
              && var l := if b[12] == 0x81 then 18 else 14;
                 l + 4 * (b[l] as int % 16) <= |b|
  {
  }

  /** extract_pktgen_pkt: the flow it fills in, and the captured bytes it changes in place. */
  method ExtractPkt(b: array<byte>, port: int, channels: int) returns (r: Option<Flow>)
    requires Readable(b[..])
    modifies b
    ensures r == Extract(old(b[..]), port, channels)
    ensures b[..] == if r.None? then old(b[..]) else HostOrder(old(b[..]), HeaderAt(old(b[..])))
  {
    var s := b[..];
    var l := LinkLength(s);
    if port < 0 || port > channels || l == 0 {
      return None;
    }
    var ip := s[l] as int % 16 * 4;
    if |s| - l < ip {
      return None;
    }
    r := Some(FlowAt(s, l, l + ip));
    TurnHeader(b, l + ip + 8);
  }

  method TurnHeader(b: array<byte>, h: int)
    requires 0 <= h && h + 16 <= b.Length
    modifies b
    ensures b[..] == HostOrder(old(b[..]), h)
  {
    Turn(b, h + 8);
    Turn(b, h + 12);
    Turn(b, h + 4);
  }

  /** x = ntohl(x) on a little-endian host. */
  method Turn(b: array<byte>, at: int)
    requires 0 <= at && at + 4 <= b.Length
    modifies b
    ensures b[..] == Reversed(old(b[..]), at)
  {
    b[at], b[at + 1], b[at + 2], b[at + 3] := b[at + 3], b[at + 2], b[at + 1], b[at];
  }

  // ---------------------------------------------------------------- what a frame holds

  lemma LinkReads(det: Det, f: seq<seq<byte>>)
    requires det.Valid() && det.HoldsHeaders() && Shaped(det, f)
    requires f[0] == det.macDst && f[1] == det.macSrc && f[LINK] == LinkType(det)
    ensures var b := Concat(f);
            && |b| == det.size
            && b[0..6] == det.macDst && b[6..12] == det.macSrc
            && LinkLength(b) == det.Link()
            && (Get16(b, 12) == 0x8100 <==> det.Tagged())
            && (det.Tagged() ==> Get16(b, 16) == 0x0800 && b[14..16] == TagBytes(det.vlan))
            && (!det.Tagged() ==> Get16(b, 12) == 0x0800)
  {
    var b := Concat(f);
    ReadAt(det, f, 0);
    ReadAt(det, f, 1);
    ReadAt(det, f, LINK);
    ReadAt(det, f, 20);
    OffsetIs(det, f, 20);
    OffsetNext(f, 20);
    assert f[..21] == f;
    var t := b[12..det.Link()];
    assert t == LinkType(det);
    assert b[12] == t[0] && b[13] == t[1];
    if det.Tagged() {
      assert b[14] == t[2] && b[15] == t[3] && b[16] == t[4] && b[17] == t[5];
      assert b[14..16] == t[2..4];
    }
  }

  lemma TagValue(hi: int, lo: int)
    requires 0 <= hi < 256 && 0 <= lo < 256
    ensures var unit := (lo * 256 + hi) / 16 * 16;
            && 0 <= unit < 65536 && unit % 256 == hi / 16 * 16 && unit / 256 == lo
            && Swap16(unit / 16 * 16) % 4096 == lo
  {
    var h := hi / 16;
    assert 0 <= h < 16 && (lo * 256 + hi) / 16 == lo * 16 + h;
    var unit := lo * 256 + h * 16;
    assert unit % 256 == h * 16 && unit / 256 == lo && unit / 16 * 16 == unit;
    assert h * 16 * 256 + lo == 4096 * h + lo;
  }

  lemma TagReads(vlan: int, b: seq<byte>)
    requires 0 <= vlan < 65536 && |b| >= 18 && b[14..16] == TagBytes(vlan)
    ensures VlanOf(b) == vlan % 256
  {
    assert b[14] == b[14..16][0] && b[15] == b[14..16][1];
    TagValue(vlan / 256, vlan % 256);
  }

  lemma Reads16(det: Det, f: seq<seq<byte>>, i: int, n: int)
    requires Shaped(det, f) && 0 <= i < 21 && SizeOf(det, i) == 2 && f[i] == Put16(n)
    ensures 0 <= At(det, i) && At(det, i) + 2 <= |Concat(f)| && Get16(Concat(f), At(det, i)) == n % 65536
  {
    ReadAt(det, f, i);
    Get16At(Concat(f), At(det, i), n);
  }

  lemma Reads32(det: Det, f: seq<seq<byte>>, i: int, n: int)
    requires Shaped(det, f) && 0 <= i < 21 && SizeOf(det, i) == 4 && f[i] == Put32(n)
    ensures 0 <= At(det, i) && At(det, i) + 4 <= |Concat(f)| && Get32(Concat(f), At(det, i)) == n % U32
    ensures Concat(f)[At(det, i)..At(det, i) + 4] == Put32(n)
  {
    ReadAt(det, f, i);
    Get32At(Concat(f), At(det, i), n);
  }

  /** The fields of a frame that the extractor reads. */
  predicate Carries(det: Det, f: seq<seq<byte>>, dest: int, n: int, sec: int, usec: int) {
    && Shaped(det, f)
    && f[0] == det.macDst && f[1] == det.macSrc && f[LINK] == LinkType(det) && f[VER] == [0x45]
    && f[SADDR] == Put32(det.srcIp) && f[DADDR] == Put32(dest)
    && f[UDP_SRC] == Put16(det.udpSrc) && f[UDP_DST] == Put16(det.udpDst)
    && f[SEQ] == Put32(n) && f[SEC] == Put32(sec) && f[USEC] == Put32(usec)
  }

  lemma DressedCarries(det: Det, dest: int, n: int, sec: int, usec: int)
    requires det.Valid() && det.HoldsHeaders()
    ensures Carries(det, Dressed(det, dest, Put32(n), Put32(sec), Put32(usec)), dest, n, sec, usec)
  {
    FieldsShaped(det, dest, IpCheck(det, dest), Put32(n), Put32(sec), Put32(usec));
  }

  /** The flow of a frame stamped with sequence number n and the time sec, usec: everything that
      was put in, except that of the VLAN id only the low byte survives. */
  function Expected(det: Det, dest: int, n: int, sec: int, usec: int): Flow {
    Flow(det.macSrc, det.macDst, 0x0800, if det.Tagged() then det.vlan % 256 else 0xffff,
         Put32(det.srcIp), Put32(dest), 17, det.udpSrc, det.udpDst, n % U32, sec % U32, usec % U32)
  }

  /** What the extractor sees of the link header. */
  predicate LinkSeen(det: Det, b: seq<byte>) {
    && |b| == det.size && det.HoldsHeaders()
    && b[0..6] == det.macDst && b[6..12] == det.macSrc
    && LinkLength(b) == det.Link()
    && (Get16(b, 12) == 0x8100 <==> det.Tagged())
    && (det.Tagged() ==> Get16(b, 16) == 0x0800 && VlanOf(b) == det.vlan % 256)
    && (!det.Tagged() ==> Get16(b, 12) == 0x0800)
  }

  predicate IpSeen(det: Det, b: seq<byte>, dest: int) {
    var l := det.Link();
    && l + 44 <= |b|
    && b[l] == 0x45
    && b[l + 12..l + 16] == Put32(det.srcIp) && b[l + 16..l + 20] == Put32(dest)
    && Get16(b, l + 20) == det.udpSrc && Get16(b, l + 22) == det.udpDst
  }

  predicate StampSeen(det: Det, b: seq<byte>, n: int, sec: int, usec: int) {
    var l := det.Link();
    && l + 44 <= |b|
    && Get32(b, l + 32) == n % U32 && Get32(b, l + 36) == sec % U32 && Get32(b, l + 40) == usec % U32
  }

  lemma SeesLink(det: Det, f: seq<seq<byte>>, dest: int, n: int, sec: int, usec: int)
    requires det.Valid() && det.HoldsHeaders() && Carries(det, f, dest, n, sec, usec)
    ensures LinkSeen(det, Concat(f))
  {
    LinkReads(det, f);
    if det.Tagged() { TagReads(det.vlan, Concat(f)); }
  }

  lemma SeesVersion(det: Det, f: seq<seq<byte>>, dest: int, n: int, sec: int, usec: int)
    requires det.Valid() && det.HoldsHeaders() && Carries(det, f, dest, n, sec, usec)
    ensures |Concat(f)| > det.Link() && Concat(f)[det.Link()] == 0x45
  {
    ReadAt(det, f, VER);
    var b, l := Concat(f), det.Link();
    assert b[l] == b[l..l + 1][0];
  }

  lemma SeesAddresses(det: Det, f: seq<seq<byte>>, dest: int, n: int, sec: int, usec: int)
    requires det.Valid() && det.HoldsHeaders() && Carries(det, f, dest, n, sec, usec)
    ensures var b, l := Concat(f), det.Link();
            |b| >= l + 20 && b[l + 12..l + 16] == Put32(det.srcIp) && b[l + 16..l + 20] == Put32(dest)
  {
    ReadAt(det, f, SADDR);
    ReadAt(det, f, DADDR);
  }

  lemma SeesPorts(det: Det, f: seq<seq<byte>>, dest: int, n: int, sec: int, usec: int)
    requires det.Valid() && det.HoldsHeaders() && Carries(det, f, dest, n, sec, usec)
    ensures var b, l := Concat(f), det.Link();
            |b| >= l + 24 && Get16(b, l + 20) == det.udpSrc && Get16(b, l + 22) == det.udpDst
  {
    SeesPort(det, f, UDP_SRC, det.udpSrc);
    SeesPort(det, f, UDP_DST, det.udpDst);
  }

  lemma SeesPort(det: Det, f: seq<seq<byte>>, i: int, n: int)
    requires Shaped(det, f) && (i == UDP_SRC || i == UDP_DST) && f[i] == Put16(n) && 0 <= n < 65536
    ensures var at := det.Link() + 20 + 2 * (i - UDP_SRC);
            |Concat(f)| >= at + 2 && Get16(Concat(f), at) == n
  {
    assert At(det, i) == det.Link() + 20 + 2 * (i - UDP_SRC);
    Reads16(det, f, i, n);
  }

  lemma SeesIp(det: Det, f: seq<seq<byte>>, dest: int, n: int, sec: int, usec: int)
    requires det.Valid() && det.HoldsHeaders() && Carries(det, f, dest, n, sec, usec)
    ensures IpSeen(det, Concat(f), dest)
  {
    SeesVersion(det, f, dest, n, sec, usec);
    SeesAddresses(det, f, dest, n, sec, usec);
    SeesPorts(det, f, dest, n, sec, usec);
    ReadAt(det, f, USEC);
  }

  lemma SeesStamp(det: Det, f: seq<seq<byte>>, dest: int, n: int, sec: int, usec: int)
    requires det.Valid() && det.HoldsHeaders() && Carries(det, f, dest, n, sec, usec)
    ensures StampSeen(det, Concat(f), n, sec, usec)
  {
    Reads32(det, f, SEQ, n);
    Reads32(det, f, SEC, sec);
    Reads32(det, f, USEC, usec);
  }

  /** b holds what a frame stamped with n, sec and usec holds. */
  predicate Seen(det: Det, b: seq<byte>, dest: int, n: int, sec: int, usec: int) {
    LinkSeen(det, b) && IpSeen(det, b, dest) && StampSeen(det, b, n, sec, usec)
  }

  lemma DressedIsSeen(det: Det, dest: int, n: int, sec: int, usec: int)
    requires det.Valid() && det.HoldsHeaders()
    ensures Seen(det, Concat(Dressed(det, dest, Put32(n), Put32(sec), Put32(usec))), dest, n, sec, usec)
  {
    DressedCarries(det, dest, n, sec, usec);
    var f := Dressed(det, dest, Put32(n), Put32(sec), Put32(usec));
    SeesLink(det, f, dest, n, sec, usec);
    SeesIp(det, f, dest, n, sec, usec);
    SeesStamp(det, f, dest, n, sec, usec);
  }

  lemma FlowSeen(det: Det, b: seq<byte>, dest: int, n: int, sec: int, usec: int)
    requires Seen(det, b, dest, n, sec, usec)
    ensures FlowAt(b, det.Link(), det.Link() + IP_HEADER) == Expected(det, dest, n, sec, usec)
  {
  }

  lemma SeenIsReadable(det: Det, b: seq<byte>, dest: int, n: int, sec: int, usec: int, port: int, channels: int)
    requires Seen(det, b, dest, n, sec, usec) && 0 <= port < channels
    ensures Readable(b) && Extract(b, port, channels) == Some(FlowAt(b, det.Link(), det.Link() + IP_HEADER))
  {
    var l := det.Link();
    assert b[l] as int % 16 * 4 == IP_HEADER;
  }

  /** The extractor finds in a stamped frame everything that was put in. */
  lemma ExtractFindsFields(det: Det, dest: int, n: int, sec: int, usec: int, port: int, channels: int)
    requires det.Valid() && det.HoldsHeaders() && 0 <= port < channels
    ensures var b := Concat(Dressed(det, dest, Put32(n), Put32(sec), Put32(usec)));
            Readable(b) && Extract(b, port, channels) == Some(Expected(det, dest, n, sec, usec))
  {
    DressedIsSeen(det, dest, n, sec, usec);
    var b := Concat(Dressed(det, dest, Put32(n), Put32(sec), Put32(usec)));
    SeenIsReadable(det, b, dest, n, sec, usec, port, channels);
    FlowSeen(det, b, dest, n, sec, usec);
  }

  lemma LowByteIsAllIff(vlan: int)
    requires 0 <= vlan < 65536
    ensures (if vlan != 0 && vlan != 0xffff then vlan % 256 else 0xffff) == vlan <==> 1 <= vlan <= 255 || vlan == 0xffff
  {
  }

  /** The VLAN id comes back exactly when it fits one byte, or when the frame is untagged by the
      value 0xffff that the extractor reports for untagged frames. */
  lemma VlanComesBackIff(det: Det, b: seq<byte>, dest: int, n: int, sec: int, usec: int, port: int, channels: int)
    requires det.Valid() && Seen(det, b, dest, n, sec, usec) && 0 <= port < channels
    ensures exists flow :: Readable(b) && Extract(b, port, channels) == Some(flow) &&
              (flow.dlVlan == det.vlan <==> 1 <= det.vlan <= 255 || det.vlan == 0xffff)
  {
    SeenIsReadable(det, b, dest, n, sec, usec, port, channels);
    FlowSeen(det, b, dest, n, sec, usec);
    LowByteIsAllIff(det.vlan);
    var flow := Expected(det, dest, n, sec, usec);
    assert Extract(b, port, channels) == Some(flow);
  }

  /** The fields of a frame that the extractor does not look at. */
  predicate AlsoCarries(det: Det, f: seq<seq<byte>>)
    requires det.Valid() && det.HoldsHeaders()
  {
    && Shaped(det, f)
    && f[4] == [0] && f[5] == Put16(det.size - det.Link()) && f[6] == [0, 0, 0, 0] && f[7] == [100] && f[8] == [17]
    && f[14] == Put16(det.size - det.Link() - 20) && f[15] == [0, 0] && f[16] == Put32(0xbe9be955)
    && f[20] == Zeros(det.size - det.Link() - 44)
  }

  /** An IP header without options: no type of service, identification or fragment, time to live 100,
      protocol 17. */
  lemma IpBytes(det: Det, f: seq<seq<byte>>)
    requires det.Valid() && det.HoldsHeaders() && AlsoCarries(det, f)
    ensures var b, l := Concat(f), det.Link();
            && |b| >= l + 10 && Get16(b, l + 2) == (det.size - l) % 65536
            && b[l + 1..l + 2] == [0] && b[l + 4..l + 8] == [0, 0, 0, 0]
            && b[l + 8..l + 9] == [100] && b[l + 9..l + 10] == [17]
  {
    ReadAt(det, f, 4);
    Reads16(det, f, 5, det.size - det.Link());
    ReadAt(det, f, 6);
    ReadAt(det, f, 7);
    ReadAt(det, f, 8);
  }

  /** A UDP header without checksum, the magic number, and zeros to the end. */
  lemma UdpBytes(det: Det, f: seq<seq<byte>>)
    requires det.Valid() && det.HoldsHeaders() && AlsoCarries(det, f)
    ensures var b, l := Concat(f), det.Link();
            && |b| == det.size
            && Get16(b, l + 24) == (det.size - l - 20) % 65536 && b[l + 26..l + 28] == [0, 0]
            && Get32(b, l + 28) == 0xbe9be955 && b[l + 44..] == Zeros(det.size - l - 44)
  {
    Reads16(det, f, 14, det.size - det.Link() - 20);
    ReadAt(det, f, 15);
    Reads32(det, f, 16, 0xbe9be955);
    ReadAt(det, f, 20);
    FrameSize(det, f);
  }

  lemma FrameSize(det: Det, f: seq<seq<byte>>)
    requires det.HoldsHeaders() && Shaped(det, f)
    ensures |Concat(f)| == det.size
  {
    OffsetIs(det, f, 20);
    OffsetNext(f, 20);
    assert f[..21] == f;
  }

  /** The tag of a tagged frame: type 0x8100, the high nibble of the id's high byte, its low byte, type 0x0800. */
  lemma TagOnWire(det: Det, dest: int, n: int, sec: int, usec: int)
    requires det.Valid() && det.HoldsHeaders() && det.Tagged()
    ensures var b := Concat(Dressed(det, dest, Put32(n), Put32(sec), Put32(usec)));
            && |b| >= 18 && b[12] == 0x81 && b[13] == 0x00 && b[16] == 0x08 && b[17] == 0x00
            && b[14] as int == det.vlan / 256 / 16 * 16 && b[15] as int == det.vlan % 256
  {
    var f := Dressed(det, dest, Put32(n), Put32(sec), Put32(usec));
    DressedCarries(det, dest, n, sec, usec);
    LinkReads(det, f);
    var b := Concat(f);
    assert b[14] == b[14..16][0] && b[15] == b[14..16][1];
    TagValue(det.vlan / 256, det.vlan % 256);
    assert Get16(b, 12) == 0x8100 && Get16(b, 16) == 0x0800;
  }

  /** The rest of every frame sent, byte by byte. */
  lemma FrameBytes(det: Det, dest: int, n: int, sec: int, usec: int)
    requires det.Valid() && det.HoldsHeaders()
    ensures var b, l := Concat(Dressed(det, dest, Put32(n), Put32(sec), Put32(usec))), det.Link();
            && |b| == det.size
            && b[l + 1..l + 2] == [0] && Get16(b, l + 2) == (det.size - l) % 65536 && b[l + 4..l + 8] == [0, 0, 0, 0]
            && b[l + 8..l + 9] == [100] && b[l + 9..l + 10] == [17]
            && Get16(b, l + 24) == (det.size - l - 20) % 65536 && b[l + 26..l + 28] == [0, 0]
            && Get32(b, l + 28) == 0xbe9be955 && b[l + 44..] == Zeros(det.size - l - 44)
  {
    var f := Dressed(det, dest, Put32(n), Put32(sec), Put32(usec));
    AlsoCarried(det, dest, n, sec, usec);
    IpBytes(det, f);
    UdpBytes(det, f);
  }

  lemma AlsoCarried(det: Det, dest: int, n: int, sec: int, usec: int)
    requires det.Valid() && det.HoldsHeaders()
    ensures AlsoCarries(det, Dressed(det, dest, Put32(n), Put32(sec), Put32(usec)))
  {
    FieldsShaped(det, dest, IpCheck(det, dest), Put32(n), Put32(sec), Put32(usec));
  }

  /** Every dressed frame carries a valid IP header checksum: the Internet checksum over its IP
      header, checksum field included, is zero. */
  lemma FrameChecksumValid(det: Det, dest: int, n: int, sec: int, usec: int)
    requires det.Valid() && det.HoldsHeaders()
    ensures var b := Concat(Dressed(det, dest, Put32(n), Put32(sec), Put32(usec)));
            |b| >= det.Link() + IP_HEADER && InternetChecksum(b[det.Link()..det.Link() + IP_HEADER]) == 0
  {
    var f := Dressed(det, dest, Put32(n), Put32(sec), Put32(usec));
    FieldsShaped(det, dest, IpCheck(det, dest), Put32(n), Put32(sec), Put32(usec));
    IpRange(det, f);
    DressedHeader(det, dest, IpCheck(det, dest), Put32(n), Put32(sec), Put32(usec));
    HeaderVerifies(det, dest);
    IpOffsets(det, dest, IpCheck(det, dest));
    EvenLengthIsInternetChecksum(Concat(IpFields(det, dest, IpCheck(det, dest))));
  }

  // ---------------------------------------------------------------- destinations

  /** How many destinations the stream has. */
  function Flows(det: Det): int {
    (det.dstMax - det.dstMin) % U32 + 1
  }

  /** The n-th frame goes to the n-th address behind the first, cyclically. */
  lemma {:induction false} DestIs(det: Det, n: nat, k: int)
    requires det.Valid() && k == Flows(det)
    ensures DestAfter(det, n) == (det.dstMin + n % k) % U32
    decreases n
  {
    if n == 0 {
      ModOf(0, k, 0, 0);
    } else {
      var r := (n - 1) % k;
      DestIs(det, n - 1, k);
      DivMod(n - 1, k);
      DestNext(det, n, r, k);
      NextRemainder(n, k);
    }
  }

  lemma DestNext(det: Det, n: nat, r: int, k: int)
    requires det.Valid() && k == Flows(det) && 0 <= r < k && n > 0 && DestAfter(det, n - 1) == (det.dstMin + r) % U32
    ensures DestAfter(det, n) == (det.dstMin + if r + 1 == k then 0 else r + 1) % U32
  {
    NextDestIs(det, r, k);
  }

  lemma NextDestIs(det: Det, r: int, k: int)
    requires det.Valid() && k == Flows(det) && 0 <= r < k
    ensures NextDest(det, (det.dstMin + r) % U32) == (det.dstMin + if r + 1 == k then 0 else r + 1) % U32
  {
  }

  lemma AddressesDiffer(min: int, i: int, j: int)
    requires 0 <= i < U32 && 0 <= j < U32 && (min + i) % U32 == (min + j) % U32
    ensures i == j
  {
  }

  /** Among any Flows(det) frames in a row, exactly one goes to the i-th address. */
  lemma EachDestinationOnce(det: Det, from: nat, i: int) returns (n: nat)
    requires det.Valid() && 0 <= i < Flows(det)
    ensures from <= n < from + Flows(det) && DestAfter(det, n) == (det.dstMin + i) % U32
    ensures forall m: nat | from <= m < from + Flows(det) && DestAfter(det, m) == (det.dstMin + i) % U32 :: m == n
  {
    var k := Flows(det);
    n := CycleHits(from, k, i);
    DestIs(det, n, k);
    forall m: nat | from <= m < from + k && DestAfter(det, m) == (det.dstMin + i) % U32
      ensures m == n
    {
      OnlyOne(det, m, n, k, i);
    }
  }

  lemma OnlyOne(det: Det, m: nat, n: nat, k: int, i: int)
    requires det.Valid() && k == Flows(det) && 0 <= i < k && -k < m - n < k && n % k == i
    requires DestAfter(det, m) == (det.dstMin + i) % U32
    ensures m == n
  {
    DestIs(det, m, k);
    DivMod(m, k);
    AddressesDiffer(det.dstMin, m % k, i);
    SameResidueClose(m, n, k);
  }
}
