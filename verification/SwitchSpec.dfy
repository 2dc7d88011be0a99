/** cbench/fakeswitch.c on values: what the fake switch says, how it reacts to a message, and
    how its two handlers change it. */
module SwitchSpec {
  import opened Bytes
  import opened Framing
  import opened Time

  datatype Mode = Latency | Throughput

  datatype Config = Config(id: int, mode: Mode, delay: int, totalMacs: int) {
    predicate Valid() {
      totalMacs >= 1
    }
  }

  type Xid4 = x: seq<byte> | |x| == 4 witness [0, 0, 0, 0]

  /** What the switch puts into its output buffer. */
  datatype Out =
    | Hello
    | FeaturesReply(xid: Xid4)
    | VendorError(xid: Xid4)
    | EchoReply(xid: Xid4)
    | Probe(mac: int)

  /** The fields of struct fakeswitch that change: the bytes in the input buffer, the messages put
      into the output buffer so far, and the counters. ready is 0 before the features reply,
      2 while the start is delayed, then 1. */
  datatype Sw = Sw(inb: seq<byte>, said: seq<Out>, count: int, probe: int, ready: int,
                   delayStart: Timeval, mac: int)

  /** A switch that has just been initialised has queued its HELLO. */
  function Booted(): Sw {
    Sw([], [Hello], 0, 0, 0, Timeval(0, 0), 0)
  }

  // ---------------------------------------------------------------- the messages it makes

  const OFP_VERSION: byte := 1
  const PROBE_SIZE := 82
  const FEATURES_SIZE := 224
  const ERROR_SIZE := 12
  const BAD_REQUEST := 1
  const BAD_VENDOR := 3

  /** One 48-byte port description of the canned features reply: vethN, 10 Gb/s curr bits. */
  function FakePort(no: int, hw: seq<byte>, digit: byte): (s: seq<byte>)
    requires |hw| == 6
    ensures |s| == 48
  {
    Put16(no) + hw + [0x76, 0x65, 0x74, 0x68, digit] + Zeros(11) + Zeros(8) + [0, 0, 0, 0xc0] + Zeros(12)
  }

  function FakePorts(): (s: seq<byte>)
    ensures |s| == 192
  {
    FakePort(0, [0x1a, 0xc1, 0x51, 0xff, 0xef, 0x8a], 0x31) + FakePort(1, [0xce, 0x2f, 0xa2, 0x87, 0xf6, 0x70], 0x33) +
    FakePort(2, [0xca, 0x8a, 0x1e, 0xf3, 0x77, 0xef], 0x35) + FakePort(3, [0xfa, 0xbc, 0x77, 0x8d, 0x7e, 0x0b], 0x37)
  }

  /** The canned Ethernet type and IP packet behind the addresses of a probe. */
  function ProbePayload(): (s: seq<byte>)
    ensures |s| == 52
  {
    [0x08, 0x00] +
    [0x45, 0x00, 0x00, 0x32, 0x00, 0x00, 0x00, 0x00, 0x40, 0xff, 0xf7, 0x2c,
     0xc0, 0xa8, 0x00, 0x28, 0xc0, 0xa8, 0x01, 0x28, 0x7a, 0x18, 0x58, 0x6b, 0x11, 0x08,
     0x97, 0xf5, 0x19, 0xe2, 0x65, 0x7e, 0x07, 0xcc, 0x31, 0xc3, 0x11, 0xc7, 0xc4, 0x0c,
     0x8b, 0x95, 0x51, 0x51, 0x33, 0x54, 0x51, 0xd5, 0x00, 0x36]
  }

  function Header(kind: byte, length: int, xid: Xid4): (s: seq<byte>)
    ensures |s| == HEADER
  {
    [OFP_VERSION, kind] + Put16(length) + xid
  }

  /** make_features_reply: the datapath id is the switch id as a 64-bit value in network order. */
  function MakeFeaturesReply(id: int, xid: Xid4): (s: seq<byte>)
    ensures |s| == FEATURES_SIZE && s[..HEADER] == Header(FEATURES_REPLY as byte, FEATURES_SIZE, xid)
  {
    Header(FEATURES_REPLY as byte, FEATURES_SIZE, xid) + Put32(id / 0x1_0000_0000) + Put32(id) +
    [0, 0, 1, 0, 2, 0, 0, 0, 0, 0, 0, 0x1f, 0, 0, 3, 0xff] + FakePorts()
  }

  /** make_vendor_reply: an error message, bad request, bad vendor. */
  function MakeVendorReply(xid: Xid4): (s: seq<byte>)
    ensures |s| == ERROR_SIZE && s[..HEADER] == Header(ERROR as byte, ERROR_SIZE, xid)
  {
    Header(ERROR as byte, ERROR_SIZE, xid) + Put16(BAD_REQUEST) + Put16(BAD_VENDOR)
  }

  /** make_packet_in with buffer id 0: the source address carries mac in host order behind its
      first byte, and both addresses end in the switch id. */
  function MakePacketIn(id: int, mac: int): (s: seq<byte>)
    ensures |s| == PROBE_SIZE && s[..HEADER] == Header(PACKET_IN as byte, PROBE_SIZE, [0, 0, 0, 0])
  {
    Header(PACKET_IN as byte, PROBE_SIZE, [0, 0, 0, 0]) + Put32(0) + [0, 0x40, 0, 0, 0, 0] +
    [0x80, 0, 0, 0, 0, Low(id)] + ([0] + PutHost32(mac) + [Low(id)]) + ProbePayload()
  }

  function Encode(id: int, o: Out): (s: seq<byte>)
    ensures |s| >= HEADER
  {
    match o
    case Hello => Header(HELLO as byte, HEADER, [0, 0, 0, 1])
    case FeaturesReply(xid) => MakeFeaturesReply(id, xid)
    case VendorError(xid) => MakeVendorReply(xid)
    case EchoReply(xid) => Header(ECHO_REPLY as byte, HEADER, xid)
    case Probe(mac) => MakePacketIn(id, mac)
  }

  function Encodings(id: int, os: seq<Out>): (ms: seq<seq<byte>>)
    ensures |ms| == |os|
  {
    seq(|os|, i requires 0 <= i < |os| => Encode(id, os[i]))
  }

  /** The bytes of a list of messages. */
  function Wire(id: int, os: seq<Out>): seq<byte> {
    Concat(Encodings(id, os))
  }

  function KindOf(o: Out): int {
    match o
    case Hello => HELLO
    case FeaturesReply(_) => FEATURES_REPLY
    case VendorError(_) => ERROR
    case EchoReply(_) => ECHO_REPLY
    case Probe(_) => PACKET_IN
  }

  lemma HeaderFields(kind: byte, length: int, xid: Xid4, m: seq<byte>)
    requires 0 <= length < 65536 && |m| >= HEADER && m[..HEADER] == Header(kind, length, xid)
    ensures Length(m) == length && Kind(m) == kind as int && Xid(m) == xid
  {
    var h := m[..HEADER];
    assert m[1] == h[1] && m[2..4] == h[2..4] && m[4..8] == h[4..8];
    Get16At(m, 2, length);
  }

  /** Every message the switch makes is as long as its length field says and names its kind; the
      replies carry the transaction id they were made with. */
  lemma EncodeExact(id: int, o: Out)
    ensures Exact(Encode(id, o)) && Sound(Encode(id, o)) && Kind(Encode(id, o)) == KindOf(o)
    ensures !o.Hello? && !o.Probe? ==> Xid(Encode(id, o)) == o.xid
  {
    var m := Encode(id, o);
    match o {
      case Hello => HeaderFields(HELLO as byte, HEADER, [0, 0, 0, 1], m);
      case FeaturesReply(xid) => HeaderFields(FEATURES_REPLY as byte, FEATURES_SIZE, xid, m);
      case VendorError(xid) => HeaderFields(ERROR as byte, ERROR_SIZE, xid, m);
      case EchoReply(xid) => HeaderFields(ECHO_REPLY as byte, HEADER, xid, m);
      case Probe(mac) => HeaderFields(PACKET_IN as byte, PROBE_SIZE, [0, 0, 0, 0], m);
    }
  }

  // ---------------------------------------------------------------- the messages, byte by byte

  /** The first eight bytes: version 1, the type, the size, and the transaction id, which is that of the
      request, 1 for the HELLO and 0 for a probe. */
  lemma HeaderBytes(id: int, o: Out)
    ensures var m := Encode(id, o);
            && m[0] == 1
            && m[1] == (match o case Hello => 0 case FeaturesReply(_) => 6 case VendorError(_) => 1
                              case EchoReply(_) => 3 case Probe(_) => 10)
            && |m| == (match o case Hello => 8 case FeaturesReply(_) => 224 case VendorError(_) => 12
                              case EchoReply(_) => 8 case Probe(_) => 82)
            && m[2] == 0 && m[3] as int == |m|
            && m[4..8] == (match o case Hello => [0, 0, 0, 1] case Probe(_) => [0, 0, 0, 0]
                                 case FeaturesReply(x) => x case VendorError(x) => x case EchoReply(x) => x)
  {
    var m := Encode(id, o);
    assert m[..8] == Header(m[1], |m|, m[4..8]);
  }

  /** The features reply: the switch id as a 64-bit datapath id, 256 buffers, 2 tables, the capabilities
      and actions of the canned reply, and four ports of 48 bytes. */
  lemma FeaturesBytes(id: int, xid: Xid4)
    ensures var m := Encode(id, FeaturesReply(xid));
            && Get32(m, 8) == id / 0x1_0000_0000 % 0x1_0000_0000 && Get32(m, 12) == id % 0x1_0000_0000
            && Get32(m, 16) == 256 && m[20] == 2 && Get32(m, 24) == 0x1f && Get32(m, 28) == 0x3ff
  {
    var m := Encode(id, FeaturesReply(xid));
    var head := Header(FEATURES_REPLY as byte, FEATURES_SIZE, xid);
    var hi, lo, canned := Put32(id / 0x1_0000_0000), Put32(id), [0, 0, 1, 0, 2, 0, 0, 0, 0, 0, 0, 0x1f, 0, 0, 3, 0xff];
    FivePieces(head, hi, lo, canned, FakePorts());
    Get32At(m, 8, id / 0x1_0000_0000);
    Get32At(m, 12, id);
    assert m[16] == m[16..32][0] && m[17] == m[16..32][1] && m[18] == m[16..32][2] && m[19] == m[16..32][3];
    assert m[20] == m[16..32][4] && m[24..28] == m[16..32][8..12] && m[28..32] == m[16..32][12..16];
  }

  lemma FeaturesPorts(id: int, xid: Xid4)
    ensures var m := Encode(id, FeaturesReply(xid));
            m[32..34] == [0, 0] && m[80..82] == [0, 1] && m[128..130] == [0, 2] && m[176..178] == [0, 3]
  {
    var m := Encode(id, FeaturesReply(xid));
    var head := Header(FEATURES_REPLY as byte, FEATURES_SIZE, xid);
    FivePieces(head, Put32(id / 0x1_0000_0000), Put32(id), [0, 0, 1, 0, 2, 0, 0, 0, 0, 0, 0, 0x1f, 0, 0, 3, 0xff],
               FakePorts());
    PortNumbers();
    assert m[32..34] == m[32..][0..2] && m[80..82] == m[32..][48..50];
    assert m[128..130] == m[32..][96..98] && m[176..178] == m[32..][144..146];
  }

  lemma FivePieces(a: seq<byte>, b: seq<byte>, c: seq<byte>, d: seq<byte>, e: seq<byte>)
    requires |a| == 8 && |b| == 4 && |c| == 4 && |d| == 16
    ensures var m := a + b + c + d + e; m[8..12] == b && m[12..16] == c && m[16..32] == d && m[32..] == e
  {
  }

  lemma PortNumbers()
    ensures FakePorts()[0..2] == [0, 0] && FakePorts()[48..50] == [0, 1]
    ensures FakePorts()[96..98] == [0, 2] && FakePorts()[144..146] == [0, 3]
  {
    PortNumber(0, [0x1a, 0xc1, 0x51, 0xff, 0xef, 0x8a], 0x31);
    PortNumber(1, [0xce, 0x2f, 0xa2, 0x87, 0xf6, 0x70], 0x33);
    PortNumber(2, [0xca, 0x8a, 0x1e, 0xf3, 0x77, 0xef], 0x35);
    PortNumber(3, [0xfa, 0xbc, 0x77, 0x8d, 0x7e, 0x0b], 0x37);
    FourPorts(FakePort(0, [0x1a, 0xc1, 0x51, 0xff, 0xef, 0x8a], 0x31),
              FakePort(1, [0xce, 0x2f, 0xa2, 0x87, 0xf6, 0x70], 0x33),
              FakePort(2, [0xca, 0x8a, 0x1e, 0xf3, 0x77, 0xef], 0x35),
              FakePort(3, [0xfa, 0xbc, 0x77, 0x8d, 0x7e, 0x0b], 0x37));
  }

  lemma PortNumber(no: int, hw: seq<byte>, digit: byte)
    requires |hw| == 6
    ensures FakePort(no, hw, digit)[0..2] == Put16(no)
  {
  }

  lemma FourPorts(a: seq<byte>, b: seq<byte>, c: seq<byte>, d: seq<byte>)
    requires |a| == 48 && |b| == 48 && |c| == 48 && |d| == 48
    ensures var m := a + b + c + d;
            m[0..2] == a[0..2] && m[48..50] == b[0..2] && m[96..98] == c[0..2] && m[144..146] == d[0..2]
  {
  }

  /** The vendor reply: error type 1 (bad request), code 3 (bad vendor). */
  lemma VendorBytes(id: int, xid: Xid4)
    ensures var m := Encode(id, VendorError(xid)); m[8] == 0 && m[9] == 1 && m[10] == 0 && m[11] == 3
  {
    var m := Encode(id, VendorError(xid));
    assert m[8..10] == Put16(BAD_REQUEST) && m[10..12] == Put16(BAD_VENDOR);
    assert m[8] == m[8..10][0] && m[9] == m[8..10][1] && m[10] == m[10..12][0] && m[11] == m[10..12][1];
  }

  /** A probe: no buffer, 64 bytes from port 0, and a frame whose source address carries the probe's
      number behind its first byte; both addresses end in the low byte of the switch id. */
  lemma ProbeBytes(id: int, mac: int)
    ensures var m := Encode(id, Probe(mac));
            && Get32(m, 8) == 0 && Get16(m, 12) == 64 && Get16(m, 14) == 0
            && m[18..23] == [0x80, 0, 0, 0, 0] && m[23] == Low(id)
            && m[24] == 0 && GetHost32(m, 25) == mac % 0x1_0000_0000 && m[29] == Low(id)
            && m[30] == 0x08 && m[31] == 0x00
  {
    var m := Encode(id, Probe(mac));
    var p := PutHost32(mac);
    PutHostGet(mac);
    assert m[25] == p[0] && m[26] == p[1] && m[27] == p[2] && m[28] == p[3];
    assert m[30..] == ProbePayload();
    assert m[30] == m[30..][0] && m[31] == m[30..][1];
  }

  lemma EncodingsAppend(id: int, os: seq<Out>, ps: seq<Out>)
    ensures Encodings(id, os + ps) == Encodings(id, os) + Encodings(id, ps)
  {
    var a, b := Encodings(id, os + ps), Encodings(id, os) + Encodings(id, ps);
    forall i | 0 <= i < |a|
      ensures a[i] == b[i]
    {
      assert (os + ps)[i] == if i < |os| then os[i] else ps[i - |os|];
    }
  }

  lemma WireAppend(id: int, os: seq<Out>, ps: seq<Out>)
    ensures Wire(id, os + ps) == Wire(id, os) + Wire(id, ps)
  {
    EncodingsAppend(id, os, ps);
    ConcatAppend(Encodings(id, os), Encodings(id, ps));
  }

  lemma WireOne(id: int, o: Out)
    ensures Wire(id, [o]) == Encode(id, o)
  {
    assert Encodings(id, [o]) == [Encode(id, o)];
    assert Concat([Encode(id, o)]) == Encode(id, o) + Concat([]);
  }

  /** The bytes of any list of the switch's messages are cut back into exactly these messages. */
  lemma WireIsCutBack(id: int, os: seq<Out>)
    ensures Steady(Wire(id, os))
    ensures Messages(Wire(id, os)) == Encodings(id, os) && Rest(Wire(id, os)) == []
  {
    forall m | m in Encodings(id, os)
      ensures Exact(m) && Sound(m)
    {
      var i :| 0 <= i < |os| && Encodings(id, os)[i] == m;
      EncodeExact(id, os[i]);
    }
    CutInvertsConcat(Encodings(id, os));
  }

  // ---------------------------------------------------------------- reading

  /** A packet-out, or a flow-mod that adds or strictly modifies, answers a probe. */
  predicate IsResponse(m: seq<byte>)
    requires |m| >= HEADER
  {
    || Kind(m) == PACKET_OUT
    || (&& Kind(m) == FLOW_MOD && |m| >= FLOW_MOD_COMMAND + 2
        && Get16(m, FLOW_MOD_COMMAND) in {FLOW_ADD, FLOW_MODIFY_STRICT})
  }

  predicate IsRequest(m: seq<byte>)
    requires |m| >= HEADER
  {
    Kind(m) in {FEATURES_REQUEST, VENDOR, ECHO_REQUEST}
  }

  /** C's division and remainder, towards zero. */
  function CDiv(a: int, b: int): int
    requires b > 0
  {
    if a >= 0 then a / b else -((-a) / b)
  }

  function CMod(a: int, b: int): int
    requires b > 0
  {
    a - b * CDiv(a, b)
  }

  function DelayStart(c: Config, now: Timeval): Timeval {
    Timeval(now.sec + CDiv(c.delay, 1000), now.usec + CMod(c.delay, 1000) * 1000)
  }

  /** The switch statement of fakeswitch_handle_read. */
  function React(c: Config, sw: Sw, m: seq<byte>, now: Timeval): Sw
    requires |m| >= HEADER
  {
    if IsResponse(m) then
      sw.(count := sw.count + 1, probe := sw.probe - 1)
    else if Kind(m) == FEATURES_REQUEST then
      var told := sw.(said := sw.said + [FeaturesReply(Xid(m))]);
      if c.delay == 0 then told.(ready := 1) else told.(ready := 2, delayStart := DelayStart(c, now))
    else if Kind(m) == VENDOR then
      sw.(said := sw.said + [VendorError(Xid(m))], probe := 0)
    else if Kind(m) == ECHO_REQUEST then
      sw.(said := sw.said + [EchoReply(Xid(m))])
    else
      sw
  }

  /** One message: the switch statement, then the probe count is kept from going negative. */
  function Dispatch(c: Config, sw: Sw, m: seq<byte>, now: Timeval): Sw
    requires |m| >= HEADER
  {
    var s := React(c, sw, m, now);
    if s.probe < 0 then s.(probe := 0) else s
  }

  /** What a message does to the counters, on its bytes: type 13 (packet-out) always answers a probe,
      type 14 (flow-mod) exactly with command 0 (add) or 2 (modify strictly), no other type does; an
      answer is counted and takes a probe off, type 4 (vendor) takes all off. */
  lemma CountsOnBytes(c: Config, sw: Sw, m: seq<byte>, now: Timeval)
    requires |m| >= 8 && (m[1] == 14 ==> |m| >= 58) && sw.probe >= 0
    ensures var sw' := Dispatch(c, sw, m, now);
            var answers := m[1] == 13 || (m[1] == 14 && m[56] == 0 && (m[57] == 0 || m[57] == 2));
            && sw'.count == sw.count + (if answers then 1 else 0)
            && sw'.probe == (if answers && sw.probe > 0 then sw.probe - 1 else if m[1] == 4 then 0 else sw.probe)
  {
  }

  /** What it makes the switch say and when it makes it ready, on its bytes: type 5 (features request),
      type 4 (vendor) and type 2 (echo request) are answered with the transaction id of bytes 4 to 7, and
      type 5 starts the probes, at once or after the configured milliseconds. */
  lemma ReactsOnBytes(c: Config, sw: Sw, m: seq<byte>, now: Timeval)
    requires |m| >= 8
    ensures var sw' := Dispatch(c, sw, m, now);
            && sw'.said == sw.said + (if m[1] == 5 then [FeaturesReply(m[4..8])]
                                      else if m[1] == 4 then [VendorError(m[4..8])]
                                      else if m[1] == 2 then [EchoReply(m[4..8])] else [])
            && (m[1] != 5 ==> sw'.ready == sw.ready && sw'.delayStart == sw.delayStart)
            && (m[1] == 5 && c.delay == 0 ==> sw'.ready == 1)
            && (m[1] == 5 && c.delay != 0 ==>
                  sw'.ready == 2 && sw'.delayStart.Micros() == now.Micros() + c.delay * 1000)
  {
    assert CDiv(c.delay, 1000) * 1000 + CMod(c.delay, 1000) == c.delay;
  }

  /** A delayed switch becomes ready at the first write after its start, and sends nothing before. */
  lemma DelayEnds(c: Config, sw: Sw, buffered: nat, now: Timeval)
    requires c.Valid() && sw.ready == 2 && sw.delayStart.Normal() && now.Normal()
    ensures Prepare(c, sw, buffered, now) == if sw.delayStart.Micros() < now.Micros() then sw.(ready := 1) else sw
  {
    LessIsEarlier(sw.delayStart, now);
  }

  /** The start is not normalised, so probes can go out before the configured milliseconds are over: exactly
      when the microseconds of the request and of the delay together exceed a second. */
  lemma StartsEarlyIff(c: Config, at: Timeval)
    requires at.Normal() && c.delay >= 0
    ensures (exists now: Timeval ::
               now.Normal() && Less(DelayStart(c, at), now) && now.Micros() < at.Micros() + c.delay * 1000)
       <==> at.usec + c.delay % 1000 * 1000 > 1_000_000
  {
    var start := DelayStart(c, at);
    assert c.delay == c.delay / 1000 * 1000 + c.delay % 1000;
    assert start.Micros() == at.Micros() + c.delay * 1000;
    if at.usec + c.delay % 1000 * 1000 > 1_000_000 {
      var now := Timeval(start.sec + 1, 0);
      assert now.Normal() && Less(start, now) && now.Micros() < start.Micros();
    }
  }

  /** The loop of fakeswitch_handle_read over what is buffered. */
  function HandleAll(c: Config, sw: Sw, now: Timeval): Sw
    requires Steady(sw.inb)
    decreases |sw.inb|
  {
    if Complete(sw.inb)
    then HandleAll(c, Dispatch(c, sw.(inb := sw.inb[Length(sw.inb)..]), View(sw.inb), now), now)
    else sw
  }

  /** fakeswitch_handle_read when the socket delivers chunk. */
  function HandleRead(c: Config, sw: Sw, chunk: seq<byte>, now: Timeval): Sw
    requires Steady(sw.inb + chunk)
  {
    HandleAll(c, sw.(inb := sw.inb + chunk), now)
  }

  /** Reference: dispatch a list of messages one after the other. */
  function DispatchAll(c: Config, sw: Sw, ms: seq<seq<byte>>, now: Timeval): Sw
    requires forall m | m in ms :: |m| >= HEADER
    decreases |ms|
  {
    if ms == [] then sw else DispatchAll(c, Dispatch(c, sw, ms[0], now), ms[1..], now)
  }

  lemma {:induction false} MessagesHaveHeaders(s: seq<byte>)
    requires Steady(s)
    ensures forall m | m in Messages(s) :: |m| >= HEADER
    decreases |s|
  {
    if Complete(s) {
      MessagesHaveHeaders(s[Length(s)..]);
    }
  }

  lemma DispatchIgnoresInput(c: Config, sw: Sw, m: seq<byte>, now: Timeval, x: seq<byte>)
    requires |m| >= HEADER
    ensures Dispatch(c, sw.(inb := x), m, now) == Dispatch(c, sw, m, now).(inb := x)
  {
  }

  lemma {:induction false} DispatchAllIgnoresInput(c: Config, sw: Sw, ms: seq<seq<byte>>, now: Timeval, x: seq<byte>)
    requires forall m | m in ms :: |m| >= HEADER
    ensures DispatchAll(c, sw.(inb := x), ms, now) == DispatchAll(c, sw, ms, now).(inb := x)
    decreases |ms|
  {
    if ms != [] {
      DispatchIgnoresInput(c, sw, ms[0], now, x);
      DispatchAllIgnoresInput(c, Dispatch(c, sw, ms[0], now), ms[1..], now, x);
    }
  }

  lemma DispatchAllFirst(c: Config, sw: Sw, m: seq<byte>, ms: seq<seq<byte>>, now: Timeval)
    requires |m| >= HEADER && forall k | k in ms :: |k| >= HEADER
    ensures DispatchAll(c, sw, [m] + ms, now) == DispatchAll(c, Dispatch(c, sw, m, now), ms, now)
  {
    assert ([m] + ms)[1..] == ms;
  }

  /** The handler dispatches exactly the messages of the stream, in order, and leaves the rest. */
  lemma {:induction false} HandlesExactlyTheMessages(c: Config, sw: Sw, now: Timeval)
    requires Steady(sw.inb)
    ensures forall m | m in Messages(sw.inb) :: |m| >= HEADER
    ensures HandleAll(c, sw, now) == DispatchAll(c, sw, Messages(sw.inb), now).(inb := Rest(sw.inb))
    decreases |sw.inb|
  {
    var s := sw.inb;
    MessagesHaveHeaders(s);
    if Complete(s) {
      var v, t := View(s), s[Length(s)..];
      MessagesHaveHeaders(t);
      DispatchIgnoresInput(c, sw, v, now, t);
      var sw' := Dispatch(c, sw, v, now).(inb := t);
      HandlesExactlyTheMessages(c, sw', now);
      DispatchAllIgnoresInput(c, Dispatch(c, sw, v, now), Messages(t), now, t);
      DispatchAllFirst(c, sw, v, Messages(t), now);
    }
  }

  lemma {:induction false} DispatchAllAppend(c: Config, sw: Sw, ms: seq<seq<byte>>, ns: seq<seq<byte>>, now: Timeval)
    requires forall m | m in ms + ns :: |m| >= HEADER
    ensures forall m | m in ms :: |m| >= HEADER
    ensures forall m | m in ns :: |m| >= HEADER
    ensures DispatchAll(c, sw, ms + ns, now) == DispatchAll(c, DispatchAll(c, sw, ms, now), ns, now)
    decreases |ms|
  {
    assert forall m | m in ms :: m in ms + ns;
    assert forall m | m in ns :: m in ms + ns;
    if ms == [] {
      assert ms + ns == ns;
    } else {
      assert (ms + ns)[1..] == ms[1..] + ns;
      DispatchAllAppend(c, Dispatch(c, sw, ms[0], now), ms[1..], ns, now);
    }
  }

  /** A run of reads. */
  function HandleReads(c: Config, sw: Sw, chunks: seq<seq<byte>>, now: Timeval): Sw
    requires Steady(sw.inb + Concat(chunks)) && !Complete(sw.inb)
    decreases |chunks|
  {
    if chunks == [] then sw
    else
      OneReadAtATime(c, sw, chunks[0], Concat(chunks[1..]), now);
      HandleReads(c, HandleRead(c, sw, chunks[0], now), chunks[1..], now)
  }

  lemma OneReadAtATime(c: Config, sw: Sw, x: seq<byte>, y: seq<byte>, now: Timeval)
    requires Steady(sw.inb + (x + y))
    ensures Steady(sw.inb + x)
    ensures var sw' := HandleRead(c, sw, x, now);
            !Complete(sw'.inb) && Steady(sw'.inb + y) && HandleRead(c, sw', y, now) == HandleRead(c, sw, x + y, now)
  {
    var s := sw.inb + x;
    assert s + y == sw.inb + (x + y);
    SteadyPrefix(s, y);
    CutAnywhere(s, y);
    var sw0 := sw.(inb := s);
    HandlesExactlyTheMessages(c, sw0, now);
    var sw' := HandleRead(c, sw, x, now);
    assert sw'.inb == Rest(s);
    var sw1 := sw'.(inb := Rest(s) + y);
    HandlesExactlyTheMessages(c, sw1, now);
    var sw2 := sw.(inb := s + y);
    HandlesExactlyTheMessages(c, sw2, now);
    SplitDispatch(c, sw, Messages(s), Messages(Rest(s) + y), now, s, Rest(s) + y, s + y);
  }

  /** Dispatching two lists in a row, whatever the input buffer holds meanwhile. */
  lemma SplitDispatch(c: Config, sw: Sw, ms: seq<seq<byte>>, ns: seq<seq<byte>>, now: Timeval,
                      a: seq<byte>, b: seq<byte>, d: seq<byte>)
    requires forall m | m in ms :: |m| >= HEADER
    requires forall m | m in ns :: |m| >= HEADER
    ensures forall m | m in ms + ns :: |m| >= HEADER
    ensures forall r :: DispatchAll(c, DispatchAll(c, sw.(inb := a), ms, now).(inb := b), ns, now).(inb := r)
                     == DispatchAll(c, sw.(inb := d), ms + ns, now).(inb := r)
  {
    DispatchAllIgnoresInput(c, sw, ms, now, a);
    DispatchAllIgnoresInput(c, DispatchAll(c, sw, ms, now), ns, now, b);
    DispatchAllIgnoresInput(c, sw, ms + ns, now, d);
    DispatchAllAppend(c, sw, ms, ns, now);
  }

  /** However a stream is cut into reads, the switch ends in the same state: same count, probe
      state, readiness, output bytes and leftover. */
  lemma {:induction false} ChunkingIsIrrelevant(c: Config, sw: Sw, chunks: seq<seq<byte>>, now: Timeval)
    requires Steady(sw.inb + Concat(chunks)) && !Complete(sw.inb)
    ensures HandleReads(c, sw, chunks, now) == HandleRead(c, sw, Concat(chunks), now)
    ensures !Complete(HandleReads(c, sw, chunks, now).inb)
    decreases |chunks|
  {
    if chunks == [] {
      assert sw.inb + Concat(chunks) == sw.inb;
    } else {
      OneReadAtATime(c, sw, chunks[0], Concat(chunks[1..]), now);
      ChunkingIsIrrelevant(c, HandleRead(c, sw, chunks[0], now), chunks[1..], now);
    }
  }

  // ---------------------------------------------------------------- when the read loop ends

  /** What msgbuf_pull leaves: a count of zero or less takes nothing. */
  function Pulled(s: seq<byte>, n: int): seq<byte> {
    if n <= 0 then s else if n >= |s| then [] else s[n..]
  }

  /** The input buffer after n turns of the read loop, or where the loop ended. */
  function AfterTurns(s: seq<byte>, n: nat): seq<byte>
    decreases n
  {
    if n == 0 || !Complete(s) then s else AfterTurns(Pulled(s, Length(s)), n - 1)
  }

  /** No complete message announces length zero. */
  predicate NoZeroLength(s: seq<byte>)
    decreases |s|
  {
    Complete(s) ==> Length(s) != 0 && NoZeroLength(s[Length(s)..])
  }

  lemma {:induction false} StuckOnZero(s: seq<byte>, n: nat)
    requires !NoZeroLength(s)
    ensures Complete(AfterTurns(s, n))
    decreases n
  {
    if n > 0 {
      if Length(s) == 0 {
        StuckOnZero(s, n - 1);
      } else {
        assert Pulled(s, Length(s)) == s[Length(s)..];
        StuckOnZero(s[Length(s)..], n - 1);
      }
    }
  }

  lemma {:induction false} EndsWithoutZero(s: seq<byte>) returns (n: nat)
    requires NoZeroLength(s)
    ensures !Complete(AfterTurns(s, n))
    decreases |s|
  {
    if Complete(s) {
      assert Pulled(s, Length(s)) == s[Length(s)..];
      var k := EndsWithoutZero(s[Length(s)..]);
      n := k + 1;
    } else {
      n := 0;
    }
  }

  /** The read loop ends exactly when no buffered message announces length zero. */
  lemma ReadLoopEndsIff(s: seq<byte>)
    ensures (exists n: nat :: !Complete(AfterTurns(s, n))) <==> NoZeroLength(s)
  {
    if NoZeroLength(s) {
      var n := EndsWithoutZero(s);
    } else {
      forall n: nat
        ensures Complete(AfterTurns(s, n))
      {
        StuckOnZero(s, n);
      }
    }
  }

  // ---------------------------------------------------------------- writing

  const THROUGHPUT_BUFFER := 65536

  /** How many probes to queue with this many bytes still in the output buffer. */
  function SendCount(c: Config, sw: Sw, buffered: nat): (n: nat)
  {
    if c.mode == Latency && sw.probe == 0 then 1
    else if c.mode == Throughput && buffered < THROUGHPUT_BUFFER then (THROUGHPUT_BUFFER - buffered) / PROBE_SIZE
    else 0
  }

  /** The next n probes, their addresses cycling through the configured number. */
  function Probes(c: Config, mac: int, n: nat): (ps: seq<Out>)
    requires c.Valid()
    ensures |ps| == n
    decreases n
  {
    if n == 0 then [] else [Probe(mac)] + Probes(c, (mac + 1) % c.totalMacs, n - 1)
  }

  function MacAfter(c: Config, mac: int, n: nat): int
    requires c.Valid()
    decreases n
  {
    if n == 0 then mac else MacAfter(c, (mac + 1) % c.totalMacs, n - 1)
  }

  /** One turn of the loop of fakeswitch_handle_write. */
  function QueueProbe(c: Config, sw: Sw): Sw
    requires c.Valid()
  {
    sw.(probe := sw.probe + 1, said := sw.said + [Probe(sw.mac)], mac := (sw.mac + 1) % c.totalMacs)
  }

  function QueueProbes(c: Config, sw: Sw, n: nat): Sw
    requires c.Valid()
    decreases n
  {
    if n == 0 then sw else QueueProbes(c, QueueProbe(c, sw), n - 1)
  }

  /** fakeswitch_handle_write up to the write itself. */
  function Prepare(c: Config, sw: Sw, buffered: nat, now: Timeval): Sw
    requires c.Valid()
  {
    if sw.ready == 1 then QueueProbes(c, sw, SendCount(c, sw, buffered))
    else if sw.ready == 2 && Less(sw.delayStart, now) then sw.(ready := 1)
    else sw
  }

  /** How many probes one call of fakeswitch_handle_write queues. */
  function Queued(c: Config, sw: Sw, buffered: nat): nat {
    if sw.ready == 1 then SendCount(c, sw, buffered) else 0
  }

  lemma {:induction false} QueueProbesAdds(c: Config, sw: Sw, n: nat)
    requires c.Valid()
    ensures QueueProbes(c, sw, n) == sw.(probe := sw.probe + n, mac := MacAfter(c, sw.mac, n),
                                         said := sw.said + Probes(c, sw.mac, n))
    decreases n
  {
    if n > 0 {
      QueueProbesAdds(c, QueueProbe(c, sw), n - 1);
      Assoc(sw.said, [Probe(sw.mac)], Probes(c, (sw.mac + 1) % c.totalMacs, n - 1));
    }
  }

  /** What one call of fakeswitch_handle_write adds, whatever the state of the switch. */
  lemma PrepareAdds(c: Config, sw: Sw, buffered: nat, now: Timeval)
    requires c.Valid()
    ensures var sw', n := Prepare(c, sw, buffered, now), Queued(c, sw, buffered);
            && sw'.said == sw.said + Probes(c, sw.mac, n)
            && sw'.probe == sw.probe + n
            && sw'.mac == MacAfter(c, sw.mac, n)
            && sw'.inb == sw.inb && sw'.count == sw.count
            && (sw'.ready != 0 <==> sw.ready != 0)
  {
    if sw.ready == 1 {
      QueueProbesAdds(c, sw, SendCount(c, sw, buffered));
    }
  }

  lemma {:induction false} ProbesSize(c: Config, mac: int, n: nat)
    requires c.Valid()
    ensures |Wire(c.id, Probes(c, mac, n))| == n * PROBE_SIZE
    decreases n
  {
    if n > 0 {
      var rest := Probes(c, (mac + 1) % c.totalMacs, n - 1);
      WireAppend(c.id, [Probe(mac)], rest);
      WireOne(c.id, Probe(mac));
      ProbesSize(c, (mac + 1) % c.totalMacs, n - 1);
    }
  }

  /** In throughput mode a ready switch tops its output buffer up with whole probes: less than one
      more would fit into 65536 bytes, and the probe state grows by the number of probes queued. */
  lemma ThroughputFills(c: Config, sw: Sw, buffered: nat, now: Timeval)
    requires c.Valid() && c.mode == Throughput && sw.ready == 1 && buffered < THROUGHPUT_BUFFER
    ensures var sw' := Prepare(c, sw, buffered, now);
            exists n: nat ::
              && sw'.said == sw.said + Probes(c, sw.mac, n)
              && THROUGHPUT_BUFFER - PROBE_SIZE < buffered + |Wire(c.id, Probes(c, sw.mac, n))| <= THROUGHPUT_BUFFER
              && sw'.probe == sw.probe + n
  {
    var n := SendCount(c, sw, buffered);
    PrepareAdds(c, sw, buffered, now);
    ProbesSize(c, sw.mac, n);
    assert THROUGHPUT_BUFFER - PROBE_SIZE < buffered + |Wire(c.id, Probes(c, sw.mac, n))| <= THROUGHPUT_BUFFER;
  }

  /** Nothing is sent before the switch is ready, nor in throughput mode with a full buffer, nor in latency
      mode with a probe out. */
  lemma StaysSilent(c: Config, sw: Sw, buffered: nat, now: Timeval)
    requires c.Valid()
    requires || sw.ready != 1
             || (c.mode == Throughput && buffered >= 65536)
             || (c.mode == Latency && sw.probe != 0)
    ensures Prepare(c, sw, buffered, now).said == sw.said && Prepare(c, sw, buffered, now).probe == sw.probe
  {
  }

  // ---------------------------------------------------------------- reading past what is there

  /** What the handler makes of a flow-mod, when mem is the memory from its first byte on. */
  predicate CommandCounts(mem: seq<byte>)
    requires |mem| >= FLOW_MOD_COMMAND + 2
  {
    Get16(mem, FLOW_MOD_COMMAND) == FLOW_ADD || Get16(mem, FLOW_MOD_COMMAND) == FLOW_MODIFY_STRICT
  }

  /** The two statements of which flow-mods count agree. */
  lemma ResponsesAgree(m: seq<byte>)
    requires |m| >= FLOW_MOD_COMMAND + 2 && Kind(m) == FLOW_MOD
    ensures IsResponse(m) <==> CommandCounts(m)
    ensures CommandCounts(m) <==> m[56] == 0 && (m[57] == 0 || m[57] == 2)
  {
  }

  /** Memory behind v in which a command of this value can be read. */
  function Behind(v: seq<byte>, command: byte): (x: seq<byte>)
    requires |v| <= FLOW_MOD_COMMAND + 1
    ensures |v + x| == FLOW_MOD_COMMAND + 2 && (v + x)[FLOW_MOD_COMMAND + 1] == command
    ensures |v| <= FLOW_MOD_COMMAND ==> (v + x)[FLOW_MOD_COMMAND] == 0
    ensures v <= v + x
  {
    Zeros(FLOW_MOD_COMMAND + 1 - |v|) + [command]
  }

  /** Whether a flow-mod v counts as a response is decided by the message alone, whatever the memory
      behind it holds, exactly when it is long enough for its command, or ends with a first command
      byte that no counted command has. Shorter ones count or not by the bytes that happen to follow. */
  lemma FlowModDecidedIff(v: seq<byte>)
    ensures (forall x, y | |v + x| >= FLOW_MOD_COMMAND + 2 && |v + y| >= FLOW_MOD_COMMAND + 2 ::
               CommandCounts(v + x) == CommandCounts(v + y))
       <==> |v| >= FLOW_MOD_COMMAND + 2 || (|v| == FLOW_MOD_COMMAND + 1 && v[FLOW_MOD_COMMAND] != 0)
  {
    if |v| <= FLOW_MOD_COMMAND || (|v| == FLOW_MOD_COMMAND + 1 && v[FLOW_MOD_COMMAND] == 0) {
      var x, y := Behind(v, 0), Behind(v, 1);
      assert CommandCounts(v + x) && !CommandCounts(v + y);
    }
  }

  /** For each flow-mod that is not decided by itself the cut into reads matters: there is a continuation
      of the stream and there are stale bytes such that it counts when the continuation is read with it,
      and does not count when the read ends with the message. */
  lemma CutMatters(v: seq<byte>) returns (next: seq<byte>, stale: seq<byte>)
    requires |v| <= FLOW_MOD_COMMAND || (|v| == FLOW_MOD_COMMAND + 1 && v[FLOW_MOD_COMMAND] == 0)
    ensures |(v + next) + stale| >= FLOW_MOD_COMMAND + 2 && |v + stale| >= FLOW_MOD_COMMAND + 2
    ensures CommandCounts((v + next) + stale) && !CommandCounts(v + stale)
  {
    next, stale := Behind(v, 0), Behind(v, 1);
    var whole := (v + next) + stale;
    assert whole[FLOW_MOD_COMMAND] == (v + next)[FLOW_MOD_COMMAND];
    assert whole[FLOW_MOD_COMMAND + 1] == (v + next)[FLOW_MOD_COMMAND + 1];
  }

  /** The length that the draining loop peeks at is decided by the bytes buffered exactly when there
      are four of them. */
  lemma LengthKnownIff(s: seq<byte>)
    ensures (forall x, y | |s + x| >= 4 && |s + y| >= 4 :: Get16(s + x, 2) == Get16(s + y, 2)) <==> |s| >= 4
  {
    if |s| < 4 {
      var x, y := Zeros(3 - |s|) + [0], Zeros(3 - |s|) + [1];
      assert Get16(s + x, 2) != Get16(s + y, 2);
    }
  }

  // ---------------------------------------------------------------- resetting

  /** The inner loop of fakeswitch_get_count can look at a length it has and that moves it on. */
  predicate Droppable(s: seq<byte>, count: int)
    requires count <= |s|
    decreases count
  {
    count > 0 ==>
      && |s| >= 4
      && Get16(s, 2) >= 1
      && (Get16(s, 2) <= count ==> Droppable(s[Get16(s, 2)..], count - Get16(s, 2)))
  }

  /** The inner loop of fakeswitch_get_count: drop messages while they fit into the count bytes
      that were just read. */
  function DropWhole(s: seq<byte>, count: int): seq<byte>
    requires count <= |s| && Droppable(s, count)
    decreases count
  {
    if count <= 0 || count < Get16(s, 2) then s
    else DropWhole(s[Get16(s, 2)..], count - Get16(s, 2))
  }

  /** The inner loop of fakeswitch_get_count has nothing more to do, or no length to look at. */
  predicate DropStops(s: seq<byte>, count: int) {
    count <= 0 || |s| < 4 || count < Get16(s, 2)
  }

  /** The buffer and the count after n turns, or where the loop stopped. */
  function AfterDrops(s: seq<byte>, count: int, n: nat): (seq<byte>, int)
    requires count <= |s|
    decreases n
  {
    if n == 0 || DropStops(s, count) then (s, count)
    else AfterDrops(Pulled(s, Get16(s, 2)), count - Get16(s, 2), n - 1)
  }

  predicate Stopped(at: (seq<byte>, int)) {
    DropStops(at.0, at.1)
  }

  /** No length that the loop acts on is zero. */
  predicate NoZeroPeek(s: seq<byte>, count: int)
    requires count <= |s|
    decreases count
  {
    !DropStops(s, count) ==> Get16(s, 2) != 0 && NoZeroPeek(s[Get16(s, 2)..], count - Get16(s, 2))
  }

  lemma {:induction false} DropStuckOnZero(s: seq<byte>, count: int, n: nat)
    requires count <= |s| && !NoZeroPeek(s, count)
    ensures !Stopped(AfterDrops(s, count, n))
    decreases n
  {
    if n > 0 {
      var len := Get16(s, 2);
      assert len != 0 ==> Pulled(s, len) == s[len..];
      DropStuckOnZero(Pulled(s, len), count - len, n - 1);
    }
  }

  lemma {:induction false} DropStopsWithoutZero(s: seq<byte>, count: int) returns (n: nat)
    requires count <= |s| && NoZeroPeek(s, count)
    ensures Stopped(AfterDrops(s, count, n))
    decreases count
  {
    n := 0;
    if !DropStops(s, count) {
      var len := Get16(s, 2);
      assert Pulled(s, len) == s[len..];
      var k := DropStopsWithoutZero(s[len..], count - len);
      n := k + 1;
    }
  }

  /** The draining loop ends exactly when none of the lengths it acts on is zero. */
  lemma DropLoopEndsIff(s: seq<byte>, count: int)
    requires count <= |s|
    ensures (exists n: nat :: Stopped(AfterDrops(s, count, n))) <==> NoZeroPeek(s, count)
  {
    if NoZeroPeek(s, count) {
      var n := DropStopsWithoutZero(s, count);
      assert Stopped(AfterDrops(s, count, n));
      assert exists m: nat :: Stopped(AfterDrops(s, count, m));
    } else {
      forall n: nat
        ensures !Stopped(AfterDrops(s, count, n))
      {
        DropStuckOnZero(s, count, n);
      }
    }
  }

  /** s starts with a whole message. */
  predicate Whole(s: seq<byte>) {
    |s| >= 4 && 1 <= Get16(s, 2) <= |s|
  }

  /** What is left of s without its whole messages. */
  function Tail(s: seq<byte>): (t: seq<byte>)
    ensures |t| <= |s| && !Whole(t)
    decreases |s|
  {
    if Whole(s) then Tail(s[Get16(s, 2)..]) else s
  }

  /** Draining after a read of count bytes leaves no whole message behind exactly when the incomplete
      message at the end is at least as long as what was buffered before the read. In particular it
      does when nothing was buffered. */
  lemma {:induction false} DrainClearsIff(s: seq<byte>, count: int)
    requires 0 <= count <= |s| && Droppable(s, count)
    ensures !Whole(DropWhole(s, count)) <==> |Tail(s)| >= |s| - count
    decreases count
  {
    if count > 0 && count >= Get16(s, 2) {
      DrainClearsIff(s[Get16(s, 2)..], count - Get16(s, 2));
    } else if Whole(s) {
      assert |Tail(s)| <= |s[Get16(s, 2)..]|;
    }
  }

  /** A response that survives: the first six bytes of a packet-out were buffered, its last two are
      read, and it is still there, complete, to be counted by the next read. */
  lemma ResponseSurvives(buffered: seq<byte>, chunk: seq<byte>)
    requires buffered == [1, 13, 0, 8, 0, 0] && chunk == [0, 0]
    ensures Droppable(buffered + chunk, |chunk|)
    ensures var t := DropWhole(buffered + chunk, |chunk|);
            t == buffered + chunk && Complete(t) && Kind(t) == PACKET_OUT
  {
  }

  predicate DroppableReads(s: seq<byte>, chunks: seq<seq<byte>>)
    decreases |chunks|
  {
    chunks != [] ==>
      && Droppable(s + chunks[0], |chunks[0]|)
      && DroppableReads(DropWhole(s + chunks[0], |chunks[0]|), chunks[1..])
  }

  /** The outer loop: read until the socket has nothing more. */
  function DropReads(s: seq<byte>, chunks: seq<seq<byte>>): seq<byte>
    requires DroppableReads(s, chunks)
    decreases |chunks|
  {
    if chunks == [] then s else DropReads(DropWhole(s + chunks[0], |chunks[0]|), chunks[1..])
  }

  /** t is s without some of its first messages, each taken out whole. */
  predicate Boundary(s: seq<byte>, t: seq<byte>)
    decreases |s|
  {
    s == t || (|s| >= 4 && 1 <= Get16(s, 2) <= |s| && Boundary(s[Get16(s, 2)..], t))
  }

  lemma {:induction false} DropWholeKeepsBoundary(s: seq<byte>, count: int)
    requires count <= |s| && Droppable(s, count)
    ensures Boundary(s, DropWhole(s, count))
    decreases count
  {
    if count > 0 && count >= Get16(s, 2) {
      DropWholeKeepsBoundary(s[Get16(s, 2)..], count - Get16(s, 2));
    }
  }

  lemma {:induction false} BoundaryExtends(s: seq<byte>, t: seq<byte>, x: seq<byte>)
    requires Boundary(s, t)
    ensures Boundary(s + x, t + x)
    decreases |s|
  {
    if s != t {
      assert (s + x)[Get16(s, 2)..] == s[Get16(s, 2)..] + x;
      BoundaryExtends(s[Get16(s, 2)..], t, x);
    }
  }

  lemma {:induction false} BoundaryTrans(s: seq<byte>, t: seq<byte>, u: seq<byte>)
    requires Boundary(s, t) && Boundary(t, u)
    ensures Boundary(s, u)
    decreases |s|
  {
    if s != t {
      BoundaryTrans(s[Get16(s, 2)..], t, u);
    }
  }

  /** Draining the socket never breaks framing: what stays buffered is the whole input without
      some of its first messages. */
  lemma {:induction false} DrainKeepsFraming(s: seq<byte>, chunks: seq<seq<byte>>)
    requires DroppableReads(s, chunks)
    ensures Boundary(s + Concat(chunks), DropReads(s, chunks))
    decreases |chunks|
  {
    if chunks == [] {
      assert s + Concat(chunks) == s;
    } else {
      var x, y := chunks[0], Concat(chunks[1..]);
      var t := DropWhole(s + x, |x|);
      OneDropKeepsFraming(s, x, y);
      DrainKeepsFraming(t, chunks[1..]);
      BoundaryTrans(s + (x + y), t + y, DropReads(t, chunks[1..]));
    }
  }

  lemma OneDropKeepsFraming(s: seq<byte>, x: seq<byte>, y: seq<byte>)
    requires Droppable(s + x, |x|)
    ensures Boundary(s + (x + y), DropWhole(s + x, |x|) + y)
  {
    DropWholeKeepsBoundary(s + x, |x|);
    BoundaryExtends(s + x, DropWhole(s + x, |x|), y);
    Assoc(s, x, y);
  }
}
