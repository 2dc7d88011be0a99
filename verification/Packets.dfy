/** traffic_generator.c: the probe frame, built once, stamped in place before every transmission,
    and taken apart again by the extractor. */
module Packets {
  import opened Bytes
  import opened Checksum
  import opened Pieces
  import opened Time

  /** struct traf_gen_det, with the address texts already parsed. */
  datatype Det = Det(macDst: seq<byte>, macSrc: seq<byte>, vlan: int, srcIp: int, dstMin: int, dstMax: int,
                     udpSrc: int, udpDst: int, size: int, delay: int) {
    predicate Valid() {
      && |macDst| == 6 && |macSrc| == 6
      && 0 <= vlan < 65536 && 0 <= udpSrc < 65536 && 0 <= udpDst < 65536
      && 0 <= srcIp < U32 && 0 <= dstMin < U32 && 0 <= dstMax < U32
      && 0 <= size < U32 && 0 <= delay < U32
    }

    predicate Tagged() {
      vlan != 0 && vlan != 0xffff
    }

    /** sizeof(struct ether_vlan_header) or sizeof(struct ether_header) */
    function Link(): int {
      if Tagged() then 18 else 14
    }

    /** The frame holds the whole generator header behind its link, IP and UDP headers. */
    predicate HoldsHeaders() {
      Link() + 44 <= size
    }
  }

  const U32 := 0x1_0000_0000
  const MAGIC := 0xbe9be955
  const MIN_SIZE := 58     // VLAN header, IP header and TCP header
  const IP_HEADER := 20

  // ---------------------------------------------------------------- the fields of a frame

  const LINK := 2
  const VER := 3
  const CHECK := 9
  const SADDR := 10
  const DADDR := 11
  const UDP_SRC := 12
  const UDP_DST := 13
  const SEQ := 17
  const SEC := 18
  const USEC := 19

  /** The 12-bit VLAN field as the builder computes it: the byte-swapped id shifted right by four. */
  function Vid(vlan: int): int {
    (vlan % 256 * 256 + vlan / 256) / 16
  }

  /** The two bytes the bit fields occupy: three priority bits, one bit, then the VLAN field. */
  function TagBytes(vlan: int): (s: seq<byte>)
    ensures |s| == 2
  {
    var unit := Vid(vlan) * 16;
    [Low(unit), Low(unit / 256)]
  }

  function LinkType(det: Det): (s: seq<byte>)
    ensures |s| == det.Link() - 12
  {
    if det.Tagged() then [0x81, 0x00] + TagBytes(det.vlan) + [0x08, 0x00] else [0x08, 0x00]
  }

  /** The IP header fields, with the given destination and checksum. */
  function IpFields(det: Det, dest: int, check: seq<byte>): seq<seq<byte>> {
    [[0x45], [0], Put16(det.size - det.Link()), [0, 0, 0, 0], [100], [17], check, Put32(det.srcIp), Put32(dest)]
  }

  function IpCheck(det: Det, dest: int): seq<byte> {
    Put16(Computed(Concat(IpFields(det, dest, [0, 0]))))
  }

  /** All fields of a frame, with this destination, checksum field, sequence number and time. */
  function Fields(det: Det, dest: int, check: seq<byte>, q: seq<byte>, sec: seq<byte>, usec: seq<byte>): seq<seq<byte>>
    requires det.Valid() && det.HoldsHeaders()
  {
    [det.macDst, det.macSrc, LinkType(det)] + IpFields(det, dest, check) +
    [Put16(det.udpSrc), Put16(det.udpDst), Put16(det.size - det.Link() - IP_HEADER), [0, 0],
     Put32(MAGIC), q, sec, usec, Zeros(det.size - det.Link() - 44)]
  }

  /** A frame with a good checksum. */
  function Dressed(det: Det, dest: int, q: seq<byte>, sec: seq<byte>, usec: seq<byte>): seq<seq<byte>>
    requires det.Valid() && det.HoldsHeaders()
  {
    Fields(det, dest, IpCheck(det, dest), q, sec, usec)
  }

  const ZERO4: seq<byte> := [0, 0, 0, 0]

  // ---------------------------------------------------------------- offsets

  function SizeOf(det: Det, i: int): int
    requires 0 <= i < 21
  {
    if i < 2 then 6
    else if i == 2 then det.Link() - 12
    else if i in {3, 4, 7, 8} then 1
    else if i in {5, 9, 12, 13, 14, 15} then 2
    else if i == 20 then det.size - det.Link() - 44
    else 4
  }

  /** Where field i starts, as the pointers of struct pkt_details and the C structures have it. */
  function At(det: Det, i: int): int
    requires 0 <= i < 21
  {
    if i == 0 then 0 else if i == 1 then 6 else if i == 2 then 12
    else det.Link() +
         if i == 3 then 0 else if i == 4 then 1 else if i == 5 then 2 else if i == 6 then 4 else if i == 7 then 8
         else if i == 8 then 9 else if i == 9 then 10 else if i == 10 then 12 else if i == 11 then 16
         else if i < 16 then 20 + 2 * (i - 12)
         else 28 + 4 * (i - 16)
  }

  predicate Shaped(det: Det, fields: seq<seq<byte>>) {
    |fields| == 21 && forall i | 0 <= i < 21 :: |fields[i]| == SizeOf(det, i)
  }

  lemma {:induction false} OffsetIs(det: Det, fields: seq<seq<byte>>, i: int)
    requires Shaped(det, fields) && 0 <= i < 21
    ensures Offset(fields, i) == At(det, i)
    decreases i
  {
    if i == 0 {
      assert fields[..0] == [];
    } else {
      OffsetIs(det, fields, i - 1);
      OffsetNext(fields, i - 1);
    }
  }

  lemma FieldsShaped(det: Det, dest: int, check: seq<byte>, q: seq<byte>, sec: seq<byte>, usec: seq<byte>)
    requires det.Valid() && det.HoldsHeaders() && |check| == 2 && |q| == 4 && |sec| == 4 && |usec| == 4
    ensures Shaped(det, Fields(det, dest, check, q, sec, usec))
  {
  }

  /** The bytes of field i of a frame. */
  lemma ReadAt(det: Det, fields: seq<seq<byte>>, i: int)
    requires Shaped(det, fields) && 0 <= i < 21
    ensures 0 <= At(det, i) && At(det, i) + SizeOf(det, i) <= |Concat(fields)|
    ensures Concat(fields)[At(det, i)..At(det, i) + SizeOf(det, i)] == fields[i]
  {
    OffsetIs(det, fields, i);
    ReadField(fields, i);
  }

  lemma WriteAt(det: Det, fields: seq<seq<byte>>, i: int, b: seq<byte>)
    requires Shaped(det, fields) && 0 <= i < 21 && |b| == SizeOf(det, i)
    ensures 0 <= At(det, i) && At(det, i) + |b| <= |Concat(fields)|
    ensures Splice(Concat(fields), At(det, i), b) == Concat(fields[i := b])
    ensures Shaped(det, fields[i := b])
  {
    OffsetIs(det, fields, i);
    WriteField(fields, i, b);
  }

  // ---------------------------------------------------------------- the IP checksum

  /** The twenty bytes the checksum covers are the IP fields. */
  lemma IpRange(det: Det, fields: seq<seq<byte>>)
    requires Shaped(det, fields)
    ensures |Concat(fields)| >= det.Link() + IP_HEADER
    ensures Concat(fields)[det.Link()..det.Link() + IP_HEADER] == Concat(fields[VER..UDP_SRC])
  {
    OffsetIs(det, fields, VER);
    OffsetIs(det, fields, UDP_SRC);
    var a, b, c := fields[..VER], fields[VER..UDP_SRC], fields[UDP_SRC..];
    assert fields[..UDP_SRC] == a + b && fields == fields[..UDP_SRC] + c;
    ConcatAppend(a, b);
    ConcatAppend(fields[..UDP_SRC], c);
    SpliceMiddle(Concat(a), Concat(b), Concat(c), Concat(b));
  }

  lemma IpOffsets(det: Det, dest: int, check: seq<byte>)
    requires |check| == 2
    ensures var f := IpFields(det, dest, check); Offset(f, 6) == 10 && |Concat(f)| == IP_HEADER
  {
    var f := IpFields(det, dest, check);
    assert f[..0] == [] && f[..9] == f;
    OffsetNext(f, 0); OffsetNext(f, 1); OffsetNext(f, 2); OffsetNext(f, 3); OffsetNext(f, 4);
    OffsetNext(f, 5); OffsetNext(f, 6); OffsetNext(f, 7); OffsetNext(f, 8);
  }

  /** The header of a dressed frame sums to zero: its checksum is valid. */
  lemma HeaderVerifies(det: Det, dest: int)
    ensures Computed(Concat(IpFields(det, dest, IpCheck(det, dest)))) == 0
  {
    var f := IpFields(det, dest, [0, 0]);
    var s, c := Concat(f), IpCheck(det, dest);
    IpOffsets(det, dest, [0, 0]);
    ReadField(f, 6);
    assert s[10] == s[10..12][0] && s[11] == s[10..12][1];
    OwnChecksumVerifies(s, 10);
    WriteField(f, 6, c);
    assert f[6 := c] == IpFields(det, dest, c);
    assert Splice(s, 10, c) == s[10 := c[0]][11 := c[1]];
  }

  lemma DressedHeader(det: Det, dest: int, check: seq<byte>, q: seq<byte>, sec: seq<byte>, usec: seq<byte>)
    requires det.Valid() && det.HoldsHeaders()
    ensures Fields(det, dest, check, q, sec, usec)[VER..UDP_SRC] == IpFields(det, dest, check)
  {
  }

  /** Putting the right checksum into a frame without one. */
  lemma Finished(det: Det, dest: int, q: seq<byte>, sec: seq<byte>, usec: seq<byte>)
    requires det.Valid() && det.HoldsHeaders()
    ensures var f, g := Fields(det, dest, [0, 0], q, sec, usec), Dressed(det, dest, q, sec, usec);
            && f[VER..UDP_SRC] == IpFields(det, dest, [0, 0])
            && f[CHECK := IpCheck(det, dest)] == g && g[SEQ] == q && g[SEC] == sec && g[USEC] == usec
  {
    DressedHeader(det, dest, [0, 0], q, sec, usec);
  }

  lemma DestReads(det: Det, f: seq<seq<byte>>, dest: int)
    requires Shaped(det, f) && f[DADDR] == Put32(dest) && 0 <= dest < U32
    ensures |Concat(f)| >= det.Link() + 20 && Get32(Concat(f), det.Link() + 16) == dest
  {
    ReadAt(det, f, DADDR);
    Get32At(Concat(f), det.Link() + 16, dest);
  }

  /** A new destination in a frame whose checksum is cleared. */
  lemma Redirected(det: Det, dest: int, next: int, q: seq<byte>, sec: seq<byte>, usec: seq<byte>)
    requires det.Valid() && det.HoldsHeaders()
    ensures Dressed(det, dest, q, sec, usec)[DADDR := Put32(next)][CHECK := [0, 0]]
         == Fields(det, next, [0, 0], q, sec, usec)
  {
  }

  // ---------------------------------------------------------------- stamping

  /** send_pkt's choice of the next destination address. */
  function NextDest(det: Det, dest: int): int {
    if det.dstMin == det.dstMax then dest
    else if dest == det.dstMax then det.dstMin
    else (dest + 1) % U32
  }

  /** The destination after n frames. */
  function DestAfter(det: Det, n: nat): int {
    if n == 0 then det.dstMin else NextDest(det, DestAfter(det, n - 1))
  }

  class Packet {
    const det: Det
    const data: array<byte>
    var seqNum: int
    ghost var fields: seq<seq<byte>>
    ghost var dest: int
    ghost var frames: nat     // how many were stamped

    /** The bytes are the fields, one behind the other. */
    ghost predicate Laid()
      reads this, data
    {
      det.Valid() && det.HoldsHeaders() && Shaped(det, fields) && data[..] == Concat(fields)
    }

    /** A frame that is ready to go: a good checksum over a header for the destination and with the
        sequence number that the count of frames says. */
    ghost predicate Valid()
      reads this, data
    {
      Ready() && dest == DestAfter(det, frames) && seqNum == frames % U32
    }

    ghost predicate Ready()
      reads this, data
    {
      && Laid()
      && 0 <= dest < U32
      && fields == Dressed(det, dest, fields[SEQ], fields[SEC], fields[USEC])
    }

    /** Writes field i where the structure pointers put it. */
    method Put(at: int, b: seq<byte>, ghost i: int)
      requires Laid() && 0 <= i < 21 && at == At(det, i) && |b| == SizeOf(det, i)
      modifies this`fields, data
      ensures Laid() && fields == old(fields)[i := b]
    {
      WriteAt(det, fields, i, b);
      ghost var s := data[..];
      forall k | 0 <= k < |b| {
        data[at + k] := b[k];
      }
      assert data[..] == Splice(s, at, b);
      fields := fields[i := b];
    }

    /** The zero-filled frame before any field is set. */
    constructor (det: Det)
      requires det.Valid() && det.HoldsHeaders()
      ensures Laid() && fresh(data) && this.det == det && seqNum == 0
      ensures fields == seq(21, i requires 0 <= i < 21 => Zeros(SizeOf(det, i)))
      ensures dest == det.dstMin && frames == 0
    {
      this.det := det;
      data := new byte[det.size](_ => 0);
      seqNum := 0;
      dest := det.dstMin;
      frames := 0;
      fields := seq(21, i requires 0 <= i < 21 => Zeros(SizeOf(det, i)));
      new;
      BlankFrame(det, fields);
      assert data[..] == Concat(fields);
    }

    /** innitialize_generator_packet, from the addresses to the UDP header and the magic. */
    method Fill()
      requires Laid() && dest == det.dstMin && seqNum == 0 && frames == 0
      requires fields == seq(21, i requires 0 <= i < 21 => Zeros(SizeOf(det, i)))
      modifies this`fields, data
      ensures Valid() && fields == Dressed(det, det.dstMin, ZERO4, ZERO4, ZERO4)
    {
      FillHeaders();
      Seal(ZERO4, ZERO4, ZERO4);
    }

    /** Puts the checksum into a frame that has none. */
    method Seal(ghost q: seq<byte>, ghost sec: seq<byte>, ghost usec: seq<byte>)
      requires Laid() && 0 <= dest < U32 && fields == Fields(det, dest, [0, 0], q, sec, usec)
      modifies this`fields, data
      ensures Ready() && fields == Dressed(det, dest, q, sec, usec)
    {
      Finished(det, dest, q, sec, usec);
      var check := HeaderSum();
      Put(det.Link() + 10, Put16(check), CHECK);
    }

    /** ip_sum_calc over the IP header of this frame. */
    method HeaderSum() returns (check: int)
      requires Laid()
      ensures check == Computed(Concat(fields[VER..UDP_SRC]))
    {
      IpRange(det, fields);
      ghost var b := data[..];
      assert data[det.Link()..][..IP_HEADER] == b[det.Link()..det.Link() + IP_HEADER];
      check := IpSumCalc(IP_HEADER, data[det.Link()..]);
    }

    /** Every field except the checksum. */
    method FillHeaders()
      requires Laid() && dest == det.dstMin
      requires fields == seq(21, i requires 0 <= i < 21 => Zeros(SizeOf(det, i)))
      modifies this`fields, data
      ensures Laid() && fields == Fields(det, det.dstMin, [0, 0], ZERO4, ZERO4, ZERO4)
    {
      ghost var f := fields;
      FillLink();
      FillIp();
      FillUdp();
      FilledIs(det, f);
    }

    method FillLink()
      requires Laid()
      modifies this`fields, data
      ensures Laid() && fields == LinkFilled(det, old(fields))
    {
      Put(0, det.macDst, 0);
      Put(6, det.macSrc, 1);
      Put(12, LinkType(det), LINK);
    }

    method FillIp()
      requires Laid()
      modifies this`fields, data
      ensures Laid() && fields == IpFilled(det, old(fields))
    {
      var l := det.Link();
      Put(l + 2, Put16(det.size - l), 5);
      Put(l, [0x45], VER);
      Put(l + 8, [100], 7);
      Put(l + 9, [17], 8);
      Put(l + 12, Put32(det.srcIp), SADDR);
      Put(l + 16, Put32(det.dstMin), DADDR);
    }

    method FillUdp()
      requires Laid()
      modifies this`fields, data
      ensures Laid() && fields == UdpFilled(det, old(fields))
    {
      var l := det.Link();
      Put(l + 20, Put16(det.udpSrc), UDP_SRC);
      Put(l + 22, Put16(det.udpDst), UDP_DST);
      Put(l + 24, Put16(det.size - l - IP_HEADER), 14);
      Put(l + 28, Put32(MAGIC), 16);
    }

    /** send_pkt up to the transmission: stamp the sequence number and the time, move to the next
        destination and renew the checksum. */
    method Stamp(now: Timeval)
      requires Valid()
      modifies this, data
      ensures Valid() && frames == old(frames) + 1
      ensures data[..] == Concat(Dressed(det, DestAfter(det, frames), Put32(old(frames) % U32),
                                         Put32(now.sec), Put32(now.usec)))
    {
      ghost var n := seqNum;
      StampHeader(now);
      CountsOn(frames);
      seqNum := (seqNum + 1) % U32;
      if det.dstMin != det.dstMax {
        Redirect();
      }
      frames := frames + 1;
    }

    /** The generator header: sequence number and time. */
    method StampHeader(now: Timeval)
      requires Ready()
      modifies this`fields, data
      ensures Ready()
      ensures fields == Dressed(det, dest, Put32(seqNum), Put32(now.sec), Put32(now.usec))
    {
      var l := det.Link();
      Put(l + 32, Put32(seqNum), SEQ);
      Put(l + 36, Put32(now.sec), SEC);
      Put(l + 40, Put32(now.usec), USEC);
    }

    /** The next destination address and its checksum. */
    method Redirect()
      requires Ready() && det.dstMin != det.dstMax
      modifies this`fields, this`dest, data
      ensures Ready() && dest == NextDest(det, old(dest))
      ensures fields == Dressed(det, dest, old(fields)[SEQ], old(fields)[SEC], old(fields)[USEC])
    {
      var l := det.Link();
      ghost var f, was := fields, dest;
      var d := ReadDest();
      var next := if d == det.dstMax then det.dstMin else (d + 1) % U32;
      Put(l + 16, Put32(next), DADDR);
      dest := next;
      Put(l + 10, [0, 0], CHECK);
      Redirected(det, was, next, f[SEQ], f[SEC], f[USEC]);
      Seal(f[SEQ], f[SEC], f[USEC]);
    }

    /** ntohl(state->ip->daddr) */
    method ReadDest() returns (d: int)
      requires Ready()
      ensures d == dest
    {
      DestReads(det, fields, dest);
      d := Get32(data[..], det.Link() + 16);
    }
  }

  lemma CountsOn(n: nat)
    ensures (n % U32 + 1) % U32 == (n + 1) % U32
  {
  }

  function LinkFilled(det: Det, f: seq<seq<byte>>): seq<seq<byte>>
    requires |f| == 21
  {
    f[0 := det.macDst][1 := det.macSrc][LINK := LinkType(det)]
  }

  function IpFilled(det: Det, f: seq<seq<byte>>): seq<seq<byte>>
    requires |f| == 21
  {
    f[5 := Put16(det.size - det.Link())][VER := [0x45]][7 := [100]][8 := [17]]
     [SADDR := Put32(det.srcIp)][DADDR := Put32(det.dstMin)]
  }

  function UdpFilled(det: Det, f: seq<seq<byte>>): seq<seq<byte>>
    requires |f| == 21
  {
    f[UDP_SRC := Put16(det.udpSrc)][UDP_DST := Put16(det.udpDst)]
     [14 := Put16(det.size - det.Link() - IP_HEADER)][16 := Put32(MAGIC)]
  }

  lemma FilledIs(det: Det, blank: seq<seq<byte>>)
    requires det.Valid() && det.HoldsHeaders()
    requires blank == seq(21, i requires 0 <= i < 21 => Zeros(SizeOf(det, i)))
    ensures UdpFilled(det, IpFilled(det, LinkFilled(det, blank)))
         == Fields(det, det.dstMin, [0, 0], ZERO4, ZERO4, ZERO4)
  {
    assert Zeros(1) == [0] && Zeros(2) == [0, 0] && Zeros(4) == ZERO4;
  }

  /** Of the frames the builder does not refuse, exactly the tagged ones below 62 bytes are too short
      for the fields it and send_pkt write. */
  lemma FieldsFitIff(det: Det)
    requires det.size >= MIN_SIZE
    ensures (forall i | 0 <= i < 20 :: At(det, i) + SizeOf(det, i) <= det.size) <==> !(det.Tagged() && det.size < 62)
    ensures det.HoldsHeaders() <==> !(det.Tagged() && det.size < 62)
  {
    assert At(det, USEC) + SizeOf(det, USEC) == det.Link() + 44;
  }

  /** innitialize_generator_packet: frames below 58 bytes are refused. */
  method Build(det: Det) returns (p: Packet?)
    requires det.Valid() && (det.size >= MIN_SIZE ==> det.HoldsHeaders())
    ensures p == null <==> det.size < 58
    ensures p != null ==> fresh(p) && fresh(p.data) && p.Valid() && p.det == det && p.frames == 0
    ensures p != null ==> p.fields == Dressed(det, det.dstMin, ZERO4, ZERO4, ZERO4)
  {
    if det.size < MIN_SIZE {
      return null;
    }
    p := new Packet(det);
    p.Fill();
  }

  lemma {:induction false} ConcatZeros(fields: seq<seq<byte>>)
    requires forall i, k | 0 <= i < |fields| && 0 <= k < |fields[i]| :: fields[i][k] == 0
    ensures forall k | 0 <= k < |Concat(fields)| :: Concat(fields)[k] == 0
  {
    if fields != [] {
      ConcatZeros(fields[1..]);
    }
  }

  lemma BlankFrame(det: Det, fields: seq<seq<byte>>)
    requires det.Valid() && det.HoldsHeaders()
    requires fields == seq(21, i requires 0 <= i < 21 => Zeros(SizeOf(det, i)))
    ensures Concat(fields) == Zeros(det.size)
  {
    ConcatZeros(fields);
    OffsetIs(det, fields, 20);
    OffsetNext(fields, 20);
    assert fields[..21] == fields;
  }
}
