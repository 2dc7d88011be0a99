/** pkt_gen/pkt_gen_2.c: admitting packets, and writing the records of each port into its own
    transmit queue. */
module SramLoader {
  import opened Bytes
  import opened SramRecords
  import opened SramLayout

  // ---------------------------------------------------------------- the card's memory

  /** The register address of word w of the memory. */
  function WordAddr(w: int): int {
    SRAM_BASE + 16 * w
  }

  /** Record r of data is in the memory word behind base. */
  predicate HoldsRecord(regs: Registers, base: int, data: seq<byte>, r: int)
    requires 0 <= r && RECORD * r + RECORD <= |data|
  {
    var a := WordAddr(base + r);
    && a + 4 in regs && regs[a + 4] == data[RECORD * r] as int
    && a + 8 in regs && regs[a + 8] == Get32(data, RECORD * r + 1)
    && a + 12 in regs && regs[a + 12] == Get32(data, RECORD * r + 5)
  }

  ghost predicate Holds(regs: Registers, base: int, data: seq<byte>) {
    forall r: int | 0 <= r && RECORD * r + RECORD <= |data| :: HoldsRecord(regs, base, data, r)
  }

  /** n records read back from the memory, from word base + r on. */
  function ReadBack(regs: Registers, base: int, r: int, n: nat): seq<byte>
    decreases n
  {
    if n == 0 then []
    else
      var a := WordAddr(base + r);
      if a + 4 in regs && a + 8 in regs && a + 12 in regs
      then [Low(regs[a + 4])] + Put32(regs[a + 8]) + Put32(regs[a + 12]) + ReadBack(regs, base, r + 1, n - 1)
      else []
  }

  lemma RecordReads(regs: Registers, base: int, data: seq<byte>, r: int)
    requires 0 <= r && RECORD * r + RECORD <= |data| && HoldsRecord(regs, base, data, r)
    ensures var a, at := WordAddr(base + r), RECORD * r;
            [Low(regs[a + 4])] + Put32(regs[a + 8]) + Put32(regs[a + 12]) == data[at..at + RECORD]
  {
    var at := RECORD * r;
    Get32Put32(data, at + 1);
    Get32Put32(data, at + 5);
    assert data[at..at + RECORD] == [data[at]] + data[at + 1..at + 5] + data[at + 5..at + 9];
  }

  lemma {:induction false} ReadBackIs(regs: Registers, base: int, data: seq<byte>, r: int, n: nat)
    requires Holds(regs, base, data) && 0 <= r && RECORD * (r + n) == |data|
    ensures ReadBack(regs, base, r, n) == data[RECORD * r..]
    decreases n
  {
    if n > 0 {
      assert HoldsRecord(regs, base, data, r);
      RecordReads(regs, base, data, r);
      ReadBackIs(regs, base, data, r + 1, n - 1);
      var at := RECORD * r;
      assert data[at..] == data[at..at + RECORD] + data[at + RECORD..];
    }
  }

  // ---------------------------------------------------------------- writing the memory

  /** Only the words base to base + n - 1 of the memory were written. */
  ghost predicate OnlyTouches(before: Registers, after: Registers, base: int, n: int) {
    forall a | a < WordAddr(base) || WordAddr(base + n) <= a :: SameAt(before, after, a)
  }

  /** Every write goes to one of these words of the memory. */
  predicate AllInside(t: Trace, base: int, n: int) {
    forall i | 0 <= i < |t| :: WordAddr(base) <= t[i].addr < WordAddr(base + n)
  }

  function RecordTrace(base: int, data: seq<byte>, r: int): (t: Trace)
    requires 0 <= r && RECORD * r + RECORD <= |data|
    ensures |t| == 3
  {
    var a, at := WordAddr(base + r), RECORD * r;
    [WriteReg(a + 4, data[at] as int), WriteReg(a + 8, Get32(data, at + 1)), WriteReg(a + 12, Get32(data, at + 5))]
  }

  /** The three writes of a record: its word of the memory is 16 addresses wide from 0x1000000 on; the control
      byte goes behind the first four, then the first and the last four data bytes, in network order. */
  lemma RecordWrites(base: int, data: seq<byte>, r: int)
    requires 0 <= r && 9 * r + 9 <= |data|
    ensures var t, a, d := RecordTrace(base, data, r), 0x100_0000 + 16 * (base + r), data[9 * r..9 * r + 9];
            && |t| == 3 && t[0].addr == a + 4 && t[1].addr == a + 8 && t[2].addr == a + 12
            && t[0].value == d[0] as int
            && t[1].value == d[1] as int * 16777216 + d[2] as int * 65536 + d[3] as int * 256 + d[4] as int
            && t[2].value == d[5] as int * 16777216 + d[6] as int * 65536 + d[7] as int * 256 + d[8] as int
  {
  }

  /** The writes of load_queues for the first n records. */
  function LoadTrace(base: int, data: seq<byte>, n: nat): (t: Trace)
    requires RECORD * n <= |data|
    ensures |t| == 3 * n
    decreases n
  {
    if n == 0 then [] else LoadTrace(base, data, n - 1) + RecordTrace(base, data, n - 1)
  }

  lemma {:induction false} LoadInside(base: int, data: seq<byte>, n: nat, m: nat)
    requires RECORD * n <= |data| && n <= m
    ensures AllInside(LoadTrace(base, data, n), base, m)
    decreases n
  {
    if n > 0 {
      LoadInside(base, data, n - 1, m);
      var t, u := LoadTrace(base, data, n - 1), RecordTrace(base, data, n - 1);
      assert AllInside(u, base, m);
      forall i | 0 <= i < |t + u| ensures WordAddr(base) <= (t + u)[i].addr < WordAddr(base + m) {
        assert (t + u)[i] == if i < |t| then t[i] else u[i - |t|];
      }
    }
  }

  lemma InsideTouches(w: Trace, t: Trace, base: int, n: int)
    requires AllInside(t, base, n)
    ensures OnlyTouches(Replay(w), Replay(w + t), base, n)
  {
    forall a | a < WordAddr(base) || WordAddr(base + n) <= a
      ensures SameAt(Replay(w), Replay(w + t), a)
    {
      ReplayKeeps(w, t, a);
    }
  }

  lemma RecordHeld(w: Trace, base: int, data: seq<byte>, r: int)
    requires 0 <= r && RECORD * r + RECORD <= |data|
    ensures HoldsRecord(Replay(w + RecordTrace(base, data, r)), base, data, r)
  {
    var t := w + RecordTrace(base, data, r);
    ReplayLast(t, |w|);
    ReplayLast(t, |w| + 1);
    ReplayLast(t, |w| + 2);
  }

  lemma RecordKept(w: Trace, base: int, data: seq<byte>, r: int, k: int)
    requires 0 <= k < r && RECORD * r + RECORD <= |data| && HoldsRecord(Replay(w), base, data, k)
    ensures HoldsRecord(Replay(w + RecordTrace(base, data, r)), base, data, k)
  {
    var t, a := RecordTrace(base, data, r), WordAddr(base + k);
    ReplayKeeps(w, t, a + 4);
    ReplayKeeps(w, t, a + 8);
    ReplayKeeps(w, t, a + 12);
  }

  lemma {:induction false} LoadHolds(w: Trace, base: int, data: seq<byte>, n: nat, k: int)
    requires RECORD * n <= |data| && 0 <= k < n
    ensures HoldsRecord(Replay(w + LoadTrace(base, data, n)), base, data, k)
    decreases n
  {
    var before := w + LoadTrace(base, data, n - 1);
    Assoc(w, LoadTrace(base, data, n - 1), RecordTrace(base, data, n - 1));
    if k == n - 1 {
      RecordHeld(before, base, data, k);
    } else {
      LoadHolds(w, base, data, n - 1, k);
      RecordKept(before, base, data, n - 1, k);
    }
  }

  /** After its writes the memory holds all records. */
  lemma LoadedHolds(w: Trace, base: int, data: seq<byte>)
    requires |data| % RECORD == 0
    ensures Holds(Replay(w + LoadTrace(base, data, |data| / RECORD)), base, data)
  {
    var n := |data| / RECORD;
    forall r: int | 0 <= r && RECORD * r + RECORD <= |data|
      ensures HoldsRecord(Replay(w + LoadTrace(base, data, n)), base, data, r)
    {
      LoadHolds(w, base, data, n, r);
    }
  }

  // ---------------------------------------------------------------- the program

  /** What (float) len may be: exact below 2^24, and never rounded below 2^24 above that. */
  predicate Rounds(len: int, floatLen: int) {
    if len < 0x100_0000 then floatLen == len else 0x100_0000 <= floatLen <= 0x1_0000_0000
  }

  /** The words a packet is charged: its payload words, its header, a delay word that is never
      written, and a padding header. */
  function PacketWords(pad: bool, len: int, wordLen: int, delay: int): int {
    ShownWords(pad, len, wordLen) + 1 + (if delay > 0 then 1 else 0) + (if pad && len > 64 then 1 else 0)
  }

  /** What a packet is charged: a header, a word for a positive delay, and, without padding, the least number
      of words that hold its bytes; a padded one has 8 words and a second header instead. */
  lemma ChargeIs(pad: bool, len: int, delay: int)
    requires len >= 0
    ensures var d := if delay > 0 then 1 else 0;
            var charge := PacketWords(pad, len, WordLen(len), delay);
            && (pad && len > 64 ==> charge == 10 + d)
            && (!(pad && len > 64) ==> 8 * (charge - 1 - d) >= len > 8 * (charge - 1 - d) - 8)
  {
  }

  /** A packet's records never exceed what it is charged. */
  lemma RecordsWithinCharge(pad: bool, len: int, wordLen: int, delay: int)
    requires len >= 0 && wordLen >= 0 && (!pad || len <= 64 ==> wordLen == WordLen(len))
    ensures 0 < RecordCount(pad, len, wordLen) <= PacketWords(pad, len, wordLen, delay)
  {
    CopiedFits(pad, len, wordLen);
  }

  /** The data of a port is whole records, no more than it was charged words. */
  predicate PortOk(words: int, data: seq<byte>) {
    0 <= words && |data| % RECORD == 0 && |data| <= RECORD * words
  }

  predicate PortsOk(words: seq<int>, data: seq<seq<byte>>) {
    |words| == 4 && |data| == 4 && forall p | 0 <= p < 4 :: PortOk(words[p], data[p])
  }

  lemma StoredSize(pad: bool, port: int, len: int, wordLen: int, data: seq<byte>)
    requires 0 <= port < 4 && 0 <= len && 0 <= wordLen && 8 * Copied(pad, len, wordLen) <= |data|
    ensures |Stored(pad, port, len, wordLen, data)| == RECORD * RecordCount(pad, len, wordLen)
  {
  }

  /** What an admitted packet is charged covers what it stores. */
  lemma PortGrows(words: int, data: seq<byte>, st: seq<byte>, n: int, charge: int)
    requires PortOk(words, data) && |st| == RECORD * n && 0 <= n <= charge
    ensures PortOk(words + charge, data + st)
  {
  }

  lemma AdmittedPort(pad: bool, words: int, data: seq<byte>, p: int, x: Input, wordLen: int, delay: int)
    requires 0 <= p < 4 && PortOk(words, data)
    requires x.len >= 0 && wordLen >= 0 && (!pad || x.len <= 64 ==> wordLen == WordLen(x.len))
    requires 8 * Copied(pad, x.len, wordLen) <= |x.data|
    ensures PortOk(words + PacketWords(pad, x.len, wordLen, delay), data + Stored(pad, p, x.len, wordLen, x.data))
  {
    RecordsWithinCharge(pad, x.len, wordLen, delay);
    StoredSize(pad, p, x.len, wordLen, x.data);
    PortGrows(words, data, Stored(pad, p, x.len, wordLen, x.data), RecordCount(pad, x.len, wordLen),
              PacketWords(pad, x.len, wordLen, delay));
  }

  /** The data of every port is the encoding of the packets it accepted, in order. */
  predicate Encoded(data: seq<seq<byte>>, xs: seq<seq<Input>>) {
    |data| == 4 && |xs| == 4 && forall p | 0 <= p < 4 :: AllLoadable(xs[p]) && data[p] == StoredAll(p, xs[p])
  }

  lemma EncodedGrows(data: seq<seq<byte>>, xs: seq<seq<Input>>, p: int, x: Input, wordLen: int)
    requires Encoded(data, xs) && 0 <= p < 4 && wordLen == WordLen(x.len) && Loadable(x)
    ensures Encoded(data[p := data[p] + Stored(false, p, x.len, wordLen, x.data)], xs[p := xs[p] + [x]])
  {
    StoredAllAppend(p, xs[p], x);
  }

  /** Rounding never matters for what is admitted: a packet that long is far over the bound. */
  lemma AdmittedIsExact(pad: bool, len: int, floatLen: int, delay: int)
    requires 0 <= len && Rounds(len, floatLen)
    ensures WordLen(floatLen) >= 0
    ensures PacketWords(pad, len, WordLen(floatLen), delay) <= MAX_TX_QUEUE_SIZE && (!pad || len <= 64) ==>
              WordLen(floatLen) == WordLen(len) && len < 0x100_0000
  {
  }

  lemma SumNonNegative(words: seq<int>, data: seq<seq<byte>>)
    requires PortsOk(words, data)
    ensures Sizes(words) && Sum(words) >= 0
  {
    assert PortOk(words[0], data[0]) && PortOk(words[1], data[1]);
    assert PortOk(words[2], data[2]) && PortOk(words[3], data[3]);
  }

  lemma SumGrows(words: seq<int>, p: int, k: int)
    requires |words| == 4 && 0 <= p < 4
    ensures Sum(words[p := words[p] + k]) == Sum(words) + k
  {
  }

  // ---------------------------------------------------------------- several ports

  /** The memory lies below the queue registers, so loading a transmit queue leaves them alone. */
  lemma ReorganizedKept(r0: Registers, r1: Registers, words: seq<int>, p: int)
    requires Sizes(words) && Sum(words) <= MAX_TX_QUEUE_SIZE && 0 <= p < 4
    requires Reorganized(r0, words) && OnlyTouches(r0, r1, Base(words, 8 + p), QueueSize(words, p))
    ensures Reorganized(r1, words)
  {
    BaseGrows(words, 8 + p, 12);
    QueuesFillMemory(words);
    forall a | CTRL_REG <= a ensures SameAt(r0, r1, a) { }
    forall q | 0 <= q < 12
      ensures Programmed(r1, words, q) && Ctl(q) in r1 && r1[Ctl(q)] == if q < 8 then 1 else 2
    {
      assert Programmed(r0, words, q) && Ctl(q) in r0;
      assert SameAt(r0, r1, Lo(q)) && SameAt(r0, r1, Hi(q)) && SameAt(r0, r1, Ctl(q));
    }
  }

  /** Loading one transmit queue leaves the records of another. */
  lemma HoldsKept(r0: Registers, r1: Registers, words: seq<int>, p: int, q: int, data: seq<byte>)
    requires Sizes(words) && Sum(words) <= MAX_TX_QUEUE_SIZE && 0 <= p < 4 && 0 <= q < 4 && p != q
    requires OnlyTouches(r0, r1, Base(words, 8 + p), QueueSize(words, p))
    requires PortOk(words[q], data) && Holds(r0, Base(words, 8 + q), data)
    ensures Holds(r1, Base(words, 8 + q), data)
  {
    Apart(words, p, q);
    HeldApart(r0, r1, Base(words, 8 + p), QueueSize(words, p), Base(words, 8 + q), QueueSize(words, q), data);
  }

  lemma HeldApart(r0: Registers, r1: Registers, touched: int, n: int, base: int, m: int, data: seq<byte>)
    requires OnlyTouches(r0, r1, touched, n) && (touched + n <= base || base + m <= touched)
    requires |data| <= RECORD * m && Holds(r0, base, data)
    ensures Holds(r1, base, data)
  {
    forall r: int | 0 <= r && RECORD * r + RECORD <= |data|
      ensures HoldsRecord(r1, base, data, r)
    {
      assert HoldsRecord(r0, base, data, r);
      var a := WordAddr(base + r);
      assert SameAt(r0, r1, a + 4) && SameAt(r0, r1, a + 8) && SameAt(r0, r1, a + 12);
    }
  }

  lemma Apart(words: seq<int>, p: int, q: int)
    requires Sizes(words) && Sum(words) <= MAX_TX_QUEUE_SIZE && 0 <= p < 4 && 0 <= q < 4 && p != q
    ensures || Base(words, 8 + p) + QueueSize(words, p) <= Base(words, 8 + q)
            || Base(words, 8 + q) + QueueSize(words, q) <= Base(words, 8 + p)
  {
    if p < q {
      BaseGrows(words, 8 + p, 8 + q);
    } else {
      BaseGrows(words, 8 + q, 8 + p);
    }
  }

  /** Each of the first n ports has its records in its transmit queue. */
  ghost predicate AllHeld(regs: Registers, words: seq<int>, data: seq<seq<byte>>, n: int) {
    |words| == 4 && |data| == 4 && n <= 4 && forall p | 0 <= p < n :: Holds(regs, Base(words, 8 + p), data[p])
  }

  lemma AllHeldMore(r0: Registers, r1: Registers, words: seq<int>, data: seq<seq<byte>>, n: int)
    requires PortsOk(words, data) && Sum(words) <= MAX_TX_QUEUE_SIZE && 0 <= n < 4
    requires AllHeld(r0, words, data, n) && Holds(r1, Base(words, 8 + n), data[n])
    requires OnlyTouches(r0, r1, Base(words, 8 + n), QueueSize(words, n))
    ensures AllHeld(r1, words, data, n + 1)
  {
    SumNonNegative(words, data);
    forall p | 0 <= p < n
      ensures Holds(r1, Base(words, 8 + p), data[p])
    {
      assert PortOk(words[p], data[p]);
      HoldsKept(r0, r1, words, n, p, data[p]);
    }
  }

  /** The writes that load the first n ports. */
  function Loads(words: seq<int>, data: seq<seq<byte>>, n: int): Trace
    requires |words| == 4 && |data| == 4 && 0 <= n <= 4
    decreases n
  {
    if n == 0 then []
    else
      Loads(words, data, n - 1) + LoadTrace(Base(words, 7 + n), data[n - 1], |data[n - 1]| / RECORD)
  }

  /** Each write that loads a port goes to that port's own transmit queue. */
  lemma PortInside(words: seq<int>, data: seq<seq<byte>>, p: int)
    requires PortsOk(words, data) && 0 <= p < 4
    ensures AllInside(LoadTrace(Base(words, 8 + p), data[p], |data[p]| / RECORD),
                      Base(words, 8 + p), QueueSize(words, p))
  {
    assert PortOk(words[p], data[p]);
    LoadInside(Base(words, 8 + p), data[p], |data[p]| / RECORD, QueueSize(words, p));
  }

  /** Loading port after port keeps the layout and leaves each port's records in its own queue. */
  lemma {:induction false} LoadsHold(w: Trace, words: seq<int>, data: seq<seq<byte>>, n: int)
    requires PortsOk(words, data) && Sum(words) <= MAX_TX_QUEUE_SIZE && 0 <= n <= 4
    requires Reorganized(Replay(w), words)
    ensures Reorganized(Replay(w + Loads(words, data, n)), words)
    ensures AllHeld(Replay(w + Loads(words, data, n)), words, data, n)
    decreases n
  {
    if n == 0 {
      assert w + Loads(words, data, 0) == w;
    } else {
      LoadsHold(w, words, data, n - 1);
      Assoc(w, Loads(words, data, n - 1), LoadTrace(Base(words, 7 + n), data[n - 1], |data[n - 1]| / RECORD));
      LoadKeeps(w + Loads(words, data, n - 1), words, data, n - 1);
    }
  }

  lemma LoadKeeps(w: Trace, words: seq<int>, data: seq<seq<byte>>, p: int)
    requires PortsOk(words, data) && Sum(words) <= MAX_TX_QUEUE_SIZE && 0 <= p < 4
    requires Reorganized(Replay(w), words) && AllHeld(Replay(w), words, data, p)
    ensures var after := Replay(w + LoadTrace(Base(words, 8 + p), data[p], |data[p]| / RECORD));
            Reorganized(after, words) && AllHeld(after, words, data, p + 1)
  {
    assert PortOk(words[p], data[p]);
    var t := LoadTrace(Base(words, 8 + p), data[p], |data[p]| / RECORD);
    SumNonNegative(words, data);
    PortInside(words, data, p);
    InsideTouches(w, t, Base(words, 8 + p), QueueSize(words, p));
    LoadedHolds(w, Base(words, 8 + p), data[p]);
    ReorganizedKept(Replay(w), Replay(w + t), words, p);
    AllHeldMore(Replay(w), Replay(w + t), words, data, p);
  }

  /** What the card reads from the transmit queue of port p, as its registers give it, is exactly the
      packets xs, and they lie inside that queue. */
  ghost predicate Sends(regs: Registers, p: int, data: seq<byte>, xs: seq<Input>) {
    && 0 <= p < 4 && AllLoadable(xs) && Lo(8 + p) in regs && Hi(8 + p) in regs
    && |data| / RECORD <= regs[Hi(8 + p)] - regs[Lo(8 + p)] + 1
    && Decode(ReadBack(regs, regs[Lo(8 + p)], 0, |data| / RECORD)) == Some(Packets(p, xs))
  }

  /** Whatever was loaded without padding is what the card will send, if and only if every packet is
      shorter than 65536 bytes. */
  lemma LoadedIsSent(regs: Registers, words: seq<int>, data: seq<seq<byte>>, xs: seq<seq<Input>>, p: int)
    requires PortsOk(words, data) && 0 <= p < 4
    requires Reorganized(regs, words) && AllHeld(regs, words, data, 4) && Encoded(data, xs)
    ensures Sends(regs, p, data[p], xs[p]) <==> AllShort(xs[p])
  {
    assert PortOk(words[p], data[p]);
    assert Programmed(regs, words, 8 + p);
    assert Holds(regs, Base(words, 8 + p), data[p]);
    var n := |data[p]| / RECORD;
    ReadBackIs(regs, Base(words, 8 + p), data[p], 0, n);
    assert data[p][RECORD * 0..] == data[p];
    DecodeInvertsStoredAll(p, xs[p]);
  }

  ghost predicate SentIffShort(regs: Registers, data: seq<seq<byte>>, xs: seq<seq<Input>>)
    requires |data| == 4 && |xs| == 4
  {
    forall p | 0 <= p < 4 :: Sends(regs, p, data[p], xs[p]) <==> AllShort(xs[p])
  }

  lemma AllSent(regs: Registers, words: seq<int>, data: seq<seq<byte>>, xs: seq<seq<Input>>)
    requires PortsOk(words, data) && |xs| == 4 && Reorganized(regs, words) && AllHeld(regs, words, data, 4)
    ensures Encoded(data, xs) ==> SentIffShort(regs, data, xs)
  {
    if Encoded(data, xs) {
      forall p | 0 <= p < 4 ensures Sends(regs, p, data[p], xs[p]) <==> AllShort(xs[p]) {
        LoadedIsSent(regs, words, data, xs, p);
      }
    }
  }

  /** A packet of 65536 bytes is admitted by an empty generator, and then lost. */
  lemma LongPacketAdmitted(port: int, data: seq<byte>, len: int)
    requires 0 <= port < 4 && len == 65536 && |data| >= len
    ensures PacketWords(false, len, WordLen(len), 0) <= MAX_TX_QUEUE_SIZE
    ensures Decode(Stored(false, port, len, WordLen(len), data)).None?
  {
    LengthLost(port, len, data);
  }

  /** The memory of the card, which lies below the queue registers, is as it was. */
  ghost predicate SameBelow(before: Registers, after: Registers) {
    forall a | a < CTRL_REG :: SameAt(before, after, a)
  }

  lemma ReorganizeDone(w0: Trace, w: Trace, words: seq<int>)
    requires |words| == 4 && w == w0 + ReorganizeTrace(words)
    ensures Reorganized(Replay(w), words) && SameBelow(Replay(w0), Replay(w))
  {
    TraceReorganizes(w0, words);
    forall a | a < CTRL_REG ensures SameAt(Replay(w0), Replay(w), a) { TraceSparesMemory(w0, words, a); }
  }

  function TotalLen(xs: seq<Input>): int {
    if xs == [] then 0 else TotalLen(xs[..|xs| - 1]) + xs[|xs| - 1].len
  }

  /** The counters of each port count its packets and their bytes, modulo 2^32. */
  predicate Counted(pkts: seq<int>, bytes: seq<int>, xs: seq<seq<Input>>) {
    && |pkts| == 4 && |bytes| == 4 && |xs| == 4
    && forall p | 0 <= p < 4 ::
         pkts[p] == |xs[p]| % 0x1_0000_0000 && bytes[p] == TotalLen(xs[p]) % 0x1_0000_0000
  }

  lemma CountedGrows(pkts: seq<int>, bytes: seq<int>, xs: seq<seq<Input>>, port: int, x: Input)
    requires |pkts| == 4 && |bytes| == 4 && |xs| == 4 && 0 <= port < 4
    ensures Counted(pkts, bytes, xs) ==>
              Counted(pkts[port := (pkts[port] + 1) % 0x1_0000_0000],
                      bytes[port := (bytes[port] + x.len) % 0x1_0000_0000], xs[port := xs[port] + [x]])
  {
    var more := xs[port] + [x];
    assert more[..|more| - 1] == xs[port];
    assert TotalLen(more) == TotalLen(xs[port]) + x.len;
    Counts32(|xs[port]|, 1);
    Counts32(TotalLen(xs[port]), x.len);
  }

  lemma Counts32(n: int, k: int)
    ensures (n % 0x1_0000_0000 + k) % 0x1_0000_0000 == (n + k) % 0x1_0000_0000
  {
  }

  class PktGen {
    const pad: bool
    var totalWords: int
    var queueWords: seq<int>
    var queueData: seq<seq<byte>>
    var queueBytes: seq<int>
    var queuePkts: seq<int>
    var queueBase: seq<int>
    var writes: Trace                       // every register write so far
    ghost var accepted: seq<seq<Input>>     // per port

    ghost predicate Valid()
      reads this
    {
      && PortsOk(queueWords, queueData) && |queueBase| == 4 && |accepted| == 4
      && |queueBytes| == 4 && |queuePkts| == 4
      && totalWords == Sum(queueWords) <= MAX_TX_QUEUE_SIZE
    }

    constructor (pad: bool)
      ensures Valid() && Encoded(queueData, accepted) && Counted(queuePkts, queueBytes, accepted) && this.pad == pad
      ensures accepted == [[], [], [], []] && queueWords == [0, 0, 0, 0] && writes == []
    {
      this.pad := pad;
      totalWords := 0;
      queueWords, queueData, queueBase := [0, 0, 0, 0], [[], [], [], []], [0, 0, 0, 0];
      queueBytes, queuePkts := [0, 0, 0, 0], [0, 0, 0, 0];
      writes, accepted := [], [[], [], [], []];
    }

    /** load_packet. floatLen is what the conversion of len to float gave; delay is the delay after
        a missing one was worked out. The buffer is read in whole words. */
    method LoadPacket(len: int, floatLen: int, data: seq<byte>, port: int, delay: int) returns (loaded: bool)
      requires Valid() && 0 <= port < 4 && 0 <= len < 0x1_0000_0000 && Rounds(len, floatLen)
      requires 8 * Copied(pad, len, WordLen(floatLen)) <= |data|
      modifies this`totalWords, this`queueWords, this`queueData, this`accepted, this`queueBytes, this`queuePkts
      ensures Valid()
      ensures loaded <==> PacketWords(pad, len, WordLen(floatLen), delay) + old(totalWords) <= MAX_TX_QUEUE_SIZE
      ensures !loaded ==> queueWords == old(queueWords) && queueData == old(queueData) && accepted == old(accepted)
      ensures loaded ==>
                var wordLen := WordLen(floatLen);
                && queueWords == old(queueWords)[port := old(queueWords)[port] + PacketWords(pad, len, wordLen, delay)]
                && queueData == old(queueData)[port := old(queueData)[port] + Stored(pad, port, len, wordLen, data)]
                && accepted == old(accepted)[port := old(accepted)[port] + [Input(len, data)]]
      ensures !pad && old(Encoded(queueData, accepted)) ==> Encoded(queueData, accepted)
      ensures old(Counted(queuePkts, queueBytes, accepted)) ==> Counted(queuePkts, queueBytes, accepted)
    {
      ghost var xs := accepted;
      loaded := LoadWords(len, floatLen, data, port, delay);
      if loaded {
        Count(port, len, xs, Input(len, data));
      }
    }

    /** The byte and packet counters of a port, which are unsigned 32-bit integers. */
    method Count(port: int, len: int, ghost xs: seq<seq<Input>>, ghost x: Input)
      requires 0 <= port < 4 && |queueBytes| == 4 && |queuePkts| == 4 && |xs| == 4 && x.len == len
      modifies this`queueBytes, this`queuePkts
      ensures |queueBytes| == 4 && |queuePkts| == 4
      ensures old(Counted(queuePkts, queueBytes, xs)) ==> Counted(queuePkts, queueBytes, xs[port := xs[port] + [x]])
    {
      CountedGrows(queuePkts, queueBytes, xs, port, x);
      queueBytes := queueBytes[port := (queueBytes[port] + len) % 0x1_0000_0000];
      queuePkts := queuePkts[port := (queuePkts[port] + 1) % 0x1_0000_0000];
    }

    /** load_packet without its counters. */
    method LoadWords(len: int, floatLen: int, data: seq<byte>, port: int, delay: int) returns (loaded: bool)
      requires Valid() && 0 <= port < 4 && 0 <= len < 0x1_0000_0000 && Rounds(len, floatLen)
      requires 8 * Copied(pad, len, WordLen(floatLen)) <= |data|
      modifies this`totalWords, this`queueWords, this`queueData, this`accepted
      ensures Valid()
      ensures loaded <==> PacketWords(pad, len, WordLen(floatLen), delay) + old(totalWords) <= MAX_TX_QUEUE_SIZE
      ensures !loaded ==> queueWords == old(queueWords) && queueData == old(queueData) && accepted == old(accepted)
      ensures loaded ==>
                var wordLen := WordLen(floatLen);
                && queueWords == old(queueWords)[port := old(queueWords)[port] + PacketWords(pad, len, wordLen, delay)]
                && queueData == old(queueData)[port := old(queueData)[port] + Stored(pad, port, len, wordLen, data)]
                && accepted == old(accepted)[port := old(accepted)[port] + [Input(len, data)]]
      ensures !pad && old(Encoded(queueData, accepted)) ==> Encoded(queueData, accepted)
    {
      ghost var d, xs := queueData, accepted;
      var wordLen := WordLen(floatLen);
      SumNonNegative(queueWords, queueData);
      AdmittedIsExact(pad, len, floatLen, delay);
      loaded := Admit(len, wordLen, data, port, delay);
      if loaded && !pad && Encoded(d, xs) {
        EncodedGrows(d, xs, port, Input(len, data), wordLen);
      }
    }

    /** The admission check of load_packet, and what follows it. */
    method Admit(len: int, wordLen: int, data: seq<byte>, port: int, delay: int) returns (loaded: bool)
      requires Valid() && 0 <= port < 4 && 0 <= len && wordLen >= 0
      requires PacketWords(pad, len, wordLen, delay) + totalWords <= MAX_TX_QUEUE_SIZE && (!pad || len <= 64) ==>
                 wordLen == WordLen(len)
      requires 8 * Copied(pad, len, wordLen) <= |data|
      modifies this`totalWords, this`queueWords, this`queueData, this`accepted
      ensures Valid()
      ensures loaded <==> PacketWords(pad, len, wordLen, delay) + old(totalWords) <= MAX_TX_QUEUE_SIZE
      ensures !loaded ==> queueWords == old(queueWords) && queueData == old(queueData) && accepted == old(accepted)
      ensures loaded ==>
                && queueWords == old(queueWords)[port := old(queueWords)[port] + PacketWords(pad, len, wordLen, delay)]
                && queueData == old(queueData)[port := old(queueData)[port] + Stored(pad, port, len, wordLen, data)]
                && accepted == old(accepted)[port := old(accepted)[port] + [Input(len, data)]]
    {
      var writePad := pad && len > 64;
      var shownWords := if writePad then 8 else wordLen;
      var packetWords := shownWords + 1 + (if delay > 0 then 1 else 0) + (if writePad then 1 else 0);
      if packetWords + totalWords > MAX_TX_QUEUE_SIZE {
        return false;
      }
      loaded := true;
      var records := Records(len, wordLen, if writePad then 64 else len, shownWords, data, port);
      AdmittedPort(pad, queueWords[port], queueData[port], port, Input(len, data), wordLen, delay);
      Accept(port, packetWords, records, Input(len, data));
    }

    /** load_packet once the packet is admitted: charge the words, append the records. */
    method Accept(port: int, packetWords: int, records: seq<byte>, ghost x: Input)
      requires Valid() && 0 <= port < 4 && packetWords + totalWords <= MAX_TX_QUEUE_SIZE
      requires PortOk(queueWords[port] + packetWords, queueData[port] + records)
      modifies this`totalWords, this`queueWords, this`queueData, this`accepted
      ensures Valid()
      ensures queueWords == old(queueWords)[port := old(queueWords)[port] + packetWords]
      ensures queueData == old(queueData)[port := old(queueData)[port] + records]
      ensures accepted == old(accepted)[port := old(accepted)[port] + [x]]
    {
      SumGrows(queueWords, port, packetWords);
      totalWords := totalWords + packetWords;
      queueWords := queueWords[port := queueWords[port] + packetWords];
      queueData := queueData[port := queueData[port] + records];
      accepted := accepted[port := accepted[port] + [x]];
    }

    /** The records that load_packet appends to the data of a port. */
    method Records(len: int, wordLen: int, shownLen: int, shownWords: int, data: seq<byte>, port: int)
      returns (s: seq<byte>)
      requires 0 <= port < 4 && len >= 0 && wordLen >= 0
      requires shownLen == ShownLen(pad, len) && shownWords == ShownWords(pad, len, wordLen)
      requires 8 * Copied(pad, len, wordLen) <= |data|
      ensures s == Stored(pad, port, len, wordLen, data)
    {
      s := HeaderRecord(IO_QUEUE_STAGE, port, shownWords, shownLen);
      if pad && len > 64 {
        s := s + HeaderRecord(PAD_CTRL, port, wordLen, len);
      } else {
        EmptyIsUnit(s);
      }
      var words := Words(if pad then shownWords else len, shownLen, shownWords, data);
      s := s + words;
    }

    /** The copying loop: one record for every eight steps of its counter. */
    method Words(count: int, shownLen: int, shownWords: int, data: seq<byte>) returns (s: seq<byte>)
      requires count >= 0 && shownLen >= 0 && 8 * WordLen(count) <= |data|
      ensures s == DataRecords(data, shownLen, shownWords, 0, WordLen(count))
    {
      s := [];
      var i := 0;
      ghost var k := 0;
      while i < count
        invariant i == 8 * k && 0 <= k <= WordLen(count)
        invariant s == DataRecords(data, shownLen, shownWords, 0, k)
      {
        var ctrl := 0 as byte;
        if i / 8 == shownWords - 1 {
          ctrl := LastCtrl(shownLen);
        }
        DataRecordsExtend(data, shownLen, shownWords, 0, k);
        s := s + ([ctrl] + data[i..i + 8]);
        i := i + 8;
        k := k + 1;
      }
    }

    /** writeReg */
    method Write(addr: int, value: int)
      modifies this`writes
      ensures writes == old(writes) + [WriteReg(addr, value)]
    {
      writes := writes + [WriteReg(addr, value)];
    }

    /** Three of them in a row. */
    method WriteThree(a: WriteReg, b: WriteReg, c: WriteReg)
      modifies this`writes
      ensures writes == old(writes) + [a, b, c]
    {
      Write(a.addr, a.value);
      Write(b.addr, b.value);
      Write(c.addr, c.value);
    }

    /** queue_reorganize */
    method QueueReorganize()
      requires Valid()
      modifies this`writes, this`queueBase
      ensures Valid() && writes == old(writes) + ReorganizeTrace(queueWords)
      ensures forall p | 0 <= p < 4 :: queueBase[p] == Base(queueWords, 8 + p)
      ensures Reorganized(Replay(writes), queueWords) && SameBelow(Replay(old(writes)), Replay(writes))
    {
      var rx := ReceiveSizes();
      ghost var w0 := writes;
      SetUp(rx);
      ReorganizeDone(w0, writes, queueWords);
    }

    /** Its writes. */
    method SetUp(rx: seq<int>)
      requires |queueWords| == 4 && |queueBase| == 4
      requires |rx| == 4 && forall p | 0 <= p < 4 :: rx[p] == RxSize(queueWords, p)
      modifies this`writes, this`queueBase
      ensures writes == old(writes) + ReorganizeTrace(queueWords)
      ensures |queueBase| == 4 && forall p | 0 <= p < 4 :: queueBase[p] == Base(queueWords, 8 + p)
    {
      ghost var w0 := writes;
      SetControls(3 * NUM_PORTS, 0);
      ghost var w1 := writes;
      var addr := ResizeFirst(rx);
      ResizeTransmit(addr, w1);
      SetControls(2 * NUM_PORTS, 1);
      JoinTraces(w0, ControlTrace(12, 0), LayoutTrace(queueWords, 12), ControlTrace(8, 1));
    }

    /** Writes one value to the control registers of the first n queues. */
    method SetControls(n: int, value: int)
      requires 0 <= n
      modifies this`writes
      ensures writes == old(writes) + ControlTrace(n, value)
    {
      var i := 0;
      while i < n
        invariant 0 <= i <= n
        invariant writes == old(writes) + ControlTrace(i, value)
      {
        Write(Ctl(i), value);
        i := i + 1;
      }
    }

    /** Sets the region of queue q, which starts at lo, and initialises it. */
    method Program(q: int, lo: int, size: int, ghost w0: Trace)
      requires |queueWords| == 4 && 0 <= q < 12 && lo == Base(queueWords, q) && size == SizeOf(queueWords, q)
      requires writes == w0 + LayoutTrace(queueWords, q)
      modifies this`writes
      ensures writes == w0 + LayoutTrace(queueWords, q + 1)
    {
      WriteThree(WriteReg(Lo(q), lo), WriteReg(Hi(q), lo + size - 1), WriteReg(Ctl(q), 2));
      Assoc(w0, LayoutTrace(queueWords, q), RegionTrace(queueWords, q));
    }

    /** The set-up and receive queues. */
    method ResizeFirst(rx: seq<int>) returns (addr: int)
      requires |queueWords| == 4 && |rx| == 4 && forall p | 0 <= p < 4 :: rx[p] == RxSize(queueWords, p)
      modifies this`writes
      ensures addr == Base(queueWords, 8) && writes == old(writes) + LayoutTrace(queueWords, 8)
    {
      addr := 0;
      var i := 0;
      while i < NUM_PORTS
        invariant 0 <= i <= 4 && addr == Base(queueWords, 2 * i)
        invariant writes == old(writes) + LayoutTrace(queueWords, 2 * i)
      {
        addr := ResizePair(i, addr, rx[i], old(writes));
        i := i + 1;
      }
    }

    /** Queues 2i and 2i + 1. */
    method ResizePair(i: int, start: int, rxSize: int, ghost w0: Trace) returns (addr: int)
      requires |queueWords| == 4 && 0 <= i < 4 && start == Base(queueWords, 2 * i)
      requires rxSize == RxSize(queueWords, i) && writes == w0 + LayoutTrace(queueWords, 2 * i)
      modifies this`writes
      ensures writes == w0 + LayoutTrace(queueWords, 2 * i + 2) && addr == Base(queueWords, 2 * i + 2)
    {
      Program(2 * i, start, XMIT_QUEUE_SIZE, w0);
      addr := start + XMIT_QUEUE_SIZE;
      assert addr == Base(queueWords, 2 * i + 1);
      assert (2 * i + 1) / 2 == i;
      Program(2 * i + 1, addr, rxSize, w0);
      addr := addr + rxSize;
    }

    /** The transmit queues. */
    method ResizeTransmit(start: int, ghost w0: Trace)
      requires |queueWords| == 4 && |queueBase| == 4 && start == Base(queueWords, 8)
      requires writes == w0 + LayoutTrace(queueWords, 8)
      modifies this`writes, this`queueBase
      ensures |queueBase| == 4 && forall p | 0 <= p < 4 :: queueBase[p] == Base(queueWords, 8 + p)
      ensures writes == w0 + LayoutTrace(queueWords, 12)
    {
      var addr := start;
      var i := 0;
      while i < NUM_PORTS
        invariant 0 <= i <= 4 && addr == Base(queueWords, 8 + i) && |queueBase| == 4
        invariant forall p | 0 <= p < i :: queueBase[p] == Base(queueWords, 8 + p)
        invariant writes == w0 + LayoutTrace(queueWords, 8 + i)
      {
        var size := QueueSize(queueWords, i);
        Program(i + 2 * NUM_PORTS, addr, size, w0);
        queueBase := queueBase[i := addr];
        addr := addr + size;
        i := i + 1;
      }
    }

    /** The sizes of the receive queues, in unsigned 32-bit arithmetic. No subtraction wraps: the
        sizes are those of the layout, and each is at least the minimum. */
    method ReceiveSizes() returns (rx: seq<int>)
      requires Valid()
      ensures |rx| == 4 && forall p | 0 <= p < 4 :: rx[p] == RxSize(queueWords, p)
      ensures forall p | 0 <= p < 4 :: rx[p] >= MIN_RX_QUEUE_SIZE
    {
      SumNonNegative(queueWords, queueData);
      var free := FreeWords();
      AdmissionLeavesRoom(queueWords);
      rx := [free / NUM_PORTS, free / NUM_PORTS, free / NUM_PORTS, free / NUM_PORTS];
      rx := rx[0 := rx[0] + Minus32(free, NUM_PORTS * rx[0])];
    }

    /** What the set-up and transmit queues leave. */
    method FreeWords() returns (free: int)
      requires Sizes(queueWords) && Sum(queueWords) <= MAX_TX_QUEUE_SIZE
      ensures free == Free(queueWords)
    {
      free := MEM_SIZE - NUM_PORTS * XMIT_QUEUE_SIZE;
      var i := 0;
      while i < NUM_PORTS
        invariant 0 <= i <= 4
        invariant free == MEM_SIZE - NUM_PORTS * XMIT_QUEUE_SIZE - TxUpTo(queueWords, i)
      {
        TxUpToGrows(queueWords, i, NUM_PORTS);
        free := Minus32(free, QueueSize(queueWords, i));
        i := i + 1;
      }
      TxUpToAll(queueWords);
    }

    /** load_queues: one memory word for every record of the port. */
    method LoadQueues(p: int)
      requires Valid() && 0 <= p < 4 && queueBase[p] == Base(queueWords, 8 + p)
      modifies this`writes
      ensures Valid() && old(writes) <= writes
      ensures writes == old(writes) + LoadTrace(Base(queueWords, 8 + p), queueData[p], |queueData[p]| / RECORD)
      ensures AllInside(writes[|old(writes)|..], Base(queueWords, 8 + p), QueueSize(queueWords, p))
      ensures Holds(Replay(writes), Base(queueWords, 8 + p), queueData[p])
    {
      assert PortOk(queueWords[p], queueData[p]);
      ghost var w0 := writes;
      Copy(queueBase[p], queueData[p]);
      LoadedHolds(w0, queueBase[p], queueData[p]);
      PortInside(queueWords, queueData, p);
      assert writes[|w0|..] == LoadTrace(queueBase[p], queueData[p], |queueData[p]| / RECORD);
    }

    /** The loop of load_queues. */
    method Copy(base: int, data: seq<byte>)
      requires |data| % RECORD == 0
      modifies this`writes
      ensures writes == old(writes) + LoadTrace(base, data, |data| / RECORD)
    {
      var addr := WordAddr(base);
      var i := 0;
      ghost var r := 0;
      while i < |data|
        invariant i == RECORD * r && 0 <= i <= |data| && addr == WordAddr(base + r)
        invariant writes == old(writes) + LoadTrace(base, data, r)
      {
        CopyRecord(addr, data, i, base, r);
        Assoc(old(writes), LoadTrace(base, data, r), RecordTrace(base, data, r));
        i := i + RECORD;
        addr := addr + 16;
        r := r + 1;
      }
    }

    /** The three register writes for the record at offset i. */
    method CopyRecord(addr: int, data: seq<byte>, i: int, ghost base: int, ghost r: nat)
      requires i == RECORD * r && i + RECORD <= |data| && addr == WordAddr(base + r)
      modifies this`writes
      ensures writes == old(writes) + RecordTrace(base, data, r)
    {
      WriteThree(WriteReg(addr + 4, data[i] as int), WriteReg(addr + 8, Get32(data, i + 1)),
                 WriteReg(addr + 12, Get32(data, i + 5)));
    }

    /** The loading sequence of main: lay out the queues, then load every port that has data. */
    method LoadAll()
      requires Valid()
      modifies this`writes, this`queueBase
      ensures Valid()
      ensures writes == old(writes) + ReorganizeTrace(queueWords) + Loads(queueWords, queueData, 4)
      ensures Reorganized(Replay(writes), queueWords) && AllHeld(Replay(writes), queueWords, queueData, 4)
      ensures !pad && Encoded(queueData, accepted) ==> SentIffShort(Replay(writes), queueData, accepted)
    {
      QueueReorganize();
      ghost var w1 := writes;
      var i := 0;
      while i < NUM_PORTS
        invariant 0 <= i <= 4 && Valid()
        invariant forall p | 0 <= p < 4 :: queueBase[p] == Base(queueWords, 8 + p)
        invariant writes == w1 + Loads(queueWords, queueData, i)
      {
        LoadOne(i, w1);
        i := i + 1;
      }
      LoadsHold(w1, queueWords, queueData, 4);
      AllSent(Replay(writes), queueWords, queueData, accepted);
    }

    /** One turn of that loop. */
    method LoadOne(p: int, ghost w1: Trace)
      requires Valid() && 0 <= p < 4 && queueBase[p] == Base(queueWords, 8 + p)
      requires writes == w1 + Loads(queueWords, queueData, p)
      modifies this`writes
      ensures Valid() && writes == w1 + Loads(queueWords, queueData, p + 1)
    {
      if |queueData[p]| != 0 {
        LoadQueues(p);
      }
      Assoc(w1, Loads(queueWords, queueData, p),
            LoadTrace(Base(queueWords, 8 + p), queueData[p], |queueData[p]| / RECORD));
    }
  }

  /** Subtraction of unsigned 32-bit integers. */
  function Minus32(a: int, b: int): int {
    (a - b) % 0x1_0000_0000
  }

  lemma JoinTraces(w: Trace, a: Trace, b: Trace, c: Trace)
    ensures ((w + a) + b) + c == w + (a + b + c)
  {
  }
}
