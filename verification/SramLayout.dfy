/** pkt_gen/pkt_gen_2.c: the partition of the card's memory into twelve queues, and the register
    writes that set it up. */
module SramLayout {

  const NUM_PORTS := 4
  const MEM_SIZE := 0x80000
  const XMIT_QUEUE_SIZE := 4096
  const MIN_RX_QUEUE_SIZE := MEM_SIZE / (2 * NUM_PORTS) / 2
  const MIN_TX_QUEUE_SIZE := 4
  const MAX_TX_QUEUE_SIZE := MEM_SIZE - NUM_PORTS * (MIN_RX_QUEUE_SIZE + XMIT_QUEUE_SIZE + MIN_TX_QUEUE_SIZE)

  const CTRL_REG := 0x200_0000
  const ADDR_LO_REG := 0x200_0020
  const ADDR_HI_REG := 0x200_0024
  const QUEUE_STEP := 0x100
  const SRAM_BASE := 0x100_0000

  type Registers = map<int, int>

  // ---------------------------------------------------------------- the layout

  predicate Sizes(words: seq<int>) {
    |words| == 4 && forall p | 0 <= p < 4 :: words[p] >= 0
  }

  function Sum(words: seq<int>): int
    requires |words| == 4
  {
    words[0] + words[1] + words[2] + words[3]
  }

  /** get_queue_size */
  function QueueSize(words: seq<int>, p: int): int
    requires |words| == 4 && 0 <= p < 4
  {
    if words[p] < MIN_TX_QUEUE_SIZE then MIN_TX_QUEUE_SIZE else words[p]
  }

  function TxTotal(words: seq<int>): int
    requires |words| == 4
  {
    QueueSize(words, 0) + QueueSize(words, 1) + QueueSize(words, 2) + QueueSize(words, 3)
  }

  /** What is left for the receive queues. */
  function Free(words: seq<int>): int
    requires |words| == 4
  {
    MEM_SIZE - NUM_PORTS * XMIT_QUEUE_SIZE - TxTotal(words)
  }

  /** The receive queues share what is left; the first gets the remainder. */
  function RxSize(words: seq<int>, p: int): int
    requires |words| == 4 && 0 <= p < 4
  {
    Free(words) / NUM_PORTS + if p == 0 then Free(words) % NUM_PORTS else 0
  }

  /** The size of queue q: set-up and receive queues alternate, then the transmit queues. */
  function SizeOf(words: seq<int>, q: int): int
    requires |words| == 4 && 0 <= q < 12
  {
    if q < 8 then if q % 2 == 0 then XMIT_QUEUE_SIZE else RxSize(words, q / 2)
    else QueueSize(words, q - 8)
  }

  /** Where queue q starts. */
  function Base(words: seq<int>, q: int): int
    requires |words| == 4 && 0 <= q <= 12
  {
    if q == 0 then 0 else Base(words, q - 1) + SizeOf(words, q - 1)
  }

  /** The admission bound leaves every receive queue its minimum: the subtractions of
      queue_reorganize never go below zero. */
  lemma AdmissionLeavesRoom(words: seq<int>)
    requires Sizes(words) && Sum(words) <= MAX_TX_QUEUE_SIZE
    ensures MAX_TX_QUEUE_SIZE == 376816 && MIN_RX_QUEUE_SIZE == 32768
    ensures NUM_PORTS * MIN_RX_QUEUE_SIZE <= Free(words) < MEM_SIZE
    ensures forall p | 0 <= p < 4 :: RxSize(words, p) >= MIN_RX_QUEUE_SIZE
  {
    assert words[0] >= 0 && words[1] >= 0 && words[2] >= 0 && words[3] >= 0;
  }

  /** The twelve queues fill the memory exactly. */
  lemma QueuesFillMemory(words: seq<int>)
    requires |words| == 4
    ensures Base(words, 12) == MEM_SIZE
  {
    var f := Free(words);
    assert f == 4 * (f / 4) + f % 4;
    BaseOfFirst(words);
    assert Base(words, 9) == Base(words, 8) + QueueSize(words, 0);
    assert Base(words, 10) == Base(words, 9) + QueueSize(words, 1);
    assert Base(words, 11) == Base(words, 10) + QueueSize(words, 2);
  }

  lemma BaseOfFirst(words: seq<int>)
    requires |words| == 4
    ensures Base(words, 8)
         == 4 * XMIT_QUEUE_SIZE + RxSize(words, 0) + RxSize(words, 1) + RxSize(words, 2) + RxSize(words, 3)
  {
    assert Base(words, 1) == XMIT_QUEUE_SIZE;
    assert Base(words, 2) == Base(words, 1) + RxSize(words, 0);
    assert Base(words, 3) == Base(words, 2) + XMIT_QUEUE_SIZE;
    assert Base(words, 4) == Base(words, 3) + RxSize(words, 1);
    assert Base(words, 5) == Base(words, 4) + XMIT_QUEUE_SIZE;
    assert Base(words, 6) == Base(words, 5) + RxSize(words, 2);
    assert Base(words, 7) == Base(words, 6) + XMIT_QUEUE_SIZE;
  }

  // ---------------------------------------------------------------- the registers

  function Lo(q: int): int { ADDR_LO_REG + q * QUEUE_STEP }
  function Hi(q: int): int { ADDR_HI_REG + q * QUEUE_STEP }
  function Ctl(q: int): int { CTRL_REG + q * QUEUE_STEP }

  /** The address registers of queue q hold its region. */
  predicate Programmed(regs: Registers, words: seq<int>, q: int)
    requires |words| == 4 && 0 <= q < 12
  {
    && Lo(q) in regs && regs[Lo(q)] == Base(words, q)
    && Hi(q) in regs && regs[Hi(q)] == Base(words, q) + SizeOf(words, q) - 1
  }

  predicate Reorganized(regs: Registers, words: seq<int>)
    requires |words| == 4
  {
    && (forall q | 0 <= q < 12 :: Programmed(regs, words, q))
    && (forall q | 0 <= q < 12 :: Ctl(q) in regs && regs[Ctl(q)] == if q < 8 then 1 else 2)
  }

  /** Address a lies in the region the registers give queue q. */
  predicate Inside(regs: Registers, q: int, a: int) {
    Lo(q) in regs && Hi(q) in regs && regs[Lo(q)] <= a <= regs[Hi(q)]
  }

  lemma SizesPositive(words: seq<int>, q: int)
    requires Sizes(words) && Sum(words) <= MAX_TX_QUEUE_SIZE && 0 <= q < 12
    ensures SizeOf(words, q) > 0
  {
    AdmissionLeavesRoom(words);
  }

  lemma {:induction false} BaseNonNegative(words: seq<int>, q: int)
    requires Sizes(words) && Sum(words) <= MAX_TX_QUEUE_SIZE && 0 <= q <= 12
    ensures Base(words, q) >= 0
  {
    if q > 0 {
      BaseNonNegative(words, q - 1);
      SizesPositive(words, q - 1);
    }
  }

  lemma {:induction false} BaseGrows(words: seq<int>, q: int, r: int)
    requires Sizes(words) && Sum(words) <= MAX_TX_QUEUE_SIZE && 0 <= q < r <= 12
    ensures Base(words, q) + SizeOf(words, q) <= Base(words, r)
    decreases r
  {
    if r > q + 1 {
      BaseGrows(words, q, r - 1);
      SizesPositive(words, r - 1);
    }
  }

  lemma {:induction false} FindQueue(words: seq<int>, a: int, q: int) returns (k: int)
    requires |words| == 4 && 0 < q <= 12 && 0 <= a < Base(words, q)
    ensures 0 <= k < q && Base(words, k) <= a < Base(words, k) + SizeOf(words, k)
    decreases q
  {
    if a >= Base(words, q - 1) {
      k := q - 1;
    } else {
      k := FindQueue(words, a, q - 1);
    }
  }

  /** After queue_reorganize every word of the memory belongs to exactly one of the twelve queues. */
  lemma RegionsTileMemory(regs: Registers, words: seq<int>, a: int) returns (q: int)
    requires Sizes(words) && Sum(words) <= MAX_TX_QUEUE_SIZE && Reorganized(regs, words)
    requires 0 <= a < MEM_SIZE
    ensures 0 <= q < 12 && Inside(regs, q, a)
    ensures forall r | 0 <= r < 12 && Inside(regs, r, a) :: r == q
  {
    QueuesFillMemory(words);
    q := FindQueue(words, a, 12);
    assert Programmed(regs, words, q);
    forall r | 0 <= r < 12 && Inside(regs, r, a)
      ensures r == q
    {
      OneQueueOnly(regs, words, q, r, a);
    }
  }

  /** No queue reaches outside the memory. */
  lemma RegionsStayInMemory(regs: Registers, words: seq<int>, q: int, a: int)
    requires Sizes(words) && Sum(words) <= MAX_TX_QUEUE_SIZE && Reorganized(regs, words)
    requires 0 <= q < 12 && Inside(regs, q, a)
    ensures 0 <= a < MEM_SIZE
  {
    assert Programmed(regs, words, q);
    QueuesFillMemory(words);
    BaseNonNegative(words, q);
    BaseGrows(words, q, 12);
  }

  lemma OneQueueOnly(regs: Registers, words: seq<int>, q: int, r: int, a: int)
    requires Sizes(words) && Sum(words) <= MAX_TX_QUEUE_SIZE && Reorganized(regs, words)
    requires 0 <= q < 12 && 0 <= r < 12 && Inside(regs, q, a) && Inside(regs, r, a)
    ensures q == r
  {
    assert Programmed(regs, words, q) && Programmed(regs, words, r);
    if q < r {
      BaseGrows(words, q, r);
    } else if r < q {
      BaseGrows(words, r, q);
    }
  }

  /** Each receive queue gets its minimum size. */
  lemma RxMinimum(regs: Registers, words: seq<int>)
    requires Sizes(words) && Sum(words) <= MAX_TX_QUEUE_SIZE && Reorganized(regs, words)
    ensures forall p | 0 <= p < 4 ::
              Hi(2 * p + 1) in regs && Lo(2 * p + 1) in regs &&
              regs[Hi(2 * p + 1)] - regs[Lo(2 * p + 1)] + 1 >= MIN_RX_QUEUE_SIZE
  {
    AdmissionLeavesRoom(words);
    forall p | 0 <= p < 4
      ensures Hi(2 * p + 1) in regs && Lo(2 * p + 1) in regs &&
              regs[Hi(2 * p + 1)] - regs[Lo(2 * p + 1)] + 1 >= MIN_RX_QUEUE_SIZE
    {
      assert Programmed(regs, words, 2 * p + 1);
      assert (2 * p + 1) / 2 == p && (2 * p + 1) % 2 == 1;
    }
  }

  /** The layout, read off the address registers at 0x2000020 and 0x2000024 of each queue, 0x100 apart: the
      queues follow one another from word 0; a set-up queue has 4096 words; a transmit queue has the words
      its port was charged, but at least 4; the other receive queues are equal and the first is at most
      three words larger. */
  lemma RegionSizes(regs: Registers, words: seq<int>, q: int)
    requires |words| == 4 && Reorganized(regs, words) && 0 <= q < 12
    ensures 0x200_0000 + 0x100 * q in regs && regs[0x200_0000 + 0x100 * q] == if q < 8 then 1 else 2
    ensures 0x200_0020 + 0x100 * q in regs && 0x200_0024 + 0x100 * q in regs
    ensures 0x200_0020 in regs && regs[0x200_0020] == 0
    ensures q < 11 ==> 0x200_0120 + 0x100 * q in regs
                       && regs[0x200_0120 + 0x100 * q] == regs[0x200_0024 + 0x100 * q] + 1
    ensures var size := regs[0x200_0024 + 0x100 * q] - regs[0x200_0020 + 0x100 * q] + 1;
            && (q < 8 && q % 2 == 0 ==> size == 4096)
            && (q >= 8 ==> size == if words[q - 8] >= 4 then words[q - 8] else 4)
  {
    assert Programmed(regs, words, q) && Programmed(regs, words, 0) && Ctl(q) in regs;
    if q < 11 {
      assert Programmed(regs, words, q + 1);
    }
  }

  lemma ReceiveShares(regs: Registers, words: seq<int>, p: int)
    requires |words| == 4 && Reorganized(regs, words) && 1 <= p < 4
    ensures Lo(2 * p + 1) in regs && Hi(2 * p + 1) in regs && Lo(1) in regs && Hi(1) in regs
    ensures var size, first := regs[Hi(2 * p + 1)] - regs[Lo(2 * p + 1)] + 1, regs[Hi(1)] - regs[Lo(1)] + 1;
            size <= first <= size + 3
  {
    assert Programmed(regs, words, 2 * p + 1) && Programmed(regs, words, 1);
    assert (2 * p + 1) / 2 == p && (2 * p + 1) % 2 == 1;
  }

  // ---------------------------------------------------------------- register writes

  datatype WriteReg = WriteReg(addr: int, value: int)

  type Trace = seq<WriteReg>

  /** The registers after these writes. */
  function Replay(w: Trace): Registers {
    if w == [] then map[] else Replay(w[..|w| - 1])[w[|w| - 1].addr := w[|w| - 1].value]
  }

  predicate SameAt(before: Registers, after: Registers, a: int) {
    (a in before <==> a in after) && (a in before ==> after[a] == before[a])
  }

  /** A register holds what was last written to it. */
  lemma {:induction false} ReplayLast(w: Trace, i: int)
    requires 0 <= i < |w| && forall k | i < k < |w| :: w[k].addr != w[i].addr
    ensures w[i].addr in Replay(w) && Replay(w)[w[i].addr] == w[i].value
    decreases |w|
  {
    if i < |w| - 1 {
      ReplayLast(w[..|w| - 1], i);
    }
  }

  /** Writes elsewhere leave a register alone. */
  lemma {:induction false} ReplayKeeps(w: Trace, t: Trace, a: int)
    requires forall k | 0 <= k < |t| :: t[k].addr != a
    ensures SameAt(Replay(w), Replay(w + t), a)
    decreases |t|
  {
    if t == [] {
      assert w + t == w;
    } else {
      assert (w + t)[..|w + t| - 1] == w + t[..|t| - 1];
      ReplayKeeps(w, t[..|t| - 1], a);
    }
  }

  /** One value for the control registers of the first n queues. */
  function ControlTrace(n: nat, value: int): (t: Trace)
    ensures |t| == n && forall q | 0 <= q < n :: t[q] == WriteReg(Ctl(q), value)
  {
    seq(n, q => WriteReg(Ctl(q), value))
  }

  /** The region of queue q, and its initialisation. */
  function RegionTrace(words: seq<int>, q: int): (t: Trace)
    requires |words| == 4 && 0 <= q < 12
    ensures |t| == 3
  {
    [WriteReg(Lo(q), Base(words, q)), WriteReg(Hi(q), Base(words, q) + SizeOf(words, q) - 1), WriteReg(Ctl(q), 2)]
  }

  function LayoutTrace(words: seq<int>, n: int): (t: Trace)
    requires |words| == 4 && 0 <= n <= 12
    ensures |t| == 3 * n
    decreases n
  {
    if n == 0 then [] else LayoutTrace(words, n - 1) + RegionTrace(words, n - 1)
  }

  /** The writes of queue_reorganize: disable all queues, give each its region, enable those that do
      not generate packets. */
  function ReorganizeTrace(words: seq<int>): (t: Trace)
    requires |words| == 4
    ensures |t| == 56
  {
    ControlTrace(12, 0) + LayoutTrace(words, 12) + ControlTrace(8, 1)
  }

  lemma {:induction false} LayoutAt(words: seq<int>, n: int, q: int, j: int)
    requires |words| == 4 && 0 <= q < n <= 12 && 0 <= j < 3
    ensures LayoutTrace(words, n)[3 * q + j] == RegionTrace(words, q)[j]
    decreases n
  {
    if q < n - 1 {
      LayoutAt(words, n - 1, q, j);
    }
  }

  /** Where the writes for queue q stand. */
  lemma TraceAt(words: seq<int>, q: int)
    requires |words| == 4 && 0 <= q < 12
    ensures var t := ReorganizeTrace(words);
            && t[q] == WriteReg(Ctl(q), 0)
            && t[12 + 3 * q] == WriteReg(Lo(q), Base(words, q))
            && t[13 + 3 * q] == WriteReg(Hi(q), Base(words, q) + SizeOf(words, q) - 1)
            && t[14 + 3 * q] == WriteReg(Ctl(q), 2)
            && (q < 8 ==> t[48 + q] == WriteReg(Ctl(q), 1))
  {
    LayoutAt(words, 12, q, 0);
    LayoutAt(words, 12, q, 1);
    LayoutAt(words, 12, q, 2);
  }

  /** The register that write i of queue_reorganize goes to. */
  function AddrAt(i: int): int {
    if i < 12 then Ctl(i) else if i >= 48 then Ctl(i - 48)
    else if (i - 12) % 3 == 0 then Lo((i - 12) / 3)
    else if (i - 12) % 3 == 1 then Hi((i - 12) / 3) else Ctl((i - 12) / 3)
  }

  lemma AddrOf(q: int, r: int)
    requires 0 <= q < 12 && 0 <= r < 3
    ensures AddrAt(12 + 3 * q + r) == if r == 0 then Lo(q) else if r == 1 then Hi(q) else Ctl(q)
  {
    assert (3 * q + r) / 3 == q && (3 * q + r) % 3 == r;
  }

  lemma TraceAddr(words: seq<int>, i: int)
    requires |words| == 4 && 0 <= i < 56
    ensures ReorganizeTrace(words)[i].addr == AddrAt(i)
  {
    if 12 <= i < 48 {
      var q, r := (i - 12) / 3, (i - 12) % 3;
      assert i == 12 + 3 * q + r;
      RegionAddr(words, q, r, i);
    }
  }

  lemma RegionAddr(words: seq<int>, q: int, r: int, i: int)
    requires |words| == 4 && 0 <= q < 12 && 0 <= r < 3 && i == 12 + 3 * q + r
    ensures ReorganizeTrace(words)[i].addr == AddrAt(i)
  {
    AddrOf(q, r);
    LayoutAt(words, 12, q, r);
    MiddleAt(ControlTrace(12, 0), LayoutTrace(words, 12), ControlTrace(8, 1), 3 * q + r);
  }

  lemma MiddleAt(a: Trace, b: Trace, c: Trace, k: int)
    requires 0 <= k < |b|
    ensures (a + b + c)[|a| + k] == b[k]
  {
  }

  lemma AddressesApart(i: int, q: int)
    requires 0 <= i < 56 && 0 <= q < 12
    ensures AddrAt(i) == Lo(q) ==> i == 12 + 3 * q
    ensures AddrAt(i) == Hi(q) ==> i == 13 + 3 * q
    ensures AddrAt(i) == Ctl(q) ==> i == q || i == 14 + 3 * q || i == 48 + q
    ensures AddrAt(i) >= CTRL_REG
  {
    if 12 <= i < 48 {
      var p, r := (i - 12) / 3, (i - 12) % 3;
      assert i == 12 + 3 * p + r && 0 <= p < 12;
    }
  }

  /** Write i of queue_reorganize is still there after the first m writes, when none of the later ones
      among them goes to the same register. */
  lemma WrittenLast(w: Trace, words: seq<int>, i: int, m: int, a: int, v: int)
    requires |words| == 4 && 0 <= i < m <= 56 && ReorganizeTrace(words)[i] == WriteReg(a, v)
    requires forall k | i < k < m :: AddrAt(k) != a
    ensures var after := Replay(w + ReorganizeTrace(words)[..m]);
            a in after && after[a] == v
  {
    var t := ReorganizeTrace(words);
    var all := w + t[..m];
    forall k | |w| + i < k < |all| ensures all[k].addr != all[|w| + i].addr {
      TraceAddr(words, k - |w|);
    }
    ReplayLast(all, |w| + i);
  }

  lemma LoWritten(w: Trace, words: seq<int>, m: int, q: int)
    requires |words| == 4 && 48 <= m <= 56 && 0 <= q < 12
    ensures var after := Replay(w + ReorganizeTrace(words)[..m]);
            Lo(q) in after && after[Lo(q)] == Base(words, q)
  {
    TraceAt(words, q);
    forall k | 12 + 3 * q < k < m ensures AddrAt(k) != Lo(q) { AddressesApart(k, q); }
    WrittenLast(w, words, 12 + 3 * q, m, Lo(q), Base(words, q));
  }

  lemma HiWritten(w: Trace, words: seq<int>, m: int, q: int)
    requires |words| == 4 && 48 <= m <= 56 && 0 <= q < 12
    ensures var after := Replay(w + ReorganizeTrace(words)[..m]);
            Hi(q) in after && after[Hi(q)] == Base(words, q) + SizeOf(words, q) - 1
  {
    TraceAt(words, q);
    forall k | 13 + 3 * q < k < m ensures AddrAt(k) != Hi(q) { AddressesApart(k, q); }
    WrittenLast(w, words, 13 + 3 * q, m, Hi(q), Base(words, q) + SizeOf(words, q) - 1);
  }

  /** After the layout writes, and whatever is enabled of it, each queue has its region. */
  lemma RegionsWritten(w: Trace, words: seq<int>, m: int, q: int)
    requires |words| == 4 && 48 <= m <= 56 && 0 <= q < 12
    ensures Programmed(Replay(w + ReorganizeTrace(words)[..m]), words, q)
  {
    LoWritten(w, words, m, q);
    HiWritten(w, words, m, q);
  }

  lemma ControlsWritten(w: Trace, words: seq<int>, q: int)
    requires |words| == 4 && 0 <= q < 12
    ensures var after := Replay(w + ReorganizeTrace(words)[..56]);
            Ctl(q) in after && after[Ctl(q)] == if q < 8 then 1 else 2
  {
    TraceAt(words, q);
    var i := if q < 8 then 48 + q else 14 + 3 * q;
    forall k | i < k < 56 ensures AddrAt(k) != Ctl(q) { AddressesApart(k, q); }
    WrittenLast(w, words, i, 56, Ctl(q), if q < 8 then 1 else 2);
  }

  /** queue_reorganize sets up the layout, whatever was written before. */
  lemma TraceReorganizes(w: Trace, words: seq<int>)
    requires |words| == 4
    ensures Reorganized(Replay(w + ReorganizeTrace(words)), words)
  {
    assert ReorganizeTrace(words)[..56] == ReorganizeTrace(words);
    forall q | 0 <= q < 12
      ensures Programmed(Replay(w + ReorganizeTrace(words)), words, q)
      ensures Ctl(q) in Replay(w + ReorganizeTrace(words))
           && Replay(w + ReorganizeTrace(words))[Ctl(q)] == if q < 8 then 1 else 2
    {
      RegionsWritten(w, words, 56, q);
      ControlsWritten(w, words, q);
    }
  }

  /** It leaves the memory, which lies below the queue registers, alone. */
  lemma TraceSparesMemory(w: Trace, words: seq<int>, a: int)
    requires |words| == 4 && a < CTRL_REG
    ensures SameAt(Replay(w), Replay(w + ReorganizeTrace(words)), a)
  {
    forall k | 0 <= k < 56 ensures ReorganizeTrace(words)[k].addr != a {
      TraceAddr(words, k);
      AddressesApart(k, 0);
    }
    ReplayKeeps(w, ReorganizeTrace(words), a);
  }

  /** At every write to an address register of a queue that queue is disabled. */
  lemma ResizedWhileDisabled(w: Trace, words: seq<int>, q: int, i: int)
    requires |words| == 4 && 0 <= q < 12 && 0 <= i < 56 && ReorganizeTrace(words)[i].addr in {Lo(q), Hi(q)}
    ensures var at := Replay(w + ReorganizeTrace(words)[..i]);
            Ctl(q) in at && at[Ctl(q)] == 0
  {
    TraceAddr(words, i);
    AddressesApart(i, q);
    TraceAt(words, q);
    forall k | q < k < i ensures AddrAt(k) != Ctl(q) { AddressesApart(k, q); }
    WrittenLast(w, words, q, i, Ctl(q), 0);
  }

  /** At every write that enables a queue all twelve queues have their regions already. */
  lemma EnabledOnlyAfterwards(w: Trace, words: seq<int>, q: int, i: int)
    requires |words| == 4 && 0 <= q < 12 && 0 <= i < 56 && ReorganizeTrace(words)[i] == WriteReg(Ctl(q), 1)
    ensures forall r | 0 <= r < 12 :: Programmed(Replay(w + ReorganizeTrace(words)[..i]), words, r)
  {
    TraceAddr(words, i);
    AddressesApart(i, q);
    TraceAt(words, q);
    assert i == 48 + q;
    forall r | 0 <= r < 12 ensures Programmed(Replay(w + ReorganizeTrace(words)[..i]), words, r) {
      RegionsWritten(w, words, i, r);
    }
  }

  function TxUpTo(words: seq<int>, i: int): int
    requires |words| == 4 && 0 <= i <= 4
  {
    if i == 0 then 0 else TxUpTo(words, i - 1) + QueueSize(words, i - 1)
  }

  lemma TxUpToAll(words: seq<int>)
    requires |words| == 4
    ensures TxUpTo(words, 4) == TxTotal(words)
  {
    assert TxUpTo(words, 1) == QueueSize(words, 0);
    assert TxUpTo(words, 2) == TxUpTo(words, 1) + QueueSize(words, 1);
    assert TxUpTo(words, 3) == TxUpTo(words, 2) + QueueSize(words, 2);
  }

  lemma {:induction false} TxUpToMonotone(words: seq<int>, i: int, j: int)
    requires |words| == 4 && 0 <= i <= j <= 4
    ensures TxUpTo(words, i) <= TxUpTo(words, j)
    decreases j
  {
    if i < j {
      TxUpToMonotone(words, i, j - 1);
    }
  }

  lemma TxUpToFits(words: seq<int>, n: int)
    requires Sizes(words) && Sum(words) <= MAX_TX_QUEUE_SIZE && n == 4
    ensures TxUpTo(words, n) <= MEM_SIZE - NUM_PORTS * XMIT_QUEUE_SIZE
  {
    TxUpToAll(words);
    assert words[0] >= 0 && words[1] >= 0 && words[2] >= 0 && words[3] >= 0;
  }

  lemma TxUpToGrows(words: seq<int>, i: int, n: int)
    requires Sizes(words) && Sum(words) <= MAX_TX_QUEUE_SIZE && 0 <= i < n == 4
    ensures 0 <= TxUpTo(words, i) && TxUpTo(words, i) + QueueSize(words, i) <= MEM_SIZE - NUM_PORTS * XMIT_QUEUE_SIZE
  {
    TxUpToMonotone(words, 0, i);
    TxUpToFits(words, n);
    TxUpToMonotone(words, i + 1, n);
  }
}
