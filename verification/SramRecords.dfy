/** pkt_gen/pkt_gen_2.c: packets as 9-byte records, one control byte and one 8-byte word each. */
module SramRecords {
  import opened Bytes

  const IO_QUEUE_STAGE: byte := 0xff
  const PAD_CTRL: byte := 0xfd
  const RECORD := 9

  /** A loaded packet: where it comes from, where it goes, and its bytes. */
  datatype Pkt = Pkt(src: int, port: int, bytes: seq<byte>)

  // ---------------------------------------------------------------- encoding

  /** ceil(len / 8) */
  function WordLen(len: int): int {
    (len + 7) / 8
  }

  /** 0x100 << port, then << 16: a single bit. */
  function PortBit(port: int): int
    requires 0 <= port < 4
  {
    if port == 0 then 0x100_0000 else if port == 1 then 0x200_0000 else if port == 2 then 0x400_0000 else 0x800_0000
  }

  /** x | bit for a single bit. */
  function OrBit(x: int, bit: int): int
    requires bit > 0
  {
    if x / bit % 2 == 1 then x else x + bit
  }

  /** A module header of four 16-bit halves behind its control value: destination port bits over the
      word count, and the source port, which is 0, over the byte length. */
  function HeaderRecord(ctrl: byte, port: int, words: int, len: int): (s: seq<byte>)
    requires 0 <= port < 4
    ensures |s| == RECORD
  {
    [ctrl] + Put32(OrBit(words, PortBit(port))) + Put32(len)
  }

  /** 0x100 >> r for r in 0..7 */
  function Shifted(r: int): int
    requires 0 <= r < 8
  {
    if r == 0 then 0x100 else if r == 1 then 0x80 else if r == 2 then 0x40 else if r == 3 then 0x20
    else if r == 4 then 0x10 else if r == 5 then 0x08 else if r == 6 then 0x04 else 0x02
  }

  /** The control byte of the last word: the shifted bit, wrapped to 1 when it left the byte. */
  function LastCtrl(len: int): byte
    requires len >= 0
  {
    var c := Shifted(len % 8);
    Low(if c == 0x100 then 1 else c)
  }

  /** The control byte of word k of a packet that announces this many words. */
  function Ctrl(len: int, words: int, k: int): byte
    requires len >= 0
  {
    if k == words - 1 then LastCtrl(len) else 0
  }

  /** The record of word k. */
  function DataRecord(data: seq<byte>, len: int, words: int, k: int): (s: seq<byte>)
    requires 0 <= k && 8 * k + 8 <= |data| && len >= 0
    ensures |s| == RECORD && s[0] == Ctrl(len, words, k) && s[1..9] == data[8 * k..8 * k + 8]
  {
    [Ctrl(len, words, k)] + data[8 * k..8 * k + 8]
  }

  /** The data records of words k to n - 1. */
  function DataRecords(data: seq<byte>, len: int, words: int, k: int, n: int): (s: seq<byte>)
    requires 0 <= k <= n && 8 * n <= |data| && len >= 0
    ensures |s| == RECORD * (n - k)
    decreases n - k
  {
    if k == n then [] else DataRecord(data, len, words, k) + DataRecords(data, len, words, k + 1, n)
  }

  lemma EmptyIsUnit(s: seq<byte>)
    ensures [] + s == s && s + [] == s
  {
  }

  lemma {:induction false} DataRecordsExtend(data: seq<byte>, len: int, words: int, k: int, n: int)
    requires 0 <= k <= n && 8 * n + 8 <= |data| && len >= 0
    ensures DataRecords(data, len, words, k, n + 1)
         == DataRecords(data, len, words, k, n) + DataRecord(data, len, words, n)
    decreases n - k
  {
    var last := DataRecord(data, len, words, n);
    if k == n {
      assert DataRecords(data, len, words, n + 1, n + 1) == [] == DataRecords(data, len, words, n, n);
      EmptyIsUnit(last);
    } else {
      DataRecordsExtend(data, len, words, k + 1, n);
      Assoc(DataRecord(data, len, words, k), DataRecords(data, len, words, k + 1, n), last);
    }
  }

  /** The length and word count the header announces: padded packets announce 64 bytes. */
  function ShownLen(pad: bool, len: int): int {
    if pad && len > 64 then 64 else len
  }

  function ShownWords(pad: bool, len: int, wordLen: int): int {
    if pad && len > 64 then 8 else wordLen
  }

  /** How many data records the copying loop writes. Its bound is a byte count without padding,
      but a word count with padding. */
  function Copied(pad: bool, len: int, wordLen: int): int {
    WordLen(if pad then ShownWords(pad, len, wordLen) else len)
  }

  /** The records load_packet stores for one packet. */
  function Stored(pad: bool, port: int, len: int, wordLen: int, data: seq<byte>): seq<byte>
    requires 0 <= port < 4 && 0 <= len && 0 <= wordLen && 8 * Copied(pad, len, wordLen) <= |data|
  {
    HeaderRecord(IO_QUEUE_STAGE, port, ShownWords(pad, len, wordLen), ShownLen(pad, len)) +
    (if pad && len > 64 then HeaderRecord(PAD_CTRL, port, wordLen, len) else []) +
    DataRecords(data, ShownLen(pad, len), ShownWords(pad, len, wordLen), 0, Copied(pad, len, wordLen))
  }

  /** How many records that is. */
  function RecordCount(pad: bool, len: int, wordLen: int): int {
    1 + (if pad && len > 64 then 1 else 0) + Copied(pad, len, wordLen)
  }

  /** The announced payload is stored completely exactly without padding, or when one word holds
      the whole packet: with padding the loop takes a word count for a byte count. */
  lemma PayloadCompleteIff(pad: bool, len: int)
    requires len >= 0
    ensures Copied(pad, len, WordLen(len)) == ShownWords(pad, len, WordLen(len)) <==> !pad || len <= 8
  {
  }

  /** Never more data records than words announced. */
  lemma CopiedFits(pad: bool, len: int, wordLen: int)
    requires len >= 0 && wordLen >= 0 && (!pad || len <= 64 ==> wordLen == WordLen(len))
    ensures 0 <= Copied(pad, len, wordLen) <= ShownWords(pad, len, wordLen)
  {
  }

  // ---------------------------------------------------------------- decoding

  /** How many bytes of the last word a one-hot control byte declares valid. */
  function ValidBytes(ctrl: byte): int {
    if ctrl == 1 then 8 else if ctrl == 2 then 7 else if ctrl == 4 then 6 else if ctrl == 8 then 5
    else if ctrl == 16 then 4 else if ctrl == 32 then 3 else if ctrl == 64 then 2 else if ctrl == 128 then 1 else 0
  }

  lemma LastCtrlCounts(len: int)
    requires len > 0
    ensures 8 * (WordLen(len) - 1) + ValidBytes(LastCtrl(len)) == len
    ensures LastCtrl(len) != 0 && LastCtrl(len) != IO_QUEUE_STAGE
  {
    var q, r := len / 8, len % 8;
    WordsOf(q, r);
    OneHotCounts(r);
  }

  lemma WordsOf(q: int, r: int)
    requires 0 <= r < 8
    ensures WordLen(8 * q + r) == if r == 0 then q else q + 1
  {
  }

  lemma OneHotCounts(r: int)
    requires 0 <= r < 8
    ensures var c := Low(if Shifted(r) == 0x100 then 1 else Shifted(r));
            ValidBytes(c) == (if r == 0 then 8 else r) && c != 0 && c != IO_QUEUE_STAGE
  {
  }

  /** The port a destination half selects: it must have exactly that port's bit. */
  function PortOf(half: int): Option<int> {
    if half == 0x100 then Some(0) else if half == 0x200 then Some(1)
    else if half == 0x400 then Some(2) else if half == 0x800 then Some(3) else None
  }

  /** Strips the control bytes off n records. */
  function Payload(s: seq<byte>, n: nat): (p: seq<byte>)
    requires |s| == RECORD * n
    ensures |p| == 8 * n
    decreases n
  {
    if n == 0 then [] else s[1..9] + Payload(s[9..], n - 1)
  }

  /** The first packet of a record stream and how many bytes it took: the header halves give the
      port, the number of words that follow, the source and the length; the control byte of the last
      word says how many of its bytes count, which must agree with the length. */
  function First(s: seq<byte>): (r: Option<(Pkt, int)>)
    ensures r.Some? ==> RECORD <= r.value.1 <= |s| && |r.value.0.bytes| < 65536
  {
    if |s| < RECORD || s[0] != IO_QUEUE_STAGE then None
    else
      var port, words, src, len := PortOf(Get16(s, 1)), Get16(s, 3), Get16(s, 5), Get16(s, 7);
      var size := RECORD * (words + 1);
      if port.None? || |s| < size then None
      else
        var kept := if words == 0 then 0 else 8 * (words - 1) + ValidBytes(s[size - RECORD]);
        if len != kept then None
        else Some((Pkt(src, port.value, Payload(s[RECORD..size], words)[..len]), size))
  }

  /** Reads a record stream back. */
  function Decode(s: seq<byte>): Option<seq<Pkt>>
    decreases |s|
  {
    if s == [] then Some([])
    else
      var first := First(s);
      if first.None? then None
      else
        var rest := Decode(s[first.value.1..]);
        if rest.None? then None else Some([first.value.0] + rest.value)
  }

  lemma {:induction false} PayloadOfRecords(data: seq<byte>, len: int, words: int, k: int, n: int)
    requires 0 <= k <= n && 8 * n <= |data| && len >= 0
    ensures Payload(DataRecords(data, len, words, k, n), n - k) == data[8 * k..8 * n]
    decreases n - k
  {
    if k < n {
      var s := DataRecords(data, len, words, k, n);
      assert s[..9] == DataRecord(data, len, words, k) && s[1..9] == s[..9][1..9];
      assert s[9..] == DataRecords(data, len, words, k + 1, n);
      PayloadOfRecords(data, len, words, k + 1, n);
    }
  }

  lemma {:induction false} LastRecordCtrl(data: seq<byte>, len: int, words: int, k: int)
    requires 0 <= k < words && 8 * words <= |data| && len >= 0
    ensures DataRecords(data, len, words, k, words)[RECORD * (words - k) - RECORD] == LastCtrl(len)
    decreases words - k
  {
    var s := DataRecords(data, len, words, k, words);
    if k + 1 < words {
      var t := DataRecords(data, len, words, k + 1, words);
      LastRecordCtrl(data, len, words, k + 1);
      var at := RECORD * (words - k) - RECORD;
      assert s[at] == t[at - RECORD];
    }
  }

  lemma HeaderSlices(c: byte, a: seq<byte>, b: seq<byte>, rest: seq<byte>)
    requires |a| == 4 && |b| == 4
    ensures var s := [c] + a + b + rest; s[0] == c && s[1..5] == a && s[5..9] == b
  {
  }

  /** The halves of a 32-bit value in network order. */
  lemma Halves(s: seq<byte>, at: int, n: int)
    requires 0 <= at && at + 4 <= |s| && s[at..at + 4] == Put32(n)
    ensures Get16(s, at) == n / 65536 % 65536 && Get16(s, at + 2) == n % 65536
  {
    assert s[at..at + 2] == s[at..at + 4][..2] == Put16(n / 65536);
    assert s[at + 2..at + 4] == s[at..at + 4][2..] == Put16(n);
    Get16At(s, at, n / 65536);
    Get16At(s, at + 2, n);
  }

  /** What the four halves of a header read as, whatever follows it. */
  lemma HeaderReads(ctrl: byte, port: int, words: int, len: int, rest: seq<byte>)
    requires 0 <= port < 4
    ensures var s, v := HeaderRecord(ctrl, port, words, len) + rest, OrBit(words, PortBit(port));
            && s[0] == ctrl
            && Get16(s, 1) == v / 65536 % 65536 && Get16(s, 3) == v % 65536
            && Get16(s, 5) == len / 65536 % 65536 && Get16(s, 7) == len % 65536
  {
    var v := OrBit(words, PortBit(port));
    HeaderSlices(ctrl, Put32(v), Put32(len), rest);
    var s := HeaderRecord(ctrl, port, words, len) + rest;
    Halves(s, 1, v);
    Halves(s, 5, len);
  }

  function Pow2(n: nat): int {
    if n == 0 then 1 else 2 * Pow2(n - 1)
  }

  /** The bytes of a header whose numbers fit: the control value, one bit for the port, the word count,
      source 0 and the length. */
  lemma HeaderBytes(ctrl: byte, port: int, words: int, len: int)
    requires 0 <= port < 4 && 0 <= words < 65536 && 0 <= len < 65536
    ensures var s := HeaderRecord(ctrl, port, words, len);
            && s[0] == ctrl && s[1] as int == Pow2(port) && s[2] == 0
            && s[3] as int == words / 256 && s[4] as int == words % 256
            && s[5] == 0 && s[6] == 0 && s[7] as int == len / 256 && s[8] as int == len % 256
  {
    var bit := Pow2(port);
    PortBitIs(port);
    assert OrBit(words, PortBit(port)) == (bit * 256 + 0) * 65536 + (words / 256 * 256 + words % 256) by {
      assert words / PortBit(port) == 0;
    }
    Digits(bit, 0, words / 256, words % 256);
    Digits(0, 0, len / 256, len % 256);
    assert len == (0 * 256 + 0) * 65536 + (len / 256 * 256 + len % 256);
  }

  /** The port's bit is bit 8 + port of the upper half. */
  lemma PortBitIs(port: int)
    requires 0 <= port < 4
    ensures PortBit(port) == Pow2(port) * 0x100_0000 && 1 <= Pow2(port) <= 8
  {
    assert Pow2(0) == 1 && Pow2(1) == 2 && Pow2(2) == 4 && Pow2(3) == 8;
  }

  /** The control byte of the last word is the bit of its last valid byte, counted from the left. */
  lemma LastCtrlBit(len: int)
    requires len > 0
    ensures LastCtrl(len) as int * Pow2(if len % 8 == 0 then 8 else len % 8) == 256
  {
    assert Pow2(0) == 1 && Pow2(1) == 2 && Pow2(2) == 4 && Pow2(3) == 8;
    assert Pow2(4) == 16 && Pow2(5) == 32 && Pow2(6) == 64 && Pow2(7) == 128 && Pow2(8) == 256;
    BitTable(len % 8);
  }

  lemma BitTable(r: int)
    requires 0 <= r < 8
    ensures Shifted(r) == (if r == 0 then 256 else if r == 1 then 128 else if r == 2 then 64 else if r == 3 then 32
                           else if r == 4 then 16 else if r == 5 then 8 else if r == 6 then 4 else 2)
  {
  }

  /** A padded packet of more than 64 bytes: a header that announces 8 words and 64 bytes, a padding header
      with the true numbers, and of the payload only its first word, not marked as the last. */
  lemma PaddedPacket(port: int, len: int, wordLen: int, data: seq<byte>)
    requires 0 <= port < 4 && len > 64 && 0 <= wordLen && |data| >= 8
    ensures Stored(true, port, len, wordLen, data)
         == HeaderRecord(0xff, port, 8, 64) + HeaderRecord(0xfd, port, wordLen, len) + ([0] + data[..8])
  {
    assert Copied(true, len, wordLen) == 1;
    OneRecord(data);
  }

  lemma OneRecord(data: seq<byte>)
    requires |data| >= 8
    ensures DataRecords(data, 64, 8, 0, 1) == [0] + data[..8]
  {
    assert DataRecords(data, 64, 8, 1, 1) == [];
    assert data[8 * 0..8 * 0 + 8] == data[..8];
  }

  /** The header in front of s keeps its four fields apart. */
  predicate HalvesHold(s: seq<byte>, port: int, words: int, len: int)
    requires 0 <= port < 4
  {
    && |s| >= RECORD
    && Get16(s, 1) == PortBit(port) / 65536 && Get16(s, 3) == words && Get16(s, 5) == 0 && Get16(s, 7) == len
  }

  /** A header keeps its four fields apart exactly when the word count and the length fit 16 bits. */
  lemma HeaderHoldsIff(ctrl: byte, port: int, words: int, len: int, rest: seq<byte>)
    requires 0 <= port < 4 && 0 <= words && 0 <= len
    ensures HalvesHold(HeaderRecord(ctrl, port, words, len) + rest, port, words, len) <==> words < 65536 && len < 65536
  {
    HeaderReads(ctrl, port, words, len, rest);
    if words < 65536 {
      SmallCount(port, words);
    }
  }

  lemma SmallCount(port: int, words: int)
    requires 0 <= port < 4 && 0 <= words < 65536
    ensures var v := OrBit(words, PortBit(port));
            v / 65536 % 65536 == PortBit(port) / 65536 && v % 65536 == words
  {
    assert words / PortBit(port) == 0;
  }

  /** For a packet the length alone decides, in the module header and in the padding header alike:
      its word count is the smaller number. */
  lemma HalfWordsHoldIff(ctrl: byte, port: int, len: int, rest: seq<byte>)
    requires 0 <= port < 4 && 0 <= len
    ensures HalvesHold(HeaderRecord(ctrl, port, WordLen(len), len) + rest, port, WordLen(len), len) <==> len < 65536
  {
    HeaderHoldsIff(ctrl, port, WordLen(len), len, rest);
  }

  /** The control byte of the last of these records leaves len bytes. */
  predicate LastCounts(d: seq<byte>, words: nat, len: int) {
    && |d| == RECORD * words && 0 <= len <= 8 * words
    && len == if words == 0 then 0 else 8 * (words - 1) + ValidBytes(d[RECORD * words - RECORD])
  }

  /** The kept byte count of a stored packet is its length. */
  lemma KeptIsLength(len: int, data: seq<byte>, words: int)
    requires 0 <= len && words == WordLen(len) && 8 * words <= |data|
    ensures LastCounts(DataRecords(data, len, words, 0, words), words, len)
  {
    if len > 0 {
      LastRecordCtrl(data, len, words, 0);
      LastCtrlCounts(len);
    }
  }

  /** s starts with a header for these words and this length, and the records d behind it. */
  predicate StartsWith(s: seq<byte>, port: int, words: nat, len: int, d: seq<byte>) {
    && |s| >= RECORD * (words + 1) && s[0] == IO_QUEUE_STAGE
    && 0 <= port < 4 && HalvesHold(s, port, words, len)
    && s[RECORD..RECORD * (words + 1)] == d
  }

  /** These records keep exactly these bytes. */
  predicate Keeps(d: seq<byte>, words: nat, len: int, bytes: seq<byte>) {
    LastCounts(d, words, len) && Payload(d, words)[..len] == bytes
  }

  lemma FirstIs(s: seq<byte>, port: int, words: nat, len: int, d: seq<byte>, bytes: seq<byte>)
    requires StartsWith(s, port, words, len, d) && Keeps(d, words, len, bytes)
    ensures First(s) == Some((Pkt(0, port, bytes), RECORD * (words + 1)))
  {
    assert words > 0 ==> s[RECORD * words] == d[RECORD * words - RECORD];
  }

  lemma StoredStarts(port: int, words: nat, len: int, d: seq<byte>, rest: seq<byte>)
    requires 0 <= port < 4 && words < 65536 && 0 <= len < 65536 && |d| == RECORD * words
    ensures StartsWith(HeaderRecord(IO_QUEUE_STAGE, port, words, len) + (d + rest), port, words, len, d)
  {
    HeaderHoldsIff(IO_QUEUE_STAGE, port, words, len, d + rest);
    MiddleOf(HeaderRecord(IO_QUEUE_STAGE, port, words, len), d, rest);
  }

  lemma RecordsKeep(len: int, data: seq<byte>, words: int)
    requires 0 <= len && words == WordLen(len) && 8 * words <= |data|
    ensures Keeps(DataRecords(data, len, words, 0, words), words, len, data[..len])
  {
    KeptIsLength(len, data, words);
    PayloadIs(len, data, words, words);
  }

  lemma PayloadIs(len: int, data: seq<byte>, words: int, n: int)
    requires 0 <= n && 0 <= len <= 8 * n <= |data|
    ensures Payload(DataRecords(data, len, words, 0, n), n)[..len] == data[..len]
  {
    PayloadOfRecords(data, len, words, 0, n);
    TakeTwice(data, 8 * n, len);
  }

  lemma TakeTwice(s: seq<byte>, m: int, n: int)
    requires 0 <= n <= m <= |s|
    ensures s[0..m][..n] == s[..n]
  {
  }

  lemma MiddleOf(a: seq<byte>, b: seq<byte>, c: seq<byte>)
    ensures (a + (b + c))[|a|..|a| + |b|] == b
  {
  }

  /** One stored packet in front of a stream decodes to that packet and then the stream. */
  lemma DecodeShort(port: int, len: int, data: seq<byte>, rest: seq<byte>)
    requires 0 <= port < 4 && 0 <= len < 65536 && 8 * WordLen(len) <= |data|
    requires Decode(rest).Some?
    ensures Decode(Stored(false, port, len, WordLen(len), data) + rest)
         == Some([Pkt(0, port, data[..len])] + Decode(rest).value)
  {
    var words := WordLen(len);
    var h, d := HeaderRecord(IO_QUEUE_STAGE, port, words, len), DataRecords(data, len, words, 0, words);
    var s := h + (d + rest);
    assert Stored(false, port, len, words, data) + rest == s by {
      assert h + [] == h;
      Assoc(h, d, rest);
    }
    StoredStarts(port, words, len, d, rest);
    RecordsKeep(len, data, words);
    FirstIs(s, port, words, len, d, data[..len]);
    assert s[RECORD * (words + 1)..] == rest;
  }

  /** No stream whatever decodes to a packet of 65536 bytes or more: the length half cannot say it. */
  lemma {:induction false} DecodedAreShort(s: seq<byte>, i: int)
    requires Decode(s).Some? && 0 <= i < |Decode(s).value|
    ensures |Decode(s).value[i].bytes| < 65536
    decreases |s|
  {
    var first := First(s).value;
    var rest := s[first.1..];
    assert Decode(s).value == [first.0] + Decode(rest).value;
    if i > 0 {
      DecodedAreShort(rest, i - 1);
    }
  }

  /** The packet comes back in front of a stream if and only if it is shorter than 65536 bytes. */
  lemma DecodeStored(port: int, len: int, data: seq<byte>, rest: seq<byte>)
    requires 0 <= port < 4 && 0 <= len && 8 * WordLen(len) <= |data|
    requires Decode(rest).Some?
    ensures (Decode(Stored(false, port, len, WordLen(len), data) + rest)
             == Some([Pkt(0, port, data[..len])] + Decode(rest).value)) <==> len < 65536
  {
    var s := Stored(false, port, len, WordLen(len), data) + rest;
    if len < 65536 {
      DecodeShort(port, len, data, rest);
    } else if Decode(s).Some? && Decode(s).value != [] {
      DecodedAreShort(s, 0);
    }
  }

  lemma LengthMismatch(s: seq<byte>, words: nat, kept: int)
    requires |s| == RECORD * (words + 1) && words > 0 && Get16(s, 3) == words
    requires kept == 8 * (words - 1) + ValidBytes(s[RECORD * words]) && Get16(s, 7) != kept
    ensures Decode(s).None?
  {
  }

  /** How a packet is lost: from 65536 bytes on the length runs over into the source port, so that
      the header announces another length than its words hold and nothing is decoded. A packet of
      65536 bytes announces length 0 from port 1. */
  lemma LengthLost(port: int, len: int, data: seq<byte>)
    requires 0 <= port < 4 && 65536 <= len <= 8 * 65535 && 8 * WordLen(len) <= |data|
    ensures var s := Stored(false, port, len, WordLen(len), data);
            Get16(s, 5) == len / 65536 > 0 && Get16(s, 7) == len % 65536 && Decode(s).None?
  {
    var words := WordLen(len);
    var h, d := HeaderRecord(IO_QUEUE_STAGE, port, words, len), DataRecords(data, len, words, 0, words);
    EmptyIsUnit(h);
    KeptIsLength(len, data, words);
    LostHeader(port, words, len, d);
  }

  lemma LongHalves(port: int, words: nat, len: int, d: seq<byte>)
    requires 0 <= port < 4 && 65536 <= len < 65536 * 65536 && words < 65536
    ensures var s := HeaderRecord(IO_QUEUE_STAGE, port, words, len) + d;
            Get16(s, 3) == words && Get16(s, 5) == len / 65536 > 0 && Get16(s, 7) == len % 65536
  {
    HeaderReads(IO_QUEUE_STAGE, port, words, len, d);
    SmallCount(port, words);
  }

  lemma LostHeader(port: int, words: nat, len: int, d: seq<byte>)
    requires 0 <= port < 4 && 65536 <= len && 0 < words < 65536 && LastCounts(d, words, len)
    ensures var s := HeaderRecord(IO_QUEUE_STAGE, port, words, len) + d;
            Get16(s, 5) == len / 65536 > 0 && Get16(s, 7) == len % 65536 && Decode(s).None?
  {
    var s := HeaderRecord(IO_QUEUE_STAGE, port, words, len) + d;
    LongHalves(port, words, len, d);
    assert s[RECORD * words] == d[RECORD * words - RECORD];
    LengthMismatch(s, words, len);
  }

  /** What load_packet was given: the header length, and a readable buffer. */
  datatype Input = Input(len: int, data: seq<byte>)

  predicate Loadable(x: Input) {
    0 <= x.len < 0x100_0000 && 8 * WordLen(x.len) <= |x.data|
  }

  predicate AllLoadable(xs: seq<Input>) {
    forall i | 0 <= i < |xs| :: Loadable(xs[i])
  }

  /** Every length fits the 16 bits its header has for it. */
  predicate AllShort(xs: seq<Input>) {
    forall i | 0 <= i < |xs| :: xs[i].len < 65536
  }

  /** The records of a port that accepted these packets in this order, without padding. */
  function StoredAll(port: int, xs: seq<Input>): seq<byte>
    requires 0 <= port < 4 && AllLoadable(xs)
  {
    if xs == [] then [] else Stored(false, port, xs[0].len, WordLen(xs[0].len), xs[0].data) + StoredAll(port, xs[1..])
  }

  function Packets(port: int, xs: seq<Input>): seq<Pkt>
    requires AllLoadable(xs)
  {
    if xs == [] then [] else [Pkt(0, port, xs[0].data[..xs[0].len])] + Packets(port, xs[1..])
  }

  lemma {:induction false} StoredAllAppend(port: int, xs: seq<Input>, x: Input)
    requires 0 <= port < 4 && Loadable(x) && AllLoadable(xs)
    ensures AllLoadable(xs + [x])
    ensures StoredAll(port, xs + [x]) == StoredAll(port, xs) + Stored(false, port, x.len, WordLen(x.len), x.data)
  {
    var last := Stored(false, port, x.len, WordLen(x.len), x.data);
    if xs == [] {
      assert xs + [x] == [x] && [x][1..] == [];
      assert last + [] == [] + last;
    } else {
      assert (xs + [x])[1..] == xs[1..] + [x];
      StoredAllAppend(port, xs[1..], x);
      Assoc(Stored(false, port, xs[0].len, WordLen(xs[0].len), xs[0].data), StoredAll(port, xs[1..]), last);
    }
  }

  lemma {:induction false} PacketAt(port: int, xs: seq<Input>, i: int)
    requires AllLoadable(xs) && 0 <= i < |xs|
    ensures |Packets(port, xs)| == |xs| && Packets(port, xs)[i] == Pkt(0, port, xs[i].data[..xs[i].len])
    decreases |xs|
  {
    if |xs| > 1 {
      PacketAt(port, xs[1..], if i == 0 then 0 else i - 1);
    }
  }

  lemma {:induction false} DecodeAllShort(port: int, xs: seq<Input>)
    requires 0 <= port < 4 && AllLoadable(xs) && AllShort(xs)
    ensures Decode(StoredAll(port, xs)) == Some(Packets(port, xs))
  {
    if xs != [] {
      DecodeAllShort(port, xs[1..]);
      DecodeShort(port, xs[0].len, xs[0].data, StoredAll(port, xs[1..]));
    }
  }

  /** Decoding a port's records gives back exactly the packets it accepted, in order, each with its
      ports, its length and its bytes, if and only if all of them are shorter than 65536 bytes. */
  lemma DecodeInvertsStoredAll(port: int, xs: seq<Input>)
    requires 0 <= port < 4 && AllLoadable(xs)
    ensures Decode(StoredAll(port, xs)) == Some(Packets(port, xs)) <==> AllShort(xs)
  {
    if AllShort(xs) {
      DecodeAllShort(port, xs);
    } else {
      var i :| 0 <= i < |xs| && xs[i].len >= 65536;
      PacketAt(port, xs, i);
      if Decode(StoredAll(port, xs)) == Some(Packets(port, xs)) {
        DecodedAreShort(StoredAll(port, xs), i);
      }
    }
  }
}
