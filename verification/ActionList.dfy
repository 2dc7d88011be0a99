/** example_modules/openflow_action_delay/action_delay.c: the action list that append_action grows in
    place, against a parser for the action structures of section 5.2.4 of the OpenFlow Switch
    Specification 1.0.0. */
module ActionList {
  import opened Bytes
  import opened Pieces

  datatype Action =
    | Output(port: int, maxLen: int)
    | SetVlanVid(vid: int)
    | SetVlanPcp(pcp: int)
    | StripVlan
    | SetDl(isDst: bool, mac: seq<byte>)
    | SetNw(isDst: bool, addr: int)
    | SetTos(tos: int)
    | SetTp(isDst: bool, tp: int)

  /** One action of a list, with the length its header gives. */
  datatype Entry = Entry(act: Action, len: int)

  // ---------------------------------------------------------------- the reference parser

  /** What the bytes behind the type and length fields mean. */
  function Meaning(kind: int, body: seq<byte>): Option<Action> {
    if kind == 4 || kind == 5 then
      if |body| == 12 then Some(SetDl(kind == 5, body[..6])) else None
    else if |body| != 4 then None
    else if kind == 0 then Some(Output(Get16(body, 0), Get16(body, 2)))
    else if kind == 1 then Some(SetVlanVid(Get16(body, 0)))
    else if kind == 2 then Some(SetVlanPcp(body[0] as int))
    else if kind == 3 then Some(StripVlan)
    else if kind == 6 || kind == 7 then Some(SetNw(kind == 7, Get32(body, 0)))
    else if kind == 8 then Some(SetTos(body[0] as int))
    else if kind == 9 || kind == 10 then Some(SetTp(kind == 10, Get16(body, 0)))
    else None
  }

  /** The action at the front of s: its length must be a multiple of 8 and lie inside s. */
  function ReadOne(s: seq<byte>): (r: Option<Entry>)
    ensures r.Some? ==> 8 <= r.value.len <= |s| && r.value.len % 8 == 0
  {
    if |s| < 8 then None
    else
      var len := Get16(s, 2);
      if len < 8 || len % 8 != 0 || len > |s| then None
      else
        match Meaning(Get16(s, 0), s[4..len])
        case None => None
        case Some(act) => Some(Entry(act, len))
  }

  function Parse(s: seq<byte>): Option<seq<Entry>>
    decreases |s|
  {
    if s == [] then Some([])
    else
      match ReadOne(s)
      case None => None
      case Some(e) =>
        match Parse(s[e.len..])
        case None => None
        case Some(es) => Some([e] + es)
  }

  function TotalLen(es: seq<Entry>): int {
    if es == [] then 0 else es[0].len + TotalLen(es[1..])
  }

  /** The lengths of a list that parses are multiples of 8 and sum to its size. */
  lemma {:induction false} ParseAccounts(s: seq<byte>)
    requires Parse(s).Some?
    ensures TotalLen(Parse(s).value) == |s|
    ensures forall i | 0 <= i < |Parse(s).value| :: Parse(s).value[i].len % 8 == 0
    decreases |s|
  {
    if s != [] {
      var e := ReadOne(s).value;
      ParseAccounts(s[e.len..]);
      var es := Parse(s[e.len..]).value;
      assert ([e] + es)[1..] == es;
    }
  }

  // ---------------------------------------------------------------- hexadecimal text

  predicate IsHexDigit(c: char) {
    'A' <= c <= 'F' || 'a' <= c <= 'f' || '0' <= c <= '9'
  }

  predicate AllHex(text: string) {
    forall i | 0 <= i < |text| :: IsHexDigit(text[i])
  }

  function Digit(c: char): (d: int)
    ensures 0 <= d < 16
  {
    if 'A' <= c <= 'F' then 10 + (c as int - 'A' as int)
    else if 'a' <= c <= 'f' then 10 + (c as int - 'a' as int)
    else if '0' <= c <= '9' then c as int - '0' as int
    else 0
  }

  /** The number a text of digits denotes, which is what strtoll reads in base 16. */
  function HexValue(text: string): (n: int)
    ensures n >= 0
  {
    if text == "" then 0 else 16 * HexValue(text[..|text| - 1]) + Digit(text[|text| - 1])
  }

  function Pair(text: string, i: int): byte
    requires 0 <= 2 * i && 2 * i + 2 <= |text|
  {
    Low(16 * Digit(text[2 * i]) + Digit(text[2 * i + 1]))
  }

  /** A hardware address of twelve digits. */
  function Mac(text: string): (m: seq<byte>)
    requires |text| == 12
    ensures |m| == 6
  {
    [Pair(text, 0), Pair(text, 1), Pair(text, 2), Pair(text, 3), Pair(text, 4), Pair(text, 5)]
  }

  // ---------------------------------------------------------------- texts of numbers

  const LOWER := "0123456789abcdef"
  const UPPER := "0123456789ABCDEF"

  /** A digit has the value of its place in either alphabet, and these are all the digits. */
  lemma DigitIs(d: int)
    requires 0 <= d < 16
    ensures Digit(LOWER[d]) == d && Digit(UPPER[d]) == d && IsHexDigit(LOWER[d]) && IsHexDigit(UPPER[d])
  {
  }

  lemma OnlyDigits(c: char)
    requires IsHexDigit(c)
    ensures LOWER[Digit(c)] == c || UPPER[Digit(c)] == c
  {
  }

  function DigitChar(d: int, upper: bool): char
    requires 0 <= d < 16
  {
    (if d < 10 then 48 + d else if upper then 55 + d else 87 + d) as char
  }

  lemma DigitCharIs(d: int)
    requires 0 <= d < 16
    ensures DigitChar(d, false) == LOWER[d] && DigitChar(d, true) == UPPER[d]
  {
  }

  /** The two digits of a byte, in lower or upper case. */
  function ByteText(b: byte, upper: bool): (t: string)
    ensures |t| == 2
  {
    [DigitChar(b as int / 16, upper), DigitChar(b as int % 16, upper)]
  }

  function BytesText(bs: seq<byte>, upper: bool): (t: string)
    ensures |t| == 2 * |bs|
  {
    if bs == [] then "" else BytesText(bs[..|bs| - 1], upper) + ByteText(bs[|bs| - 1], upper)
  }

  lemma ByteReads(b: byte, upper: bool)
    ensures var t := ByteText(b, upper);
            IsHexDigit(t[0]) && IsHexDigit(t[1]) && 16 * Digit(t[0]) + Digit(t[1]) == b as int
  {
    DigitIs(b as int / 16);
    DigitIs(b as int % 16);
    DigitCharIs(b as int / 16);
    DigitCharIs(b as int % 16);
  }

  lemma {:induction false} TextAt(bs: seq<byte>, upper: bool, i: int)
    requires 0 <= i < |bs|
    ensures BytesText(bs, upper)[2 * i..2 * i + 2] == ByteText(bs[i], upper)
    decreases |bs|
  {
    var n := |bs| - 1;
    TwoMore(BytesText(bs[..n], upper), ByteText(bs[n], upper));
    if i < n {
      TextAt(bs[..n], upper, i);
      TakeWithin(BytesText(bs[..n], upper), ByteText(bs[n], upper), 2 * i);
    }
  }

  lemma TwoMore(t: string, u: string)
    requires |u| == 2
    ensures (t + u)[|t|..|t| + 2] == u
  {
  }

  lemma TakeWithin(t: string, u: string, k: int)
    requires 0 <= k && k + 2 <= |t|
    ensures (t + u)[k..k + 2] == t[k..k + 2]
  {
  }

  /** Reading the text of bytes gives back the bytes. */
  lemma TextReads(bs: seq<byte>, upper: bool, i: int)
    requires 0 <= i < |bs|
    ensures Pair(BytesText(bs, upper), i) == bs[i]
  {
    TextAt(bs, upper, i);
    ByteReads(bs[i], upper);
    PairOf(BytesText(bs, upper), i, ByteText(bs[i], upper), bs[i]);
  }

  lemma PairOf(text: string, i: int, t: string, b: byte)
    requires 0 <= 2 * i && 2 * i + 2 <= |text| && text[2 * i..2 * i + 2] == t
    requires 16 * Digit(t[0]) + Digit(t[1]) == b as int
    ensures Pair(text, i) == b
  {
    assert text[2 * i] == t[0] && text[2 * i + 1] == t[1];
  }

  lemma {:induction false} TextIsHex(bs: seq<byte>, upper: bool)
    ensures AllHex(BytesText(bs, upper))
    decreases |bs|
  {
    if bs != [] {
      var n := |bs| - 1;
      TextIsHex(bs[..n], upper);
      ByteReads(bs[n], upper);
    }
  }

  /** A hardware address given as the text of six bytes is accepted as these six bytes. */
  lemma MacOfText(m: seq<byte>, upper: bool, num: int)
    requires |m| == 6
    ensures Asked(4, BytesText(m, upper), num) == Some(SetDl(false, m))
    ensures Asked(5, BytesText(m, upper), num) == Some(SetDl(true, m))
  {
    var t := BytesText(m, upper);
    TextIsHex(m, upper);
    forall i | 0 <= i < 6 ensures Pair(t, i) == m[i] { TextReads(m, upper, i); }
    assert Mac(t) == m;
  }

  /** An IP address given as the text of four bytes is accepted as their 32-bit value. */
  lemma AddressOfText(a: seq<byte>, upper: bool, num: int)
    requires |a| == 4
    ensures Asked(6, BytesText(a, upper), num) == Some(SetNw(false, Get32(a, 0)))
    ensures Asked(7, BytesText(a, upper), num) == Some(SetNw(true, Get32(a, 0)))
  {
    var t := BytesText(a, upper);
    TextIsHex(a, upper);
    HexValueOfEight(t);
    forall i | 0 <= i < 4 ensures Pair(t, i) == a[i] { TextReads(a, upper, i); }
  }

  lemma HexValueStep(text: string, n: int)
    requires 0 < n <= |text|
    ensures HexValue(text[..n]) == 16 * HexValue(text[..n - 1]) + Digit(text[n - 1])
  {
    assert text[..n][..n - 1] == text[..n - 1];
  }

  lemma HexValuePair(text: string, i: int)
    requires 0 <= i && 2 * i + 2 <= |text|
    ensures HexValue(text[..2 * i + 2]) == 256 * HexValue(text[..2 * i]) + Pair(text, i) as int
  {
    HexValueStep(text, 2 * i + 1);
    HexValueStep(text, 2 * i + 2);
  }

  lemma HexValueOfEight(text: string)
    requires |text| == 8
    ensures HexValue(text) == (Pair(text, 0) as int * 256 + Pair(text, 1) as int) * 65536
                              + (Pair(text, 2) as int * 256 + Pair(text, 3) as int)
  {
    assert text[..0] == "" && text[..8] == text;
    HexValuePair(text, 0);
    HexValuePair(text, 1);
    HexValuePair(text, 2);
    HexValuePair(text, 3);
  }

  /** An address of eight digits goes on the wire as its four pairs of digits. */
  lemma NetworkOrder(text: string)
    requires |text| == 8
    ensures 0 <= HexValue(text) < 0x1_0000_0000
    ensures Put32(HexValue(text)) == [Pair(text, 0), Pair(text, 1), Pair(text, 2), Pair(text, 3)]
  {
    HexValueOfEight(text);
    FourBytes(Pair(text, 0), Pair(text, 1), Pair(text, 2), Pair(text, 3));
  }

  lemma FourBytes(a: byte, b: byte, c: byte, d: byte)
    ensures Put32((a as int * 256 + b as int) * 65536 + (c as int * 256 + d as int)) == [a, b, c, d]
  {
    Digits(a as int, b as int, c as int, d as int);
  }

  /** is_hex */
  method IsHex(text: string) returns (yes: bool)
    ensures yes <==> AllHex(text)
  {
    var i := 0;
    while i < |text|
      invariant 0 <= i <= |text|
      invariant forall k | 0 <= k < i :: IsHexDigit(text[k])
    {
      var c := text[i];
      if !('A' <= c <= 'F' || 'a' <= c <= 'f' || '0' <= c <= '9') {
        assert !IsHexDigit(text[i]);
        return false;
      }
      i := i + 1;
    }
    return true;
  }

  /** read_hex, at digit 2 * k of the text. */
  method ReadHex(text: string, k: int) returns (b: byte)
    requires 0 <= k && 2 * k + 2 <= |text|
    ensures b == Pair(text, k)
  {
    b := 0;
    var i := 0;
    while i < 2
      invariant 0 <= i <= 2
      invariant b as int == if i == 0 then 0 else if i == 1 then Digit(text[2 * k]) else Pair(text, k) as int
    {
      var c := text[2 * k + i];
      ghost var high := b as int;
      assert 0 <= high < 16;
      b := Low(b as int * 16);
      assert b as int == 16 * high;
      if 'A' <= c <= 'F' {
        b := Low(b as int + 10 + (c as int - 'A' as int));
      } else if 'a' <= c <= 'f' {
        b := Low(b as int + 10 + (c as int - 'a' as int));
      } else if '0' <= c <= '9' {
        b := Low(b as int + (c as int - '0' as int));
      }
      i := i + 1;
    }
  }

  // ---------------------------------------------------------------- what a call asks for

  /** The action that a call of append_action stands for, if it is accepted; num is what strtol read
      from the text in the base of that kind. */
  function Asked(kind: int, text: string, num: int): Option<Action> {
    match kind
    case 0 => Some(Output(num % 65536, 2000))
    case 1 => if 0 <= num < 0xfff then Some(SetVlanVid(num)) else None
    case 2 => if 0 <= num <= 7 then Some(SetVlanPcp(num)) else None
    case 3 => Some(StripVlan)
    case 4 => if |text| == 12 && AllHex(text) then Some(SetDl(false, Mac(text))) else None
    case 5 => if |text| == 12 && AllHex(text) then Some(SetDl(true, Mac(text))) else None
    case 6 => if |text| == 8 && AllHex(text) then Some(SetNw(false, HexValue(text))) else None
    case 7 => if |text| == 8 && AllHex(text) then Some(SetNw(true, HexValue(text))) else None
    case 8 => Some(SetTos(num % 256))
    case 9 => Some(SetTp(false, num % 65536))
    case 10 => Some(SetTp(true, num % 65536))
    case _ => None
  }

  /** The size the specification gives the structure of each kind. */
  function SizeOf(kind: int): int {
    if kind == 4 || kind == 5 then 16 else 8
  }

  // ---------------------------------------------------------------- one structure

  /** A structure: type, length, and what follows. */
  function Struct(kind: int, body: seq<byte>): (s: seq<byte>)
    ensures |s| == 4 + |body|
  {
    Put16(kind) + Put16(4 + |body|) + body
  }

  /** The structure reads as action act. */
  predicate Reads(part: seq<byte>, e: Entry) {
    |part| == e.len && ReadOne(part) == Some(e)
  }

  lemma StructReads(kind: int, body: seq<byte>)
    requires 0 <= kind < 65536 && (|body| == 4 || |body| == 12) && Meaning(kind, body).Some?
    ensures Reads(Struct(kind, body), Entry(Meaning(kind, body).value, 4 + |body|))
  {
    var s := Struct(kind, body);
    assert s[0..2] == Put16(kind) && s[2..4] == Put16(4 + |body|) && s[4..4 + |body|] == body;
    Get16At(s, 0, kind);
    Get16At(s, 2, 4 + |body|);
  }

  /** A structure reads the same whatever follows it. */
  lemma ReadsInFront(part: seq<byte>, rest: seq<byte>, e: Entry)
    requires Reads(part, e)
    ensures ReadOne(part + rest) == Some(e) && (part + rest)[e.len..] == rest
  {
    var s := part + rest;
    assert s[4..e.len] == part[4..e.len];
    assert Get16(s, 0) == Get16(part, 0) && Get16(s, 2) == Get16(part, 2);
  }

  /** The parts of a buffer, one for every accepted action. */
  predicate Matches(parts: seq<seq<byte>>, es: seq<Entry>) {
    |parts| == |es| && forall i | 0 <= i < |parts| :: Reads(parts[i], es[i])
  }

  /** Parsing the buffer gives back exactly the accepted actions, in order. */
  lemma {:induction false} ParseInvertsAppend(parts: seq<seq<byte>>, es: seq<Entry>)
    requires Matches(parts, es)
    ensures Parse(Concat(parts)) == Some(es)
    decreases |parts|
  {
    if parts != [] {
      assert Reads(parts[0], es[0]);
      assert Matches(parts[1..], es[1..]) by {
        forall i | 0 <= i < |parts| - 1
          ensures Reads(parts[1..][i], es[1..][i])
        {
          assert Reads(parts[i + 1], es[i + 1]);
        }
      }
      ParseInvertsAppend(parts[1..], es[1..]);
      ReadsInFront(parts[0], Concat(parts[1..]), es[0]);
      assert [es[0]] + es[1..] == es;
    }
  }

  lemma MatchesMore(parts: seq<seq<byte>>, es: seq<Entry>, part: seq<byte>, e: Entry)
    requires Matches(parts, es) && Reads(part, e)
    ensures Matches(parts + [part], es + [e]) && Concat(parts + [part]) == Concat(parts) + part
  {
    ConcatAppend(parts, [part]);
    assert Concat([part]) == part + Concat([]);
  }

  lemma SpliceBehind(front: seq<byte>, s: seq<byte>, at: int, b: seq<byte>)
    requires 0 <= at && at + |b| <= |s|
    ensures Splice(front + s, |front| + at, b) == front + Splice(s, at, b)
  {
    assert (front + s)[..|front| + at] == front + s[..at];
    assert (front + s)[|front| + at + |b|..] == s[at + |b|..];
  }

  /** Writing into the body leaves type and length. */
  lemma SpliceStruct(front: seq<byte>, kind: int, body: seq<byte>, at: int, b: seq<byte>)
    requires 0 <= at && at + |b| <= |body|
    ensures Splice(front + Struct(kind, body), |front| + 4 + at, b) == front + Struct(kind, Splice(body, at, b))
  {
    SpliceBehind(front, Struct(kind, body), 4 + at, b);
    SpliceBehind(Put16(kind) + Put16(4 + |body|), body, at, b);
  }

  /** The body each kind of call leaves: its fields, and behind them what the memory held. */
  predicate BodyOf(kind: int, text: string, num: int, body: seq<byte>) {
    && |body| == SizeOf(kind) - 4
    && match kind
       case 0 => body[..2] == Put16(num) && body[2..4] == Put16(2000)
       case 1 => body[..2] == Put16(num)
       case 2 => body[0] == Low(num)
       case 3 => true
       case 4 => |text| == 12 && body[..6] == Mac(text)
       case 5 => |text| == 12 && body[..6] == Mac(text)
       case 6 => body == Put32(HexValue(text))
       case 7 => body == Put32(HexValue(text))
       case 8 => body[0] == Low(num)
       case 9 => body[..2] == Put16(num)
       case 10 => body[..2] == Put16(num)
       case _ => false
  }

  /** Such a body means what the call asked for. */
  lemma BodyMeans(kind: int, text: string, num: int, body: seq<byte>)
    requires BodyOf(kind, text, num, body) && Asked(kind, text, num).Some?
    ensures Meaning(kind, body) == Asked(kind, text, num)
  {
    match kind
    case 0 =>
      Get16At(body, 0, num);
      Get16At(body, 2, 2000);
    case 1 => Get16At(body, 0, num);
    case 6 => AddressMeans(text, body);
    case 7 => AddressMeans(text, body);
    case 9 => Get16At(body, 0, num);
    case 10 => Get16At(body, 0, num);
    case _ =>
  }

  lemma AddressMeans(text: string, body: seq<byte>)
    requires |text| == 8 && body == Put32(HexValue(text))
    ensures Get32(body, 0) == HexValue(text)
  {
    NetworkOrder(text);
    Whole32(HexValue(text));
  }

  lemma Whole32(n: int)
    requires 0 <= n < 0x1_0000_0000
    ensures Get32(Put32(n), 0) == n
  {
    Put32Get32(n);
  }

  /** The structure of each kind, byte by byte: the type, the size, then the fields. Bytes not named are
      padding. */
  predicate WireForm(kind: int, text: string, num: int, s: seq<byte>) {
    && |s| == (if kind == 4 || kind == 5 then 16 else 8)
    && s[0] == 0 && s[1] as int == kind && s[2] == 0 && s[3] as int == |s|
    && (kind in {0, 1, 9, 10} ==> s[4] as int == num / 256 % 256 && s[5] as int == num % 256)
    && (kind == 0 ==> s[6] == 0x07 && s[7] == 0xd0)
    && (kind == 2 || kind == 8 ==> s[4] as int == num % 256)
    && (kind == 4 || kind == 5 ==> |text| == 12 && forall i | 0 <= i < 6 :: s[4 + i] == Pair(text, i))
    && (kind == 6 || kind == 7 ==> |text| == 8 && forall i | 0 <= i < 4 :: s[4 + i] == Pair(text, i))
  }

  lemma StructBytes(kind: int, text: string, num: int, body: seq<byte>)
    requires 0 <= kind <= 10 && BodyOf(kind, text, num, body) && Asked(kind, text, num).Some?
    ensures WireForm(kind, text, num, Struct(kind, body))
  {
    var s := Struct(kind, body);
    assert s[..4] == Put16(kind) + Put16(4 + |body|) && s[4..] == body;
    assert s[0] == s[..4][0] && s[1] == s[..4][1] && s[2] == s[..4][2] && s[3] == s[..4][3];
    assert forall i | 0 <= i < |body| :: s[4 + i] == body[i];
    if kind in {0, 1, 9, 10} {
      TwoBytes(body, num);
      if kind == 0 {
        assert body[2] == body[2..4][0] && body[3] == body[2..4][1];
      }
    } else if kind == 4 || kind == 5 {
      assert forall i | 0 <= i < 6 :: body[i] == body[..6][i] == Pair(text, i);
    } else if kind == 6 || kind == 7 {
      NetworkOrder(text);
    }
  }

  lemma TwoBytes(body: seq<byte>, num: int)
    requires |body| >= 2 && body[..2] == Put16(num)
    ensures body[0] as int == num / 256 % 256 && body[1] as int == num % 256
  {
    assert body[0] == body[..2][0] && body[1] == body[..2][1];
  }

  /** The calls that are refused with -1. */
  predicate Refused(kind: int, text: string, num: int) {
    || (kind == 1 && !(0 <= num <= 4094))
    || (kind == 2 && !(0 <= num <= 7))
    || ((kind == 4 || kind == 5) && !(|text| == 12 && AllHex(text)))
    || ((kind == 6 || kind == 7) && !(|text| == 8 && AllHex(text)))
  }

  /** Exactly these, and the kinds the program does not know, add nothing. */
  lemma AskedIff(kind: int, text: string, num: int)
    ensures Asked(kind, text, num).Some? <==> 0 <= kind <= 10 && !Refused(kind, text, num)
  {
  }

  // ---------------------------------------------------------------- the buffer

  class ActionBuffer {
    var command: seq<byte>                  // its size is command_len
    ghost var parts: seq<seq<byte>>
    ghost var accepted: seq<Entry>

    ghost predicate Valid()
      reads this
    {
      Matches(parts, accepted) && command == Concat(parts)
    }

    constructor ()
      ensures Valid() && command == [] && accepted == []
    {
      command, parts, accepted := [], [], [];
    }

    /** append_action. mem is what the memory behind the buffer holds before it is written. */
    method AppendAction(kind: int, text: string, num: int, mem: seq<byte>) returns (r: int)
      requires Valid() && |mem| == SizeOf(kind)
      modifies this
      ensures Valid() && Parse(command) == Some(accepted)
      ensures r == if Refused(kind, text, num) then -1 else 0
      ensures match Asked(kind, text, num)
              case None => command == old(command) && accepted == old(accepted)
              case Some(act) =>
                && accepted == old(accepted) + [Entry(act, SizeOf(kind))]
                && old(command) <= command && WireForm(kind, text, num, command[|old(command)|..])
    {
      ParseInvertsAppend(parts, accepted);
      r := Refuses(kind, text, num);
      AskedIff(kind, text, num);
      if r == -1 || kind < 0 || kind > 10 {
        return;
      }
      ghost var front := command;
      ghost var body := Extend(kind, text, num, mem);
      BodyMeans(kind, text, num, body);
      StructReads(kind, body);
      StructBytes(kind, text, num, body);
      assert command[|front|..] == Struct(kind, body);
      ghost var e := Entry(Asked(kind, text, num).value, SizeOf(kind));
      MatchesMore(parts, accepted, Struct(kind, body), e);
      parts, accepted := parts + [Struct(kind, body)], accepted + [e];
      ParseInvertsAppend(parts, accepted);
    }

    /** The checks that make append_action return -1. */
    method Refuses(kind: int, text: string, num: int) returns (r: int)
      ensures r == if Refused(kind, text, num) then -1 else 0
    {
      r := 0;
      if kind == 1 {
        if num < 0 || num >= 0xfff { r := -1; }
      } else if kind == 2 {
        if num < 0 || num > 7 { r := -1; }
      } else if kind == 4 || kind == 5 {
        var hex := IsHex(text);
        if |text| != 12 || !hex { r := -1; }
      } else if kind == 6 || kind == 7 {
        var hex := IsHex(text);
        if |text| != 8 || !hex { r := -1; }
      }
    }

    /** Grows the buffer by one structure and fills it in. */
    method Extend(kind: int, text: string, num: int, mem: seq<byte>) returns (ghost body: seq<byte>)
      requires 0 <= kind <= 10 && |mem| == SizeOf(kind) && Asked(kind, text, num).Some?
      modifies this`command
      ensures BodyOf(kind, text, num, body) && command == old(command) + Struct(kind, body)
    {
      ghost var front := command;
      var at := |command| + 4;
      body := Begin(kind, mem);
      if kind == 0 {
        body := Set(front, kind, body, at, 2, Put16(2000));
        body := Set(front, kind, body, at, 0, Put16(num));
      } else if kind == 1 || kind >= 9 {
        body := Set(front, kind, body, at, 0, Put16(num));
      } else if kind == 2 || kind == 8 {
        body := Set(front, kind, body, at, 0, [Low(num)]);
      } else if kind == 4 || kind == 5 {
        body := SetMac(front, kind, body, at, text);
      } else if kind == 6 || kind == 7 {
        body := Set(front, kind, body, at, 0, Put32(HexValue(text)));
      }
    }

    /** Room for the structure, cleared where the program clears it, with its type and length. */
    method Begin(kind: int, mem: seq<byte>) returns (ghost body: seq<byte>)
      requires 0 <= kind <= 10 && |mem| == SizeOf(kind)
      modifies this`command
      ensures |body| == SizeOf(kind) - 4 && command == old(command) + Struct(kind, body)
    {
      var room := if kind <= 5 then [0, 0, 0, 0, 0, 0, 0, 0] + mem[8..] else mem;
      body := room[4..];
      assert Splice(Splice(room, 0, Put16(kind)), 2, Put16(SizeOf(kind))) == Struct(kind, body);
      SpliceBehind(command, room, 0, Put16(kind));
      SpliceBehind(command, Splice(room, 0, Put16(kind)), 2, Put16(SizeOf(kind)));
      var at := |command|;
      command := command + room;
      command := Splice(command, at, Put16(kind));
      command := Splice(command, at + 2, Put16(SizeOf(kind)));
    }

    /** Writes one field of the structure behind front. */
    method Set(ghost front: seq<byte>, ghost kind: int, ghost body: seq<byte>, at: int, off: int, b: seq<byte>)
      returns (ghost after: seq<byte>)
      requires command == front + Struct(kind, body) && at == |front| + 4 && 0 <= off && off + |b| <= |body|
      modifies this`command
      ensures after == Splice(body, off, b) && command == front + Struct(kind, after)
      ensures after[off..off + |b|] == b
    {
      SpliceStruct(front, kind, body, off, b);
      command := Splice(command, at + off, b);
      after := Splice(body, off, b);
    }

    /** The six address bytes. */
    method SetMac(ghost front: seq<byte>, ghost kind: int, ghost body: seq<byte>, at: int, text: string)
      returns (ghost after: seq<byte>)
      requires command == front + Struct(kind, body) && at == |front| + 4 && |body| == 12 && |text| == 12
      modifies this`command
      ensures |after| == 12 && after[..6] == Mac(text) && command == front + Struct(kind, after)
    {
      after := body;
      var i := 0;
      while i < 6
        invariant 0 <= i <= 6 && |after| == 12 && command == front + Struct(kind, after)
        invariant forall k | 0 <= k < i :: after[k] == Mac(text)[k]
      {
        var b := ReadHex(text, i);
        after := Set(front, kind, after, at, i, [b]);
        i := i + 1;
      }
    }
  }
}
