/** Bytes and the fixed-width integers the programs put into them. */
module Bytes {

  newtype byte = x: int | 0 <= x < 256

  datatype Option<+T> = None | Some(value: T)

  /** The low eight bits. */
  function Low(n: int): byte {
    (n % 256) as byte
  }

  /** A 16-bit value in network order. */
  function Put16(n: int): (s: seq<byte>)
    ensures |s| == 2
  {
    [Low(n / 256), Low(n)]
  }

  /** A 32-bit value in network order. */
  function Put32(n: int): (s: seq<byte>)
    ensures |s| == 4
  {
    Put16(n / 65536) + Put16(n)
  }

  /** A 32-bit value as a little-endian host stores it. */
  function PutHost32(n: int): (s: seq<byte>)
    ensures |s| == 4
  {
    [Low(n), Low(n / 256), Low(n / 65536), Low(n / 16777216)]
  }

  /** n zero bytes. */
  function Zeros(n: nat): (s: seq<byte>)
    ensures |s| == n
  {
    seq(n, _ => 0 as byte)
  }

  function Get16(s: seq<byte>, at: int): (n: int)
    requires 0 <= at && at + 2 <= |s|
    ensures 0 <= n < 65536
  {
    s[at] as int * 256 + s[at + 1] as int
  }

  function Get32(s: seq<byte>, at: int): (n: int)
    requires 0 <= at && at + 4 <= |s|
    ensures 0 <= n < 0x1_0000_0000
  {
    Get16(s, at) * 65536 + Get16(s, at + 2)
  }

  /** What a little-endian host reads at an offset. */
  function GetHost32(b: seq<byte>, at: int): int
    requires 0 <= at && at + 4 <= |b|
  {
    b[at + 3] as int * 16777216 + b[at + 2] as int * 65536 + b[at + 1] as int * 256 + b[at] as int
  }

  lemma PutHostGet(n: int)
    ensures GetHost32(PutHost32(n), 0) == n % 0x1_0000_0000
  {
    assert n / 65536 / 256 == n / 16777216;
    Put32Get32(n);
  }

  lemma Put16Get16(n: int)
    ensures Get16(Put16(n), 0) == n % 65536
  {
  }

  lemma Put32Get32(n: int)
    ensures Get32(Put32(n), 0) == n % 0x1_0000_0000
  {
    var hi, lo := n / 65536, n % 65536;
    assert n == hi * 65536 + lo;
    Put16Get16(hi);
    Put16Get16(n);
    assert hi == (hi / 65536) * 65536 + hi % 65536;
    assert n == (hi / 65536) * 0x1_0000_0000 + (hi % 65536) * 65536 + lo;
  }

  /** Where a 16-bit field is read back out of a longer text. */
  lemma Get16At(s: seq<byte>, at: int, n: int)
    requires 0 <= at && at + 2 <= |s| && s[at..at + 2] == Put16(n)
    ensures Get16(s, at) == n % 65536
  {
    assert s[at] == s[at..at + 2][0] && s[at + 1] == s[at..at + 2][1];
    Put16Get16(n);
  }

  lemma Get32At(s: seq<byte>, at: int, n: int)
    requires 0 <= at && at + 4 <= |s| && s[at..at + 4] == Put32(n)
    ensures Get32(s, at) == n % 0x1_0000_0000
  {
    var f := s[at..at + 4];
    assert s[at] == f[0] && s[at + 1] == f[1] && s[at + 2] == f[2] && s[at + 3] == f[3];
    assert Get32(s, at) == Get32(Put32(n), 0);
    Put32Get32(n);
  }

  /** A 32-bit field written back as it was read. */
  lemma Get32Put32(s: seq<byte>, at: int)
    requires 0 <= at && at + 4 <= |s|
    ensures Put32(Get32(s, at)) == s[at..at + 4]
  {
    var a, b, c, d := s[at] as int, s[at + 1] as int, s[at + 2] as int, s[at + 3] as int;
    Digits(a, b, c, d);
  }

  lemma Digits(a: int, b: int, c: int, d: int)
    requires 0 <= a < 256 && 0 <= b < 256 && 0 <= c < 256 && 0 <= d < 256
    ensures var n := (a * 256 + b) * 65536 + (c * 256 + d);
            && n / 65536 / 256 % 256 == a && n / 65536 % 256 == b
            && n / 256 % 256 == c && n % 256 == d
  {
    var n := (a * 256 + b) * 65536 + (c * 256 + d);
    assert n / 65536 == a * 256 + b;
    assert n / 256 == (a * 256 + b) * 256 + c;
  }

  /** The concatenation of a list of byte strings. */
  function Concat(ss: seq<seq<byte>>): seq<byte> {
    if ss == [] then [] else ss[0] + Concat(ss[1..])
  }

  lemma Assoc<T>(a: seq<T>, b: seq<T>, c: seq<T>)
    ensures (a + b) + c == a + (b + c)
  {
  }

  lemma {:induction false} ConcatAppend(ss: seq<seq<byte>>, ts: seq<seq<byte>>)
    ensures Concat(ss + ts) == Concat(ss) + Concat(ts)
  {
    if ss == [] {
      assert ss + ts == ts;
    } else {
      assert (ss + ts)[1..] == ss[1..] + ts;
      ConcatAppend(ss[1..], ts);
    }
  }
}
