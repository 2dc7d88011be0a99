/** utils.c ip_sum_calc against the Internet checksum of section 1 of RFC 1071. */
module Checksum {
  import opened Bytes

  // ---------------------------------------------------------------- the reference

  /** One's complement addition of two 16-bit values: the carry goes around the end. */
  function OnesAdd(a: int, b: int): (r: int)
    requires 0 <= a < 65536 && 0 <= b < 65536
    ensures 0 <= r < 65536
  {
    if a + b < 65536 then a + b else a + b - 65535
  }

  /** The one's complement sum of the 16-bit words of s, an odd last byte padded with a zero. */
  function OnesSum(s: seq<byte>): (r: int)
    ensures 0 <= r < 65536
  {
    if s == [] then 0
    else if |s| == 1 then s[0] as int * 256
    else OnesAdd(Get16(s, 0), OnesSum(s[2..]))
  }

  /** The Internet checksum. */
  function InternetChecksum(s: seq<byte>): int {
    65535 - OnesSum(s)
  }

  // ---------------------------------------------------------------- plain sums

  /** The plain sum of the words of s, an odd last byte counted as it stands. */
  function Total(s: seq<byte>): nat {
    if s == [] then 0
    else if |s| == 1 then s[0] as int
    else Get16(s, 0) + Total(s[2..])
  }

  /** The representative of t modulo 65535 that folding reaches: 0 only for 0. */
  function Residue(t: nat): (r: int)
    ensures 0 <= r < 65536
    ensures t < 65536 ==> r == t
    ensures (r - t) % 65535 == 0 && (r == 0 <==> t == 0)
  {
    if t == 0 then 0 else (t - 1) % 65535 + 1
  }

  lemma ResidueUnique(t: nat, r: int)
    requires 0 <= r < 65536 && (r - t) % 65535 == 0 && (r == 0 <==> t == 0)
    ensures r == Residue(t)
  {
  }

  /** Folding the high half onto the low half keeps the residue. */
  lemma FoldKeepsResidue(t: nat)
    ensures Residue(t % 65536 + t / 65536) == Residue(t)
  {
    var f := t % 65536 + t / 65536;
    assert t - f == 65535 * (t / 65536);
    ResidueUnique(f, Residue(t));
  }

  lemma AddKeepsResidue(t: nat, u: nat, w: nat)
    requires Residue(t) == Residue(u)
    ensures Residue(t + w) == Residue(u + w)
  {
    var a, b := Residue(t), Residue(t + w);
    Difference(a - u, a - t);
    Difference(b - (t + w), u - t);
    ResidueUnique(u + w, b);
  }

  lemma Difference(x: int, y: int)
    requires x % 65535 == 0 && y % 65535 == 0
    ensures (x - y) % 65535 == 0 && (y - x) % 65535 == 0
  {
  }

  /** One's complement addition is addition up to the residue. */
  lemma {:induction false} OnesSumIsResidue(s: seq<byte>)
    requires |s| % 2 == 0
    ensures OnesSum(s) == Residue(Total(s))
  {
    if s != [] {
      OnesSumIsResidue(s[2..]);
      var w, t := Get16(s, 0), Total(s[2..]);
      var r := Residue(t);
      AddKeepsResidue(t, r, w);
      ResidueUnique(w + r, OnesAdd(w, r));
    }
  }

  lemma {:induction false} TotalAppendPair(s: seq<byte>, a: byte, b: byte)
    requires |s| % 2 == 0
    ensures Total(s + [a, b]) == Total(s) + a as int * 256 + b as int
  {
    if s == [] {
      assert s + [a, b] == [a, b];
      assert [a, b][2..] == [];
    } else {
      assert (s + [a, b])[2..] == s[2..] + [a, b];
      TotalAppendPair(s[2..], a, b);
    }
  }

  lemma {:induction false} TotalAppendByte(s: seq<byte>, a: byte)
    requires |s| % 2 == 0
    ensures Total(s + [a]) == Total(s) + a as int
    ensures OnesSum(s + [a]) == OnesSum(s + [a, 0])
  {
    if s == [] {
      assert s + [a] == [a] && s + [a, 0] == [a, 0];
      assert [a, 0][2..] == [];
    } else {
      assert (s + [a])[2..] == s[2..] + [a] && (s + [a, 0])[2..] == s[2..] + [a, 0];
      TotalAppendByte(s[2..], a);
    }
  }

  // ---------------------------------------------------------------- the code

  /** What ip_sum_calc computes. */
  function Computed(s: seq<byte>): int {
    65535 - Residue(Total(s))
  }

  lemma AddWord(ip: seq<byte>, at: int, sum: nat)
    requires 0 <= at && at + 2 <= |ip| && at % 2 == 0
    requires Residue(sum) == Residue(Total(ip[..at]))
    ensures Residue(sum + Get16(ip, at)) == Residue(Total(ip[..at + 2]))
  {
    TotalAppendPair(ip[..at], ip[at], ip[at + 1]);
    assert ip[..at + 2] == ip[..at] + [ip[at], ip[at + 1]];
    AddKeepsResidue(sum, Total(ip[..at]), Get16(ip, at));
  }

  lemma AddLast(ip: seq<byte>, at: int, sum: nat)
    requires 0 <= at < |ip| && at % 2 == 0
    requires Residue(sum) == Residue(Total(ip[..at]))
    ensures Residue(sum + ip[at] as int) == Residue(Total(ip[..at + 1]))
  {
    TotalAppendByte(ip[..at], ip[at]);
    assert ip[..at + 1] == ip[..at] + [ip[at]];
    AddKeepsResidue(sum, Total(ip[..at]), ip[at] as int);
  }

  /** ip_sum_calc. The accumulator has 32 bits: each addition is written modulo 2^32, and the
      assertions before them say that it never wraps. */
  method IpSumCalc(len: int, ip: seq<byte>) returns (r: int)
    requires 0 <= len < 65536 && len <= |ip|
    ensures r == Computed(ip[..len])
  {
    var sum, at := SumWords(len, ip);
    if len - at != 0 {
      AddLast(ip, at, sum);
      sum := AddByte(sum, ip[at]);
    }
    var folded := FoldDown(sum);
    r := 65535 - folded;
  }

  /** The left over byte, in unsigned 32-bit arithmetic. */
  method AddByte(sum: int, b: byte) returns (next: int)
    requires 0 <= sum < 0x8000_0000
    ensures next == sum + b as int < 0x1_0000_0000
  {
    next := (sum + b as int) % 0x1_0000_0000;
  }

  /** The first loop: the whole words. */
  method SumWords(len: int, ip: seq<byte>) returns (sum: int, at: int)
    requires 0 <= len <= |ip|
    ensures 0 <= at <= len <= at + 1 && at % 2 == 0
    ensures 0 <= sum < 0x8000_0000 && Residue(sum) == Residue(Total(ip[..at]))
  {
    sum, at := 0, 0;
    while len - at > 1
      invariant 0 <= at <= len && at % 2 == 0
      invariant 0 <= sum < 0x8000_0000
      invariant Residue(sum) == Residue(Total(ip[..at]))
    {
      AddWord(ip, at, sum);
      sum := Accumulate(sum, Get16(ip, at));
      at := at + 2;
    }
  }

  /** One turn of the first loop: add a word and fold once if the high bit got set. */
  method Accumulate(sum: int, w: int) returns (next: int)
    requires 0 <= sum < 0x8000_0000 && 0 <= w < 65536
    ensures 0 <= next < 0x8000_0000 && Residue(next) == Residue(sum + w)
  {
    assert sum + w < 0x1_0000_0000;
    next := (sum + w) % 0x1_0000_0000;
    if next >= 0x8000_0000 {
      FoldKeepsResidue(next);
      next := next % 65536 + next / 65536;
    }
  }

  /** The last loop: fold until the high half is empty. */
  method FoldDown(start: int) returns (sum: int)
    requires 0 <= start < 0x1_0000_0000
    ensures sum == Residue(start)
  {
    sum := start;
    while sum / 65536 != 0
      invariant 0 <= sum < 0x1_0000_0000 && Residue(sum) == Residue(start)
      decreases sum
    {
      FoldKeepsResidue(sum);
      sum := sum % 65536 + sum / 65536;
    }
  }

  /** On every even length the code computes the Internet checksum. */
  lemma EvenLengthIsInternetChecksum(s: seq<byte>)
    requires |s| % 2 == 0
    ensures Computed(s) == InternetChecksum(s)
  {
    OnesSumIsResidue(s);
  }

  /** On an odd length it does exactly when the last byte is zero, because the code adds that
      byte as a low byte where the reference adds it as a high one. */
  lemma OddLengthIffLastZero(s: seq<byte>)
    requires |s| % 2 == 1
    ensures Computed(s) == InternetChecksum(s) <==> s[|s| - 1] == 0
  {
    var t, b := s[..|s| - 1], s[|s| - 1];
    assert s == t + [b];
    TotalAppendByte(t, b);
    TotalAppendPair(t, b, 0);
    OnesSumIsResidue(t + [b, 0]);
    LastByteDecides(Total(t), b as int);
  }

  lemma LastByteDecides(x: nat, b: int)
    requires 0 <= b < 256
    ensures Residue(x + b) == Residue(x + b * 256) <==> b == 0
  {
    if Residue(x + b) == Residue(x + b * 256) {
      SameResidue(x + b * 256, x + b);
      assert (255 * b) % 65535 == 0;
    }
  }

  lemma SameResidue(t: nat, u: nat)
    requires Residue(t) == Residue(u)
    ensures (t - u) % 65535 == 0
  {
  }

  lemma {:induction false} TotalUpdate(s: seq<byte>, p: int, c: int)
    requires |s| % 2 == 0 && 0 <= p < |s| && p % 2 == 0 && s[p] == 0 && s[p + 1] == 0
    requires 0 <= c < 65536
    ensures Total(s[p := Low(c / 256)][p + 1 := Low(c)]) == Total(s) + c
  {
    var u := s[p := Low(c / 256)][p + 1 := Low(c)];
    if p == 0 {
      assert u[2..] == s[2..];
    } else {
      assert u[2..] == s[2..][p - 2 := Low(c / 256)][p - 1 := Low(c)];
      TotalUpdate(s[2..], p - 2, c);
    }
  }

  /** A text that holds its own checksum in a field that was zero sums to zero. */
  lemma OwnChecksumVerifies(s: seq<byte>, p: int)
    requires |s| % 2 == 0 && 0 <= p < |s| && p % 2 == 0 && s[p] == 0 && s[p + 1] == 0
    ensures var c := Computed(s);
            Computed(s[p := Low(c / 256)][p + 1 := Low(c)]) == 0
  {
    var c := Computed(s);
    TotalUpdate(s, p, c);
    ResidueUnique(Total(s) + c, 65535);
  }
}
