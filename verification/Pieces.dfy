/** A byte string made of consecutive fields: writing one field in place, and reading it back. */
module Pieces {
  import opened Bytes

  /** Where field i starts. */
  function Offset(fields: seq<seq<byte>>, i: int): int
    requires 0 <= i <= |fields|
  {
    |Concat(fields[..i])|
  }

  /** Overwrites the bytes from at on. */
  function Splice(s: seq<byte>, at: int, b: seq<byte>): (t: seq<byte>)
    requires 0 <= at && at + |b| <= |s|
    ensures |t| == |s|
  {
    s[..at] + b + s[at + |b|..]
  }

  lemma OffsetNext(fields: seq<seq<byte>>, i: int)
    requires 0 <= i < |fields|
    ensures Offset(fields, i + 1) == Offset(fields, i) + |fields[i]|
  {
    assert fields[..i + 1] == fields[..i] + [fields[i]];
    ConcatAppend(fields[..i], [fields[i]]);
    assert Concat([fields[i]]) == fields[i] + Concat([]);
  }

  lemma Around(fields: seq<seq<byte>>, i: int)
    requires 0 <= i < |fields|
    ensures Concat(fields) == Concat(fields[..i]) + fields[i] + Concat(fields[i + 1..])
  {
    assert fields == fields[..i] + fields[i..];
    ConcatAppend(fields[..i], fields[i..]);
    assert fields[i..][0] == fields[i] && fields[i..][1..] == fields[i + 1..];
    Assoc(Concat(fields[..i]), fields[i], Concat(fields[i + 1..]));
  }

  lemma SpliceMiddle(a: seq<byte>, x: seq<byte>, c: seq<byte>, y: seq<byte>)
    requires |x| == |y|
    ensures Splice(a + x + c, |a|, y) == a + y + c
    ensures (a + x + c)[|a|..|a| + |x|] == x
  {
    var s := a + x + c;
    assert s[..|a|] == a && s[|a| + |y|..] == c;
  }

  /** A field reads back as it was written. */
  lemma ReadField(fields: seq<seq<byte>>, i: int)
    requires 0 <= i < |fields|
    ensures 0 <= Offset(fields, i) && Offset(fields, i) + |fields[i]| <= |Concat(fields)|
    ensures Concat(fields)[Offset(fields, i)..Offset(fields, i) + |fields[i]|] == fields[i]
  {
    Around(fields, i);
    SpliceMiddle(Concat(fields[..i]), fields[i], Concat(fields[i + 1..]), fields[i]);
  }

  /** Writing a field in place changes that field and no other. */
  lemma WriteField(fields: seq<seq<byte>>, i: int, b: seq<byte>)
    requires 0 <= i < |fields| && |b| == |fields[i]|
    ensures Offset(fields, i) + |b| <= |Concat(fields)|
    ensures Splice(Concat(fields), Offset(fields, i), b) == Concat(fields[i := b])
  {
    var g := fields[i := b];
    Around(fields, i);
    Around(g, i);
    assert g[..i] == fields[..i] && g[i + 1..] == fields[i + 1..];
    SpliceMiddle(Concat(fields[..i]), fields[i], Concat(fields[i + 1..]), b);
  }
}
