/** Cutting an OpenFlow 1.0 byte stream into messages by the length field of the header
    (section 5.1 of the OpenFlow Switch Specification 1.0.0). */
module Framing {
  import opened Bytes

  const HEADER := 8

  const HELLO := 0
  const ERROR := 1
  const ECHO_REQUEST := 2
  const ECHO_REPLY := 3
  const VENDOR := 4
  const FEATURES_REQUEST := 5
  const FEATURES_REPLY := 6
  const PACKET_IN := 10
  const PACKET_OUT := 13
  const FLOW_MOD := 14

  /** Where struct ofp_flow_mod keeps its command, after the header, the match and the cookie. */
  const FLOW_MOD_COMMAND := 56

  /** Commands of a flow-mod. */
  const FLOW_ADD := 0
  const FLOW_MODIFY_STRICT := 2

  function Length(s: seq<byte>): int
    requires |s| >= HEADER
  {
    Get16(s, 2)
  }

  function Kind(s: seq<byte>): int
    requires |s| >= HEADER
  {
    s[1] as int
  }

  function Xid(s: seq<byte>): seq<byte>
    requires |s| >= HEADER
  {
    s[4..8]
  }

  /** The handler takes a message once the header and as many bytes as it announces are there. */
  predicate Complete(s: seq<byte>) {
    |s| >= HEADER && |s| >= Length(s)
  }

  /** The bytes the handler looks at while it dispatches the first message of s: the message, or
      the header when the announced length is shorter than a header. */
  function View(s: seq<byte>): (v: seq<byte>)
    requires Complete(s)
    ensures |v| >= HEADER && v <= s
    ensures Length(v) == Length(s) && Kind(v) == Kind(s)
  {
    s[..if Length(s) < HEADER then HEADER else Length(s)]
  }

  /** A header the handler can act on: it announces at least one byte, and a flow-mod is long
      enough to hold its command. */
  predicate Sound(s: seq<byte>)
    requires |s| >= HEADER
  {
    && Length(s) >= 1
    && (Kind(s) == FLOW_MOD ==> Length(s) >= FLOW_MOD_COMMAND + 2)
  }

  /** Every header met while cutting s into messages is sound. */
  predicate Steady(s: seq<byte>)
    decreases |s|
  {
    |s| >= HEADER ==> Sound(s) && (Complete(s) ==> Steady(s[Length(s)..]))
  }

  /** A steady stream in which every header also announces at least itself, as the protocol demands. */
  predicate Proper(s: seq<byte>)
    decreases |s|
  {
    |s| >= HEADER ==> Sound(s) && Length(s) >= HEADER && (Complete(s) ==> Proper(s[Length(s)..]))
  }

  /** The messages of s, each as the handler sees it, in order. */
  function Messages(s: seq<byte>): seq<seq<byte>>
    requires Steady(s)
    decreases |s|
  {
    if Complete(s) then [View(s)] + Messages(s[Length(s)..]) else []
  }

  /** What is left of s behind its last complete message. */
  function Rest(s: seq<byte>): (r: seq<byte>)
    requires Steady(s)
    ensures !Complete(r)
    decreases |s|
  {
    if Complete(s) then Rest(s[Length(s)..]) else s
  }

  /** A message whose length field is its size. */
  predicate Exact(m: seq<byte>) {
    |m| >= HEADER && Length(m) == |m|
  }

  // ---------------------------------------------------------------- laws of cutting

  lemma {:induction false} SteadyPrefix(s: seq<byte>, x: seq<byte>)
    requires Steady(s + x)
    ensures Steady(s)
    decreases |s|
  {
    if |s| >= HEADER && Complete(s) {
      assert (s + x)[Length(s)..] == s[Length(s)..] + x;
      SteadyPrefix(s[Length(s)..], x);
    }
  }

  /** Cutting can be interrupted anywhere: the messages of a longer stream are those of its
      beginning, then those of the leftover followed by the rest. */
  lemma {:induction false} CutAnywhere(s: seq<byte>, x: seq<byte>)
    requires Steady(s)
    ensures Steady(s + x) <==> Steady(Rest(s) + x)
    ensures Steady(s + x) ==> Messages(s + x) == Messages(s) + Messages(Rest(s) + x)
    ensures Steady(s + x) ==> Rest(s + x) == Rest(Rest(s) + x)
    decreases |s|
  {
    if Complete(s) {
      assert (s + x)[Length(s)..] == s[Length(s)..] + x;
      assert View(s + x) == View(s);
      CutAnywhere(s[Length(s)..], x);
    }
  }

  lemma {:induction false} ProperIsExact(s: seq<byte>)
    requires Proper(s)
    ensures Steady(s)
    ensures forall m | m in Messages(s) :: Exact(m)
    decreases |s|
  {
    if Complete(s) {
      ProperIsExact(s[Length(s)..]);
    }
  }

  lemma PutBackFirst(v: seq<byte>, ms: seq<seq<byte>>, r: seq<byte>, t: seq<byte>)
    requires Concat(ms) + r == t
    ensures Concat([v] + ms) + r == v + t
  {
    assert ([v] + ms)[1..] == ms;
    assert v + Concat(ms) + r == v + (Concat(ms) + r);
  }

  /** The messages and the leftover of a proper stream are the stream. */
  lemma {:induction false} CutLosesNothing(s: seq<byte>)
    requires Proper(s)
    ensures Steady(s) && Concat(Messages(s)) + Rest(s) == s
    decreases |s|
  {
    ProperIsExact(s);
    if Complete(s) {
      var t := s[Length(s)..];
      CutLosesNothing(t);
      PutBackFirst(View(s), Messages(t), Rest(t), t);
      assert View(s) + t == s;
    } else {
      assert Messages(s) == [];
    }
  }

  /** A concatenation of exact messages is cut back into those messages, with nothing left. */
  lemma {:induction false} CutInvertsConcat(ms: seq<seq<byte>>)
    requires forall m | m in ms :: Exact(m) && Sound(m)
    ensures Steady(Concat(ms))
    ensures Messages(Concat(ms)) == ms && Rest(Concat(ms)) == []
  {
    if ms != [] {
      var m, s := ms[0], Concat(ms);
      assert Exact(m) && Sound(m);
      assert s[..|m|] == m && s[|m|..] == Concat(ms[1..]);
      assert Length(s) == |m| && Kind(s) == Kind(m);
      CutInvertsConcat(ms[1..]);
    }
  }
}
