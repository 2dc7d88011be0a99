/** Whole runs of a fake switch: any order of reads, writes and count resets, with a history of
    what went over the socket. */
module SwitchRuns {
  import opened Arith
  import opened Bytes
  import opened Framing
  import opened Time
  import opened SwitchSpec

  /** The switch and its history: the bytes handed to the socket, the bytes still in the output
      buffer, the bytes fed to fakeswitch_handle_read, the messages it dispatched, the resets, and
      all bytes read, those that a reset drained included. */
  datatype World = World(sw: Sw, written: seq<byte>, outb: seq<byte>, fed: seq<byte>,
                         handled: seq<seq<byte>>, resets: nat, all: seq<byte>)

  datatype Act =
    | Read(chunk: seq<byte>, at: Timeval)          // fakeswitch_handle_read
    | Write(accepted: nat, at: Timeval)            // fakeswitch_handle_write
    | Reset                                        // fakeswitch_get_count takes the count
    | Drop(chunk: seq<byte>)                       // fakeswitch_get_count reads and drops

  /** The replies owed to a message, none or one. */
  function ReplyTo(m: seq<byte>): seq<Out>
    requires |m| >= HEADER
  {
    if Kind(m) == FEATURES_REQUEST then [FeaturesReply(Xid(m))]
    else if Kind(m) == VENDOR then [VendorError(Xid(m))]
    else if Kind(m) == ECHO_REQUEST then [EchoReply(Xid(m))]
    else []
  }

  predicate AllHeaded(ms: seq<seq<byte>>) {
    forall m | m in ms :: |m| >= HEADER
  }

  function Replies(ms: seq<seq<byte>>): seq<Out>
    requires AllHeaded(ms)
  {
    if ms == [] then [] else ReplyTo(ms[0]) + Replies(ms[1..])
  }

  /** fakeswitch_init: the HELLO is queued. */
  function Boot(c: Config): World {
    World(Booted(), [], Encode(c.id, Hello), [], [], 0, [])
  }

  predicate Legal(c: Config, w: World, a: Act)
    requires c.Valid()
  {
    match a
    case Read(chunk, _) => Steady(w.sw.inb + chunk)
    case Write(_, _) => true
    case Reset => true
    case Drop(chunk) => w.resets > 0 && Droppable(w.sw.inb + chunk, |chunk|)
  }

  /** The output buffer of w' is that of w followed by the bytes of what was said in between, less
      the bytes the socket accepted. */
  ghost predicate Flows(c: Config, w: World, accepted: nat, w': World) {
    && |w.sw.said| <= |w'.sw.said|
    && var out := w.outb + Wire(c.id, w'.sw.said[|w.sw.said|..]);
       && accepted <= |out|
       && w'.written == w.written + out[..accepted]
       && w'.outb == out[accepted..]
  }

  ghost predicate Step(c: Config, w: World, a: Act, w': World)
    requires c.Valid()
  {
    Legal(c, w, a) &&
    match a
    case Read(chunk, now) =>
      && w' == World(HandleRead(c, w.sw, chunk, now), w.written, w'.outb, w.fed + chunk,
                     w.handled + Messages(w.sw.inb + chunk), w.resets, w.all + chunk)
      && Flows(c, w, 0, w')
    case Write(accepted, now) =>
      && w' == w.(sw := Prepare(c, w.sw, |w.outb|, now), written := w'.written, outb := w'.outb)
      && Flows(c, w, accepted, w')
    case Reset =>
      w' == w.(sw := w.sw.(count := 0, probe := 0), resets := w.resets + 1)
    case Drop(chunk) =>
      w' == w.(sw := w.sw.(inb := DropWhole(w.sw.inb + chunk, |chunk|)), all := w.all + chunk)
  }

  /** Step k of a run. */
  ghost predicate StepAt(c: Config, ws: seq<World>, acts: seq<Act>, k: int)
    requires c.Valid() && |ws| == |acts| + 1 && 0 <= k < |acts|
  {
    Step(c, ws[k], acts[k], ws[k + 1])
  }

  ghost predicate Run(c: Config, ws: seq<World>, acts: seq<Act>)
    requires c.Valid()
  {
    && |ws| == |acts| + 1
    && ws[0] == Boot(c)
    && forall k | 0 <= k < |acts| :: StepAt(c, ws, acts, k)
  }

  lemma RunPrefix(c: Config, ws: seq<World>, acts: seq<Act>)
    requires c.Valid() && Run(c, ws, acts) && acts != []
    ensures Run(c, ws[..|acts|], acts[..|acts| - 1])
    ensures Step(c, ws[|acts| - 1], acts[|acts| - 1], ws[|acts|])
  {
    var vs, bs := ws[..|acts|], acts[..|acts| - 1];
    forall k | 0 <= k < |bs|
      ensures StepAt(c, vs, bs, k)
    {
      assert StepAt(c, ws, acts, k);
    }
    assert StepAt(c, ws, acts, |acts| - 1);
  }

  // ---------------------------------------------------------------- what one message does

  /** A dispatched message adds exactly the reply owed to it. */
  lemma DispatchReplies(c: Config, sw: Sw, m: seq<byte>, now: Timeval)
    requires |m| >= HEADER
    ensures Dispatch(c, sw, m, now).said == sw.said + ReplyTo(m)
  {
  }

  lemma {:induction false} DispatchAllReplies(c: Config, sw: Sw, ms: seq<seq<byte>>, now: Timeval)
    requires AllHeaded(ms)
    ensures DispatchAll(c, sw, ms, now).said == sw.said + Replies(ms)
    decreases |ms|
  {
    if ms != [] {
      DispatchReplies(c, sw, ms[0], now);
      DispatchAllReplies(c, Dispatch(c, sw, ms[0], now), ms[1..], now);
      Assoc(sw.said, ReplyTo(ms[0]), Replies(ms[1..]));
    }
  }

  /** What one read does: the messages are dispatched, their replies said, the rest stays. */
  lemma HandleReadIs(c: Config, sw: Sw, chunk: seq<byte>, now: Timeval)
    requires Steady(sw.inb + chunk)
    ensures AllHeaded(Messages(sw.inb + chunk))
    ensures HandleRead(c, sw, chunk, now)
         == DispatchAll(c, sw, Messages(sw.inb + chunk), now).(inb := Rest(sw.inb + chunk))
    ensures HandleRead(c, sw, chunk, now).said == sw.said + Replies(Messages(sw.inb + chunk))
  {
    var s := sw.inb + chunk;
    HandlesExactlyTheMessages(c, sw.(inb := s), now);
    DispatchAllIgnoresInput(c, sw, Messages(s), now, s);
    DispatchAllReplies(c, sw, Messages(s), now);
  }

  // ---------------------------------------------------------------- the output stream

  ghost predicate WireInv(c: Config, w: World) {
    w.written + w.outb == Wire(c.id, w.sw.said)
  }

  lemma TakeDrop(a: seq<byte>, b: seq<byte>, n: nat)
    requires n <= |b|
    ensures (a + b[..n]) + b[n..] == a + b
  {
    assert b == b[..n] + b[n..];
    Assoc(a, b[..n], b[n..]);
  }

  lemma FlowsKeepsWire(c: Config, w: World, accepted: nat, w': World)
    requires WireInv(c, w) && Flows(c, w, accepted, w') && w.sw.said <= w'.sw.said
    ensures WireInv(c, w')
  {
    var more := w'.sw.said[|w.sw.said|..];
    assert w'.sw.said == w.sw.said + more;
    WireAppend(c.id, w.sw.said, more);
    Assoc(w.written, w.outb, Wire(c.id, more));
    TakeDrop(w.written, w.outb + Wire(c.id, more), accepted);
  }

  // ---------------------------------------------------------------- replies and readiness

  function Filter(os: seq<Out>): seq<Out> {
    if os == [] then [] else (if os[0].Probe? then [] else [os[0]]) + Filter(os[1..])
  }

  lemma {:induction false} FilterAppend(os: seq<Out>, ps: seq<Out>)
    ensures Filter(os + ps) == Filter(os) + Filter(ps)
  {
    if os == [] {
      assert os + ps == ps;
    } else {
      assert (os + ps)[1..] == os[1..] + ps;
      FilterAppend(os[1..], ps);
    }
  }

  lemma {:induction false} FilterKeepsReplies(ms: seq<seq<byte>>)
    requires AllHeaded(ms)
    ensures Filter(Replies(ms)) == Replies(ms)
  {
    if ms != [] {
      var r := ReplyTo(ms[0]);
      assert r == [] || (|r| == 1 && r[1..] == [] && !r[0].Probe?);
      FilterAppend(r, Replies(ms[1..]));
      FilterKeepsReplies(ms[1..]);
    }
  }

  lemma {:induction false} FilterDropsProbes(c: Config, mac: int, n: nat)
    requires c.Valid()
    ensures Filter(Probes(c, mac, n)) == []
    decreases n
  {
    if n > 0 {
      FilterDropsProbes(c, (mac + 1) % c.totalMacs, n - 1);
    }
  }

  lemma {:induction false} RepliesAppend(ms: seq<seq<byte>>, ns: seq<seq<byte>>)
    requires AllHeaded(ms) && AllHeaded(ns)
    ensures AllHeaded(ms + ns) && Replies(ms + ns) == Replies(ms) + Replies(ns)
  {
    if ms == [] {
      assert ms + ns == ns;
    } else {
      assert (ms + ns)[1..] == ms[1..] + ns;
      RepliesAppend(ms[1..], ns);
      Assoc(ReplyTo(ms[0]), Replies(ms[1..]), Replies(ns));
    }
  }

  /** Apart from probes, what was sent is the HELLO and the replies owed, in order. */
  ghost predicate ReplyInv(w: World) {
    && AllHeaded(w.handled)
    && Filter(w.sw.said) == [Hello] + Replies(w.handled)
    && w.sw.said != [] && w.sw.said[0] == Hello
  }

  lemma ReadKeepsReplies(c: Config, w: World, a: Act, w': World)
    requires c.Valid() && a.Read? && Step(c, w, a, w') && ReplyInv(w)
    ensures ReplyInv(w')
  {
    var ms := Messages(w.sw.inb + a.chunk);
    HandleReadIs(c, w.sw, a.chunk, a.at);
    FilterAppend(w.sw.said, Replies(ms));
    FilterKeepsReplies(ms);
    RepliesAppend(w.handled, ms);
    Assoc([Hello], Replies(w.handled), Replies(ms));
  }

  lemma WriteKeepsReplies(c: Config, w: World, a: Act, w': World)
    requires c.Valid() && a.Write? && Step(c, w, a, w') && ReplyInv(w)
    ensures ReplyInv(w')
  {
    var n := Queued(c, w.sw, |w.outb|);
    PrepareAdds(c, w.sw, |w.outb|, a.at);
    FilterAppend(w.sw.said, Probes(c, w.sw.mac, n));
    FilterDropsProbes(c, w.sw.mac, n);
  }

  ghost predicate Introduced(os: seq<Out>, n: int)
    requires n <= |os|
  {
    exists j :: 0 <= j < n && os[j].FeaturesReply?
  }

  /** No probe precedes the first features reply, and a ready switch has sent one. */
  ghost predicate ReadyInv(w: World) {
    && (w.sw.ready != 0 ==> Introduced(w.sw.said, |w.sw.said|))
    && (forall i | 0 <= i < |w.sw.said| && w.sw.said[i].Probe? :: Introduced(w.sw.said, i))
  }

  lemma {:induction false} RepliesAreNoProbes(ms: seq<seq<byte>>)
    requires AllHeaded(ms)
    ensures forall i | 0 <= i < |Replies(ms)| :: !Replies(ms)[i].Probe?
  {
    if ms != [] {
      RepliesAreNoProbes(ms[1..]);
    }
  }

  lemma {:induction false} DispatchAllReady(c: Config, sw: Sw, ms: seq<seq<byte>>, now: Timeval)
    requires AllHeaded(ms)
    ensures DispatchAll(c, sw, ms, now).ready != 0 ==> sw.ready != 0 || Introduced(Replies(ms), |Replies(ms)|)
    decreases |ms|
  {
    if ms != [] {
      DispatchAllReady(c, Dispatch(c, sw, ms[0], now), ms[1..], now);
      DispatchReady(c, sw, ms[0], now);
      if Kind(ms[0]) == FEATURES_REQUEST {
        assert Replies(ms)[0].FeaturesReply?;
      } else if Introduced(Replies(ms[1..]), |Replies(ms[1..])|) {
        IntroducedByReply(ReplyTo(ms[0]), Replies(ms[1..]));
      }
    }
  }

  lemma DispatchReady(c: Config, sw: Sw, m: seq<byte>, now: Timeval)
    requires |m| >= HEADER
    ensures Kind(m) != FEATURES_REQUEST ==> Dispatch(c, sw, m, now).ready == sw.ready
  {
  }

  lemma IntroducedLater(os: seq<Out>, ps: seq<Out>, n: nat, m: nat)
    requires n <= |os| && n <= m <= |os + ps| && Introduced(os, n)
    ensures Introduced(os + ps, m)
  {
    var j :| 0 <= j < n && os[j].FeaturesReply?;
    assert (os + ps)[j].FeaturesReply?;
  }

  lemma IntroducedByReply(os: seq<Out>, rs: seq<Out>)
    requires Introduced(rs, |rs|)
    ensures Introduced(os + rs, |os + rs|)
  {
    var j :| 0 <= j < |rs| && rs[j].FeaturesReply?;
    assert (os + rs)[|os| + j].FeaturesReply?;
  }

  lemma ReadKeepsReady(c: Config, w: World, a: Act, w': World)
    requires c.Valid() && a.Read? && Step(c, w, a, w') && ReadyInv(w)
    ensures ReadyInv(w')
  {
    var ms := Messages(w.sw.inb + a.chunk);
    HandleReadIs(c, w.sw, a.chunk, a.at);
    var rs := Replies(ms);
    DispatchAllReady(c, w.sw, ms, a.at);
    RepliesAreNoProbes(ms);
    AppendKeepsOrder(w.sw.said, rs);
    if w.sw.ready != 0 {
      IntroducedLater(w.sw.said, rs, |w.sw.said|, |w.sw.said + rs|);
    } else if w'.sw.ready != 0 {
      IntroducedByReply(w.sw.said, rs);
    }
  }

  lemma WriteKeepsReady(c: Config, w: World, a: Act, w': World)
    requires c.Valid() && a.Write? && Step(c, w, a, w') && ReadyInv(w)
    ensures ReadyInv(w')
  {
    var ps := Probes(c, w.sw.mac, Queued(c, w.sw, |w.outb|));
    PrepareAdds(c, w.sw, |w.outb|, a.at);
    AppendKeepsOrder(w.sw.said, ps);
    if w.sw.ready != 0 {
      IntroducedLater(w.sw.said, ps, |w.sw.said|, |w.sw.said + ps|);
    }
  }

  lemma AppendKeepsOrder(os: seq<Out>, ps: seq<Out>)
    requires forall i | 0 <= i < |os| && os[i].Probe? :: Introduced(os, i)
    requires Introduced(os, |os|) || forall i | 0 <= i < |ps| :: !ps[i].Probe?
    ensures forall i | 0 <= i < |os + ps| && (os + ps)[i].Probe? :: Introduced(os + ps, i)
  {
    forall i | 0 <= i < |os + ps| && (os + ps)[i].Probe?
      ensures Introduced(os + ps, i)
    {
      if i < |os| {
        IntroducedLater(os, ps, i, i);
      } else {
        assert ps[i - |os|].Probe?;
        IntroducedLater(os, ps, |os|, i);
      }
    }
  }

  // ---------------------------------------------------------------- probe accounting

  function CountResponses(ms: seq<seq<byte>>): nat
    requires AllHeaded(ms)
  {
    if ms == [] then 0 else (if IsResponse(ms[0]) then 1 else 0) + CountResponses(ms[1..])
  }

  function CountVendors(ms: seq<seq<byte>>): nat
    requires AllHeaded(ms)
  {
    if ms == [] then 0 else (if Kind(ms[0]) == VENDOR then 1 else 0) + CountVendors(ms[1..])
  }

  function CountProbes(os: seq<Out>): nat {
    if os == [] then 0 else (if os[0].Probe? then 1 else 0) + CountProbes(os[1..])
  }

  lemma {:induction false} CountsAppend(ms: seq<seq<byte>>, ns: seq<seq<byte>>)
    requires AllHeaded(ms) && AllHeaded(ns)
    ensures AllHeaded(ms + ns)
    ensures CountResponses(ms + ns) == CountResponses(ms) + CountResponses(ns)
    ensures CountVendors(ms + ns) == CountVendors(ms) + CountVendors(ns)
  {
    if ms == [] {
      assert ms + ns == ns;
    } else {
      assert (ms + ns)[1..] == ms[1..] + ns;
      CountsAppend(ms[1..], ns);
    }
  }

  lemma {:induction false} CountProbesAppend(os: seq<Out>, ps: seq<Out>)
    ensures CountProbes(os + ps) == CountProbes(os) + CountProbes(ps)
  {
    if os == [] {
      assert os + ps == ps;
    } else {
      assert (os + ps)[1..] == os[1..] + ps;
      CountProbesAppend(os[1..], ps);
    }
  }

  lemma {:induction false} NoProbesInReplies(ms: seq<seq<byte>>)
    requires AllHeaded(ms)
    ensures CountProbes(Replies(ms)) == 0
  {
    if ms != [] {
      var r := ReplyTo(ms[0]);
      assert r == [] || (|r| == 1 && r[1..] == [] && !r[0].Probe?);
      CountProbesAppend(r, Replies(ms[1..]));
      NoProbesInReplies(ms[1..]);
    }
  }

  lemma {:induction false} AllProbesInProbes(c: Config, mac: int, n: nat)
    requires c.Valid()
    ensures CountProbes(Probes(c, mac, n)) == n
    decreases n
  {
    if n > 0 {
      AllProbesInProbes(c, (mac + 1) % c.totalMacs, n - 1);
    }
  }

  lemma DispatchAccounts(c: Config, sw: Sw, m: seq<byte>, now: Timeval)
    requires |m| >= HEADER && sw.probe >= 0
    ensures var sw' := Dispatch(c, sw, m, now);
            && 0 <= sw'.probe <= sw.probe
            && (IsResponse(m) ==> sw.probe <= sw'.probe + 1)
            && (!IsResponse(m) && Kind(m) != VENDOR ==> sw'.probe == sw.probe)
            && sw'.count == sw.count + if IsResponse(m) then 1 else 0
  {
  }

  /** What a list of messages does to the counters of a switch with at most one probe out. */
  lemma {:induction false} DispatchAllAccounts(c: Config, sw: Sw, ms: seq<seq<byte>>, now: Timeval)
    requires AllHeaded(ms) && 0 <= sw.probe
    ensures var sw' := DispatchAll(c, sw, ms, now);
            && 0 <= sw'.probe <= sw.probe
            && sw'.count == sw.count + CountResponses(ms)
            && (sw.probe <= 1 ==> sw.probe <= sw'.probe + CountResponses(ms) + CountVendors(ms))
    decreases |ms|
  {
    if ms != [] {
      DispatchAccounts(c, sw, ms[0], now);
      DispatchAllAccounts(c, Dispatch(c, sw, ms[0], now), ms[1..], now);
    }
  }

  /** The probe state is never negative; in latency mode it is a flag, and every probe sent is
      matched by a response, a vendor message, a reset, or is the one that is out. */
  ghost predicate ProbeInv(c: Config, w: World) {
    && AllHeaded(w.handled)
    && w.sw.probe >= 0
    && (c.mode == Latency ==>
          && w.sw.probe <= 1
          && CountProbes(w.sw.said) <= CountResponses(w.handled) + CountVendors(w.handled) + w.resets + w.sw.probe)
  }

  lemma ReadKeepsProbes(c: Config, w: World, a: Act, w': World)
    requires c.Valid() && a.Read? && Step(c, w, a, w') && ProbeInv(c, w)
    ensures ProbeInv(c, w')
  {
    var ms := Messages(w.sw.inb + a.chunk);
    HandleReadIs(c, w.sw, a.chunk, a.at);
    DispatchAllAccounts(c, w.sw, ms, a.at);
    CountsAppend(w.handled, ms);
    CountProbesAppend(w.sw.said, Replies(ms));
    NoProbesInReplies(ms);
  }

  lemma WriteKeepsProbes(c: Config, w: World, a: Act, w': World)
    requires c.Valid() && a.Write? && Step(c, w, a, w') && ProbeInv(c, w)
    ensures ProbeInv(c, w')
  {
    var n := Queued(c, w.sw, |w.outb|);
    PrepareAdds(c, w.sw, |w.outb|, a.at);
    CountProbesAppend(w.sw.said, Probes(c, w.sw.mac, n));
    AllProbesInProbes(c, w.sw.mac, n);
  }

  // ---------------------------------------------------------------- addresses cycle

  /** The k-th probe of a list carries address k modulo the configured number. */
  ghost predicate Numbered(c: Config, os: seq<Out>)
    requires c.Valid()
  {
    forall i | 0 <= i < |os| && os[i].Probe? :: os[i].mac == CountProbes(os[..i]) % c.totalMacs
  }

  /** mac is the address of the probe that comes next. */
  ghost predicate Cycling(c: Config, os: seq<Out>, mac: int)
    requires c.Valid()
  {
    mac == CountProbes(os) % c.totalMacs && Numbered(c, os)
  }

  ghost predicate MacInv(c: Config, w: World)
    requires c.Valid()
  {
    Cycling(c, w.sw.said, w.sw.mac)
  }

  lemma {:induction false} MacAfterIs(c: Config, mac: int, n: nat, k: int)
    requires c.Valid() && mac == k % c.totalMacs
    ensures MacAfter(c, mac, n) == (k + n) % c.totalMacs
    decreases n
  {
    if n > 0 {
      ModNext(k, c.totalMacs);
      MacAfterIs(c, (mac + 1) % c.totalMacs, n - 1, k + 1);
    }
  }

  lemma {:induction false} ProbeAt(c: Config, mac: int, n: nat, k: int, i: int)
    requires c.Valid() && mac == k % c.totalMacs && 0 <= i < n
    ensures Probes(c, mac, n)[i] == Probe((k + i) % c.totalMacs)
    decreases n
  {
    if i > 0 {
      var next := (mac + 1) % c.totalMacs;
      ModNext(k, c.totalMacs);
      ProbeAt(c, next, n - 1, k + 1, i - 1);
      assert Probes(c, mac, n)[i] == Probes(c, next, n - 1)[i - 1];
    }
  }

  lemma ProbesAreNumbered(c: Config, mac: int, n: nat, k: int)
    requires c.Valid() && mac == k % c.totalMacs
    ensures MacAfter(c, mac, n) == (k + n) % c.totalMacs
    ensures forall i | 0 <= i < n :: Probes(c, mac, n)[i] == Probe((k + i) % c.totalMacs)
  {
    MacAfterIs(c, mac, n, k);
    forall i | 0 <= i < n
      ensures Probes(c, mac, n)[i] == Probe((k + i) % c.totalMacs)
    {
      ProbeAt(c, mac, n, k, i);
    }
  }

  lemma {:induction false} CountProbesPrefix(c: Config, mac: int, n: nat, i: nat)
    requires c.Valid() && i <= n
    ensures CountProbes(Probes(c, mac, n)[..i]) == i
    decreases n
  {
    if i > 0 {
      var next := (mac + 1) % c.totalMacs;
      assert Probes(c, mac, n)[..i] == [Probe(mac)] + Probes(c, next, n - 1)[..i - 1];
      CountProbesPrefix(c, next, n - 1, i - 1);
    }
  }

  lemma RepliesStayNumbered(c: Config, os: seq<Out>, rs: seq<Out>)
    requires c.Valid() && Numbered(c, os)
    requires forall j | 0 <= j < |rs| :: !rs[j].Probe?
    ensures Numbered(c, os + rs)
  {
    forall i | 0 <= i < |os + rs| && (os + rs)[i].Probe?
      ensures (os + rs)[i].mac == CountProbes((os + rs)[..i]) % c.totalMacs
    {
      assert (os + rs)[..i] == os[..i];
    }
  }

  lemma ProbesStayNumbered(c: Config, os: seq<Out>, n: nat)
    requires c.Valid() && Numbered(c, os)
    ensures Numbered(c, os + Probes(c, CountProbes(os) % c.totalMacs, n))
  {
    var mac := CountProbes(os) % c.totalMacs;
    var ps := Probes(c, mac, n);
    forall i | 0 <= i < |os + ps| && (os + ps)[i].Probe?
      ensures (os + ps)[i].mac == CountProbes((os + ps)[..i]) % c.totalMacs
    {
      if i < |os| {
        assert (os + ps)[..i] == os[..i];
      } else {
        var j := i - |os|;
        assert (os + ps)[..i] == os + ps[..j];
        CountProbesAppend(os, ps[..j]);
        CountProbesPrefix(c, mac, n, j);
        ProbesAreNumbered(c, mac, n, CountProbes(os));
      }
    }
  }

  lemma RepliesKeepCycling(c: Config, os: seq<Out>, mac: int, ms: seq<seq<byte>>)
    requires c.Valid() && Cycling(c, os, mac) && AllHeaded(ms)
    ensures Cycling(c, os + Replies(ms), mac)
  {
    CountProbesAppend(os, Replies(ms));
    NoProbesInReplies(ms);
    RepliesAreNoProbes(ms);
    RepliesStayNumbered(c, os, Replies(ms));
  }

  lemma ProbesKeepCycling(c: Config, os: seq<Out>, mac: int, n: nat)
    requires c.Valid() && Cycling(c, os, mac)
    ensures Cycling(c, os + Probes(c, mac, n), MacAfter(c, mac, n))
  {
    CountProbesAppend(os, Probes(c, mac, n));
    AllProbesInProbes(c, mac, n);
    ProbesAreNumbered(c, mac, n, CountProbes(os));
    ProbesStayNumbered(c, os, n);
  }

  lemma {:induction false} DispatchAllKeepsMac(c: Config, sw: Sw, ms: seq<seq<byte>>, now: Timeval)
    requires AllHeaded(ms)
    ensures DispatchAll(c, sw, ms, now).mac == sw.mac
    decreases |ms|
  {
    if ms != [] {
      DispatchAllKeepsMac(c, Dispatch(c, sw, ms[0], now), ms[1..], now);
    }
  }

  lemma ReadKeepsMacs(c: Config, w: World, a: Act, w': World)
    requires c.Valid() && a.Read? && Step(c, w, a, w') && MacInv(c, w)
    ensures MacInv(c, w')
  {
    var ms := Messages(w.sw.inb + a.chunk);
    HandleReadIs(c, w.sw, a.chunk, a.at);
    DispatchAllKeepsMac(c, w.sw, ms, a.at);
    RepliesKeepCycling(c, w.sw.said, w.sw.mac, ms);
  }

  lemma WriteKeepsMacs(c: Config, w: World, a: Act, w': World)
    requires c.Valid() && a.Write? && Step(c, w, a, w') && MacInv(c, w)
    ensures MacInv(c, w')
  {
    PrepareAdds(c, w.sw, |w.outb|, a.at);
    ProbesKeepCycling(c, w.sw.said, w.sw.mac, Queued(c, w.sw, |w.outb|));
  }

  // ---------------------------------------------------------------- input framing

  /** Until the first reset, the messages dispatched are those of everything read, and what is
      buffered is the beginning of one more. */
  ghost predicate InputInv(w: World) {
    w.resets == 0 ==>
      && Steady(w.fed)
      && w.handled == Messages(w.fed)
      && w.sw.inb == Rest(w.fed)
  }

  lemma StepKeepsInput(c: Config, w: World, a: Act, w': World)
    requires c.Valid() && Step(c, w, a, w') && InputInv(w)
    ensures InputInv(w')
  {
    if a.Read? && w.resets == 0 {
      HandleReadIs(c, w.sw, a.chunk, a.at);
      CutAnywhere(w.fed, a.chunk);
    } else if a.Write? {
      PrepareAdds(c, w.sw, |w.outb|, a.at);
    }
  }

  /** What is buffered starts at a message boundary of everything read. */
  ghost predicate BoundaryInv(w: World) {
    Boundary(w.all, w.sw.inb)
  }

  lemma {:induction false} RestIsBoundary(s: seq<byte>)
    requires Steady(s)
    ensures Boundary(s, Rest(s))
    decreases |s|
  {
    if Complete(s) {
      RestIsBoundary(s[Length(s)..]);
    }
  }

  lemma ReadKeepsBoundary(all: seq<byte>, inb: seq<byte>, x: seq<byte>)
    requires Boundary(all, inb) && Steady(inb + x)
    ensures Boundary(all + x, Rest(inb + x))
  {
    BoundaryExtends(all, inb, x);
    RestIsBoundary(inb + x);
    BoundaryTrans(all + x, inb + x, Rest(inb + x));
  }

  lemma DropKeepsBoundary(all: seq<byte>, inb: seq<byte>, x: seq<byte>)
    requires Boundary(all, inb) && Droppable(inb + x, |x|)
    ensures Boundary(all + x, DropWhole(inb + x, |x|))
  {
    BoundaryExtends(all, inb, x);
    DropWholeKeepsBoundary(inb + x, |x|);
    BoundaryTrans(all + x, inb + x, DropWhole(inb + x, |x|));
  }

  lemma StepKeepsBoundary(c: Config, w: World, a: Act, w': World)
    requires c.Valid() && Step(c, w, a, w') && BoundaryInv(w)
    ensures BoundaryInv(w')
  {
    match a
    case Read(chunk, now) =>
      HandleReadIs(c, w.sw, chunk, now);
      ReadKeepsBoundary(w.all, w.sw.inb, chunk);
    case Write(_, now) => PrepareAdds(c, w.sw, |w.outb|, now);
    case Reset =>
    case Drop(chunk) => DropKeepsBoundary(w.all, w.sw.inb, chunk);
  }

  /** In every run, resets included, the buffered input is everything read without some of its first
      messages, each taken out whole. */
  lemma {:induction false} FramingNeverBreaks(c: Config, ws: seq<World>, acts: seq<Act>)
    requires c.Valid() && Run(c, ws, acts)
    ensures Boundary(ws[|acts|].all, ws[|acts|].sw.inb)
    decreases |acts|
  {
    if acts != [] {
      RunPrefix(c, ws, acts);
      FramingNeverBreaks(c, ws[..|acts|], acts[..|acts| - 1]);
      StepKeepsBoundary(c, ws[|acts| - 1], acts[|acts| - 1], ws[|acts|]);
    }
  }

  // ---------------------------------------------------------------- every run

  ghost predicate Inv(c: Config, w: World)
    requires c.Valid()
  {
    WireInv(c, w) && ReplyInv(w) && ReadyInv(w) && ProbeInv(c, w) && MacInv(c, w) && InputInv(w)
  }

  lemma BootInv(c: Config)
    requires c.Valid()
    ensures Inv(c, Boot(c))
  {
    WireOne(c.id, Hello);
    assert [] + Encode(c.id, Hello) == Encode(c.id, Hello);
    assert Replies([]) == [] && [Hello][1..] == [];
    ModOf(0, c.totalMacs, 0, 0);
  }

  lemma ReadKeepsInv(c: Config, w: World, a: Act, w': World)
    requires c.Valid() && a.Read? && Step(c, w, a, w') && Inv(c, w)
    ensures Inv(c, w')
  {
    HandleReadIs(c, w.sw, a.chunk, a.at);
    FlowsKeepsWire(c, w, 0, w');
    ReadKeepsReplies(c, w, a, w');
    ReadKeepsReady(c, w, a, w');
    ReadKeepsProbes(c, w, a, w');
    ReadKeepsMacs(c, w, a, w');
    StepKeepsInput(c, w, a, w');
  }

  lemma WriteKeepsInv(c: Config, w: World, a: Act, w': World)
    requires c.Valid() && a.Write? && Step(c, w, a, w') && Inv(c, w)
    ensures Inv(c, w')
  {
    PrepareAdds(c, w.sw, |w.outb|, a.at);
    FlowsKeepsWire(c, w, a.accepted, w');
    WriteKeepsReplies(c, w, a, w');
    WriteKeepsReady(c, w, a, w');
    WriteKeepsProbes(c, w, a, w');
    WriteKeepsMacs(c, w, a, w');
    StepKeepsInput(c, w, a, w');
  }

  lemma StepKeepsInv(c: Config, w: World, a: Act, w': World)
    requires c.Valid() && Step(c, w, a, w') && Inv(c, w)
    ensures Inv(c, w')
  {
    match a {
      case Read(_, _) => ReadKeepsInv(c, w, a, w');
      case Write(_, _) => WriteKeepsInv(c, w, a, w');
      case Reset =>
      case Drop(_) =>
    }
  }

  lemma {:induction false} RunKeepsInv(c: Config, ws: seq<World>, acts: seq<Act>)
    requires c.Valid() && Run(c, ws, acts)
    ensures Inv(c, ws[|acts|])
    decreases |acts|
  {
    if acts == [] {
      BootInv(c);
    } else {
      RunPrefix(c, ws, acts);
      RunKeepsInv(c, ws[..|acts|], acts[..|acts| - 1]);
      StepKeepsInv(c, ws[|acts| - 1], acts[|acts| - 1], ws[|acts|]);
    }
  }

  /** The bytes of a list of messages are cut back into messages of the right kinds. */
  lemma WireKinds(id: int, os: seq<Out>)
    ensures Steady(Wire(id, os)) && Rest(Wire(id, os)) == []
    ensures |Messages(Wire(id, os))| == |os|
    ensures forall i | 0 <= i < |os| ::
              Exact(Messages(Wire(id, os))[i]) && Kind(Messages(Wire(id, os))[i]) == KindOf(os[i])
  {
    WireIsCutBack(id, os);
    forall i | 0 <= i < |os|
      ensures Exact(Encodings(id, os)[i]) && Kind(Encodings(id, os)[i]) == KindOf(os[i])
    {
      EncodeExact(id, os[i]);
    }
  }

  /** In every run the bytes written and still buffered are cut into whole messages with nothing
      left over: a HELLO first, each as long as its length field says. */
  lemma OutputIsWellFramed(c: Config, ws: seq<World>, acts: seq<Act>)
    requires c.Valid() && Run(c, ws, acts)
    ensures var w := ws[|acts|];
            var out := w.written + w.outb;
            && Steady(out) && Rest(out) == []
            && (forall m | m in Messages(out) :: Exact(m))
            && Messages(out) != [] && Kind(Messages(out)[0]) == HELLO
  {
    RunKeepsInv(c, ws, acts);
    WireKinds(c.id, ws[|acts|].sw.said);
  }

  /** In every run, no packet-in precedes the first features reply on the wire. */
  lemma NoProbeBeforeFeatures(c: Config, ws: seq<World>, acts: seq<Act>, i: int)
    requires c.Valid() && Run(c, ws, acts)
    requires var out := ws[|acts|].written + ws[|acts|].outb;
             Steady(out) && 0 <= i < |Messages(out)| && Exact(Messages(out)[i]) && Kind(Messages(out)[i]) == PACKET_IN
    ensures var out := ws[|acts|].written + ws[|acts|].outb;
            exists j | 0 <= j < i :: Exact(Messages(out)[j]) && Kind(Messages(out)[j]) == FEATURES_REPLY
  {
    RunKeepsInv(c, ws, acts);
    var w := ws[|acts|];
    WireKinds(c.id, w.sw.said);
    assert w.sw.said[i].Probe?;
    var j :| 0 <= j < i && w.sw.said[j].FeaturesReply?;
    assert Kind(Messages(w.written + w.outb)[j]) == FEATURES_REPLY;
  }

  function CountPacketIns(ms: seq<seq<byte>>): nat
    requires AllHeaded(ms)
  {
    if ms == [] then 0 else CountPacketIns(ms[1..]) + if Kind(ms[0]) == PACKET_IN then 1 else 0
  }

  lemma {:induction false} PacketInsAreProbes(id: int, os: seq<Out>)
    ensures AllHeaded(Encodings(id, os)) && CountPacketIns(Encodings(id, os)) == CountProbes(os)
  {
    if os != [] {
      var o, rest := os[0], os[1..];
      assert os == [o] + rest;
      PacketInsAreProbes(id, rest);
      PacketInStep(id, o, rest);
    }
  }

  lemma PacketInStep(id: int, o: Out, rest: seq<Out>)
    requires AllHeaded(Encodings(id, rest)) && CountPacketIns(Encodings(id, rest)) == CountProbes(rest)
    ensures AllHeaded(Encodings(id, [o] + rest))
    ensures CountPacketIns(Encodings(id, [o] + rest)) == CountProbes([o] + rest)
  {
    EncodingsFirst(id, o, rest);
    OneMorePacketIn(id, o, Encodings(id, rest));
    assert ([o] + rest)[1..] == rest;
  }

  lemma OneMorePacketIn(id: int, o: Out, ms: seq<seq<byte>>)
    requires AllHeaded(ms)
    ensures AllHeaded([Encode(id, o)] + ms)
    ensures CountPacketIns([Encode(id, o)] + ms) == CountPacketIns(ms) + if o.Probe? then 1 else 0
  {
    EncodeExact(id, o);
    DropFirst(Encode(id, o), ms);
  }

  /** In every run, read off the wire: a packet-in with n packet-ins before it carries n, modulo the number
      of addresses, in its source address. */
  lemma WireProbeAddresses(c: Config, ws: seq<World>, acts: seq<Act>, i: int)
    requires c.Valid() && Run(c, ws, acts)
    requires var out := ws[|acts|].written + ws[|acts|].outb;
             Steady(out) && 0 <= i < |Messages(out)| && Exact(Messages(out)[i]) && Kind(Messages(out)[i]) == PACKET_IN
    ensures var ms := Messages(ws[|acts|].written + ws[|acts|].outb);
            && AllHeaded(ms[..i]) && |ms[i]| == 82
            && GetHost32(ms[i], 25) == CountPacketIns(ms[..i]) % c.totalMacs % 0x1_0000_0000
  {
    RunKeepsInv(c, ws, acts);
    var said := ws[|acts|].sw.said;
    WireKinds(c.id, said);
    assert said[i].Probe?;
    ProbeAddressesCycle(c, ws, acts, i);
    ProbeInWire(c.id, said, i);
  }

  lemma ProbeInWire(id: int, os: seq<Out>, i: int)
    requires 0 <= i < |os| && os[i].Probe?
    ensures Steady(Wire(id, os)) && i < |Messages(Wire(id, os))|
    ensures var ms := Messages(Wire(id, os));
            && |ms[i]| == 82 && GetHost32(ms[i], 25) == os[i].mac % 0x1_0000_0000
            && AllHeaded(ms[..i]) && CountPacketIns(ms[..i]) == CountProbes(os[..i])
  {
    WireIsCutBack(id, os);
    ProbeOnWire(id, os[i].mac);
    PacketInsAreProbes(id, os[..i]);
    EncodingsPrefix(id, os, i);
  }

  lemma EncodingsPrefix(id: int, os: seq<Out>, i: int)
    requires 0 <= i <= |os|
    ensures Encodings(id, os)[..i] == Encodings(id, os[..i])
  {
    var a, b := Encodings(id, os)[..i], Encodings(id, os[..i]);
    forall k | 0 <= k < i ensures a[k] == b[k] { assert os[..i][k] == os[k]; }
  }

  lemma ProbeOnWire(id: int, mac: int)
    ensures |Encode(id, Probe(mac))| == 82 && GetHost32(Encode(id, Probe(mac)), 25) == mac % 0x1_0000_0000
  {
    ProbeBytes(id, mac);
  }

  /** The messages that are not packet-ins. */
  function Spoken(ms: seq<seq<byte>>): seq<seq<byte>>
    requires AllHeaded(ms)
  {
    if ms == [] then [] else (if Kind(ms[0]) == PACKET_IN then [] else [ms[0]]) + Spoken(ms[1..])
  }

  function Requests(ms: seq<seq<byte>>): seq<seq<byte>>
    requires AllHeaded(ms)
  {
    if ms == [] then [] else (if IsRequest(ms[0]) then [ms[0]] else []) + Requests(ms[1..])
  }

  /** reply is the answer the protocol expects to request, with the same transaction id. */
  predicate Answers(request: seq<byte>, reply: seq<byte>) {
    && |request| >= HEADER && Exact(reply)
    && Xid(reply) == Xid(request)
    && if Kind(request) == FEATURES_REQUEST then Kind(reply) == FEATURES_REPLY
       else if Kind(request) == VENDOR then
         && Kind(reply) == ERROR && |reply| == ERROR_SIZE
         && Get16(reply, 8) == BAD_REQUEST && Get16(reply, 10) == BAD_VENDOR
       else Kind(request) == ECHO_REQUEST && Kind(reply) == ECHO_REPLY
  }

  lemma VendorErrorFields(xid: Xid4)
    ensures var m := MakeVendorReply(xid); Get16(m, 8) == BAD_REQUEST && Get16(m, 10) == BAD_VENDOR
  {
  }

  lemma ReplyAnswers(id: int, m: seq<byte>)
    requires |m| >= HEADER && IsRequest(m)
    ensures |ReplyTo(m)| == 1 && Answers(m, Encode(id, ReplyTo(m)[0]))
  {
    EncodeExact(id, ReplyTo(m)[0]);
    VendorErrorFields(Xid(m));
  }

  lemma EncodingsFirst(id: int, o: Out, os: seq<Out>)
    ensures Encodings(id, [o] + os) == [Encode(id, o)] + Encodings(id, os)
  {
  }

  lemma {:induction false} RepliesAnswer(id: int, ms: seq<seq<byte>>)
    requires AllHeaded(ms)
    ensures AllAnswered(Requests(ms), Encodings(id, Replies(ms)))
  {
    if ms != [] {
      RepliesAnswer(id, ms[1..]);
      if IsRequest(ms[0]) {
        ReplyAnswersFirst(id, ms[0], Requests(ms[1..]), Replies(ms[1..]));
      } else {
        NoReplyOwed(ms);
      }
    }
  }

  lemma NoReplyOwed(ms: seq<seq<byte>>)
    requires AllHeaded(ms) && ms != [] && !IsRequest(ms[0])
    ensures Requests(ms) == Requests(ms[1..]) && Replies(ms) == Replies(ms[1..])
  {
    assert ReplyTo(ms[0]) == [];
  }

  lemma ReplyAnswersFirst(id: int, m: seq<byte>, asked: seq<seq<byte>>, os: seq<Out>)
    requires |m| >= HEADER && IsRequest(m) && AllAnswered(asked, Encodings(id, os))
    ensures AllAnswered([m] + asked, Encodings(id, ReplyTo(m) + os))
  {
    ReplyAnswers(id, m);
    var o := ReplyTo(m)[0];
    assert ReplyTo(m) == [o];
    EncodingsFirst(id, o, os);
    AnswersFirst(m, Encode(id, o), asked, Encodings(id, os));
  }

  predicate AllAnswered(asked: seq<seq<byte>>, said: seq<seq<byte>>) {
    |said| == |asked| && forall i | 0 <= i < |asked| :: Answers(asked[i], said[i])
  }

  lemma AnswersFirst(request: seq<byte>, reply: seq<byte>, asked: seq<seq<byte>>, said: seq<seq<byte>>)
    requires Answers(request, reply) && AllAnswered(asked, said)
    ensures AllAnswered([request] + asked, [reply] + said)
  {
  }

  lemma SpokenFirst(m: seq<byte>, ms: seq<seq<byte>>)
    requires |m| >= HEADER && AllHeaded(ms)
    ensures AllHeaded([m] + ms)
    ensures Spoken([m] + ms) == if Kind(m) == PACKET_IN then Spoken(ms) else [m] + Spoken(ms)
  {
    assert ([m] + ms)[1..] == ms;
  }

  lemma FilterFirst(o: Out, os: seq<Out>)
    ensures Filter([o] + os) == if o.Probe? then Filter(os) else [o] + Filter(os)
  {
    assert ([o] + os)[1..] == os;
  }

  lemma SpokenStep(id: int, o: Out, os: seq<Out>)
    requires AllHeaded(Encodings(id, os)) && Spoken(Encodings(id, os)) == Encodings(id, Filter(os))
    ensures AllHeaded(Encodings(id, [o] + os))
    ensures Spoken(Encodings(id, [o] + os)) == Encodings(id, Filter([o] + os))
  {
    EncodeExact(id, o);
    EncodingsFirst(id, o, os);
    SpokenFirst(Encode(id, o), Encodings(id, os));
    FilterFirst(o, os);
    EncodingsFirst(id, o, Filter(os));
  }

  lemma {:induction false} SpokenIsFiltered(id: int, os: seq<Out>)
    ensures AllHeaded(Encodings(id, os))
    ensures Spoken(Encodings(id, os)) == Encodings(id, Filter(os))
  {
    if os != [] {
      var o, rest := os[0], os[1..];
      assert os == [o] + rest;
      SpokenIsFiltered(id, rest);
      SpokenStep(id, o, rest);
    }
  }

  /** In every run, what the switch says besides probes is its HELLO and then exactly one answer
      to each features request, vendor message and echo request, in order, with the same
      transaction id. */
  lemma RepliesMatchRequests(c: Config, ws: seq<World>, acts: seq<Act>)
    requires c.Valid() && Run(c, ws, acts)
    ensures var w := ws[|acts|];
            var out := w.written + w.outb;
            && Steady(out) && AllHeaded(Messages(out)) && AllHeaded(w.handled)
            && var said := Spoken(Messages(out));
               said != [] && said[0] == Encode(c.id, Hello) && AllAnswered(Requests(w.handled), said[1..])
  {
    RunKeepsInv(c, ws, acts);
    var w := ws[|acts|];
    WireIsCutBack(c.id, w.sw.said);
    SpokenIsFiltered(c.id, w.sw.said);
    RepliesAnswer(c.id, w.handled);
    EncodingsFirst(c.id, Hello, Replies(w.handled));
    DropFirst(Encode(c.id, Hello), Encodings(c.id, Replies(w.handled)));
  }

  lemma DropFirst(m: seq<byte>, ms: seq<seq<byte>>)
    ensures ([m] + ms)[1..] == ms
  {
  }

  /** In every latency-mode run the probe state is 0 or 1, and the probes sent never outnumber the
      responses, vendor messages and resets by more than the one that is out. */
  lemma LatencyHasOneProbeOut(c: Config, ws: seq<World>, acts: seq<Act>)
    requires c.Valid() && Run(c, ws, acts) && c.mode == Latency
    ensures var w := ws[|acts|];
            && 0 <= w.sw.probe <= 1
            && AllHeaded(w.handled)
            && CountProbes(w.sw.said) <= CountResponses(w.handled) + CountVendors(w.handled) + w.resets + w.sw.probe
  {
    RunKeepsInv(c, ws, acts);
  }

  /** A write that puts a probe out. */
  predicate QueuesProbe(ws: seq<World>, acts: seq<Act>, i: int)
    requires |ws| == |acts| + 1 && 0 <= i < |acts|
  {
    acts[i].Write? && CountProbes(ws[i + 1].sw.said) > CountProbes(ws[i].sw.said)
  }

  /** A reset, or a read that handled a response or a vendor message. */
  predicate Frees(ws: seq<World>, acts: seq<Act>, k: int)
    requires |ws| == |acts| + 1 && 0 <= k < |acts|
  {
    || acts[k].Reset?
    || (&& acts[k].Read? && AllHeaded(ws[k].handled) && AllHeaded(ws[k + 1].handled)
        && CountResponses(ws[k + 1].handled) + CountVendors(ws[k + 1].handled)
           > CountResponses(ws[k].handled) + CountVendors(ws[k].handled))
  }

  lemma RunUpTo(c: Config, ws: seq<World>, acts: seq<Act>, k: int)
    requires c.Valid() && Run(c, ws, acts) && 0 <= k <= |acts|
    ensures Run(c, ws[..k + 1], acts[..k])
  {
    var vs, bs := ws[..k + 1], acts[..k];
    forall i | 0 <= i < k
      ensures StepAt(c, vs, bs, i)
    {
      assert StepAt(c, ws, acts, i);
    }
  }

  lemma InvAt(c: Config, ws: seq<World>, acts: seq<Act>, k: int)
    requires c.Valid() && Run(c, ws, acts) && 0 <= k <= |acts|
    ensures Inv(c, ws[k])
  {
    RunUpTo(c, ws, acts, k);
    RunKeepsInv(c, ws[..k + 1], acts[..k]);
  }

  /** A write in latency mode puts out a probe only from probe state 0, and leaves it at 1. */
  lemma ProbeTakesTheSlot(c: Config, ws: seq<World>, acts: seq<Act>, i: int)
    requires c.Valid() && Run(c, ws, acts) && c.mode == Latency && 0 <= i < |acts| && QueuesProbe(ws, acts, i)
    ensures ws[i].sw.probe == 0 && ws[i + 1].sw.probe == 1
  {
    assert StepAt(c, ws, acts, i);
    var sw := ws[i].sw;
    var n := Queued(c, sw, |ws[i].outb|);
    PrepareAdds(c, sw, |ws[i].outb|, acts[i].at);
    CountProbesAppend(sw.said, Probes(c, sw.mac, n));
    AllProbesInProbes(c, sw.mac, n);
  }

  /** In every latency-mode run a write puts a probe out exactly when the switch is ready and none is out,
      and then exactly one, with the next address. */
  lemma LatencySendsIff(c: Config, ws: seq<World>, acts: seq<Act>, i: int)
    requires c.Valid() && Run(c, ws, acts) && c.mode == Latency && 0 <= i < |acts|
    ensures QueuesProbe(ws, acts, i) <==> acts[i].Write? && ws[i].sw.ready == 1 && ws[i].sw.probe == 0
    ensures QueuesProbe(ws, acts, i) ==> ws[i + 1].sw.said == ws[i].sw.said + [Probe(ws[i].sw.mac)]
  {
    assert StepAt(c, ws, acts, i);
    if acts[i].Write? {
      var sw, n := ws[i].sw, Queued(c, ws[i].sw, |ws[i].outb|);
      PrepareAdds(c, sw, |ws[i].outb|, acts[i].at);
      CountProbesAppend(sw.said, Probes(c, sw.mac, n));
      AllProbesInProbes(c, sw.mac, n);
      assert n <= 1;
      assert Probes(c, (sw.mac + 1) % c.totalMacs, 0) == [];
      assert sw.said + [] == sw.said;
    }
  }

  /** A reset clears the count and the probe state, so the next write of a ready switch in latency mode puts a
      probe out whatever was outstanding. */
  lemma ResetRestarts(c: Config, ws: seq<World>, acts: seq<Act>, i: int)
    requires c.Valid() && Run(c, ws, acts) && c.mode == Latency && 0 <= i && i + 1 < |acts|
    requires acts[i].Reset? && acts[i + 1].Write? && ws[i].sw.ready == 1
    ensures ws[i + 1].sw.count == 0 && QueuesProbe(ws, acts, i + 1)
  {
    assert StepAt(c, ws, acts, i);
    LatencySendsIff(c, ws, acts, i + 1);
  }

  lemma StepCounts(c: Config, w: World, a: Act, w': World)
    requires c.Valid() && Inv(c, w) && Step(c, w, a, w') && !a.Reset?
    ensures AllHeaded(w.handled) && AllHeaded(w'.handled)
    ensures w'.sw.count - w.sw.count == CountResponses(w'.handled) - CountResponses(w.handled)
  {
    match a
    case Read(chunk, now) =>
      HandleReadIs(c, w.sw, chunk, now);
      var ms := Messages(w.sw.inb + chunk);
      DispatchAllAccounts(c, w.sw, ms, now);
      CountsAppend(w.handled, ms);
    case Write(_, now) => PrepareAdds(c, w.sw, |w.outb|, now);
    case Drop(_) =>
    case Reset =>
  }

  /** In every run, in both modes, the count grows between resets by exactly the responses handled. */
  lemma {:induction false} CountsResponses(c: Config, ws: seq<World>, acts: seq<Act>, i: int, j: int)
    requires c.Valid() && Run(c, ws, acts) && 0 <= i <= j <= |acts|
    requires forall k | i <= k < j :: !acts[k].Reset?
    ensures AllHeaded(ws[i].handled) && AllHeaded(ws[j].handled)
    ensures ws[j].sw.count - ws[i].sw.count == CountResponses(ws[j].handled) - CountResponses(ws[i].handled)
    decreases j
  {
    if i < j {
      CountsResponses(c, ws, acts, i, j - 1);
      RunStepCounts(c, ws, acts, j - 1);
    } else {
      HandledHeaded(c, ws, acts, i);
    }
  }

  lemma HandledHeaded(c: Config, ws: seq<World>, acts: seq<Act>, k: int)
    requires c.Valid() && Run(c, ws, acts) && 0 <= k <= |acts|
    ensures AllHeaded(ws[k].handled)
  {
    InvAt(c, ws, acts, k);
  }

  lemma RunStepCounts(c: Config, ws: seq<World>, acts: seq<Act>, k: int)
    requires c.Valid() && Run(c, ws, acts) && 0 <= k < |acts| && !acts[k].Reset?
    ensures AllHeaded(ws[k].handled) && AllHeaded(ws[k + 1].handled)
    ensures ws[k + 1].sw.count - ws[k].sw.count == CountResponses(ws[k + 1].handled) - CountResponses(ws[k].handled)
  {
    InvAt(c, ws, acts, k);
    assert StepAt(c, ws, acts, k);
    StepCounts(c, ws[k], acts[k], ws[k + 1]);
  }

  /** A step that takes the probe state from 1 to 0 frees the slot. */
  lemma SlotIsFreed(c: Config, ws: seq<World>, acts: seq<Act>, k: int)
    requires c.Valid() && Run(c, ws, acts) && c.mode == Latency && 0 <= k < |acts|
    requires ws[k].sw.probe == 1 && ws[k + 1].sw.probe == 0
    ensures Frees(ws, acts, k)
  {
    InvAt(c, ws, acts, k);
    assert StepAt(c, ws, acts, k);
    var w, sw := ws[k], ws[k].sw;
    match acts[k]
    case Reset =>
    case Drop(_) =>
    case Write(_, now) => PrepareAdds(c, sw, |w.outb|, now);
    case Read(chunk, now) =>
      HandleReadIs(c, sw, chunk, now);
      var ms := Messages(sw.inb + chunk);
      DispatchAllAccounts(c, sw, ms, now);
      CountsAppend(w.handled, ms);
  }

  lemma ProbeIsBit(c: Config, ws: seq<World>, acts: seq<Act>, k: int)
    requires c.Valid() && Run(c, ws, acts) && c.mode == Latency && 0 <= k <= |acts|
    ensures ws[k].sw.probe == 0 || ws[k].sw.probe == 1
  {
    InvAt(c, ws, acts, k);
  }

  lemma {:induction false} SlotFreedBetween(c: Config, ws: seq<World>, acts: seq<Act>, i: int, j: int) returns (k: int)
    requires c.Valid() && Run(c, ws, acts) && c.mode == Latency && 0 <= i < j <= |acts|
    requires ws[i].sw.probe == 1 && ws[j].sw.probe == 0
    ensures i <= k < j && Frees(ws, acts, k)
    decreases j - i
  {
    ProbeIsBit(c, ws, acts, i + 1);
    if ws[i + 1].sw.probe == 0 {
      SlotIsFreed(c, ws, acts, i);
      k := i;
    } else {
      k := SlotFreedBetween(c, ws, acts, i + 1, j);
    }
  }

  /** In every latency-mode run there is, between any two writes that put a probe out, a reset or a
      read that handled a response or a vendor message. */
  lemma ProbesAlternate(c: Config, ws: seq<World>, acts: seq<Act>, i: int, j: int) returns (k: int)
    requires c.Valid() && Run(c, ws, acts) && c.mode == Latency && 0 <= i < j < |acts|
    requires QueuesProbe(ws, acts, i) && QueuesProbe(ws, acts, j)
    ensures i < k < j && Frees(ws, acts, k)
  {
    ProbeTakesTheSlot(c, ws, acts, i);
    ProbeTakesTheSlot(c, ws, acts, j);
    k := SlotFreedBetween(c, ws, acts, i + 1, j);
  }

  /** In every run without a reset, the messages handled are those of the whole input stream,
      however it was cut into reads and whatever was written in between. */
  lemma InputIsCutWhole(c: Config, ws: seq<World>, acts: seq<Act>)
    requires c.Valid() && Run(c, ws, acts) && ws[|acts|].resets == 0
    ensures var w := ws[|acts|];
            && Steady(w.fed) && w.handled == Messages(w.fed)
            && w.sw.inb == Rest(w.fed) && !Complete(w.sw.inb)
  {
    RunKeepsInv(c, ws, acts);
  }

  /** In every run the k-th probe carries source address k modulo the configured number. */
  lemma ProbeAddressesCycle(c: Config, ws: seq<World>, acts: seq<Act>, i: int)
    requires c.Valid() && Run(c, ws, acts)
    requires 0 <= i < |ws[|acts|].sw.said| && ws[|acts|].sw.said[i].Probe?
    ensures ws[|acts|].sw.said[i].mac == CountProbes(ws[|acts|].sw.said[..i]) % c.totalMacs
  {
    RunKeepsInv(c, ws, acts);
  }
}
