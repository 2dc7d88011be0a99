/** traffic_generator.c: the loop of start_user_traffic_generator with the frames it sends. */
module Sending {
  import opened Bytes
  import opened Time
  import opened Packets
  import opened Extractor
  import opened Scheduler

  /** The frame that a transmission of the log puts on the wire. */
  function FrameOf(det: Det, e: Served): seq<byte>
    requires det.Valid() && det.HoldsHeaders()
  {
    Concat(Dressed(det, DestAfter(det, e.n + 1), Put32(e.n % U32), Put32(e.at.sec), Put32(e.at.usec)))
  }

  predicate Fits(p: Plan, dets: seq<Det>) {
    && p.Valid() && |dets| == |p.delay|
    && forall j | 0 <= j < |dets| :: dets[j].Valid() && dets[j].HoldsHeaders() && dets[j].delay == p.delay[j]
  }

  /** wire gives the frame of every transmission. */
  ghost predicate Frames(dets: seq<Det>, wire: Served -> seq<byte>) {
    && (forall j | 0 <= j < |dets| :: dets[j].Valid() && dets[j].HoldsHeaders())
    && forall e: Served {:trigger FrameOf(dets[e.stream], e)} | 0 <= e.stream < |dets| ::
         wire(e) == FrameOf(dets[e.stream], e)
  }

  /** The bytes sent are the frames of the log. */
  ghost predicate AllSent(wire: Served -> seq<byte>, log: seq<Served>, sent: seq<seq<byte>>) {
    |sent| == |log| && forall i | 0 <= i < |log| :: sent[i] == wire(log[i])
  }

  /** The extractor finds in b the sequence number n modulo 2^32, the time and the address that follows
      after n frames. */
  predicate CarriesFrame(det: Det, b: seq<byte>, n: nat, at: Timeval, port: int, channels: int) {
    && Readable(b)
    && Extract(b, port, channels)
       == Some(Expected(det, (det.dstMin + (n + 1) % Flows(det)) % U32, n % U32, at.sec, at.usec))
  }

  lemma FrameCarries(det: Det, e: Served, port: int, channels: int)
    requires det.Valid() && det.HoldsHeaders() && 0 <= port < channels
    ensures CarriesFrame(det, FrameOf(det, e), e.n, e.at, port, channels)
  {
    var dest := DestAfter(det, e.n + 1);
    DestIs(det, e.n + 1, Flows(det));
    ExtractFindsFields(det, dest, e.n % U32, e.at.sec, e.at.usec, port, channels);
    assert FrameOf(det, e) == Concat(Dressed(det, dest, Put32(e.n % U32), Put32(e.at.sec), Put32(e.at.usec)));
  }

  /** The schedule and what has left so far. */
  datatype World = World(state: State, sent: seq<seq<byte>>)

  predicate Sized(p: Plan, s: State) {
    |s.stamps| == |s.seqs| == |p.delay|
  }

  /** A turn that serves stream k: the schedule moves on and its frame leaves. */
  ghost predicate ServesFrame(p: Plan, wire: Served -> seq<byte>, w: World, k: int, now: Timeval, w': World)
    requires p.Valid() && Sized(p, w.state)
  {
    && 0 <= k < |p.delay| && w'.state == Serve(p, w.state, k, now)
    && w'.sent == w.sent + [wire(Served(k, w.state.seqs[k], w.state.stamps[k], now))]
  }

  /** One turn of the loop, with the frame of the stream that it serves. */
  ghost predicate SendStep(p: Plan, wire: Served -> seq<byte>, w: World, now: Timeval, w': World)
    requires p.Valid() && Sized(p, w.state)
  {
    && Step(p, w.state, now, w'.state)
    && (w' == w || exists k :: ServesFrame(p, wire, w, k, now, w'))
  }

  ghost predicate SendRun(p: Plan, wire: Served -> seq<byte>, ws: seq<World>, clock: seq<Timeval>)
    requires p.Valid()
  {
    && |ws| == |clock| + 1
    && ws[0] == World(Start(p), [])
    && (forall i | 0 <= i < |ws| :: Sized(p, ws[i].state))
    && forall i | 0 <= i < |clock| :: SendStep(p, wire, ws[i], clock[i], ws[i + 1])
  }

  function States(ws: seq<World>): (s: seq<State>)
    ensures |s| == |ws| && forall i | 0 <= i < |ws| :: s[i] == ws[i].state
  {
    seq(|ws|, i requires 0 <= i < |ws| => ws[i].state)
  }

  lemma RunOfSends(p: Plan, wire: Served -> seq<byte>, ws: seq<World>, clock: seq<Timeval>)
    requires p.Valid() && SendRun(p, wire, ws, clock)
    ensures Run(p, States(ws), clock)
  {
    forall i | 0 <= i < |clock|
      ensures Step(p, States(ws)[i], clock[i], States(ws)[i + 1])
    {
      assert SendStep(p, wire, ws[i], clock[i], ws[i + 1]);
    }
  }

  lemma SendKeeps(p: Plan, wire: Served -> seq<byte>, w: World, now: Timeval, w': World)
    requires p.Valid() && Sized(p, w.state) && SendStep(p, wire, w, now, w') && AllSent(wire, w.state.log, w.sent)
    ensures AllSent(wire, w'.state.log, w'.sent)
  {
    if w' != w {
      var k :| ServesFrame(p, wire, w, k, now, w');
    }
  }

  lemma {:induction false} RunSendsAll(p: Plan, wire: Served -> seq<byte>, ws: seq<World>, clock: seq<Timeval>)
    requires p.Valid() && SendRun(p, wire, ws, clock)
    ensures AllSent(wire, ws[|clock|].state.log, ws[|clock|].sent)
    decreases |clock|
  {
    if clock != [] {
      var n := |clock| - 1;
      assert SendRun(p, wire, ws[..n + 1], clock[..n]) by {
        forall i | 0 <= i < n
          ensures SendStep(p, wire, ws[..n + 1][i], clock[..n][i], ws[..n + 1][i + 1])
        {
          assert SendStep(p, wire, ws[i], clock[i], ws[i + 1]);
        }
      }
      RunSendsAll(p, wire, ws[..n + 1], clock[..n]);
      assert SendStep(p, wire, ws[n], clock[n], ws[n + 1]);
      SendKeeps(p, wire, ws[n], clock[n], ws[n + 1]);
    }
  }

  /** Frame i of any run, taken apart by the extractor: it carries the number of frames its stream sent
      before it, modulo 2^32, as its sequence number, the clock reading at which it was served, and the
      next address of its stream's range; and it was due at its stream's own period, no later than any
      frame after it. */
  lemma SentCarries(p: Plan, dets: seq<Det>, wire: Served -> seq<byte>, ws: seq<World>, clock: seq<Timeval>, i: int,
                    port: int, channels: int)
    requires Fits(p, dets) && Frames(dets, wire) && SendRun(p, wire, ws, clock)
    requires 0 <= i < |ws[|clock|].sent| && 0 <= port < channels
    ensures var log := ws[|clock|].state.log;
            && |log| == |ws[|clock|].sent|
            && var e := log[i];
               && 0 <= e.stream < |dets|
               && e.n == FramesOf(log[..i], e.stream)
               && CarriesFrame(dets[e.stream], ws[|clock|].sent[i], e.n, e.at, port, channels)
               && e.due.Nanos() == p.first[e.stream].Nanos() + e.n * dets[e.stream].delay
               && (forall k | i < k < |log| :: e.due.Nanos() <= log[k].due.Nanos())
               && (clock != [] && NeverBack(clock) && Near(p.first, clock[0]) ==> OnTime(e))
  {
    RunSendsAll(p, wire, ws, clock);
    RunOfSends(p, wire, ws, clock);
    var e := ws[|clock|].state.log[i];
    EmitsSortedMerge(p, States(ws), clock, i);
    if clock != [] && NeverBack(clock) && Near(p.first, clock[0]) {
      assert forall j | 0 <= j < |p.delay| :: p.delay[j] == dets[j].delay;
      RunStaysNear(p, States(ws), clock);
    }
    FrameCarries(dets[e.stream], e, port, channels);
  }

  /** The schedule served stream k, or slept. */
  ghost predicate Scheduled(p: Plan, s: State, k: int, now: Timeval, s': State) {
    && p.Valid() && Sized(p, s) && Step(p, s, now, s')
    && if k == -1 then s' == s else 0 <= k < |p.delay| && s' == Serve(p, s, k, now)
  }

  lemma TurnIs(p: Plan, wire: Served -> seq<byte>, w: World, k: int, now: Timeval, w': World)
    requires Scheduled(p, w.state, k, now, w'.state)
    requires w'.sent == if k == -1 then w.sent
                        else w.sent + [wire(Served(k, w.state.seqs[k], w.state.stamps[k], now))]
    ensures SendStep(p, wire, w, now, w')
  {
    if k != -1 {
      assert ServesFrame(p, wire, w, k, now, w');
    }
  }

  function Dets(packets: seq<Packet>): (ds: seq<Det>)
    ensures |ds| == |packets| && forall j | 0 <= j < |ds| :: ds[j] == packets[j].det
  {
    seq(|packets|, j requires 0 <= j < |packets| => packets[j].det)
  }

  ghost function WireOf(ds: seq<Det>): Served -> seq<byte> {
    (e: Served) => if 0 <= e.stream < |ds| && ds[e.stream].Valid() && ds[e.stream].HoldsHeaders()
                   then FrameOf(ds[e.stream], e) else []
  }

  lemma WireFrames(ds: seq<Det>)
    requires forall j | 0 <= j < |ds| :: ds[j].Valid() && ds[j].HoldsHeaders()
    ensures Frames(ds, WireOf(ds))
  {
  }

  class Sender {
    const gen: Generator
    const packets: seq<Packet>
    ghost const dets: seq<Det>
    ghost const wire: Served -> seq<byte>
    ghost var sent: seq<seq<byte>>

    ghost function Footprint(): set<object> {
      (set j | 0 <= j < |packets| :: packets[j] as object) + (set j | 0 <= j < |packets| :: packets[j].data as object)
    }

    /** The frames of different streams share nothing. */
    ghost predicate Shape() {
      && |packets| == |dets| && Fits(gen.plan, dets) && Frames(dets, wire)
      && (forall j, k | 0 <= j < |packets| && 0 <= k < |packets| && j != k ::
            packets[j] != packets[k] && packets[j].data != packets[k].data)
      && (forall j | 0 <= j < |packets| :: packets[j].det == dets[j])
      && this as object !in Footprint() && gen as object !in Footprint() && gen as object != this
    }

    /** The frame of stream j is ready and has been sent n times. */
    ghost predicate Ready(j: int, n: nat)
      requires 0 <= j < |packets|
      reads packets[j], packets[j].data
    {
      packets[j].Valid() && packets[j].frames == n
    }

    /** Each stream's frame is ready and counts the frames that the schedule counts. */
    ghost predicate Streams(seqs: seq<nat>)
      reads Footprint()
    {
      |seqs| == |packets| && forall j | 0 <= j < |packets| :: Ready(j, seqs[j])
    }

    ghost predicate Valid()
      reads this, gen, Footprint()
    {
      gen.Valid() && Shape() && Streams(gen.seqs)
    }

    ghost function Model(): World
      reads this, gen
    {
      World(gen.Model(), sent)
    }

    constructor (gen: Generator, packets: seq<Packet>)
      requires gen.Valid() && gen.Model() == Start(gen.plan)
      requires |packets| == |gen.plan.delay|
      requires forall j | 0 <= j < |packets| ::
                 packets[j].Valid() && packets[j].frames == 0 && packets[j].det.delay == gen.plan.delay[j]
      requires forall j, k | 0 <= j < |packets| && 0 <= k < |packets| && j != k ::
                 packets[j] != packets[k] && packets[j].data != packets[k].data
      ensures Valid() && this.gen == gen && this.packets == packets && Model() == World(Start(gen.plan), [])
    {
      this.gen, this.packets := gen, packets;
      dets, wire := Dets(packets), WireOf(Dets(packets));
      sent := [];
      new;
      WireFrames(dets);
      forall j | 0 <= j < |packets| ensures Ready(j, gen.seqs[j]) { }
    }

    /** One turn of the loop: send the frame of a stream that is due, or sleep. */
    method Turn(now: Timeval)
      requires Valid()
      modifies this`sent, gen, Footprint()
      ensures Valid() && SendStep(gen.plan, wire, old(Model()), now, Model())
    {
      ghost var before := Model();
      var k := ServeOne(now);
      TurnIs(gen.plan, wire, before, k, now, Model());
    }

    /** What a turn does to the schedule and the frames. */
    method ServeOne(now: Timeval) returns (k: int)
      requires Valid()
      modifies this`sent, gen, Footprint()
      ensures Valid() && Scheduled(gen.plan, old(gen.Model()), k, now, gen.Model())
      ensures sent == if k == -1 then old(sent)
                      else old(sent) + [wire(Served(k, old(gen.seqs)[k], old(gen.stamps)[k], now))]
    {
      ghost var seqs, stamps := gen.seqs, gen.stamps;
      k := Advance(now);
      if k != -1 {
        Send(k, now, seqs, stamps[k], gen.seqs);
      }
    }

    /** The schedule's part of a turn, which touches no frame. */
    method Advance(now: Timeval) returns (k: int)
      requires Valid()
      modifies gen
      ensures gen.Valid() && Streams(old(gen.seqs)) && Scheduled(gen.plan, old(gen.Model()), k, now, gen.Model())
    {
      k := gen.Turn(now);
    }

    /** send_pkt for stream k. */
    method Send(k: int, now: Timeval, ghost seqs: seq<nat>, ghost due: Timespec, ghost after: seq<nat>)
      requires Shape() && Streams(seqs) && 0 <= k < |packets| && after == seqs[k := seqs[k] + 1]
      modifies this`sent, packets[k], packets[k].data
      ensures Streams(after)
      ensures sent == old(sent) + [wire(Served(k, seqs[k], due, now))]
    {
      assert Ready(k, seqs[k]);
      assert wire(Served(k, seqs[k], due, now)) == FrameOf(dets[k], Served(k, seqs[k], due, now));
      packets[k].Stamp(now);
      sent := sent + [packets[k].data[..]];
      assert Ready(k, seqs[k] + 1);
    }
  }
}
