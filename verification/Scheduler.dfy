/** traffic_generator.c: the earliest-deadline loop over several periodic streams. */
module Scheduler {
  import opened Bytes
  import opened Time

  /** What stays fixed in a run: the first timestamp and the period of each stream. */
  datatype Plan = Plan(first: seq<Timespec>, delay: seq<int>) {
    predicate Valid() {
      |first| == |delay| && forall j | 0 <= j < |delay| :: delay[j] >= 0
    }
  }

  /** One transmission: which stream, its how-manieth frame, the timestamp it was due, the clock. */
  datatype Served = Served(stream: int, n: nat, due: Timespec, at: Timeval)

  datatype State = State(stamps: seq<Timespec>, seqs: seq<nat>, log: seq<Served>)

  // ---------------------------------------------------------------- choosing a stream

  predicate IsMin(stamps: seq<Timespec>, k: int) {
    && 0 <= k < |stamps|
    && (forall j | 0 <= j < |stamps| :: stamps[k].Nanos() <= stamps[j].Nanos())
    && (forall j | 0 <= j < k :: stamps[k].Nanos() < stamps[j].Nanos())
  }

  /** get_min_generator: the first stream with the earliest timestamp, or -1 with no streams. */
  method MinGenerator(stamps: seq<Timespec>) returns (k: int)
    ensures stamps == [] ==> k == -1
    ensures stamps != [] ==> IsMin(stamps, k)
  {
    if |stamps| == 0 {
      return -1;
    }
    k := 0;
    var min := stamps[0];
    var i := 1;
    while i < |stamps|
      invariant 1 <= i <= |stamps| && 0 <= k < i && min == stamps[k]
      invariant forall j | 0 <= j < i :: stamps[k].Nanos() <= stamps[j].Nanos()
      invariant forall j | 0 <= j < k :: stamps[k].Nanos() < stamps[j].Nanos()
    {
      if TimespecDiff(stamps[i], min) > 0 {
        k := i;
        min := stamps[i];
      }
      i := i + 1;
    }
  }

  // ---------------------------------------------------------------- one turn of the loop

  /** The loop sends when the narrowed time left is not positive. */
  predicate Sends(due: Timespec, now: Timeval) {
    TimeDiff(now, ToTimeval(due)) <= 0
  }

  /** The state after stream k was served. */
  function Serve(p: Plan, s: State, k: int, now: Timeval): State
    requires p.Valid() && |s.stamps| == |s.seqs| == |p.delay| && 0 <= k < |p.delay|
  {
    State(s.stamps[k := AddTimespec(s.stamps[k], 0, p.delay[k])], s.seqs[k := s.seqs[k] + 1],
          s.log + [Served(k, s.seqs[k], s.stamps[k], now)])
  }

  /** A turn on stream k, which is the one to serve: it is served or the loop sleeps. */
  ghost predicate Turns(p: Plan, s: State, k: int, now: Timeval, s': State)
    requires p.Valid() && |s.stamps| == |s.seqs| == |p.delay|
  {
    IsMin(s.stamps, k) && s' == if Sends(s.stamps[k], now) then Serve(p, s, k, now) else s
  }

  ghost predicate Step(p: Plan, s: State, now: Timeval, s': State)
    requires p.Valid() && |s.stamps| == |s.seqs| == |p.delay|
  {
    if s.stamps == [] then s' == s else exists k :: Turns(p, s, k, now, s')
  }

  /** The state of the loop of start_user_traffic_generator; a stream's sequence number counts its
      frames. */
  class Generator {
    const plan: Plan
    var stamps: seq<Timespec>
    var seqs: seq<nat>
    ghost var log: seq<Served>

    ghost predicate Valid()
      reads this
    {
      plan.Valid() && |stamps| == |seqs| == |plan.delay|
    }

    ghost function Model(): State
      reads this
    {
      State(stamps, seqs, log)
    }

    /** init_traffic_gen with the clock readings and random offsets already taken. */
    constructor (plan: Plan)
      requires plan.Valid()
      ensures Valid() && this.plan == plan && Model() == Start(plan)
    {
      this.plan := plan;
      stamps, seqs, log := plan.first, seq(|plan.first|, _ => 0), [];
    }

    /** One turn of the loop: sleep or send. */
    method Turn(now: Timeval) returns (sent: int)
      requires Valid()
      modifies this
      ensures Valid()
      ensures Step(plan, old(Model()), now, Model())
      ensures sent == -1 <==> Model() == old(Model())
      ensures sent != -1 ==> IsMin(old(stamps), sent) && Model() == Serve(plan, old(Model()), sent, now)
    {
      sent := -1;
      ghost var before := Model();
      var nr := MinGenerator(stamps);
      if nr < 0 {
        return;
      }
      if TimeDiff(now, ToTimeval(stamps[nr])) <= 0 {
        log := log + [Served(nr, seqs[nr], stamps[nr], now)];
        seqs := seqs[nr := seqs[nr] + 1];
        stamps := stamps[nr := AddTimespec(stamps[nr], 0, plan.delay[nr])];
        sent := nr;
      }
      assert Turns(plan, before, nr, now, Model());
    }
  }

  function Start(p: Plan): State {
    State(p.first, seq(|p.first|, _ => 0), [])
  }

  // ---------------------------------------------------------------- when a frame leaves

  /** With less than 2^31 microseconds to go the loop sends exactly when the due microsecond has
      come; it then leaves less than one microsecond before its nanosecond timestamp. */
  lemma SendsOnTime(due: Timespec, now: Timeval)
    requires -0x8000_0000 <= ToTimeval(due).Micros() - now.Micros() < 0x8000_0000
    ensures Sends(due, now) <==> ToTimeval(due).Micros() <= now.Micros()
    ensures Sends(due, now) ==> due.Nanos() < now.Micros() * 1000 + 1000
  {
    ToTimevalRoundsDown(due);
  }

  /** Exactly when a frame that is not due yet is sent all the same: the time left, modulo 2^32
      microseconds, is zero or reads as negative. */
  lemma SendsEarlyIff(due: Timespec, now: Timeval)
    requires ToTimeval(due).Micros() > now.Micros()
    ensures Sends(due, now) <==>
            var left := (ToTimeval(due).Micros() - now.Micros()) % 0x1_0000_0000;
            left == 0 || left >= 0x8000_0000
  {
  }

  // ---------------------------------------------------------------- runs

  /** states[i + 1] follows states[i] when the clock reads clock[i]. */
  ghost predicate Run(p: Plan, states: seq<State>, clock: seq<Timeval>)
    requires p.Valid()
  {
    && |states| == |clock| + 1
    && states[0] == Start(p)
    && (forall i | 0 <= i < |states| :: |states[i].stamps| == |states[i].seqs| == |p.delay|)
    && forall i | 0 <= i < |clock| :: Step(p, states[i], clock[i], states[i + 1])
  }

  lemma RunPrefix(p: Plan, states: seq<State>, clock: seq<Timeval>)
    requires p.Valid() && Run(p, states, clock) && clock != []
    ensures Run(p, states[..|clock|], clock[..|clock| - 1])
    ensures Step(p, states[|clock| - 1], clock[|clock| - 1], states[|clock|])
  {
    var ss, cs := states[..|clock|], clock[..|clock| - 1];
    forall i | 0 <= i < |cs|
      ensures Step(p, ss[i], cs[i], ss[i + 1])
    {
      assert Step(p, states[i], clock[i], states[i + 1]);
    }
  }

  /** The timestamp of frame n of stream j, in nanoseconds. */
  function Due(p: Plan, j: int, n: nat): int
    requires p.Valid() && 0 <= j < |p.delay|
  {
    if n == 0 then p.first[j].Nanos() else Due(p, j, n - 1) + p.delay[j]
  }

  lemma {:induction false} DueIs(p: Plan, j: int, n: nat)
    requires p.Valid() && 0 <= j < |p.delay|
    ensures Due(p, j, n) == p.first[j].Nanos() + n * p.delay[j]
  {
    if n > 0 {
      DueIs(p, j, n - 1);
      assert n * p.delay[j] == (n - 1) * p.delay[j] + p.delay[j];
    }
  }

  /** How many frames of stream j are in a log. */
  function FramesOf(log: seq<Served>, j: int): nat {
    if log == [] then 0
    else FramesOf(log[..|log| - 1], j) + if log[|log| - 1].stream == j then 1 else 0
  }

  /** Stream j has sent seqs[j] frames and its next is due at its own period. */
  ghost predicate OnSchedule(p: Plan, s: State)
    requires p.Valid()
  {
    && |s.stamps| == |s.seqs| == |p.delay|
    && forall j | 0 <= j < |p.delay| :: s.stamps[j].Nanos() == Due(p, j, s.seqs[j]) && s.seqs[j] == FramesOf(s.log, j)
  }

  ghost predicate Good(p: Plan, log: seq<Served>, i: int)
    requires p.Valid() && 0 <= i < |log|
  {
    var e := log[i];
    && 0 <= e.stream < |p.delay|
    && e.n == FramesOf(log[..i], e.stream)
    && e.due.Nanos() == Due(p, e.stream, e.n)
  }

  /** Everything sent was due no later than anything sent after it and anything still to send. */
  ghost predicate Ordered(s: State) {
    && (forall i, k | 0 <= i < k < |s.log| :: s.log[i].due.Nanos() <= s.log[k].due.Nanos())
    && (forall i, j | 0 <= i < |s.log| && 0 <= j < |s.stamps| :: s.log[i].due.Nanos() <= s.stamps[j].Nanos())
  }

  ghost predicate Inv(p: Plan, s: State)
    requires p.Valid()
  {
    OnSchedule(p, s) && Ordered(s) && forall i | 0 <= i < |s.log| :: Good(p, s.log, i)
  }

  lemma ServeKeepsSchedule(p: Plan, s: State, k: int, now: Timeval)
    requires p.Valid() && OnSchedule(p, s) && 0 <= k < |p.delay|
    ensures OnSchedule(p, Serve(p, s, k, now))
  {
    var s' := Serve(p, s, k, now);
    AddTimespecAdds(s.stamps[k], 0, p.delay[k]);
    assert s'.log[..|s'.log| - 1] == s.log;
    forall j | 0 <= j < |p.delay|
      ensures s'.stamps[j].Nanos() == Due(p, j, s'.seqs[j]) && s'.seqs[j] == FramesOf(s'.log, j)
    {
    }
  }

  lemma ServeKeepsOrder(p: Plan, s: State, k: int, now: Timeval)
    requires p.Valid() && |s.stamps| == |s.seqs| == |p.delay| && IsMin(s.stamps, k) && Ordered(s)
    ensures Ordered(Serve(p, s, k, now))
  {
    AddTimespecAdds(s.stamps[k], 0, p.delay[k]);
  }

  lemma ServeKeepsGood(p: Plan, s: State, k: int, now: Timeval, i: int)
    requires p.Valid() && OnSchedule(p, s) && 0 <= k < |p.delay|
    requires 0 <= i <= |s.log| && (i < |s.log| ==> Good(p, s.log, i))
    ensures Good(p, Serve(p, s, k, now).log, i)
  {
    var log := Serve(p, s, k, now).log;
    assert i < |s.log| ==> log[i] == s.log[i];
    assert log[..i] == s.log[..i];
    assert s.log[..|s.log|] == s.log;
  }

  lemma StepKeepsInv(p: Plan, s: State, now: Timeval, s': State)
    requires p.Valid() && Inv(p, s) && Step(p, s, now, s')
    ensures Inv(p, s')
  {
    if s' != s {
      var k :| Turns(p, s, k, now, s');
      ServeKeepsSchedule(p, s, k, now);
      ServeKeepsOrder(p, s, k, now);
      forall i | 0 <= i < |s'.log|
        ensures Good(p, s'.log, i)
      {
        ServeKeepsGood(p, s, k, now, i);
      }
    }
  }

  lemma {:induction false} RunKeepsInv(p: Plan, states: seq<State>, clock: seq<Timeval>)
    requires p.Valid() && Run(p, states, clock)
    ensures Inv(p, states[|clock|])
    decreases |clock|
  {
    if clock != [] {
      var n := |clock| - 1;
      RunPrefix(p, states, clock);
      RunKeepsInv(p, states[..n + 1], clock[..n]);
      StepKeepsInv(p, states[n], clock[n], states[n + 1]);
    }
  }

  /** Every run emits the sorted merge of its streams: the timestamps served never decrease, entry i
      is the next frame of its stream and was due at first + n * delay, and nothing still to be
      sent was due before anything sent. */
  lemma EmitsSortedMerge(p: Plan, states: seq<State>, clock: seq<Timeval>, i: int)
    requires p.Valid() && Run(p, states, clock) && 0 <= i < |states[|clock|].log|
    ensures var s := states[|clock|];
            var e := s.log[i];
            && 0 <= e.stream < |p.delay|
            && e.n == FramesOf(s.log[..i], e.stream)
            && e.due.Nanos() == p.first[e.stream].Nanos() + e.n * p.delay[e.stream]
            && (forall k | i < k < |s.log| :: e.due.Nanos() <= s.log[k].due.Nanos())
            && (forall j | 0 <= j < |s.stamps| :: e.due.Nanos() <= s.stamps[j].Nanos())
            && |s.stamps| == |p.delay|
            && (forall j | 0 <= j < |p.delay| :: s.stamps[j].Nanos() == Due(p, j, FramesOf(s.log, j)))
  {
    RunKeepsInv(p, states, clock);
    var s := states[|clock|];
    assert Good(p, s.log, i);
    DueIs(p, s.log[i].stream, s.log[i].n);
  }

  predicate AllNormal(stamps: seq<Timespec>) {
    forall j | 0 <= j < |stamps| :: stamps[j].Normal()
  }

  lemma StepKeepsNormal(p: Plan, s: State, now: Timeval, s': State)
    requires p.Valid() && |s.stamps| == |s.seqs| == |p.delay| && Step(p, s, now, s')
    requires AllNormal(s.stamps) && forall j | 0 <= j < |p.delay| :: p.delay[j] <= NSEC_PER_SEC
    ensures AllNormal(s'.stamps)
  {
    if s' != s {
      var k :| Turns(p, s, k, now, s');
      assert s.stamps[k].Normal() && p.delay[k] <= NSEC_PER_SEC;
    }
  }

  /** With first timestamps normalised and periods of at most one second, all timestamps of every
      run stay normalised. */
  lemma {:induction false} StampsStayNormal(p: Plan, states: seq<State>, clock: seq<Timeval>)
    requires p.Valid() && Run(p, states, clock) && AllNormal(p.first)
    requires forall j | 0 <= j < |p.delay| :: p.delay[j] <= NSEC_PER_SEC
    ensures AllNormal(states[|clock|].stamps)
    decreases |clock|
  {
    if clock != [] {
      var n := |clock| - 1;
      RunPrefix(p, states, clock);
      StampsStayNormal(p, states[..n + 1], clock[..n]);
      StepKeepsNormal(p, states[n], clock[n], states[n + 1]);
    }
  }

  /** Each frame of a run left when the loop decided so at that clock reading. */
  lemma {:induction false} ServedWhenSent(p: Plan, states: seq<State>, clock: seq<Timeval>, i: int)
    requires p.Valid() && Run(p, states, clock) && 0 <= i < |states[|clock|].log|
    ensures Sends(states[|clock|].log[i].due, states[|clock|].log[i].at)
    decreases |clock|
  {
    if clock != [] {
      var n := |clock| - 1;
      RunPrefix(p, states, clock);
      if i < |states[n].log| {
        ServedWhenSent(p, states[..n + 1], clock[..n], i);
      }
    }
  }

  /** Entry i of the log was served in one turn, at the clock reading of that turn. */
  lemma {:induction false} ServedInTurn(p: Plan, states: seq<State>, clock: seq<Timeval>, i: int) returns (t: int)
    requires p.Valid() && Run(p, states, clock) && 0 <= i < |states[|clock|].log|
    ensures 0 <= t < |clock| && |states[t].log| == i && |states[t + 1].log| == i + 1
    ensures states[|clock|].log[i] == states[t + 1].log[i] && states[|clock|].log[i].at == clock[t]
    decreases |clock|
  {
    assert clock != [];
    var n := |clock| - 1;
    RunPrefix(p, states, clock);
    if i < |states[n].log| {
      t := ServedInTurn(p, states[..n + 1], clock[..n], i);
    } else {
      t := n;
    }
  }

  // ---------------------------------------------------------------- never early

  /** How far ahead a timestamp may lie, in microseconds, before the time left reads as negative. */
  const HORIZON := 0x8000_0000

  /** The clock never goes back. */
  predicate NeverBack(clock: seq<Timeval>) {
    forall i, j | 0 <= i <= j < |clock| :: clock[i].Micros() <= clock[j].Micros()
  }

  predicate Ahead(stamp: Timespec, now: Timeval) {
    ToTimeval(stamp).Micros() - now.Micros() < HORIZON
  }

  /** Some stream is due within the horizon. */
  predicate Near(stamps: seq<Timespec>, now: Timeval) {
    exists j | 0 <= j < |stamps| :: Ahead(stamps[j], now)
  }

  /** The periods of struct traf_gen_det are unsigned 32-bit numbers of nanoseconds. */
  predicate ShortPeriods(p: Plan) {
    forall j | 0 <= j < |p.delay| :: p.delay[j] < 0x1_0000_0000
  }

  /** The frame left less than a microsecond before its timestamp, or later. */
  predicate OnTime(e: Served) {
    e.due.Nanos() < e.at.Micros() * 1000 + 1000
  }

  predicate Punctual(log: seq<Served>) {
    forall i | 0 <= i < |log| :: OnTime(log[i])
  }

  lemma NextIsAhead(due: Timespec, now: Timeval, delay: int)
    requires Sends(due, now) && Ahead(due, now) && 0 <= delay < 0x1_0000_0000
    ensures ToTimeval(due).Micros() <= now.Micros()
    ensures Ahead(AddTimespec(due, 0, delay), now)
  {
    if ToTimeval(due).Micros() > now.Micros() {
      SendsEarlyIff(due, now);
    }
    ToTimevalRoundsDown(due);
    ToTimevalRoundsDown(AddTimespec(due, 0, delay));
    AddTimespecAdds(due, 0, delay);
  }

  /** When some stream is within the horizon the one to serve is. */
  lemma EarliestIsAhead(stamps: seq<Timespec>, k: int, now: Timeval)
    requires IsMin(stamps, k) && Near(stamps, now)
    ensures Ahead(stamps[k], now)
  {
    var j :| 0 <= j < |stamps| && Ahead(stamps[j], now);
    ToTimevalRoundsDown(stamps[k]);
    ToTimevalRoundsDown(stamps[j]);
  }

  lemma StepKeepsNear(p: Plan, s: State, now: Timeval, s': State)
    requires p.Valid() && ShortPeriods(p) && |s.stamps| == |s.seqs| == |p.delay|
    requires Near(s.stamps, now) && Punctual(s.log) && Step(p, s, now, s')
    ensures Near(s'.stamps, now) && Punctual(s'.log)
  {
    if s' != s {
      var k :| Turns(p, s, k, now, s');
      EarliestIsAhead(s.stamps, k, now);
      NextIsAhead(s.stamps[k], now, p.delay[k]);
      ToTimevalRoundsDown(s.stamps[k]);
      assert Ahead(s'.stamps[k], now);
      assert OnTime(Served(k, s.seqs[k], s.stamps[k], now));
    }
  }

  lemma NearStays(stamps: seq<Timespec>, now: Timeval, later: Timeval)
    requires Near(stamps, now) && now.Micros() <= later.Micros()
    ensures Near(stamps, later)
  {
    var j :| 0 <= j < |stamps| && Ahead(stamps[j], now);
    assert Ahead(stamps[j], later);
  }

  lemma {:induction false} RunStaysNear(p: Plan, states: seq<State>, clock: seq<Timeval>)
    requires p.Valid() && ShortPeriods(p) && Run(p, states, clock) && clock != []
    requires NeverBack(clock) && Near(p.first, clock[0])
    ensures Near(states[|clock|].stamps, clock[|clock| - 1]) && Punctual(states[|clock|].log)
    decreases |clock|
  {
    var n := |clock| - 1;
    RunPrefix(p, states, clock);
    if n > 0 {
      RunStaysNear(p, states[..n + 1], clock[..n]);
      NearStays(states[n].stamps, clock[n - 1], clock[n]);
    }
    StepKeepsNear(p, states[n], clock[n], states[n + 1]);
  }

  /** In every run under a clock that never goes back, with one stream within 2^31 microseconds of the
      first reading, no frame of any stream leaves a microsecond or more early. */
  lemma NothingLeavesEarly(p: Plan, states: seq<State>, clock: seq<Timeval>, i: int)
    requires p.Valid() && ShortPeriods(p) && Run(p, states, clock) && clock != []
    requires NeverBack(clock) && Near(p.first, clock[0]) && 0 <= i < |states[|clock|].log|
    ensures var e := states[|clock|].log[i];
            e.due.Nanos() < e.at.Micros() * 1000 + 1000
  {
    RunStaysNear(p, states, clock);
    assert OnTime(states[|clock|].log[i]);
  }

  /** A run that starts with this reading of a clock that never goes back. */
  ghost predicate RunFrom(p: Plan, states: seq<State>, clock: seq<Timeval>, start: Timeval)
    requires p.Valid()
  {
    Run(p, states, clock) && clock != [] && clock[0] == start && NeverBack(clock)
  }

  lemma {:induction false} FirstMin(stamps: seq<Timespec>) returns (k: int)
    requires stamps != []
    ensures IsMin(stamps, k)
  {
    var n := |stamps| - 1;
    if n == 0 {
      k := 0;
    } else {
      k := FirstMin(stamps[..n]);
      var front := stamps[..n];
      assert forall j | 0 <= j < n :: stamps[j] == front[j];
      if stamps[n].Nanos() < stamps[k].Nanos() {
        k := n;
      }
    }
  }

  /** The reading at which exactly 2^31 microseconds are left. */
  function Tipping(due: Timespec): (t: Timeval)
    ensures t.Micros() == ToTimeval(due).Micros() - HORIZON
  {
    var m := ToTimeval(due).Micros() - HORIZON;
    Timeval(m / USEC_PER_SEC, m % USEC_PER_SEC)
  }

  lemma TippingSends(due: Timespec)
    ensures Sends(due, Tipping(due))
  {
    SendsEarlyIff(due, Tipping(due));
  }

  /** Serving stream k before its microsecond has come. */
  lemma EarlyServe(p: Plan, s: State, k: int, now: Timeval)
    requires p.Valid() && |s.stamps| == |s.seqs| == |p.delay| && IsMin(s.stamps, k)
    requires Sends(s.stamps[k], now) && ToTimeval(s.stamps[k]).Micros() > now.Micros()
    ensures Step(p, s, now, Serve(p, s, k, now)) && !Punctual(Serve(p, s, k, now).log)
  {
    ToTimevalRoundsDown(s.stamps[k]);
    assert Turns(p, s, k, now, Serve(p, s, k, now));
    var log := Serve(p, s, k, now).log;
    assert log[|s.log|] == Served(k, s.seqs[k], s.stamps[k], now);
    assert !OnTime(log[|s.log|]);
  }

  /** With every stream 2^31 microseconds or more ahead there is a run that sends early. */
  lemma FarSendsEarly(p: Plan, start: Timeval) returns (states: seq<State>, clock: seq<Timeval>)
    requires p.Valid() && p.first != [] && !Near(p.first, start)
    ensures RunFrom(p, states, clock, start) && !Punctual(states[|clock|].log)
  {
    var k := FirstMin(p.first);
    var s0 := Start(p);
    assert !Ahead(p.first[k], start);
    if Sends(p.first[k], start) {
      EarlyServe(p, s0, k, start);
      states, clock := [s0, Serve(p, s0, k, start)], [start];
    } else {
      var now := Tipping(p.first[k]);
      TippingSends(p.first[k]);
      EarlyServe(p, s0, k, now);
      states, clock := [s0, s0, Serve(p, s0, k, now)], [start, now];
      assert Turns(p, s0, k, start, s0);
    }
  }

  /** And when the clock may go back there is such a run for all streams and all first readings. */
  lemma ClockBackSendsEarly(p: Plan, start: Timeval) returns (states: seq<State>, clock: seq<Timeval>)
    requires p.Valid() && p.first != []
    ensures Run(p, states, clock) && |clock| == 2 && clock[0] == start && !Punctual(states[|clock|].log)
  {
    var s0 := Start(p);
    var k := FirstMin(p.first);
    var s1 := if Sends(p.first[k], start) then Serve(p, s0, k, start) else s0;
    assert Turns(p, s0, k, start, s1);
    var l := FirstMin(s1.stamps);
    var now := Tipping(s1.stamps[l]);
    TippingSends(s1.stamps[l]);
    EarlyServe(p, s1, l, now);
    states, clock := [s0, s1, Serve(p, s1, l, now)], [start, now];
  }

  /** Under a clock that never goes back a frame can leave early if and only if every stream's first
      timestamp lies 2^31 microseconds or more after the first reading. */
  lemma EarlyIffAllFar(p: Plan, start: Timeval)
    requires p.Valid() && ShortPeriods(p) && p.first != []
    ensures (exists states: seq<State>, clock: seq<Timeval> ::
               RunFrom(p, states, clock, start) && !Punctual(states[|clock|].log))
            <==> forall j | 0 <= j < |p.first| :: ToTimeval(p.first[j]).Micros() - start.Micros() >= HORIZON
  {
    if Near(p.first, start) {
      var j :| 0 <= j < |p.first| && Ahead(p.first[j], start);
      assert ToTimeval(p.first[j]).Micros() - start.Micros() < HORIZON;
      forall states: seq<State>, clock: seq<Timeval> | RunFrom(p, states, clock, start)
        ensures Punctual(states[|clock|].log)
      {
        RunStaysNear(p, states, clock);
      }
    } else {
      forall j | 0 <= j < |p.first|
        ensures ToTimeval(p.first[j]).Micros() - start.Micros() >= HORIZON
      {
        assert !Ahead(p.first[j], start);
      }
      var states, clock := FarSendsEarly(p, start);
    }
  }

  // ---------------------------------------------------------------- starting

  /** What init_traffic_gen meets at a channel: the period when the channel generates traffic, the
      clock when it gets there, and what rand() returns. */
  datatype Channel = Channel(delay: Option<int>, reading: Timeval, rand: nat)

  function FirstStamp(c: Channel): Timespec {
    AddTimespec(ToTimespec(c.reading), 0, c.rand % NSEC_PER_SEC)
  }

  /** One stream for every channel that generates traffic, in order. */
  function PlanOf(cs: seq<Channel>): (p: Plan)
    requires forall i | 0 <= i < |cs| && cs[i].delay.Some? :: cs[i].delay.value >= 0
    ensures p.Valid()
  {
    if cs == [] then Plan([], [])
    else
      var p, c := PlanOf(cs[..|cs| - 1]), cs[|cs| - 1];
      if c.delay.None? then p else Plan(p.first + [FirstStamp(c)], p.delay + [c.delay.value])
  }

  /** init_traffic_gen, without the frames. */
  method InitTrafficGen(cs: seq<Channel>) returns (plan: Plan)
    requires forall i | 0 <= i < |cs| && cs[i].delay.Some? :: cs[i].delay.value >= 0
    ensures plan == PlanOf(cs)
  {
    plan := Plan([], []);
    var ix := 0;
    while ix < |cs|
      invariant 0 <= ix <= |cs| && plan == PlanOf(cs[..ix])
    {
      var c := cs[ix];
      assert cs[..ix + 1][..ix] == cs[..ix];
      if c.delay.Some? {
        var stamp := AddTimespec(ToTimespec(c.reading), 0, c.rand % NSEC_PER_SEC);
        plan := Plan(plan.first + [stamp], plan.delay + [c.delay.value]);
      }
      ix := ix + 1;
    }
    assert cs[..|cs|] == cs;
  }

  /** The channels that generate traffic, in order. */
  function Active(cs: seq<Channel>): seq<int> {
    if cs == [] then [] else Active(cs[..|cs| - 1]) + if cs[|cs| - 1].delay.Some? then [|cs| - 1] else []
  }

  /** They are all of them, each once, in increasing order. */
  lemma {:induction false} ActiveIs(cs: seq<Channel>)
    ensures forall j | 0 <= j < |Active(cs)| :: 0 <= Active(cs)[j] < |cs| && cs[Active(cs)[j]].delay.Some?
    ensures forall j, k | 0 <= j < k < |Active(cs)| :: Active(cs)[j] < Active(cs)[k]
    ensures forall i | 0 <= i < |cs| && cs[i].delay.Some? :: i in Active(cs)
    decreases |cs|
  {
    if cs != [] {
      var n := |cs| - 1;
      var front := cs[..n];
      ActiveIs(front);
      assert forall i | 0 <= i < n :: front[i] == cs[i];
    }
  }

  /** One stream for each of them, with the channel's own period, first due at the clock reading plus the
      random part of a second. */
  lemma {:induction false} PlanIs(cs: seq<Channel>, j: int)
    requires forall i | 0 <= i < |cs| && cs[i].delay.Some? :: cs[i].delay.value >= 0
    requires 0 <= j < |Active(cs)|
    ensures |PlanOf(cs).first| == |PlanOf(cs).delay| == |Active(cs)|
    ensures 0 <= Active(cs)[j] < |cs| && cs[Active(cs)[j]].delay.Some?
    ensures var c := cs[Active(cs)[j]];
            && PlanOf(cs).delay[j] == c.delay.value
            && PlanOf(cs).first[j].Nanos() == c.reading.Micros() * 1000 + c.rand % 1_000_000_000
    decreases |cs|
  {
    var n := |cs| - 1;
    var front, c := cs[..n], cs[n];
    PlanSize(front);
    if j < |Active(front)| {
      PlanIs(front, j);
    } else {
      AddTimespecAdds(ToTimespec(c.reading), 0, c.rand % NSEC_PER_SEC);
    }
  }

  lemma {:induction false} PlanSize(cs: seq<Channel>)
    requires forall i | 0 <= i < |cs| && cs[i].delay.Some? :: cs[i].delay.value >= 0
    ensures |PlanOf(cs).first| == |PlanOf(cs).delay| == |Active(cs)|
    decreases |cs|
  {
    if cs != [] {
      PlanSize(cs[..|cs| - 1]);
    }
  }

  /** In every run of the program, frame n of a channel's stream is due at the channel's clock reading plus its
      random part of a second plus n of its periods. */
  lemma ChannelFrames(cs: seq<Channel>, states: seq<State>, clock: seq<Timeval>, i: int)
    requires forall i | 0 <= i < |cs| && cs[i].delay.Some? :: cs[i].delay.value >= 0
    requires Run(PlanOf(cs), states, clock) && 0 <= i < |states[|clock|].log|
    ensures var e := states[|clock|].log[i];
            && 0 <= e.stream < |Active(cs)| && 0 <= Active(cs)[e.stream] < |cs|
            && cs[Active(cs)[e.stream]].delay.Some?
            && var c := cs[Active(cs)[e.stream]];
               && e.n == FramesOf(states[|clock|].log[..i], e.stream)
               && e.due.Nanos() == c.reading.Micros() * 1000 + c.rand % 1_000_000_000 + e.n * c.delay.value
  {
    EmitsSortedMerge(PlanOf(cs), states, clock, i);
    PlanSize(cs);
    PlanIs(cs, states[|clock|].log[i].stream);
  }

  /** The channels as the program can meet them before its loop reads the clock for the first time. */
  predicate Before(cs: seq<Channel>, start: Timeval) {
    forall i | 0 <= i < |cs| ::
      && cs[i].reading.Normal() && cs[i].reading.Micros() <= start.Micros()
      && (cs[i].delay.Some? ==> 0 <= cs[i].delay.value < 0x1_0000_0000)
  }

  lemma FirstStampIsNear(c: Channel, start: Timeval)
    requires c.reading.Normal() && c.reading.Micros() <= start.Micros()
    ensures FirstStamp(c).Normal() && Ahead(FirstStamp(c), start)
  {
    var t, r := ToTimespec(c.reading), c.rand % NSEC_PER_SEC;
    AddTimespecAdds(t, 0, r);
    ToTimevalRoundsDown(FirstStamp(c));
    assert t.Nanos() == c.reading.Micros() * 1000;
  }

  lemma {:induction false} InitIsNear(cs: seq<Channel>, start: Timeval)
    requires Before(cs, start)
    ensures AllNormal(PlanOf(cs).first) && ShortPeriods(PlanOf(cs))
    ensures forall j | 0 <= j < |PlanOf(cs).first| :: Ahead(PlanOf(cs).first[j], start)
    decreases |cs|
  {
    if cs != [] {
      var n := |cs| - 1;
      var front := cs[..n];
      assert Before(front, start) by {
        assert forall i | 0 <= i < n :: front[i] == cs[i];
      }
      InitIsNear(front, start);
      FirstStampIsNear(cs[n], start);
    }
  }

  /** Whatever the channels, the random offsets and the clock readings are: as long as the clock never
      goes back, no frame that the program sends leaves a microsecond or more early. */
  lemma StartedRunsArePunctual(cs: seq<Channel>, states: seq<State>, clock: seq<Timeval>)
    requires clock != [] && Before(cs, clock[0]) && NeverBack(clock) && Run(PlanOf(cs), states, clock)
    ensures Punctual(states[|clock|].log)
  {
    var p := PlanOf(cs);
    InitIsNear(cs, clock[0]);
    if p.first == [] {
      NoStreamsNoFrames(p, states, clock);
    } else {
      assert Ahead(p.first[0], clock[0]);
      RunStaysNear(p, states, clock);
    }
  }

  lemma {:induction false} NoStreamsNoFrames(p: Plan, states: seq<State>, clock: seq<Timeval>)
    requires p.Valid() && p.first == [] && Run(p, states, clock)
    ensures states[|clock|].log == []
    decreases |clock|
  {
    if clock != [] {
      var n := |clock| - 1;
      RunPrefix(p, states, clock);
      NoStreamsNoFrames(p, states[..n + 1], clock[..n]);
    }
  }
}
