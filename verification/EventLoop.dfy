/** wc_event.c event_loop and timer_event.c: one event thread draining the queue while any
    number of other threads insert, with the mutex, the wait on the condition variable, the
    unlocked window before the extraction and the clock as separate steps. */
module EventLoop {
  import opened Time
  import opened HeapModel
  import opened TimerSpec

  /** Where the event thread is. It holds the mutex exactly in the states marked (m). */
  datatype Pc =
    | Idle                                             // at the head of the outer loop
    | Polling                                          // (m) about to ask for the next event
    | Polled(next: int)                                // (m) has the answer
    | Waiting                                          // in pthread_cond_timedwait
    | Due                                              // unlocked, decided to run an event
    | Popping                                          // (m) inside wc_queue_extract
    | Popped(e: Qelm, queued: multiset<Qelm>)          // (m) has extracted e from queued
    | Handing(e: Qelm, queued: multiset<Qelm>)         // unlocked, about to call the handler

  datatype Lock = Free | ByLoop | ByClient(client: int, inserted: bool)

  /** One call of handle_timer_event: the event, the queue it was extracted from, the time. */
  datatype Delivery = Delivery(e: Qelm, queued: multiset<Qelm>, at: Timeval)

  datatype State = State(queue: Spec, now: Timeval, lock: Lock, pc: Pc, end: bool, log: seq<Delivery>)

  datatype Label =
    | Tick(to: Timeval)
    | SetEnd
    | ClientLock(client: int)
    | ClientAdd(e: Qelm)
    | ClientUnlock
    | LoopLock
    | LoopPoll(next: int)
    | LoopWait
    | LoopWake
    | LoopUnlock
    | LoopRelock
    | LoopPop(popped: Qelm)
    | LoopPopEmpty
    | LoopPopUnlock
    | LoopHandle

  ghost predicate Next(s: State, l: Label, s': State) {
    match l
    case Tick(to) =>
      to.Normal() && Leq(s.now, to) && s' == s.(now := to)
    case SetEnd =>
      s' == s.(end := true)
    case ClientLock(c) =>
      s.lock == Free && s' == s.(lock := ByClient(c, false))
    case ClientAdd(e) =>
      && s.lock.ByClient? && !s.lock.inserted
      && e.key.Normal()
      && Step(s.queue, Add(e), s'.queue)
      && s' == s.(queue := s'.queue, lock := ByClient(s.lock.client, true))
    case ClientUnlock =>
      s.lock.ByClient? && s' == s.(lock := Free)
    case LoopLock =>
      s.pc == Idle && !s.end && s.lock == Free && s' == s.(lock := ByLoop, pc := Polling)
    case LoopPoll(next) =>
      s.pc == Polling && NextEvent(s.queue.pending, s.now, next) && s' == s.(pc := Polled(next))
    case LoopWait =>
      s.pc.Polled? && s.pc.next > 0 && !s.end && s' == s.(lock := Free, pc := Waiting)
    case LoopWake =>
      s.pc == Waiting && s.lock == Free && s' == s.(lock := ByLoop, pc := Polling)
    case LoopUnlock =>
      && s.pc.Polled? && (s.pc.next <= 0 || s.end)
      && s' == s.(lock := Free, pc := if s.pc.next <= 0 then Due else Idle)
    case LoopRelock =>
      s.pc == Due && s.lock == Free && s' == s.(lock := ByLoop, pc := Popping)
    case LoopPop(e) =>
      && s.pc == Popping
      && Step(s.queue, Extract(e), s'.queue)
      && s' == s.(queue := s'.queue, pc := Popped(e, s.queue.pending))
    case LoopPopEmpty =>
      s.pc == Popping && Step(s.queue, ExtractEmpty, s.queue) && s' == s.(lock := Free, pc := Idle)
    case LoopPopUnlock =>
      s.pc.Popped? && s' == s.(lock := Free, pc := Handing(s.pc.e, s.pc.queued))
    case LoopHandle =>
      s.pc.Handing? && s' == s.(pc := Idle, log := s.log + [Delivery(s.pc.e, s.pc.queued, s.now)])
  }

  /** A new queue, whose ids go on from an earlier one. */
  function Boot(now: Timeval, firstId: int): State {
    State(Start(firstId), now, Free, Idle, false, [])
  }

  /** Step k of a run. */
  ghost predicate NextAt(states: seq<State>, labels: seq<Label>, k: int)
    requires |states| == |labels| + 1 && 0 <= k < |labels|
  {
    Next(states[k], labels[k], states[k + 1])
  }

  ghost predicate Run(states: seq<State>, labels: seq<Label>, start: Timeval) {
    && |states| == |labels| + 1
    && start.Normal() && states[0] == Boot(start, states[0].queue.nextId)
    && forall k | 0 <= k < |labels| :: NextAt(states, labels, k)
  }

  lemma RunPrefix(states: seq<State>, labels: seq<Label>, start: Timeval)
    requires Run(states, labels, start) && labels != []
    ensures Run(states[..|labels|], labels[..|labels| - 1], start)
    ensures Next(states[|labels| - 1], labels[|labels| - 1], states[|labels|])
  {
    var ss, ls := states[..|labels|], labels[..|labels| - 1];
    forall k | 0 <= k < |ls|
      ensures NextAt(ss, ls, k)
    {
      assert NextAt(states, labels, k);
    }
    assert NextAt(states, labels, |labels| - 1);
  }

  /** The furthest an event may lie ahead when it is added, in microseconds. */
  const HORIZON := 0x8000_0000

  predicate WithinHorizon(key: Timeval, now: Timeval) {
    key.Micros() - now.Micros() < HORIZON
  }

  /** No insertion of this run schedules an event 2^31 microseconds or more ahead. */
  ghost predicate AddsWithinHorizon(states: seq<State>, labels: seq<Label>)
    requires |states| == |labels| + 1
  {
    forall k | 0 <= k < |labels| && labels[k].ClientAdd? :: WithinHorizon(labels[k].e.key, states[k].now)
  }

  // ---------------------------------------------------------------- the invariant

  ghost predicate HasDue(s: State) {
    exists e :: e in s.queue.pending && Leq(e.key, s.now)
  }

  predicate HoldsLock(pc: Pc) {
    pc.Polling? || pc.Polled? || pc.Popping? || pc.Popped?
  }

  ghost predicate OnTime(d: Delivery) {
    Minimal(d.e, d.queued) && Leq(d.e.key, d.at)
  }

  ghost predicate QueueInv(s: State) {
    && s.now.Normal()
    && forall e | e in s.queue.pending :: e.key.Normal() && WithinHorizon(e.key, s.now)
  }

  /** A thread that decided to run an event, or is about to extract one, has one that is due. */
  ghost predicate DueInv(s: State) {
    (s.pc.Polled? && s.pc.next <= 0) || s.pc.Due? || s.pc.Popping? ==> HasDue(s)
  }

  ghost predicate DeliveryInv(s: State) {
    && (s.pc.Popped? || s.pc.Handing? ==> OnTime(Delivery(s.pc.e, s.pc.queued, s.now)))
    && (forall k | 0 <= k < |s.log| :: OnTime(s.log[k]))
  }

  ghost predicate Inv(s: State) {
    QueueInv(s) && (s.lock == ByLoop <==> HoldsLock(s.pc)) && DueInv(s) && DeliveryInv(s)
  }

  lemma SubIsDifference(a: Timeval, b: Timeval)
    ensures Sub(a, b).Micros() == a.Micros() - b.Micros()
    ensures a.Normal() && b.Normal() ==> Sub(a, b).Normal()
  {
  }

  /** What timer_get_next_event answers: a second when nothing is queued; -1 when an event is overdue;
      nothing positive when an event is due; and otherwise the least number of microseconds to any
      queued event, as long as the first is within the horizon. */
  lemma AnswersAre(pending: multiset<Qelm>, now: Timeval, us: int)
    requires now.Normal() && (forall e | e in pending :: e.key.Normal()) && NextEvent(pending, now, us)
    ensures pending == multiset{} ==> us == 1_000_000
    ensures (exists e :: e in pending && e.key.Micros() < now.Micros()) ==> us == -1
    ensures (exists e :: e in pending && e.key.Micros() <= now.Micros()) ==> us <= 0
    ensures pending != multiset{} && (forall e | e in pending :: now.Micros() <= e.key.Micros()) &&
              (exists e :: e in pending && e.key.Micros() - now.Micros() < HORIZON) ==>
              && (forall e | e in pending :: us <= e.key.Micros() - now.Micros())
              && (exists e :: e in pending && us == e.key.Micros() - now.Micros())
  {
    if pending != multiset{} {
      var e :| Minimal(e, pending) && us == if Less(e.key, now) then -1 else Wrap32(Sub(e.key, now).Micros());
      SubIsDifference(e.key, now);
      LessIsEarlier(e.key, now);
      forall x | x in pending
        ensures e.key.Micros() <= x.key.Micros()
      {
        LessIsEarlier(x.key, e.key);
      }
    }
  }

  /** With every key in reach, the answer under the mutex is not positive exactly when an event is due. */
  lemma PollDecidesIff(s: State, next: int)
    requires QueueInv(s) && NextEvent(s.queue.pending, s.now, next)
    ensures next <= 0 <==> HasDue(s)
  {
    PollDecides(s, next);
    if HasDue(s) {
      var e :| e in s.queue.pending && Leq(e.key, s.now);
      LessIsEarlier(s.now, e.key);
      AnswersAre(s.queue.pending, s.now, next);
    }
  }

  /** The decision taken under the mutex: with every key in reach, a non-positive answer
      means that some queued event is due. */
  lemma PollDecides(s: State, next: int)
    requires QueueInv(s) && NextEvent(s.queue.pending, s.now, next)
    ensures next <= 0 ==> HasDue(s)
  {
    if next <= 0 {
      var e :| Minimal(e, s.queue.pending) &&
               next == if Less(e.key, s.now) then -1 else Wrap32(Sub(e.key, s.now).Micros());
      SubIsDifference(e.key, s.now);
      LessIsEarlier(e.key, s.now);
      LessIsEarlier(s.now, e.key);
    }
  }

  lemma QueueInvKept(s: State, l: Label, s': State)
    requires QueueInv(s) && Next(s, l, s')
    requires l.ClientAdd? ==> WithinHorizon(l.e.key, s.now)
    ensures QueueInv(s')
  {
    if l.Tick? {
      LessIsEarlier(l.to, s.now);
    }
  }

  lemma DueStays(s: State, s': State, e: Qelm)
    requires e in s.queue.pending && Leq(e.key, s.now)
    requires Leq(s.now, s'.now) && e in s'.queue.pending
    ensures HasDue(s')
  {
  }

  lemma DueInvKept(s: State, l: Label, s': State)
    requires QueueInv(s) && DueInv(s) && Next(s, l, s')
    ensures DueInv(s')
  {
    if l.LoopPoll? {
      PollDecides(s, l.next);
      assert HasDue(s) ==> HasDue(s');
    } else if HasDue(s) && !l.LoopPop? {
      var e :| e in s.queue.pending && Leq(e.key, s.now);
      DueStays(s, s', e);
    }
  }

  lemma DeliveryInvKept(s: State, l: Label, s': State)
    requires DueInv(s) && DeliveryInv(s) && Next(s, l, s')
    ensures DeliveryInv(s')
  {
  }

  /** Every step of every thread keeps the invariant. */
  lemma StepKeepsInv(s: State, l: Label, s': State)
    requires Inv(s) && Next(s, l, s')
    requires l.ClientAdd? ==> WithinHorizon(l.e.key, s.now)
    ensures Inv(s')
  {
    QueueInvKept(s, l, s');
    DueInvKept(s, l, s');
    DeliveryInvKept(s, l, s');
  }

  lemma {:induction false} RunKeepsInv(states: seq<State>, labels: seq<Label>, start: Timeval)
    requires Run(states, labels, start) && AddsWithinHorizon(states, labels)
    ensures Inv(states[|labels|])
    decreases |labels|
  {
    if labels == [] {
    } else {
      var n := |labels| - 1;
      var ss, ls := states[..n + 1], labels[..n];
      RunPrefix(states, labels, start);
      assert AddsWithinHorizon(ss, ls);
      RunKeepsInv(ss, ls, start);
      StepKeepsInv(states[n], labels[n], states[n + 1]);
    }
  }

  /** In every interleaving whose insertions stay within the horizon, no event is handed to the
      test module before its time, and each was minimal in the queue it was extracted from. */
  lemma EveryDeliveryOnTime(states: seq<State>, labels: seq<Label>, start: Timeval, k: int)
    requires Run(states, labels, start) && AddsWithinHorizon(states, labels)
    requires 0 <= k < |states[|labels|].log|
    ensures var d := states[|labels|].log[k];
            Leq(d.e.key, d.at) && Minimal(d.e, d.queued)
  {
    RunKeepsInv(states, labels, start);
  }

  /** The unlocked window never leaves the event thread with an empty queue to extract from. */
  lemma ExtractionFindsAnEvent(states: seq<State>, labels: seq<Label>, start: Timeval, s': State)
    requires Run(states, labels, start) && AddsWithinHorizon(states, labels)
    ensures !Next(states[|labels|], LoopPopEmpty, s')
  {
    RunKeepsInv(states, labels, start);
  }

  // ---------------------------------------------------------------- what is due is delivered

  predicate ByLoopThread(l: Label) {
    !(l.Tick? || l.SetEnd? || l.ClientLock? || l.ClientAdd? || l.ClientUnlock?)
  }

  /** How many of these steps the event thread took. */
  function LoopSteps(labels: seq<Label>): nat {
    if labels == [] then 0
    else LoopSteps(labels[..|labels| - 1]) + if ByLoopThread(labels[|labels| - 1]) then 1 else 0
  }

  /** Where the event thread is after n steps that started with a poll that found something due. */
  ghost predicate Stage(s: State, n: nat) {
    if n == 0 then s.pc == Polling && HasDue(s)
    else if n == 1 then s.pc.Polled? && s.pc.next <= 0
    else if n == 2 then s.pc == Due
    else if n == 3 then s.pc == Popping
    else if n == 4 then s.pc.Popped?
    else n == 5 && s.pc.Handing?
  }

  /** A step of another thread, or of the clock, leaves the event thread where it is. */
  lemma OthersKeepStage(s: State, l: Label, s': State, n: nat)
    requires Next(s, l, s') && !ByLoopThread(l) && n <= 5 && Stage(s, n)
    ensures Stage(s', n) && s'.log == s.log
  {
    if n == 0 {
      var e :| e in s.queue.pending && Leq(e.key, s.now);
      DueStays(s, s', e);
    }
  }

  /** A step of the event thread takes it to the next stage, and the sixth delivers an event. */
  lemma LoopAdvances(s: State, l: Label, s': State, n: nat)
    requires Inv(s) && Next(s, l, s') && ByLoopThread(l) && n <= 5 && Stage(s, n)
    ensures n < 5 ==> Stage(s', n + 1) && s'.log == s.log
    ensures n == 5 ==> s'.pc == Idle && |s'.log| == |s.log| + 1
  {
    if n == 0 {
      PollDecidesIff(s, l.next);
    }
  }

  lemma InvAt(states: seq<State>, labels: seq<Label>, start: Timeval, k: int)
    requires Run(states, labels, start) && AddsWithinHorizon(states, labels) && 0 <= k <= |labels|
    ensures Inv(states[k])
  {
    var ss, ls := states[..k + 1], labels[..k];
    assert Run(ss, ls, start) by {
      forall i | 0 <= i < k ensures NextAt(ss, ls, i) { assert NextAt(states, labels, i); }
    }
    assert AddsWithinHorizon(ss, ls);
    RunKeepsInv(ss, ls, start);
  }

  lemma StageStep(states: seq<State>, labels: seq<Label>, start: Timeval, k: int, n: nat)
    requires Run(states, labels, start) && AddsWithinHorizon(states, labels) && 0 <= k < |labels|
    requires Stage(states[k], n) && n + (if ByLoopThread(labels[k]) then 1 else 0) <= 5
    ensures Stage(states[k + 1], n + if ByLoopThread(labels[k]) then 1 else 0) && states[k + 1].log == states[k].log
  {
    InvAt(states, labels, start, k);
    assert NextAt(states, labels, k);
    if ByLoopThread(labels[k]) {
      LoopAdvances(states[k], labels[k], states[k + 1], n);
    } else {
      OthersKeepStage(states[k], labels[k], states[k + 1], n);
    }
  }

  lemma {:induction false} StageAfter(states: seq<State>, labels: seq<Label>, start: Timeval, i: int, j: int)
    requires Run(states, labels, start) && AddsWithinHorizon(states, labels) && 0 <= i <= j <= |labels|
    requires states[i].pc == Polling && HasDue(states[i]) && LoopSteps(labels[i..j]) <= 5
    ensures Stage(states[j], LoopSteps(labels[i..j])) && states[j].log == states[i].log
    decreases j
  {
    if i < j {
      assert labels[i..j][..j - i - 1] == labels[i..j - 1];
      StageAfter(states, labels, start, i, j - 1);
      StageStep(states, labels, start, j - 1, LoopSteps(labels[i..j - 1]));
    }
  }

  /** In every interleaving within the horizon: when the event thread polls and some event is due, its
      next six steps, whatever the other threads and the clock do in between, deliver an event. It never
      waits. */
  lemma DueIsDelivered(states: seq<State>, labels: seq<Label>, start: Timeval, i: int, j: int)
    requires Run(states, labels, start) && AddsWithinHorizon(states, labels) && 0 <= i < j <= |labels|
    requires states[i].pc == Polling && HasDue(states[i])
    requires LoopSteps(labels[i..j]) == 6 && ByLoopThread(labels[j - 1])
    ensures |states[j].log| == |states[i].log| + 1
  {
    assert labels[i..j][..j - i - 1] == labels[i..j - 1];
    StageAfter(states, labels, start, i, j - 1);
    InvAt(states, labels, start, j - 1);
    assert NextAt(states, labels, j - 1);
    LoopAdvances(states[j - 1], labels[j - 1], states[j], 5);
  }

  lemma {:induction false} MinimalExists(m: multiset<Qelm>) returns (e: Qelm)
    requires m != multiset{}
    ensures Minimal(e, m)
    decreases |m|
  {
    var x :| x in m;
    var rest := m - multiset{x};
    assert m == rest + multiset{x};
    if rest == multiset{} {
      e := x;
    } else {
      var y := MinimalExists(rest);
      e := if Less(y.key, x.key) then y else x;
    }
  }

  /** The event thread can take a step. */
  ghost predicate CanStep(s: State) {
    exists l, s' :: ByLoopThread(l) && Next(s, l, s')
  }

  lemma PollCanStep(s: State)
    requires s.pc == Polling
    ensures CanStep(s)
  {
    var next := 1_000_000;
    if s.queue.pending != multiset{} {
      var e := MinimalExists(s.queue.pending);
      next := if Less(e.key, s.now) then -1 else Wrap32(Sub(e.key, s.now).Micros());
    }
    assert NextEvent(s.queue.pending, s.now, next);
    assert Next(s, LoopPoll(next), s.(pc := Polled(next)));
  }

  lemma PopCanStep(s: State)
    requires s.pc == Popping && HasDue(s)
    ensures CanStep(s)
  {
    var e := MinimalExists(s.queue.pending);
    var after := s.queue.(pending := s.queue.pending - multiset{e});
    assert Next(s, LoopPop(e), s.(queue := after, pc := Popped(e, s.queue.pending)));
  }

  /** In every interleaving within the horizon the event thread never gets stuck: until the end is asked for,
      it can take a step whenever no client holds the mutex. */
  lemma NeverStuck(states: seq<State>, labels: seq<Label>, start: Timeval)
    requires Run(states, labels, start) && AddsWithinHorizon(states, labels)
    requires !states[|labels|].end && !states[|labels|].lock.ByClient?
    ensures CanStep(states[|labels|])
  {
    RunKeepsInv(states, labels, start);
    var s := states[|labels|];
    match s.pc
    case Idle => assert Next(s, LoopLock, s.(lock := ByLoop, pc := Polling));
    case Polling => PollCanStep(s);
    case Polled(next) =>
      if next > 0 {
        assert Next(s, LoopWait, s.(lock := Free, pc := Waiting));
      } else {
        assert Next(s, LoopUnlock, s.(lock := Free, pc := Due));
      }
    case Waiting => assert Next(s, LoopWake, s.(lock := ByLoop, pc := Polling));
    case Due => assert Next(s, LoopRelock, s.(lock := ByLoop, pc := Popping));
    case Popping => PopCanStep(s);
    case Popped(e, queued) => assert Next(s, LoopPopUnlock, s.(lock := Free, pc := Handing(e, queued)));
    case Handing(e, queued) =>
      assert Next(s, LoopHandle, s.(pc := Idle, log := s.log + [Delivery(e, queued, s.now)]));
  }

  // ---------------------------------------------------------------- nothing lost, nothing twice

  function AddedBy(labels: seq<Label>): seq<Qelm> {
    if labels == [] then []
    else
      var l := labels[|labels| - 1];
      AddedBy(labels[..|labels| - 1]) + if l.ClientAdd? then [l.e] else []
  }

  /** How often the handler was called with this event. */
  function TimesDelivered(log: seq<Delivery>, e: Qelm): nat {
    if log == [] then 0
    else TimesDelivered(log[..|log| - 1], e) + if log[|log| - 1].e == e then 1 else 0
  }

  /** Whether the event has left the queue and not reached the handler yet. */
  predicate InHand(pc: Pc, e: Qelm) {
    (pc.Popped? || pc.Handing?) && pc.e == e
  }

  /** In how many places the event is: queued, in the event thread's hands, delivered. */
  ghost function Places(s: State, e: Qelm): nat {
    s.queue.pending[e] + (if InHand(s.pc, e) then 1 else 0) + TimesDelivered(s.log, e)
  }

  lemma StepConserves(s: State, l: Label, s': State, e: Qelm)
    requires Next(s, l, s')
    ensures Places(s', e) == Places(s, e) + if l.ClientAdd? && l.e == e then 1 else 0
  {
    if l.LoopHandle? {
      HandleConserves(s, s', e);
    } else if l.LoopPop? {
      PopConserves(s, l, s', e);
    } else if l.ClientAdd? {
      AddConserves(s, l, s', e);
    } else {
      assert s'.queue == s.queue && s'.log == s.log;
    }
  }

  lemma HandleConserves(s: State, s': State, e: Qelm)
    requires Next(s, LoopHandle, s')
    ensures Places(s', e) == Places(s, e)
  {
    assert s'.log[..|s'.log| - 1] == s.log;
  }

  lemma PopConserves(s: State, l: Label, s': State, e: Qelm)
    requires l.LoopPop? && Next(s, l, s')
    ensures Places(s', e) == Places(s, e)
  {
    assert s'.log == s.log;
  }

  lemma AddConserves(s: State, l: Label, s': State, e: Qelm)
    requires l.ClientAdd? && Next(s, l, s')
    ensures Places(s', e) == Places(s, e) + if l.e == e then 1 else 0
  {
    assert s'.log == s.log && s'.pc == s.pc;
  }

  /** In every interleaving, within the horizon or not: an event is queued, in the event thread's
      hands or delivered exactly as many times as it was added. */
  lemma {:induction false} EventsConserved(states: seq<State>, labels: seq<Label>, start: Timeval, e: Qelm)
    requires Run(states, labels, start)
    ensures multiset(AddedBy(labels))[e] == Places(states[|labels|], e)
    decreases |labels|
  {
    if labels == [] {
    } else {
      var n := |labels| - 1;
      RunPrefix(states, labels, start);
      EventsConserved(states[..n + 1], labels[..n], start, e);
      StepConserves(states[n], labels[n], states[n + 1], e);
    }
  }

  /** The n-th event added in a run carries id n, so no two events share one. */
  lemma {:induction false} AddedIdsCountUp(states: seq<State>, labels: seq<Label>, start: Timeval)
    requires Run(states, labels, start)
    ensures states[|labels|].queue.nextId == states[0].queue.nextId + |AddedBy(labels)|
    ensures forall i | 0 <= i < |AddedBy(labels)| :: AddedBy(labels)[i].id == states[0].queue.nextId + i
    decreases |labels|
  {
    if labels == [] {
    } else {
      RunPrefix(states, labels, start);
      AddedIdsCountUp(states[..|labels|], labels[..|labels| - 1], start);
    }
  }

  /** In every interleaving: no event is delivered twice, and a delivered event is gone from the queue. */
  lemma DeliveredAtMostOnce(states: seq<State>, labels: seq<Label>, start: Timeval, e: Qelm)
    requires Run(states, labels, start)
    ensures TimesDelivered(states[|labels|].log, e) <= 1
    ensures TimesDelivered(states[|labels|].log, e) == 1 ==> e !in states[|labels|].queue.pending
  {
    EventsConserved(states, labels, start, e);
    AddedIdsCountUp(states, labels, start);
    DistinctIdsOnce(AddedBy(labels), states[0].queue.nextId, e);
  }

  // ---------------------------------------------------------------- the horizon is exact

  /** A run in which every insertion is of this key, made at the start time. */
  ghost predicate SingleKeyRun(states: seq<State>, labels: seq<Label>, key: Timeval, start: Timeval) {
    && Run(states, labels, start)
    && forall k | 0 <= k < |labels| && labels[k].ClientAdd? :: labels[k].e.key == key && states[k].now == start
  }

  predicate Early(s: State) {
    exists k | 0 <= k < |s.log| :: Less(s.log[k].at, s.log[k].e.key)
  }

  function FromMicros(m: int): (t: Timeval)
    ensures t.Normal() && t.Micros() == m
  {
    Timeval(m / USEC_PER_SEC, m % USEC_PER_SEC)
  }

  /** The states of the early run: added at start, polled at poll with 2^31 microseconds left. */
  ghost function EarlyStates(e: Qelm, start: Timeval, poll: Timeval, next: int): seq<State> {
    var s0 := Boot(start, 0);
    var s1 := s0.(lock := ByClient(0, false));
    var s2 := s1.(queue := Spec(multiset{e}, 1), lock := ByClient(0, true));
    var s3 := s2.(lock := Free);
    var s4 := s3.(now := poll);
    var s5 := s4.(lock := ByLoop, pc := Polling);
    var s6 := s5.(pc := Polled(next));
    var s7 := s6.(lock := Free, pc := Due);
    var s8 := s7.(lock := ByLoop, pc := Popping);
    var s9 := s8.(queue := Spec(multiset{}, 1), pc := Popped(e, multiset{e}));
    var s10 := s9.(lock := Free, pc := Handing(e, multiset{e}));
    var s11 := s10.(pc := Idle, log := [Delivery(e, multiset{e}, poll)]);
    [s0, s1, s2, s3, s4, s5, s6, s7, s8, s9, s10, s11]
  }

  function EarlyLabels(e: Qelm, poll: Timeval, next: int): seq<Label> {
    [ClientLock(0), ClientAdd(e), ClientUnlock, Tick(poll), LoopLock, LoopPoll(next),
     LoopUnlock, LoopRelock, LoopPop(e), LoopPopUnlock, LoopHandle]
  }

  lemma EarlyAdd(e: Qelm, start: Timeval, poll: Timeval, next: int, k: int)
    requires e.id == 0 && e.key.Normal() && e.data.eventtime == e.key
    requires poll.Normal() && Leq(start, poll)
    requires next <= 0 && NextEvent(multiset{e}, poll, next)
    requires 0 <= k < 4
    ensures Next(EarlyStates(e, start, poll, next)[k], EarlyLabels(e, poll, next)[k],
                 EarlyStates(e, start, poll, next)[k + 1])
  {
    EarlyQueueSteps(e);
  }

  lemma EarlyPoll(e: Qelm, start: Timeval, poll: Timeval, next: int, k: int)
    requires e.id == 0 && e.key.Normal() && e.data.eventtime == e.key
    requires poll.Normal() && Leq(start, poll)
    requires next <= 0 && NextEvent(multiset{e}, poll, next)
    requires 4 <= k < 8
    ensures Next(EarlyStates(e, start, poll, next)[k], EarlyLabels(e, poll, next)[k],
                 EarlyStates(e, start, poll, next)[k + 1])
  {
  }

  lemma EarlyPop(e: Qelm, start: Timeval, poll: Timeval, next: int, k: int)
    requires e.id == 0 && e.key.Normal() && e.data.eventtime == e.key
    requires poll.Normal() && Leq(start, poll)
    requires next <= 0 && NextEvent(multiset{e}, poll, next)
    requires 8 <= k < 11
    ensures Next(EarlyStates(e, start, poll, next)[k], EarlyLabels(e, poll, next)[k],
                 EarlyStates(e, start, poll, next)[k + 1])
  {
    EarlyQueueSteps(e);
  }

  lemma EarlySteps(e: Qelm, start: Timeval, poll: Timeval, next: int, k: int)
    requires e.id == 0 && e.key.Normal() && e.data.eventtime == e.key
    requires poll.Normal() && Leq(start, poll)
    requires next <= 0 && NextEvent(multiset{e}, poll, next)
    requires 0 <= k < 11
    ensures Next(EarlyStates(e, start, poll, next)[k], EarlyLabels(e, poll, next)[k],
                 EarlyStates(e, start, poll, next)[k + 1])
  {
    if k < 4 {
      EarlyAdd(e, start, poll, next, k);
    } else if k < 8 {
      EarlyPoll(e, start, poll, next, k);
    } else {
      EarlyPop(e, start, poll, next, k);
    }
  }

  lemma EarlyQueueSteps(e: Qelm)
    requires e.data.eventtime == e.key
    ensures Step(Start(e.id), Add(e), Spec(multiset{e}, e.id + 1))
    ensures Step(Spec(multiset{e}, e.id + 1), Extract(e), Spec(multiset{}, e.id + 1))
  {
    assert multiset{} + multiset{e} == multiset{e};
    assert multiset{e} - multiset{e} == multiset{};
  }

  /** An event scheduled 2^31 microseconds or more ahead can be run too early: once the time
      left is exactly 2^31 microseconds, its narrowed value is negative. */
  lemma BeyondHorizonEarly(key: Timeval, start: Timeval) returns (states: seq<State>, labels: seq<Label>)
    requires key.Normal() && start.Normal() && !WithinHorizon(key, start)
    ensures SingleKeyRun(states, labels, key, start) && Early(states[|labels|])
  {
    var e := Qelm(0, key, WcEvent(key, 0, 0));
    var poll := FromMicros(key.Micros() - HORIZON);
    var next := Wrap32(HORIZON);
    LessIsEarlier(poll, start);
    LessIsEarlier(poll, key);
    LessIsEarlier(key, poll);
    SubIsDifference(key, poll);
    assert next <= 0;
    assert Minimal(e, multiset{e});
    assert NextEvent(multiset{e}, poll, next);
    states, labels := EarlyStates(e, start, poll, next), EarlyLabels(e, poll, next);
    forall k | 0 <= k < |labels|
      ensures NextAt(states, labels, k)
    {
      EarlySteps(e, start, poll, next, k);
    }
    assert states[11].log[0].at == poll;
  }

  /** Exactly the events scheduled less than 2^31 microseconds ahead are safe from early delivery. */
  lemma HorizonIsExact(key: Timeval, start: Timeval)
    requires key.Normal() && start.Normal()
    ensures (exists states, labels :: SingleKeyRun(states, labels, key, start) && Early(states[|labels|]))
            <==> key.Micros() - start.Micros() >= HORIZON
  {
    if WithinHorizon(key, start) {
      forall states, labels | SingleKeyRun(states, labels, key, start)
        ensures !Early(states[|labels|])
      {
        RunKeepsInv(states, labels, start);
      }
    } else {
      var states, labels := BeyondHorizonEarly(key, start);
    }
  }
}
