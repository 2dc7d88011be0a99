/** What a timer queue is for, with no heap in it: a bag of pending events with fresh ids,
    from which a minimal event or a chosen event can be taken. */
module TimerSpec {
  import opened Time
  import opened HeapModel

  datatype Spec = Spec(pending: multiset<Qelm>, nextId: int)

  /** One completed call together with the event it moved. */
  datatype Op =
    | Add(e: Qelm)
    | Extract(e: Qelm)
    | ExtractEmpty
    | Remove(e: Qelm)
    | RemoveMissing(id: int)

  ghost predicate Step(s: Spec, op: Op, s': Spec) {
    match op
    case Add(e) =>
      && e.id == s.nextId
      && e.data.eventtime == e.key
      && s' == Spec(s.pending + multiset{e}, s.nextId + 1)
    case Extract(e) =>
      && Minimal(e, s.pending)
      && s' == s.(pending := s.pending - multiset{e})
    case ExtractEmpty =>
      s.pending == multiset{} && s' == s
    case Remove(e) =>
      && e in s.pending
      && s' == s.(pending := s.pending - multiset{e})
    case RemoveMissing(id) =>
      (forall x | x in s.pending :: x.id != id) && s' == s
  }

  function Start(firstId: int): Spec {
    Spec(multiset{}, firstId)
  }

  /** What timer_get_next_event may answer for this queue at this time: a second when there is
      nothing to wait for, -1 when an event has passed, else the microseconds to the earliest
      event, narrowed to a C int. */
  ghost predicate NextEvent(pending: multiset<Qelm>, now: Timeval, us: int) {
    || (pending == multiset{} && us == 1_000_000)
    || exists e :: Minimal(e, pending) &&
         us == if Less(e.key, now) then -1 else Wrap32(Sub(e.key, now).Micros())
  }

  /** states[k] is the queue before ops[k] and states[k + 1] the queue after it. */
  ghost predicate Run(states: seq<Spec>, ops: seq<Op>) {
    && |states| == |ops| + 1
    && forall k | 0 <= k < |ops| :: Step(states[k], ops[k], states[k + 1])
  }

  function Added(ops: seq<Op>): seq<Qelm> {
    if ops == [] then []
    else
      var last := ops[|ops| - 1];
      Added(ops[..|ops| - 1]) + if last.Add? then [last.e] else []
  }

  /** The events handed out, by extraction or by deletion. */
  function Taken(ops: seq<Op>): seq<Qelm> {
    if ops == [] then []
    else
      var last := ops[|ops| - 1];
      Taken(ops[..|ops| - 1]) + if last.Extract? || last.Remove? then [last.e] else []
  }

  lemma RunPrefix(states: seq<Spec>, ops: seq<Op>)
    requires Run(states, ops) && ops != []
    ensures Run(states[..|ops|], ops[..|ops| - 1])
    ensures Step(states[|ops| - 1], ops[|ops| - 1], states[|ops|])
  {
    var ss, os := states[..|ops|], ops[..|ops| - 1];
    forall k | 0 <= k < |os|
      ensures Step(ss[k], os[k], ss[k + 1])
    {
      assert Step(states[k], ops[k], states[k + 1]);
    }
  }

  /** The n-th event added gets the n-th id. */
  lemma {:induction false} IdsCountUp(states: seq<Spec>, ops: seq<Op>, firstId: int)
    requires Run(states, ops) && states[0] == Start(firstId)
    ensures states[|ops|].nextId == firstId + |Added(ops)|
    ensures forall k | 0 <= k < |Added(ops)| :: Added(ops)[k].id == firstId + k
    decreases |ops|
  {
    if ops != [] {
      RunPrefix(states, ops);
      IdsCountUp(states[..|ops|], ops[..|ops| - 1], firstId);
    }
  }

  lemma StepConserves(s: Spec, op: Op, s': Spec, e: Qelm)
    requires Step(s, op, s')
    ensures s'.pending[e] + (if (op.Extract? || op.Remove?) && op.e == e then 1 else 0)
         == s.pending[e] + (if op.Add? && op.e == e then 1 else 0)
  {
  }

  /** Over every run, for every event: it was added as often as it was taken or is still pending. */
  lemma {:induction false} Conservation(states: seq<Spec>, ops: seq<Op>, firstId: int, e: Qelm)
    requires Run(states, ops) && states[0] == Start(firstId)
    ensures multiset(Added(ops))[e] == multiset(Taken(ops))[e] + states[|ops|].pending[e]
    decreases |ops|
  {
    if ops == [] {
    } else {
      var n := |ops| - 1;
      RunPrefix(states, ops);
      Conservation(states[..n + 1], ops[..n], firstId, e);
      StepConserves(states[n], ops[n], states[n + 1], e);
    }
  }

  lemma DistinctIdsOnce(s: seq<Qelm>, firstId: int, e: Qelm)
    requires forall k | 0 <= k < |s| :: s[k].id == firstId + k
    ensures multiset(s)[e] <= 1
    ensures forall f | f in s && e in s && f.id == e.id :: f == e
  {
    if e in s {
      var k :| 0 <= k < |s| && s[k] == e;
      assert s == s[..k] + [e] + s[k + 1..];
      assert e !in s[..k] && e !in s[k + 1..];
    }
  }

  lemma OnceInSeq(s: seq<Qelm>, i: int, j: int)
    requires 0 <= i < j < |s| && s[i] == s[j]
    ensures multiset(s)[s[i]] >= 2
  {
    assert s == s[..j] + [s[j]] + s[j + 1..];
    assert s[..j][i] in s[..j];
  }

  /** An event handed out or pending was added. */
  lemma WasAdded(states: seq<Spec>, ops: seq<Op>, firstId: int, e: Qelm)
    requires Run(states, ops) && states[0] == Start(firstId)
    requires e in Taken(ops) || e in states[|ops|].pending
    ensures e in Added(ops)
    ensures multiset(Taken(ops))[e] + states[|ops|].pending[e] <= 1
  {
    Conservation(states, ops, firstId, e);
    IdsCountUp(states, ops, firstId);
    DistinctIdsOnce(Added(ops), firstId, e);
    assert e in multiset(Added(ops)) by {
      if e in Taken(ops) { assert e in multiset(Taken(ops)); }
    }
  }

  lemma SameIdSameEvent(states: seq<Spec>, ops: seq<Op>, firstId: int, e: Qelm, f: Qelm)
    requires Run(states, ops) && states[0] == Start(firstId)
    requires e in Added(ops) && f in Added(ops) && e.id == f.id
    ensures e == f
  {
    IdsCountUp(states, ops, firstId);
    DistinctIdsOnce(Added(ops), firstId, e);
  }

  /** Over every run: an event is handed out at most once, never while it is still pending,
      and ids never collide, neither among the events taken nor among those pending. */
  lemma AtMostOnce(states: seq<Spec>, ops: seq<Op>, firstId: int)
    requires Run(states, ops) && states[0] == Start(firstId)
    ensures forall i, j | 0 <= i < j < |Taken(ops)| :: Taken(ops)[i].id != Taken(ops)[j].id
    ensures forall i, x | 0 <= i < |Taken(ops)| && x in states[|ops|].pending :: Taken(ops)[i].id != x.id
    ensures forall x, y | x in states[|ops|].pending && y in states[|ops|].pending && x.id == y.id :: x == y
  {
    var taken, pending := Taken(ops), states[|ops|].pending;
    forall i, j | 0 <= i < j < |taken|
      ensures taken[i].id != taken[j].id
    {
      WasAdded(states, ops, firstId, taken[i]);
      WasAdded(states, ops, firstId, taken[j]);
      if taken[i].id == taken[j].id {
        SameIdSameEvent(states, ops, firstId, taken[i], taken[j]);
        OnceInSeq(taken, i, j);
      }
    }
    forall i, x | 0 <= i < |taken| && x in pending
      ensures taken[i].id != x.id
    {
      WasAdded(states, ops, firstId, taken[i]);
      WasAdded(states, ops, firstId, x);
      assert taken[i] in multiset(taken);
      if taken[i].id == x.id {
        SameIdSameEvent(states, ops, firstId, taken[i], x);
      }
    }
    forall x, y | x in pending && y in pending && x.id == y.id
      ensures x == y
    {
      WasAdded(states, ops, firstId, x);
      WasAdded(states, ops, firstId, y);
      SameIdSameEvent(states, ops, firstId, x, y);
    }
  }

  /** Extraction only: Taken is the plain list of the extracted events. */
  lemma {:induction false} DrainTakes(ops: seq<Op>)
    requires forall k | 0 <= k < |ops| :: ops[k].Extract?
    ensures |Taken(ops)| == |ops| && forall k | 0 <= k < |ops| :: Taken(ops)[k] == ops[k].e
  {
    if ops != [] {
      DrainTakes(ops[..|ops| - 1]);
    }
  }

  /** Extraction only: what was there is what was taken plus what is left. */
  lemma {:induction false} DrainConserves(states: seq<Spec>, ops: seq<Op>, e: Qelm)
    requires Run(states, ops)
    requires forall k | 0 <= k < |ops| :: ops[k].Extract?
    ensures states[0].pending[e] == multiset(Taken(ops))[e] + states[|ops|].pending[e]
    decreases |ops|
  {
    if ops != [] {
      var n := |ops| - 1;
      RunPrefix(states, ops);
      DrainConserves(states[..n + 1], ops[..n], e);
      StepConserves(states[n], ops[n], states[n + 1], e);
    }
  }

  /** What is still pending after an extraction is no earlier than what was extracted. */
  lemma {:induction false} LaterStaysLater(states: seq<Spec>, ops: seq<Op>, i: int, x: Qelm)
    requires Run(states, ops)
    requires forall k | 0 <= k < |ops| :: ops[k].Extract?
    requires 0 <= i < |ops| && x in states[|ops|].pending
    ensures Leq(ops[i].e.key, x.key)
    decreases |ops|
  {
    var n := |ops| - 1;
    RunPrefix(states, ops);
    assert x in states[n].pending;
    if i < n {
      assert ops[..n][i] == ops[i];
      LaterStaysLater(states[..|ops|], ops[..n], i, x);
    }
  }

  /** Taking events one by one by extraction hands them out sorted by key. */
  lemma DrainSorts(states: seq<Spec>, ops: seq<Op>, i: int, j: int)
    requires Run(states, ops)
    requires forall k | 0 <= k < |ops| :: ops[k].Extract?
    requires 0 <= i < j < |ops|
    ensures Leq(ops[i].e.key, ops[j].e.key)
  {
    var ss, os := states[..j + 1], ops[..j];
    forall k | 0 <= k < |os|
      ensures Step(ss[k], os[k], ss[k + 1])
    {
      assert Step(states[k], ops[k], states[k + 1]);
    }
    assert Step(states[j], ops[j], states[j + 1]);
    LaterStaysLater(ss, os, i, ops[j].e);
  }

  /** Draining a queue to the end yields its contents as a sorted permutation. */
  lemma FullDrainIsSortedPermutation(states: seq<Spec>, ops: seq<Op>)
    requires Run(states, ops)
    requires forall k | 0 <= k < |ops| :: ops[k].Extract?
    requires states[|ops|].pending == multiset{}
    ensures multiset(Taken(ops)) == states[0].pending
    ensures forall i, j | 0 <= i < j < |Taken(ops)| :: Leq(Taken(ops)[i].key, Taken(ops)[j].key)
  {
    FullDrainPermutes(states, ops);
    DrainTakes(ops);
    forall i, j | 0 <= i < j < |Taken(ops)|
      ensures Leq(Taken(ops)[i].key, Taken(ops)[j].key)
    {
      DrainSorts(states, ops, i, j);
    }
  }

  lemma FullDrainPermutes(states: seq<Spec>, ops: seq<Op>)
    requires Run(states, ops)
    requires forall k | 0 <= k < |ops| :: ops[k].Extract?
    requires states[|ops|].pending == multiset{}
    ensures multiset(Taken(ops)) == states[0].pending
  {
    forall e: Qelm
      ensures multiset(Taken(ops))[e] == states[0].pending[e]
    {
      DrainConserves(states, ops, e);
    }
  }
}
