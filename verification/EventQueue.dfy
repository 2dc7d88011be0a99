/** wc_event.c: the timer queue as an object over a doubling array. */
module EventQueue {
  import opened Time
  import opened HeapModel
  import TimerSpec

  /** The abstract queue that a heap and an id counter stand for. */
  ghost function Abstract(s: seq<Qelm>, nextId: int): TimerSpec.Spec
    requires |s| >= 1
  {
    TimerSpec.Spec(Elems(s), nextId)
  }

  lemma InsertRefines(p: multiset<Qelm>, q: multiset<Qelm>, e: Qelm)
    requires q == p + multiset{e} && e.data.eventtime == e.key
    ensures TimerSpec.Step(TimerSpec.Spec(p, e.id), TimerSpec.Add(e), TimerSpec.Spec(q, e.id + 1))
  {
  }

  lemma ExtractRefines(p: multiset<Qelm>, q: multiset<Qelm>, e: Qelm, nextId: int)
    requires p == q + multiset{e} && Minimal(e, p)
    ensures TimerSpec.Step(TimerSpec.Spec(p, nextId), TimerSpec.Extract(e), TimerSpec.Spec(q, nextId))
  {
  }

  lemma DeleteRefines(p: multiset<Qelm>, q: multiset<Qelm>, e: Qelm, nextId: int)
    requires p == q + multiset{e}
    ensures TimerSpec.Step(TimerSpec.Spec(p, nextId), TimerSpec.Remove(e), TimerSpec.Spec(q, nextId))
  {
  }

  lemma MissingRefines(s: seq<Qelm>, id: int, nextId: int)
    requires |s| >= 1 && forall j | 1 <= j < |s| :: s[j].id != id
    ensures TimerSpec.Step(Abstract(s, nextId), TimerSpec.RemoveMissing(id), Abstract(s, nextId))
  {
  }

  lemma HeadDecides(s: seq<Qelm>, now: Timeval)
    requires |s| >= 2 && HeapOrdered(s)
    ensures Minimal(s[1], Elems(s))
    ensures Leq(now, s[1].key) ==> forall e | e in Elems(s) :: Leq(now, e.key)
  {
    RootIsMinimal(s);
  }

  class WcQueue {
    var slots: array<Qelm>   // slot 0 is never used
    var length: int
    var size: int
    var nextId: int          // WC_EVENT_ID

    ghost predicate Valid()
      reads this, slots
    {
      && length == slots.Length
      && 0 <= size < length
      && HeapOrdered(slots[..size + 1])
    }

    /** The abstract queue this object stands for. */
    ghost function Model(): TimerSpec.Spec
      reads this, slots
      requires Valid()
    {
      Abstract(slots[..size + 1], nextId)
    }

    /** wc_queue_init. The ids of this queue go on where those of the last one ended. */
    constructor (initSize: int, firstId: int)
      requires initSize >= 1
      ensures Valid() && fresh(slots)
      ensures length == initSize
      ensures Model() == TimerSpec.Start(firstId)
    {
      slots := new Qelm[initSize];
      length, size, nextId := initSize, 0, firstId;
    }

    predicate IsEmpty()
      reads this
    {
      size < 1
    }

    /** verify_heap: the run-time check of the heap property, as an answer instead of an abort. */
    method VerifyHeap() returns (ok: bool)
      requires length == slots.Length && 0 <= size < length
      ensures ok <==> HeapOrdered(slots[..size + 1])
    {
      ghost var s := slots[..size + 1];
      var i := 1;
      while i <= size
        invariant 1 <= i <= size + 1
        invariant forall j | 2 <= j <= size && j < 2 * i :: Edge(s, j)
      {
        if 2 * i <= size && Less(slots[2 * i].key, slots[i].key) {
          assert !Edge(s, 2 * i);
          return false;
        }
        if 2 * i + 1 <= size && Less(slots[2 * i + 1].key, slots[i].key) {
          assert !Edge(s, 2 * i + 1);
          return false;
        }
        i := i + 1;
      }
      ok := true;
    }

    method Heapify(i: int)
      requires 0 <= size < slots.Length && 1 <= i < slots.Length
      modifies slots
      ensures slots[..size + 1] == HeapModel.Heapify(old(slots[..size + 1]), i)
      decreases size - i
    {
      var l, r := 2 * i, 2 * i + 1;
      var largest;
      if l <= size && Less(slots[l].key, slots[i].key) {
        largest := l;
      } else {
        largest := i;
      }
      if r <= size && Less(slots[r].key, slots[largest].key) {
        largest := r;
      }
      if largest != i {
        slots[i], slots[largest] := slots[largest], slots[i];
        assert slots[..size + 1] == Swap(old(slots[..size + 1]), i, largest);
        Heapify(largest);
      }
    }

    /** wc_queue_double */
    method Double()
      requires Valid()
      modifies this`slots, this`length
      ensures Valid() && fresh(slots)
      ensures length == 2 * old(length)
      ensures slots[..size + 1] == old(slots[..size + 1])
    {
      var neoarray := new Qelm[2 * length];
      forall k | 0 <= k < length {
        neoarray[k] := slots[k];
      }
      length := length * 2;
      slots := neoarray;
      assert slots[..size + 1] == old(slots[..size + 1]);
    }

    /** wc_event_add */
    method Add(fun: Pointer, arg: Pointer, key: Timeval) returns (id: int)
      requires Valid()
      modifies this, slots
      ensures Valid()
      ensures slots == old(slots) || fresh(slots)
      ensures TimerSpec.Step(old(Model()), TimerSpec.Add(Qelm(id, key, WcEvent(key, fun, arg))), Model())
    {
      ghost var p := Elems(slots[..size + 1]);
      MakeRoom();
      assert Elems(slots[..size + 1]) == p;
      id := nextId;
      var e := Qelm(id, key, WcEvent(key, fun, arg));
      nextId := nextId + 1;
      Insert(e);
      assert Elems(slots[..size + 1]) == p + multiset{e};
      InsertRefines(p, Elems(slots[..size + 1]), e);
    }

    /** The head of wc_event_add: a full array is doubled. */
    method MakeRoom()
      requires Valid()
      modifies this`slots, this`length
      ensures Valid() && size + 1 < length
      ensures slots == old(slots) || fresh(slots)
      ensures slots[..size + 1] == old(slots[..size + 1])
    {
      if size + 1 >= length {
        Double();
      }
    }

    /** Puts the event where it belongs. */
    method Insert(e: Qelm)
      requires Valid() && size + 1 < length
      modifies this`size, slots
      ensures Valid() && Elems(slots[..size + 1]) == old(Elems(slots[..size + 1])) + multiset{e}
    {
      ghost var s := slots[..size + 1];
      size := size + 1;
      Climb(e, s);
      InsertCorrect(s, e);
    }

    /** The loop of wc_event_add: parents later than the new event move down one level
        until its place is found. */
    method Climb(e: Qelm, ghost s: seq<Qelm>)
      requires 1 <= size < slots.Length && s == slots[..size]
      modifies slots
      ensures slots[..size + 1] == Inserted(s, e)
    {
      var i := size;
      assert slots[..size + 1][size := e] == s + [e];
      while i > 1 && Less(e.key, slots[i / 2].key)
        invariant 1 <= i <= size
        invariant SiftUp(slots[..size + 1][i := e], i) == Inserted(s, e)
      {
        ghost var t := slots[..size + 1][i := e];
        slots[i] := slots[i / 2];
        assert slots[..size + 1][i / 2 := e] == Swap(t, i / 2, i);
        i := i / 2;
      }
      ghost var u := slots[..size + 1];
      slots[i] := e;
      assert slots[..size + 1] == u[i := e];
    }

    /** wc_queue_extract: got == false is the -1 return. The event e is the one the
        out-parameters describe. */
    method Extract() returns (got: bool, id: int, key: Timeval, fun: Pointer, arg: Pointer, ghost e: Qelm)
      requires Valid()
      modifies this`size, slots
      ensures Valid()
      ensures !got ==> TimerSpec.Step(old(Model()), TimerSpec.ExtractEmpty, Model())
      ensures got ==> TimerSpec.Step(old(Model()), TimerSpec.Extract(e), Model())
      ensures got ==> e.id == id && e.key == key && e.data.fun == fun && e.data.arg == arg
    {
      ghost var s := slots[..size + 1];
      e := slots[0];
      if size < 1 {
        assert s[1..] == [];
        return false, 0, Timeval(0, 0), 0, 0, e;
      }
      e := slots[1];
      var data := slots[1].data;
      key, id := slots[1].key, slots[1].id;
      PopRoot();
      got, fun, arg := true, data.fun, data.arg;
      ExtractRefines(Elems(s), Elems(slots[..size + 1]), e, nextId);
    }

    /** The middle of wc_queue_extract: the last event moves to the root and sinks. */
    method PopRoot()
      requires Valid() && size >= 1
      modifies this`size, slots
      ensures Valid() && size == old(size) - 1
      ensures old(Elems(slots[..size + 1])) == Elems(slots[..size + 1]) + multiset{old(slots[1])}
      ensures Minimal(old(slots[1]), old(Elems(slots[..size + 1])))
    {
      ghost var s := slots[..size + 1];
      slots[1] := slots[size];
      size := size - 1;
      assert slots[..size + 1] == MoveLastTo(s, 1);
      Heapify(1);
      assert slots[..size + 1] == Extracted(s);
      ExtractCorrect(s);
    }

    /** wc_event_remove: got == false is the -1 return. */
    method Remove(id: int) returns (got: bool, fun: Pointer, arg: Pointer, ghost e: Qelm)
      requires Valid()
      modifies this`size, slots
      ensures Valid()
      ensures !got ==> TimerSpec.Step(old(Model()), TimerSpec.RemoveMissing(id), Model())
      ensures got ==> TimerSpec.Step(old(Model()), TimerSpec.Remove(e), Model())
      ensures got ==> e.id == id && e.data.fun == fun && e.data.arg == arg
    {
      e := slots[0];
      var i := Find(id);
      if i > size {
        MissingRefines(slots[..size + 1], id, nextId);
        return false, 0, 0, e;
      }
      got := true;
      fun, arg, e := RemoveAt(i);
    }

    /** wc_event_remove once the event is found. */
    method RemoveAt(i: int) returns (fun: Pointer, arg: Pointer, ghost e: Qelm)
      requires Valid() && 1 <= i <= size
      modifies this`size, slots
      ensures Valid() && e == old(slots[i]) && e.data.fun == fun && e.data.arg == arg
      ensures TimerSpec.Step(old(Model()), TimerSpec.Remove(e), Model())
    {
      ghost var p := Elems(slots[..size + 1]);
      e := slots[i];
      var data := slots[i].data;
      fun, arg := data.fun, data.arg;
      DropSlot(i);
      DeleteRefines(p, Elems(slots[..size + 1]), e, nextId);
    }

    /** The search of wc_event_remove: a slot with that id, or one past the last. */
    method Find(id: int) returns (i: int)
      requires 0 <= size < slots.Length
      ensures 1 <= i <= size + 1
      ensures i <= size ==> slots[i].id == id
      ensures forall j | 1 <= j < i :: slots[j].id != id
    {
      i := 1;
      while i <= size && slots[i].id != id
        invariant 1 <= i <= size + 1
        invariant forall j | 1 <= j < i :: slots[j].id != id
      {
        i := i + 1;
      }
    }

    /** The tail of wc_event_remove: the last event moves to the slot, then the heap is fixed up. */
    method DropSlot(slot: int)
      requires Valid() && 1 <= slot <= size
      modifies this`size, slots
      ensures Valid() && size == old(size) - 1
      ensures old(Elems(slots[..size + 1])) == Elems(slots[..size + 1]) + multiset{old(slots[slot])}
    {
      ghost var s := slots[..size + 1];
      slots[slot] := slots[size];
      size := size - 1;
      assert slots[..size + 1] == MoveLastTo(s, slot);
      FixUp(slot);
      assert slots[..size + 1] == Deleted(s, slot);
      DeleteCorrect(s, slot);
    }

    /** The do-while loop of wc_event_remove: heapify at a slot and at every ancestor of it. */
    method FixUp(slot: int)
      requires 0 <= size < slots.Length && 1 <= slot < slots.Length
      modifies slots
      ensures slots[..size + 1] == Rebuild(old(slots[..size + 1]), slot)
    {
      var i := slot;
      Heapify(i);
      i := i / 2;
      while i > 0
        invariant 0 <= i < slots.Length
        invariant (if i > 0 then Rebuild(slots[..size + 1], i) else slots[..size + 1])
               == Rebuild(old(slots[..size + 1]), slot)
      {
        Heapify(i);
        i := i / 2;
      }
    }

    /** wc_get_next_event_delta: 0 with the time left, -1 with no event, 1 if the earliest has passed. */
    method NextEventDelta(now: Timeval) returns (ret: int, delta: Timeval)
      requires Valid()
      ensures ret == -1 <==> Model().pending == multiset{}
      ensures ret == 1 ==> exists e :: Minimal(e, Model().pending) && Less(e.key, now)
      ensures ret != 1 ==> forall e | e in Model().pending :: Leq(now, e.key)
      ensures ret == 0 ==> exists e :: Minimal(e, Model().pending) && Leq(now, e.key) && delta == Sub(e.key, now)
      ensures ret in {-1, 0, 1}
    {
      ghost var s := slots[..size + 1];
      assert Model().pending == Elems(s);
      delta := Timeval(0, 0);
      if IsEmpty() {
        assert s[1..] == [];
        return -1, delta;
      }
      HeadDecides(s, now);
      if Less(slots[1].key, now) {
        return 1, delta;
      }
      delta := Sub(slots[1].key, now);
      ret := 0;
    }

    /** timer_get_next_event */
    method NextEvent(now: Timeval) returns (us: int)
      requires Valid()
      ensures TimerSpec.NextEvent(Model().pending, now, us)
    {
      var ret, delta := NextEventDelta(now);
      if ret == 0 {
        us := Wrap32(delta.Micros());
      } else if ret == -1 {
        us := 1_000_000;
      } else {
        us := -1;
      }
    }
  }
}
