/** The binary min-heap of wc_event.c on sequences.
    A sequence s stands for array[0..size]: slot 0 is never used, so size == |s| - 1. */
module HeapModel {
  import opened Time

  type Pointer = int

  /** struct wc_event: the callback, its argument and the time it was scheduled for. */
  datatype WcEvent = WcEvent(eventtime: Timeval, fun: Pointer, arg: Pointer)

  /** struct qelm */
  datatype Qelm = Qelm(id: int, key: Timeval, data: WcEvent)

  // ---------------------------------------------------------------- heap order

  predicate Edge(s: seq<Qelm>, j: int)
    requires 2 <= j < |s|
  {
    Leq(s[j / 2].key, s[j].key)
  }

  /** What verify_heap asserts: no child is earlier than its parent. */
  predicate HeapOrdered(s: seq<Qelm>) {
    forall j | 2 <= j < |s| :: Edge(s, j)
  }

  /** The queued events. */
  ghost function Elems(s: seq<Qelm>): multiset<Qelm>
    requires |s| >= 1
  {
    multiset(s[1..])
  }

  ghost predicate Minimal(e: Qelm, q: multiset<Qelm>) {
    e in q && forall x | x in q :: Leq(e.key, x.key)
  }

  /** Slot j lies in the subtree rooted at slot i. */
  predicate Under(i: int, j: int)
    requires 1 <= i
    decreases j
  {
    i <= j && (i == j || Under(i, j / 2))
  }

  function Swap(s: seq<Qelm>, i: int, j: int): (t: seq<Qelm>)
    requires 0 <= i < |s| && 0 <= j < |s|
    ensures |t| == |s| && t[i] == s[j] && t[j] == s[i]
    ensures forall k | 0 <= k < |s| && k != i && k != j :: t[k] == s[k]
  {
    s[i := s[j]][j := s[i]]
  }

  // ---------------------------------------------------------------- operations

  /** The slot among i and its children that heapify moves to i. */
  function Earliest(s: seq<Qelm>, i: int): (c: int)
    requires 1 <= i
    ensures c == i || ((c == 2 * i || c == 2 * i + 1) && i < c < |s|)
    ensures c != i ==> Less(s[c].key, s[i].key)
    ensures i < |s| ==> forall d | i <= d < |s| && (d == i || d == 2 * i || d == 2 * i + 1) :: Leq(s[c].key, s[d].key)
  {
    var l, r := 2 * i, 2 * i + 1;
    var m := if l < |s| && Less(s[l].key, s[i].key) then l else i;
    if r < |s| && Less(s[r].key, s[m].key) then r else m
  }

  function Heapify(s: seq<Qelm>, i: int): (t: seq<Qelm>)
    requires 1 <= i
    ensures |t| == |s|
    decreases |s| - i
  {
    var c := Earliest(s, i);
    if c == i then s else Heapify(Swap(s, i, c), c)
  }

  /** The insertion loop: the new element climbs while its parent is later. */
  function SiftUp(s: seq<Qelm>, i: int): (t: seq<Qelm>)
    requires 1 <= i < |s|
    ensures |t| == |s|
    decreases i
  {
    if i > 1 && Less(s[i].key, s[i / 2].key) then SiftUp(Swap(s, i / 2, i), i / 2) else s
  }

  /** The deletion loop: heapify at slot i and at each of its ancestors. */
  function Rebuild(s: seq<Qelm>, i: int): (t: seq<Qelm>)
    requires 1 <= i
    ensures |t| == |s|
    decreases i
  {
    var t := Heapify(s, i);
    if i / 2 > 0 then Rebuild(t, i / 2) else t
  }

  /** The last element overwrites slot i and the heap shrinks by one. */
  function MoveLastTo(s: seq<Qelm>, i: int): (t: seq<Qelm>)
    requires 1 <= i < |s|
    ensures |t| == |s| - 1
  {
    s[i := s[|s| - 1]][..|s| - 1]
  }

  function Inserted(s: seq<Qelm>, e: Qelm): seq<Qelm>
    requires |s| >= 1
  {
    SiftUp(s + [e], |s|)
  }

  function Extracted(s: seq<Qelm>): seq<Qelm>
    requires |s| >= 2
  {
    Heapify(MoveLastTo(s, 1), 1)
  }

  function Deleted(s: seq<Qelm>, i: int): seq<Qelm>
    requires 1 <= i < |s|
  {
    Rebuild(MoveLastTo(s, i), i)
  }

  // ---------------------------------------------------------------- permutation

  lemma SwapPermutes(s: seq<Qelm>, i: int, j: int)
    requires 1 <= i < |s| && 1 <= j < |s|
    ensures Elems(Swap(s, i, j)) == Elems(s)
  {
    var u := s[1..];
    assert Swap(s, i, j)[1..] == u[i - 1 := u[j - 1]][j - 1 := u[i - 1]];
  }

  lemma {:induction false} HeapifyPermutes(s: seq<Qelm>, i: int)
    requires 1 <= i && |s| >= 1
    ensures Elems(Heapify(s, i)) == Elems(s)
    decreases |s| - i
  {
    var c := Earliest(s, i);
    if c != i {
      SwapPermutes(s, i, c);
      HeapifyPermutes(Swap(s, i, c), c);
    }
  }

  lemma {:induction false} SiftUpPermutes(s: seq<Qelm>, i: int)
    requires 1 <= i < |s|
    ensures Elems(SiftUp(s, i)) == Elems(s)
    decreases i
  {
    if i > 1 && Less(s[i].key, s[i / 2].key) {
      SwapPermutes(s, i / 2, i);
      SiftUpPermutes(Swap(s, i / 2, i), i / 2);
    }
  }

  lemma {:induction false} RebuildPermutes(s: seq<Qelm>, i: int)
    requires 1 <= i && |s| >= 1
    ensures Elems(Rebuild(s, i)) == Elems(s)
    decreases i
  {
    HeapifyPermutes(s, i);
    if i / 2 > 0 {
      RebuildPermutes(Heapify(s, i), i / 2);
    }
  }

  lemma MoveLastDropsOne(s: seq<Qelm>, i: int)
    requires 1 <= i < |s|
    ensures Elems(s) == Elems(MoveLastTo(s, i)) + multiset{s[i]}
  {
    var n := |s| - 1;
    var u := s[1..];
    assert s[1..] == s[1..n] + [s[n]];
    if i == n {
      assert MoveLastTo(s, i)[1..] == s[1..n];
    } else {
      var v := s[1..n];
      assert MoveLastTo(s, i)[1..] == v[i - 1 := s[n]];
      assert multiset(v[i - 1 := s[n]]) == multiset(v) - multiset{v[i - 1]} + multiset{s[n]};
      assert v[i - 1] in v;
    }
  }

  // ---------------------------------------------------------------- subtree facts

  lemma {:induction false} UnderTrans(i: int, c: int, j: int)
    requires 1 <= i && 1 <= c && Under(i, c) && Under(c, j)
    ensures Under(i, j)
    decreases j
  {
    if c != j {
      UnderTrans(i, c, j / 2);
    }
  }

  lemma {:induction false} RootCoversAll(j: int)
    requires 1 <= j
    ensures Under(1, j)
  {
    if j > 1 {
      RootCoversAll(j / 2);
    }
  }

  // ---------------------------------------------------------------- heapify

  /** With every edge strictly below slot i in order, heapify orders the whole subtree
      of i, touches nothing outside it, and puts at i the old i or one of its children. */
  lemma {:induction false} HeapifyOrders(s: seq<Qelm>, i: int)
    requires 1 <= i
    requires forall j | 2 <= j < |s| && Under(i, j / 2) && j / 2 != i :: Edge(s, j)
    ensures forall j | 2 <= j < |s| && Under(i, j / 2) :: Edge(Heapify(s, i), j)
    ensures forall j | 0 <= j < |s| && !Under(i, j) :: Heapify(s, i)[j] == s[j]
    ensures i < |s| ==> Heapify(s, i)[i] == s[Earliest(s, i)]
    decreases |s| - i
  {
    var c := Earliest(s, i);
    if c == i {
    } else {
      var t := Swap(s, i, c);
      forall j | 2 <= j < |s| && Under(c, j / 2) && j / 2 != c
        ensures Edge(t, j)
      {
        UnderTrans(i, c, j / 2);
        assert Edge(s, j);
      }
      HeapifyOrders(t, c);
      var h := Heapify(t, c);
      assert h == Heapify(s, i);
      forall j | 0 <= j < |s| && !Under(i, j)
        ensures h[j] == s[j]
      {
        if Under(c, j) { UnderTrans(i, c, j); }
      }
      assert !Under(c, i);
      forall j | 2 <= j < |s| && Under(i, j / 2)
        ensures Edge(h, j)
      {
        if Under(c, j / 2) {
        } else if j / 2 == i {
          if j == c {
            var e := Earliest(t, c);
            assert h[c] == t[e];
            if e != c { assert Edge(s, e); }
          } else {
            assert !Under(c, j);
          }
        } else {
          assert Edge(s, j);
          assert !Under(c, j);
        }
      }
    }
  }

  // ---------------------------------------------------------------- insertion

  lemma {:induction false} SiftUpOrders(s: seq<Qelm>, i: int)
    requires 1 <= i < |s|
    requires forall j | 2 <= j < |s| && j != i :: Edge(s, j)
    requires forall j | 2 <= j < |s| && j / 2 == i && i > 1 :: Leq(s[i / 2].key, s[j].key)
    ensures HeapOrdered(SiftUp(s, i))
    decreases i
  {
    if i > 1 && Less(s[i].key, s[i / 2].key) {
      var p := i / 2;
      var t := Swap(s, p, i);
      forall j | 2 <= j < |s| && j != p
        ensures Edge(t, j)
      {
        if j != i { assert Edge(s, j); }
      }
      forall j | 2 <= j < |s| && j / 2 == p && p > 1
        ensures Leq(t[p / 2].key, t[j].key)
      {
        assert Edge(s, p);
        if j != i { assert Edge(s, j); }
      }
      SiftUpOrders(t, p);
    } else {
      forall j | 2 <= j < |s|
        ensures Edge(s, j)
      {
      }
    }
  }

  /** wc_event_add keeps the heap order and adds exactly the new event. */
  lemma InsertCorrect(s: seq<Qelm>, e: Qelm)
    requires |s| >= 1 && HeapOrdered(s)
    ensures HeapOrdered(Inserted(s, e))
    ensures Elems(Inserted(s, e)) == Elems(s) + multiset{e}
  {
    var t := s + [e];
    forall j | 2 <= j < |t| && j != |s|
      ensures Edge(t, j)
    {
      assert Edge(s, j);
    }
    SiftUpOrders(t, |s|);
    SiftUpPermutes(t, |s|);
    assert t[1..] == s[1..] + [e];
  }

  // ---------------------------------------------------------------- extraction

  lemma {:induction false} RootIsEarliest(s: seq<Qelm>, j: int)
    requires HeapOrdered(s) && 1 <= j < |s|
    ensures Leq(s[1].key, s[j].key)
    decreases j
  {
    if j > 1 {
      RootIsEarliest(s, j / 2);
      assert Edge(s, j);
    }
  }

  lemma RootIsMinimal(s: seq<Qelm>)
    requires HeapOrdered(s) && |s| >= 2
    ensures Minimal(s[1], Elems(s))
  {
    var u := s[1..];
    assert u[0] == s[1];
    forall x | x in Elems(s)
      ensures Leq(s[1].key, x.key)
    {
      assert x in u;
      var k :| 0 <= k < |u| && u[k] == x;
      RootIsEarliest(s, k + 1);
    }
  }

  /** wc_queue_extract keeps the heap order and takes out exactly the root, which is minimal. */
  lemma ExtractCorrect(s: seq<Qelm>)
    requires |s| >= 2 && HeapOrdered(s)
    ensures HeapOrdered(Extracted(s))
    ensures Elems(s) == Elems(Extracted(s)) + multiset{s[1]}
    ensures Minimal(s[1], Elems(s))
  {
    RootIsMinimal(s);
    var t := MoveLastTo(s, 1);
    MoveLastDropsOne(s, 1);
    HeapifyPermutes(t, 1);
    forall j | 2 <= j < |t| && Under(1, j / 2) && j / 2 != 1
      ensures Edge(t, j)
    {
      assert Edge(s, j);
    }
    HeapifyOrders(t, 1);
    forall j | 2 <= j < |t|
      ensures Edge(Heapify(t, 1), j)
    {
      RootCoversAll(j / 2);
    }
  }

  // ---------------------------------------------------------------- deletion

  /** If the only edges out of order start at slot i or at an ancestor of i, the deletion
      loop restores the whole heap, whichever way the element at i is out of place. */
  lemma {:induction false} RebuildOrders(s: seq<Qelm>, i: int)
    requires 1 <= i
    requires forall j | 2 <= j < |s| && !Under(j / 2, i) :: Edge(s, j)
    ensures HeapOrdered(Rebuild(s, i))
    decreases i
  {
    forall j | 2 <= j < |s| && Under(i, j / 2) && j / 2 != i
      ensures Edge(s, j)
    {
      assert !Under(j / 2, i);
    }
    HeapifyOrders(s, i);
    var t := Heapify(s, i);
    if i / 2 > 0 {
      forall j | 2 <= j < |t| && !Under(j / 2, i / 2)
        ensures Edge(t, j)
      {
        if !Under(i, j / 2) {
          assert j != i;
          assert !Under(j / 2, i);
          assert Edge(s, j);
        }
      }
      RebuildOrders(t, i / 2);
    } else {
      forall j | 2 <= j < |t|
        ensures Edge(t, j)
      {
        RootCoversAll(j / 2);
      }
    }
  }

  /** wc_event_remove keeps the heap order and takes out exactly the event in slot i. */
  lemma DeleteCorrect(s: seq<Qelm>, i: int)
    requires 1 <= i < |s| && HeapOrdered(s)
    ensures HeapOrdered(Deleted(s, i))
    ensures Elems(s) == Elems(Deleted(s, i)) + multiset{s[i]}
  {
    var t := MoveLastTo(s, i);
    forall j | 2 <= j < |t| && !Under(j / 2, i)
      ensures Edge(t, j)
    {
      assert Under(j / 2, j / 2) && Under(j / 2, j);
      assert Edge(s, j);
    }
    RebuildOrders(t, i);
    MoveLastDropsOne(s, i);
    RebuildPermutes(t, i);
  }
}
