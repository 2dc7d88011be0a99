/** Time values as the C library lays them out: struct timeval, struct timespec,
    the timercmp and timersub macros, and the helpers of utils.c. */
module Time {

  const USEC_PER_SEC := 1_000_000
  const NSEC_PER_SEC := 1_000_000_000

  datatype Timeval = Timeval(sec: int, usec: int) {
    predicate Normal() {
      0 <= usec < USEC_PER_SEC
    }

    /** Microseconds since the epoch. */
    function Micros(): int {
      sec * USEC_PER_SEC + usec
    }
  }

  /** timercmp(a, b, <) */
  predicate Less(a: Timeval, b: Timeval) {
    if a.sec == b.sec then a.usec < b.usec else a.sec < b.sec
  }

  /** timercmp(a, b, <=) */
  predicate Leq(a: Timeval, b: Timeval) {
    !Less(b, a)
  }

  /** timersub(a, b, result): one borrow. */
  function Sub(a: Timeval, b: Timeval): Timeval {
    if a.usec - b.usec < 0
    then Timeval(a.sec - b.sec - 1, a.usec - b.usec + USEC_PER_SEC)
    else Timeval(a.sec - b.sec, a.usec - b.usec)
  }

  /** On normalised values the lexicographic comparison is the order of instants. */
  lemma LessIsEarlier(a: Timeval, b: Timeval)
    requires a.Normal() && b.Normal()
    ensures Less(a, b) <==> a.Micros() < b.Micros()
  {
  }

  /** A two's complement narrowing to 32 bits (the value of `(int) x`). */
  function Wrap32(x: int): (r: int)
    ensures -0x8000_0000 <= r < 0x8000_0000
    ensures exists k :: x == r + k * 0x1_0000_0000
    ensures -0x8000_0000 <= x < 0x8000_0000 ==> r == x
  {
    var m := x % 0x1_0000_0000;
    var r := if m < 0x8000_0000 then m else m - 0x1_0000_0000;
    assert x == r + (if m < 0x8000_0000 then x / 0x1_0000_0000 else x / 0x1_0000_0000 + 1) * 0x1_0000_0000;
    r
  }

  datatype Timespec = Timespec(sec: int, nsec: int) {
    predicate Normal() {
      0 <= nsec < NSEC_PER_SEC
    }

    /** Nanoseconds since the epoch. */
    function Nanos(): int {
      sec * NSEC_PER_SEC + nsec
    }
  }

  /** add_timespec: one carry, decided by an unsigned comparison that a negative value also passes. */
  function AddTimespec(t: Timespec, secs: int, nsecs: int): Timespec {
    var n := t.nsec + nsecs;
    if n >= NSEC_PER_SEC || n < 0
    then Timespec(t.sec + secs + 1, n - NSEC_PER_SEC)
    else Timespec(t.sec + secs, n)
  }

  /** timespec_diff: from now to then. */
  function TimespecDiff(now: Timespec, then_: Timespec): int {
    (then_.sec - now.sec) * NSEC_PER_SEC + (then_.nsec - now.nsec)
  }

  /** time_diff read back into a signed 32-bit integer. */
  function TimeDiff(now: Timeval, then_: Timeval): int {
    Wrap32((then_.sec - now.sec) * USEC_PER_SEC + (then_.usec - now.usec))
  }

  /** ts_to_tv, for the non-negative nanoseconds of a clock. */
  function ToTimeval(t: Timespec): Timeval {
    Timeval(t.sec, t.nsec / 1000)
  }

  /** tv_to_ts */
  function ToTimespec(t: Timeval): Timespec {
    Timespec(t.sec, t.usec * 1000)
  }

  /** Adding time adds nanoseconds, carry or not. */
  lemma AddTimespecAdds(t: Timespec, secs: int, nsecs: int)
    ensures AddTimespec(t, secs, nsecs).Nanos() == t.Nanos() + secs * NSEC_PER_SEC + nsecs
  {
  }

  /** The result of every addition of nsecs to a normalised time is normalised exactly when nsecs
      is at most one second: there is only one carry. */
  lemma AddTimespecNormalIff(nsecs: int)
    requires nsecs >= 0
    ensures (forall t: Timespec | t.Normal() :: AddTimespec(t, 0, nsecs).Normal()) <==> nsecs <= NSEC_PER_SEC
  {
    if nsecs > NSEC_PER_SEC {
      var t := Timespec(0, NSEC_PER_SEC - 1);
      assert t.Normal() && !AddTimespec(t, 0, nsecs).Normal();
    }
  }

  /** The microseconds of a converted time are the nanoseconds rounded down. */
  lemma ToTimevalRoundsDown(t: Timespec)
    ensures ToTimeval(t).Micros() * 1000 <= t.Nanos() < (ToTimeval(t).Micros() + 1) * 1000
  {
  }
}
