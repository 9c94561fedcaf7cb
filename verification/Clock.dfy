/** The driver's clock: the monotonic clock, shifted to the time of day at start-up, with nanoseconds
    turned into microseconds by a shift of ten bits (a division by 1024, not 1000). */
module Clock {

  const US_PER_S: nat := 1_000_000
  const NS_PER_S: nat := 1_000_000_000

  /** Seconds and nanoseconds of the monotonic clock. */
  datatype Timespec = Timespec(sec: int, nsec: int) {
    predicate Valid() {
      0 <= nsec < NS_PER_S
    }

    function Ns(): int {
      sec * NS_PER_S + nsec
    }
  }

  datatype Timeval = Timeval(sec: int, usec: int) {
    /** The driver lets a microsecond field of exactly one million through. */
    predicate Tidy() {
      0 <= usec <= US_PER_S
    }

    function Us(): int {
      sec * US_PER_S + usec
    }
  }

  /** `timercmp(a, b, >)` */
  predicate Later(a: Timeval, b: Timeval) {
    if a.sec == b.sec then a.usec > b.usec else a.sec > b.sec
  }

  function TimerAdd(a: Timeval, b: Timeval): (r: Timeval)
    ensures r.Us() == a.Us() + b.Us()
    ensures a.Tidy() && 0 <= b.usec < US_PER_S ==> r.Tidy() && (b.usec > 0 || a.usec < US_PER_S ==> r.usec < US_PER_S)
  {
    var sec, usec := a.sec + b.sec, a.usec + b.usec;
    if usec >= US_PER_S then Timeval(sec + 1, usec - US_PER_S) else Timeval(sec, usec)
  }

  function AddUseconds(now: Timeval, useconds: nat): (r: Timeval)
    ensures r.Us() == now.Us() + useconds
  {
    TimerAdd(now, Timeval(useconds / US_PER_S, useconds % US_PER_S))
  }

  /** Field-wise comparison is comparison of time, but for the untidy reading. */
  lemma LaterIsGreater(a: Timeval, b: Timeval)
    requires a.Tidy() && b.Tidy()
    ensures Later(a, b) ==> a.Us() >= b.Us() && (b.usec < US_PER_S ==> a.Us() > b.Us())
    ensures a.Us() > b.Us() ==> Later(a, b)
  {
  }

  /** What `timeval_init` stores: one second is lent to the nanoseconds so that they stay positive. */
  function Shift(tv: Timeval, ts: Timespec): (d: Timespec)
    requires ts.Valid() && 0 <= tv.usec < US_PER_S
    ensures 0 < d.nsec
  {
    Timespec(tv.sec - ts.sec - 1, 0x4000_0000 + tv.usec * 1000 - ts.nsec)
  }

  function Reading(diff: Timespec, ts: Timespec): Timeval {
    var sec, usec := ts.sec + diff.sec, (ts.nsec + diff.nsec) / 1024;
    if usec > US_PER_S then Timeval(sec + usec / US_PER_S, usec % US_PER_S) else Timeval(sec, usec)
  }

  /** Normalisation keeps the total and yields a tidy time. */
  lemma ReadingTotal(diff: Timespec, ts: Timespec)
    requires ts.Valid() && 0 <= diff.nsec
    ensures Reading(diff, ts).Us() == (ts.sec + diff.sec) * US_PER_S + (ts.nsec + diff.nsec) / 1024
    ensures Reading(diff, ts).Tidy()
  {
  }

  /** Between any two moments the reported time is off by less than 23438.5 microseconds, however far
      apart they are. */
  lemma ElapsedError(diff: Timespec, a: Timespec, b: Timespec)
    requires a.Valid() && b.Valid() && 0 <= diff.nsec
    ensures var reported := Reading(diff, b).Us() - Reading(diff, a).Us();
            var actual := b.Ns() - a.Ns();
            -23_438_500 < 1000 * reported - actual < 23_438_500
  {
    ReadingTotal(diff, a);
    ReadingTotal(diff, b);
  }

  /** The reported time never goes backwards, neither in total nor to `timercmp`. */
  lemma NeverBackwards(diff: Timespec, a: Timespec, b: Timespec)
    requires a.Valid() && b.Valid() && 0 <= diff.nsec
    requires a.Ns() <= b.Ns()
    ensures Reading(diff, a).Us() <= Reading(diff, b).Us()
    ensures !Later(Reading(diff, a), Reading(diff, b))
  {
    ReadingTotal(diff, a);
    ReadingTotal(diff, b);
    assert a.sec <= b.sec;
    if a.sec < b.sec {
      // the second gained outweighs the nanoseconds lost
      assert (a.nsec + diff.nsec) / 1024 < (b.nsec + diff.nsec) / 1024 + US_PER_S;
      assert Reading(diff, a).Us() < Reading(diff, b).Us();
    } else {
      assert (a.nsec + diff.nsec) / 1024 <= (b.nsec + diff.nsec) / 1024;
    }
  }

  /** At start-up the driver's clock runs ahead of the time of day it was set from by 25 to 49 ms. */
  lemma StartsAhead(tv: Timeval, ts: Timespec)
    requires ts.Valid() && 0 <= tv.usec < US_PER_S
    ensures 25_138 <= Reading(Shift(tv, ts), ts).Us() - tv.Us() <= 48_576
  {
    ReadingTotal(Shift(tv, ts), ts);
  }

  /** The clock never loses its lead, however long it runs. */
  lemma AheadOfTime(tv: Timeval, start: Timespec, ts: Timespec)
    requires start.Valid() && ts.Valid() && 0 <= tv.usec < US_PER_S
    ensures var reading := Reading(Shift(tv, start), ts);
      && reading.Tidy()
      && 1_699_500 < 1000 * (reading.Us() - tv.Us()) - (ts.Ns() - start.Ns()) < 72_014_500
  {
    StartsAhead(tv, start);
    ElapsedError(Shift(tv, start), start, ts);
    ReadingTotal(Shift(tv, start), ts);
  }

  class DriverClock {
    var diff: Timespec
    /** The time of day and the monotonic time at start-up. */
    ghost const origin: Timeval
    ghost const originTs: Timespec

    ghost predicate Valid()
      reads this
    {
      originTs.Valid() && 0 <= origin.usec < US_PER_S && diff == Shift(origin, originTs)
    }

    constructor (tv: Timeval, ts: Timespec)
      requires ts.Valid() && 0 <= tv.usec < US_PER_S
      ensures Valid() && origin == tv && originTs == ts
    {
      diff := Timespec(tv.sec - ts.sec - 1, 0x4000_0000 + tv.usec * 1000 - ts.nsec);
      origin, originTs := tv, ts;
    }

    /** At every moment the reported time is ahead of the true one (the time of day at start-up plus
        what the monotonic clock has counted since) by more than 1.6995 and less than 72.0145 ms. */
    method GetTimeOfDay(ts: Timespec) returns (tv: Timeval)
      requires Valid() && ts.Valid()
      ensures tv.Tidy() && tv == Reading(diff, ts)
      ensures 1_699_500 < 1000 * (tv.Us() - origin.Us()) - (ts.Ns() - originTs.Ns()) < 72_014_500
    {
      var sec := ts.sec + diff.sec;
      var usec := (ts.nsec + diff.nsec) / 1024;
      if usec > US_PER_S {
        sec := sec + usec / US_PER_S;
        usec := usec % US_PER_S;
      }
      tv := Timeval(sec, usec);
      AheadOfTime(origin, originTs, ts);
    }
  }
}
