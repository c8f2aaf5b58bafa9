/** Second-and-nanosecond clocks (HuboCan/src/CanPump.cpp). */
module Clocks {
  import opened RealArith

  const BILLION: int := 1_000_000_000

  datatype Clock = Clock(sec: int, nsec: int)

  function Total(clock: Clock): int {
    clock.sec * BILLION + clock.nsec
  }

  predicate Normal(clock: Clock) {
    0 <= clock.nsec < BILLION
  }

  /** C's conversion to an integer drops the fraction. */
  function Truncate(x: real): int {
    if 0.0 <= x then x.Floor else -((-x).Floor)
  }

  /** C's integer division and remainder round towards zero. */
  function Quotient(a: int, b: int): int
    requires 0 < b
  {
    if 0 <= a then a / b else -((-a) / b)
  }

  function Remainder(a: int, b: int): int
    requires 0 < b
  {
    a - b * Quotient(a, b)
  }

  /** clock_diff, in seconds. */
  function Difference(last: Clock, first: Clock): real {
    (last.sec as real + last.nsec as real / BILLION as real)
    - (first.sec as real + first.nsec as real / BILLION as real)
  }

  function Nanoseconds(seconds: real): int {
    Truncate(seconds * BILLION as real)
  }

  /** Seconds become whole nanoseconds by dropping the fraction, towards zero. */
  lemma NanosecondsMean(seconds: real)
    ensures var exact, whole := seconds * 1_000_000_000.0, Nanoseconds(seconds) as real;
      if 0.0 <= exact then whole <= exact < whole + 1.0 else whole - 1.0 < exact <= whole
  {}

  /** increment_clock. */
  function Incremented(clock: Clock, seconds: real): Clock {
    var nano := clock.nsec + Nanoseconds(seconds);
    Clock(clock.sec + Quotient(nano, BILLION), Remainder(nano, BILLION))
  }

  /** An increment adds exactly its whole nanoseconds, for negative ones too, and leaves a normal clock exactly when the
      nanoseconds do not go below zero, or land on a whole second. */
  lemma IncrementIsExact(clock: Clock, seconds: real)
    ensures Total(Incremented(clock, seconds)) == Total(clock) + Nanoseconds(seconds)
    ensures var nano := clock.nsec + Nanoseconds(seconds);
      Normal(Incremented(clock, seconds)) <==> 0 <= nano || nano % BILLION == 0
  {
    var nano := clock.nsec + Nanoseconds(seconds);
    if nano < 0 {
      assert -nano == BILLION * ((-nano) / BILLION) + (-nano) % BILLION;
    }
  }

  /** Going back half a second from a whole one leaves a negative number of nanoseconds. */
  lemma GoingBackIsNotNormal()
    ensures Incremented(Clock(1, 0), -0.5) == Clock(1, -500_000_000)
    ensures Normal(Clock(1, 0)) && !Normal(Incremented(Clock(1, 0), -0.5))
  {}

  /** A difference in seconds is the difference of the nanosecond totals. */
  lemma DifferenceIsTotal(last: Clock, first: Clock)
    ensures Difference(last, first) * BILLION as real == (Total(last) - Total(first)) as real
    ensures 0.0 < Difference(last, first) <==> Total(first) < Total(last)
    ensures Difference(last, first) < 0.0 <==> Total(last) < Total(first)
  {
    Unscale(last.sec as real, last.nsec as real);
    Unscale(first.sec as real, first.nsec as real);
    assert (Total(last) - Total(first)) as real
      == (last.sec as real * BILLION as real + last.nsec as real)
       - (first.sec as real * BILLION as real + first.nsec as real);
  }

  lemma Unscale(sec: real, nsec: real)
    ensures (sec + nsec / BILLION as real) * BILLION as real == sec * BILLION as real + nsec
  {}

  /** One n-th of a time span, in whole nanoseconds. */
  lemma ShareIsQuotient(span: int, seconds: real, n: nat)
    requires 0 < n && 0 <= span && seconds * BILLION as real == span as real
    ensures Nanoseconds(seconds / n as real) == span / n
  {
    hide Truncate;
    var share := seconds / n as real * BILLION as real;
    ShareOf(seconds, n as real, BILLION as real);
    FloorOfShare(span, share, n);
    assert 0.0 <= share by {
      if share < 0.0 { MulStrict(share, 0.0, n as real); }
    }
    TruncateIsFloor(share);
  }

  lemma TruncateIsFloor(x: real)
    requires 0.0 <= x
    ensures Truncate(x) == x.Floor
  {}

  lemma ShareOf(seconds: real, n: real, scale: real)
    requires 0.0 < n
    ensures seconds / n * scale * n == seconds * scale
  {
    var share := seconds / n;
    assert share * n == seconds;
    Exchange(share, scale, n);
  }

  lemma Exchange(x: real, y: real, z: real)
    ensures x * y * z == x * z * y
  {}

  lemma FloorOfShare(span: int, share: real, n: nat)
    requires 0 < n && 0 <= span && share * n as real == span as real
    ensures share.Floor == span / n
  {
    var q := span / n;
    assert span == q * n + span % n;
    AtLeast(q, share, span, n);
    LessThan(q + 1, share, span, n);
  }

  lemma AtLeast(q: int, share: real, span: int, n: nat)
    requires 0 < n && q * n <= span && share * n as real == span as real
    ensures q as real <= share
  {
    assert q as real * n as real == (q * n) as real;
    MulCancel(q as real, share, n as real);
  }

  lemma LessThan(q: int, share: real, span: int, n: nat)
    requires 0 < n && span < q * n && share * n as real == span as real
    ensures share < q as real
  {
    assert q as real * n as real == (q * n) as real;
    MulCancelStrict(share, q as real, n as real);
  }
}
