/**
  Times as seconds and nanoseconds, in 32-bit C arithmetic, and their conversion to clock
  ticks: the interval of a timed wait.
 */
module Timespec {
  import opened Basics

  const TWO_32 := 0x1_0000_0000
  const MICROSECONDS_PER_SECOND := 1_000_000
  const NANOSECONDS_PER_SECOND := 1_000_000_000
  const NANOSECONDS_PER_MICROSECOND := 1000

  type Int32 = x: int | -0x8000_0000 <= x < 0x8000_0000
  type Unsigned32 = x: int | 0 <= x < 0x1_0000_0000

  /** The length of a clock tick; zero would make every conversion divide by zero. */
  type TickLength = x: int | 0 < x < 0x1_0000_0000 witness 1

  datatype Time = Time(sec: Int32, nsec: Int32)

  function Unsigned(x: int): Unsigned32 { x % TWO_32 }

  function Signed(x: int): Int32 {
    if x % TWO_32 < 0x8000_0000 then x % TWO_32 else x % TWO_32 - TWO_32
  }

  function Nanoseconds(t: Time): int { t.sec * NANOSECONDS_PER_SECOND + t.nsec }

  predicate Normal(t: Time) { 0 <= t.nsec < NANOSECONDS_PER_SECOND }

  /** The nanosecond fields, and the seconds of the result, do not overflow. */
  predicate Subtractable(start: Time, end: Time) {
    var d := end.nsec - start.nsec;
    && -0x8000_0000 <= d < 0x8000_0000
    && -0x8000_0000 <= end.sec - start.sec - (if d < 0 then -d / NANOSECONDS_PER_SECOND + 1 else 0)
    && end.sec - start.sec + (if d > NANOSECONDS_PER_SECOND then 3 else 0) < 0x8000_0000
  }

  /** A representable value survives, whatever wrapped on the way. */
  lemma SignedExact(x: int, k: int, y: int)
    requires x == y + k * TWO_32 && -0x8000_0000 <= y < 0x8000_0000
    ensures Signed(x) == y
  {
    assert x % TWO_32 == y % TWO_32;
  }

  lemma SignedDifference(x: int, y: int)
    requires -0x8000_0000 <= x - y < 0x8000_0000
    ensures Signed(x - Signed(y)) == x - y
  {
    var k := (y - Signed(y)) / TWO_32;
    assert y - Signed(y) == k * TWO_32;
    SignedExact(x - Signed(y), k, x - y);
  }

  lemma Exact(x: int)
    requires -0x8000_0000 <= x < 0x8000_0000
    ensures Signed(x) == x && (x >= 0 ==> Unsigned(x) == x)
  {
  }

  /** The first branch: whole seconds are borrowed until the difference is positive. */
  lemma Borrow(s: Int32, e: Int32, q: int, n: int)
    requires 0 < s - e <= 0x8000_0000
    requires q == Unsigned(s - e) / NANOSECONDS_PER_SECOND + 1 && n == Signed(s - NANOSECONDS_PER_SECOND * q)
    ensures 1 <= q == (s - e) / NANOSECONDS_PER_SECOND + 1 <= 3
    ensures Signed(e - n) == e - s + NANOSECONDS_PER_SECOND * q
    ensures 0 < e - s + NANOSECONDS_PER_SECOND * q <= NANOSECONDS_PER_SECOND
    ensures Unsigned(e - n) <= NANOSECONDS_PER_SECOND
    ensures e - s + NANOSECONDS_PER_SECOND * q == NANOSECONDS_PER_SECOND <==> (e - s) % NANOSECONDS_PER_SECOND == 0
  {
    assert Unsigned(s - e) == s - e;
    SignedDifference(e, s - NANOSECONDS_PER_SECOND * q);
  }

  /** The second branch, with its unsigned division of a negative number. */
  lemma Carry(s: Int32, e: Int32, q: int, n: int)
    requires NANOSECONDS_PER_SECOND < e - s < 0x8000_0000
    requires q == Unsigned(s - e) / NANOSECONDS_PER_SECOND && n == Signed(s + NANOSECONDS_PER_SECOND * q)
    ensures q == if e - s <= TWO_32 - 3 * NANOSECONDS_PER_SECOND then 3 else 2
    ensures Signed(e - n) == e - s - NANOSECONDS_PER_SECOND * q
  {
    assert Unsigned(s - e) == TWO_32 - (e - s);
    SignedDifference(e, s + NANOSECONDS_PER_SECOND * q);
  }

  /**
    `_POSIX_Timespec_subtract`: the difference is right to the nanosecond.  The second
    branch divides a negative difference as an unsigned number, which leaves the seconds
    and nanoseconds of the result out of step whenever it is taken for less than two seconds.
   */
  method Subtract(start: Time, end: Time) returns (result: Time)
    ensures Subtractable(start, end) ==> Nanoseconds(result) == Nanoseconds(end) - Nanoseconds(start)
    ensures Subtractable(start, end) ==>
              (Normal(result) <==>
                 var d := end.nsec - start.nsec;
                 if d >= 0 then d < NANOSECONDS_PER_SECOND || d >= 2 * NANOSECONDS_PER_SECOND
                 else d % NANOSECONDS_PER_SECOND != 0)
  {
    var sec: int, nsec: int := start.sec, start.nsec;
    hide Signed, Unsigned;
    if end.nsec < nsec {
      var seconds: int := Unsigned(nsec - end.nsec) / NANOSECONDS_PER_SECOND + 1;
      nsec := Signed(nsec - NANOSECONDS_PER_SECOND * seconds);
      sec := Signed(sec + seconds);
      if Subtractable(start, end) {
        Borrow(start.nsec, end.nsec, seconds, nsec);
        SignedDifference(end.sec, start.sec + seconds);
      }
    } else if Subtractable(start, end) {
      Exact(end.nsec - nsec);
      Exact(end.sec - sec);
    }
    if Unsigned(end.nsec - nsec) > NANOSECONDS_PER_SECOND {
      var seconds: int := Unsigned(nsec - end.nsec) / NANOSECONDS_PER_SECOND;
      nsec := Signed(nsec + NANOSECONDS_PER_SECOND * seconds);
      sec := Signed(sec - seconds);
      if Subtractable(start, end) {
        Carry(start.nsec, end.nsec, seconds, nsec);
        SignedDifference(end.sec, start.sec - seconds);
      }
    }
    result := Time(Signed(end.sec - sec), Signed(end.nsec - nsec));
  }

  // ------------------------------------------------------------------- ticks

  function AtLeastOne(n: int): int { if n > 1 then n else 1 }

  /** Division as in C. */
  function Quotient(x: int, y: int): int
    requires y > 0
  {
    if x >= 0 then x / y else -(-x / y)
  }

  /** `_POSIX_Timespec_to_interval` */
  function ToInterval(t: Time, tick: TickLength): (ticks: Unsigned32)
    ensures ticks != 0
  {
    var ticks := Unsigned(Unsigned(t.sec * MICROSECONDS_PER_SECOND) / tick
                          + Unsigned(Quotient(t.nsec, NANOSECONDS_PER_MICROSECOND)) / tick);
    if ticks != 0 then ticks else 1
  }

  /** `_POSIX_Interval_to_timespec` */
  function FromInterval(ticks: Unsigned32, tick: TickLength): (t: Time)
    ensures Normal(t) && t.sec >= 0
    ensures Nanoseconds(t) == Unsigned(ticks * tick) * NANOSECONDS_PER_MICROSECOND
  {
    var usecs: int := Unsigned(ticks * tick);
    Time(usecs / MICROSECONDS_PER_SECOND, usecs % MICROSECONDS_PER_SECOND * NANOSECONDS_PER_MICROSECOND)
  }

  function Microseconds(t: Time): int {
    t.sec * MICROSECONDS_PER_SECOND + t.nsec / NANOSECONDS_PER_MICROSECOND
  }

  /** Two quotients fall short of the quotient of the sum by one exactly when the remainders carry. */
  lemma QuotientSum(a: nat, b: nat, u: int)
    requires u > 0
    ensures a / u + b / u == (a + b) / u - (if a % u + b % u >= u then 1 else 0)
  {
    var carry := if a % u + b % u >= u then 1 else 0;
    var q, r := a / u + b / u + carry, a % u + b % u - carry * u;
    assert q * u == a / u * u + b / u * u + carry * u;
    QuotientUnique(a + b, u, q, r);
  }

  lemma QuotientDrop(a: nat, w: nat, u: int, k: nat)
    requires u > 0 && a >= w + k * u
    ensures a / u >= w / u + k
  {
    var p := a / u;
    if p < w / u + k {
      Times(p + 1, w / u + k, u);
    }
  }

  lemma QuotientBound(x: nat, u: int)
    requires u > 0
    ensures 0 <= x / u <= x && (u > 1 ==> 2 * (x / u) <= x)
  {
    var p := x / u;
    if p < 0 {
      Times(p, -1, u);
    } else if u > 1 {
      Times(2, u, p);
    } else {
      Times(1, u, p);
    }
  }

  // -------------------------------------------------------------- the conversions

  /** The microseconds of the seconds, and the number of ticks, fit 32 bits. */
  predicate Convertible(t: Time, tick: TickLength) {
    t.sec * MICROSECONDS_PER_SECOND < TWO_32 && (tick == 1 ==> Microseconds(t) < TWO_32)
  }

  lemma UnsignedExact(x: int)
    requires 0 <= x < TWO_32
    ensures Unsigned(x) == x
  {
  }

  lemma UnsignedDrop(x: nat)
    ensures Unsigned(x) <= if x >= TWO_32 then x - TWO_32 else x
  {
  }

  lemma TicksFit(seconds: nat, rest: nat, tick: TickLength)
    requires seconds < TWO_32 && rest < MICROSECONDS_PER_SECOND && (tick == 1 ==> seconds + rest < TWO_32)
    ensures 0 <= seconds / tick + rest / tick < TWO_32
  {
    QuotientBound(seconds, tick);
    QuotientBound(rest, tick);
  }

  /** The interval is the number of whole ticks, or one less when the two remainders carry. */
  lemma IntervalExact(t: Time, tick: TickLength)
    requires t.sec >= 0 && Normal(t) && Convertible(t, tick)
    ensures var seconds, rest := t.sec * MICROSECONDS_PER_SECOND, t.nsec / NANOSECONDS_PER_MICROSECOND;
            ToInterval(t, tick)
            == AtLeastOne(Microseconds(t) / tick - (if seconds % tick + rest % tick >= tick then 1 else 0))
  {
    var seconds, rest := t.sec * MICROSECONDS_PER_SECOND, t.nsec / NANOSECONDS_PER_MICROSECOND;
    hide Unsigned;
    UnsignedExact(seconds);
    UnsignedExact(rest);
    TicksFit(seconds, rest, tick);
    UnsignedExact(seconds / tick + rest / tick);
    QuotientSum(seconds, rest, tick);
  }

  /** Otherwise ticks are lost by the billion microseconds. */
  lemma IntervalShort(t: Time, tick: TickLength)
    requires t.sec >= 0 && Normal(t) && !Convertible(t, tick) && tick <= 0x4000_0000
    ensures ToInterval(t, tick) < AtLeastOne(Microseconds(t) / tick - 1)
  {
    var seconds, rest := t.sec * MICROSECONDS_PER_SECOND, t.nsec / NANOSECONDS_PER_MICROSECOND;
    hide Unsigned;
    var low: int := Unsigned(seconds);
    var ticks := low / tick + rest / tick;
    UnsignedExact(rest);
    UnsignedDrop(seconds);
    QuotientSum(seconds, rest, tick);
    QuotientBound(low, tick);
    QuotientBound(rest, tick);
    UnsignedDrop(ticks);
    if seconds >= TWO_32 {
      QuotientDrop(seconds, low, tick, 4);
    } else {
      UnsignedExact(seconds);
    }
  }

  /** An interval is right to one tick exactly when the time is convertible (for ticks up to 2^30 microseconds). */
  lemma IntervalIff(t: Time, tick: TickLength)
    requires t.sec >= 0 && Normal(t) && tick <= 0x4000_0000
    ensures var n := Microseconds(t) / tick;
            ToInterval(t, tick) == AtLeastOne(n) || ToInterval(t, tick) == AtLeastOne(n - 1) <==> Convertible(t, tick)
  {
    hide ToInterval;
    if Convertible(t, tick) {
      IntervalExact(t, tick);
    } else {
      IntervalShort(t, tick);
    }
  }

  lemma MultipleDivides(x: int, y: int, tick: TickLength)
    requires y % tick == 0
    ensures (x * y) % tick == 0
  {
    var k := y / tick;
    assert x * y == (x * k) * tick;
    QuotientUnique(x * y, tick, x * k, 0);
  }

  /** No tick is lost when the tick length divides one second. */
  lemma IntervalWhole(t: Time, tick: TickLength)
    requires t.sec >= 0 && Normal(t) && Convertible(t, tick) && MICROSECONDS_PER_SECOND % tick == 0
    ensures ToInterval(t, tick) == AtLeastOne(Microseconds(t) / tick)
  {
    IntervalExact(t, tick);
    MultipleDivides(t.sec, MICROSECONDS_PER_SECOND, tick);
  }

  // ---------------------------------------------------------------- round trip

  /** The whole seconds of so many ticks, in microseconds. */
  function WholeSeconds(ticks: Unsigned32, tick: TickLength): int {
    ticks * tick / MICROSECONDS_PER_SECOND * MICROSECONDS_PER_SECOND
  }

  lemma FromIntervalMicroseconds(ticks: Unsigned32, tick: TickLength)
    requires ticks * tick < TWO_32
    ensures var t := FromInterval(ticks, tick);
            && Microseconds(t) == ticks * tick
            && t.sec * MICROSECONDS_PER_SECOND == WholeSeconds(ticks, tick)
            && Convertible(t, tick)
  {
    assert ticks * tick >= 0 by {
      Times(0, ticks, tick);
    }
    UnsignedExact(ticks * tick);
  }

  /** Remainders that sum to a multiple of the divisor carry unless they vanish. */
  lemma CarryIff(a: nat, b: nat, k: nat, u: int)
    requires u > 0 && a + b == k * u
    ensures a % u + b % u >= u <==> a % u != 0
  {
    var c := k - a / u - b / u;
    assert a % u + b % u == c * u;
    if c <= 0 {
      Times(c, 0, u);
    } else {
      Times(1, c, u);
    }
  }

  /** Ticks to a time and back: one tick is lost exactly when the whole seconds are no multiple of the tick. */
  lemma RoundTrip(ticks: Unsigned32, tick: TickLength)
    requires ticks >= 1 && ticks * tick < TWO_32
    ensures ToInterval(FromInterval(ticks, tick), tick)
            == if ticks == 1 || WholeSeconds(ticks, tick) % tick == 0 then ticks else ticks - 1
  {
    hide ToInterval, FromInterval, Unsigned;
    var t := FromInterval(ticks, tick);
    FromIntervalMicroseconds(ticks, tick);
    IntervalExact(t, tick);
    QuotientUnique(ticks * tick, tick, ticks, 0);
    CarryIff(t.sec * MICROSECONDS_PER_SECOND, t.nsec / NANOSECONDS_PER_MICROSECOND, ticks, tick);
  }

  lemma RoundTripWhole(ticks: Unsigned32, tick: TickLength)
    requires ticks >= 1 && ticks * tick < TWO_32 && MICROSECONDS_PER_SECOND % tick == 0
    ensures ToInterval(FromInterval(ticks, tick), tick) == ticks
  {
    RoundTrip(ticks, tick);
    MultipleDivides(ticks * tick / MICROSECONDS_PER_SECOND, MICROSECONDS_PER_SECOND, tick);
  }

  // -------------------------------------------------------------- the timed wait

  /**
    What `pthread_cond_timedwait` passes on.  For normalised times whose difference fits,
    the wait is over before it begins exactly when the deadline precedes the present;
    otherwise the interval is the number of whole ticks left, or one less.
   */
  method TimedWait(now: Time, deadline: Time, tick: TickLength) returns (alreadyTimedOut: bool, timeout: Unsigned32)
    ensures timeout != 0
    ensures Normal(now) && Normal(deadline) && Subtractable(now, deadline) ==>
              (alreadyTimedOut <==> Nanoseconds(deadline) < Nanoseconds(now))
    ensures Normal(now) && Normal(deadline) && Subtractable(now, deadline) && !alreadyTimedOut && tick <= 0x4000_0000 ==>
              var usecs := (Nanoseconds(deadline) - Nanoseconds(now)) / NANOSECONDS_PER_MICROSECOND;
              var n := usecs / tick;
              timeout == AtLeastOne(n) || timeout == AtLeastOne(n - 1)
              <==> usecs / MICROSECONDS_PER_SECOND <= 4294 && (tick == 1 ==> usecs < TWO_32)
    ensures Normal(now) && Normal(deadline) && Subtractable(now, deadline) && !alreadyTimedOut
            && MICROSECONDS_PER_SECOND % tick == 0 ==>
              var usecs := (Nanoseconds(deadline) - Nanoseconds(now)) / NANOSECONDS_PER_MICROSECOND;
              usecs < 4294 * MICROSECONDS_PER_SECOND ==> timeout == AtLeastOne(usecs / tick)
  {
    hide ToInterval;
    var difference := Subtract(now, deadline);
    alreadyTimedOut := difference.sec < 0 || (difference.sec == 0 && difference.nsec < 0);
    timeout := ToInterval(difference, tick);
    if Normal(now) && Normal(deadline) && Subtractable(now, deadline) && !alreadyTimedOut {
      assert Normal(difference);
      MicrosecondsLeft(difference);
      if tick <= 0x4000_0000 {
        IntervalIff(difference, tick);
      }
      if MICROSECONDS_PER_SECOND % tick == 0 && Microseconds(difference) < 4294 * MICROSECONDS_PER_SECOND {
        IntervalWhole(difference, tick);
      }
    }
  }

  lemma MicrosecondsLeft(t: Time)
    requires Normal(t)
    ensures Nanoseconds(t) / NANOSECONDS_PER_MICROSECOND == Microseconds(t)
    ensures Microseconds(t) / MICROSECONDS_PER_SECOND == t.sec
  {
  }

  /** An hour and a quarter is already too long: with a tick of a millisecond, 4295 seconds become 32 ticks. */
  lemma LongWaitCutShort()
    ensures ToInterval(Time(4295, 0), 1000) == 32
  {
    assert Unsigned(4295 * MICROSECONDS_PER_SECOND) == 32704;
  }
}
