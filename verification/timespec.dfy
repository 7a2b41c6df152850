/** Deadlines: building a timespec from the system clock (100 ns units), comparing and subtracting two
    of them, and the milliseconds left until one. Unsigned 64-bit wrap-around is written out; clock
    readings are parameters. */
module Timespec {
  import opened Words

  const NSEC := 1_000_000_000
  const INT_MAX32 := 0x7FFF_FFFF

  class TimeSpec {
    var tv_sec: Int64
    var tv_nsec: int

    constructor ()
    {
      tv_sec, tv_nsec := 0, 0;
    }
  }

  function Nanoseconds(sec: int, nsec: int): int {
    sec * NSEC + nsec
  }

  predicate Normalized(nsec: int) {
    0 <= nsec < NSEC
  }

  /** The 64-bit sum of the clock and the delay does not wrap. */
  predicate ClockFits(clock: UInt64, nsec: UInt64) {
    clock + nsec / 100 < TWO_64
  }

  /** The clock plus the delay to the nanosecond, less 2^64 units of 100 ns when their sum wraps. */
  function After(clock: UInt64, nsec: UInt64): int {
    100 * clock + nsec - (if ClockFits(clock, nsec) then 0 else 100 * TWO_64)
  }

  /** `shortTime` is a platform whose time_t is narrower than a long long; its seconds saturate. */
  method SetTimespecNsec(abstime: TimeSpec, clock: UInt64, nsec: UInt64, shortTime: bool)
    modifies abstime
    ensures Normalized(abstime.tv_nsec)
    ensures if shortTime && After(clock, nsec) / NSEC > INT_MAX32 then
        abstime.tv_sec == INT_MAX32 && abstime.tv_nsec == After(clock, nsec) % NSEC
      else
        Nanoseconds(abstime.tv_sec, abstime.tv_nsec) == After(clock, nsec)
    ensures clock + nsec / 100 < 0x1_0000_0000_0000_0000 ==>
      if shortTime && 100 * clock + nsec >= 0x8000_0000 * 1_000_000_000 then
        abstime.tv_sec == 0x7FFF_FFFF && abstime.tv_nsec == (100 * clock + nsec) % 1_000_000_000
      else
        abstime.tv_sec * 1_000_000_000 + abstime.tv_nsec == 100 * clock + nsec
  {
    var now: UInt64 := (clock + nsec / 100) % TWO_64;
    var tv_sec := now / 10_000_000;
    ClockSum(clock, nsec);
    SplitsExactly(now, nsec % 100);
    QuotientOfDeadline(tv_sec, now % 10_000_000 * 100 + nsec % 100);
    if shortTime {
      tv_sec := if tv_sec < INT_MAX32 then tv_sec else INT_MAX32;
    }
    abstime.tv_sec := tv_sec;
    abstime.tv_nsec := now % 10_000_000 * 100 + nsec % 100;
  }

  lemma SplitsExactly(now: UInt64, rest: nat)
    requires rest < 100
    ensures now / 10_000_000 * NSEC + (now % 10_000_000 * 100 + rest) == 100 * now + rest
    ensures 0 <= now % 10_000_000 * 100 + rest < NSEC
  {
  }

  lemma QuotientOfDeadline(sec: nat, nsec: int)
    requires Normalized(nsec)
    ensures Nanoseconds(sec, nsec) / NSEC == sec && Nanoseconds(sec, nsec) % NSEC == nsec
  {
  }

  lemma ClockSum(clock: UInt64, nsec: UInt64)
    ensures 100 * ((clock + nsec / 100) % TWO_64) + nsec % 100 == After(clock, nsec)
  {
  }

  /** Exact if and only if neither the product nor the clock sum wraps and the seconds do not saturate. */
  method SetTimespec(abstime: TimeSpec, clock: UInt64, sec: UInt64, shortTime: bool)
    modifies abstime
    ensures Normalized(abstime.tv_nsec)
    ensures Nanoseconds(abstime.tv_sec, abstime.tv_nsec) == 100 * clock + sec * NSEC
       <==> (sec * NSEC < TWO_64 && ClockFits(clock, sec * NSEC)
             && (shortTime ==> (100 * clock + sec * NSEC) / NSEC <= INT_MAX32))
    ensures var deadline := After(clock, sec * NSEC % TWO_64);
      if shortTime && deadline / NSEC > INT_MAX32 then
        abstime.tv_sec == INT_MAX32 && abstime.tv_nsec == deadline % NSEC
      else
        Nanoseconds(abstime.tv_sec, abstime.tv_nsec) == deadline
  {
    SetTimespecNsec(abstime, clock, sec * NSEC % TWO_64, shortTime);
  }

  // ----- Comparing and subtracting -----

  /** On normalized values the comparison is that of the times. */
  function CmpTimespec(sec1: Int64, nsec1: int, sec2: Int64, nsec2: int): (r: int)
    ensures Normalized(nsec1) && Normalized(nsec2) ==>
      var time1, time2 := sec1 * 1_000_000_000 + nsec1, sec2 * 1_000_000_000 + nsec2;
      r == if time1 > time2 then 1 else if time1 < time2 then -1 else 0
  {
    if sec1 > sec2 || (sec1 == sec2 && nsec1 > nsec2) then 1
    else if sec1 < sec2 || (sec1 == sec2 && nsec1 < nsec2) then -1
    else 0
  }

  lemma Wraps(x: int, q: int)
    ensures (x + q * TWO_64) % TWO_64 == x % TWO_64
  {
  }

  /** Every intermediate is reduced modulo 2^64; still the result is the true difference exactly when
      that fits: not negative, and below 2^64. */
  function DiffTimespec(sec1: Int64, nsec1: int, sec2: Int64, nsec2: int): (r: UInt64)
    ensures var d := (sec1 * 1_000_000_000 + nsec1) - (sec2 * 1_000_000_000 + nsec2);
      r == d % TWO_64 && (r == d <==> 0 <= d < TWO_64)
  {
    var seconds: UInt64 := (sec1 - sec2) % TWO_64;
    var product: UInt64 := seconds * NSEC % TWO_64;
    var sum: UInt64 := (product + nsec1 % TWO_64) % TWO_64;
    var r: UInt64 := (sum - nsec2 % TWO_64) % TWO_64;
    DiffWraps(sec1 - sec2, nsec1, nsec2);
    r
  }

  lemma DiffWraps(seconds: int, nsec1: int, nsec2: int)
    ensures ((seconds % TWO_64 * NSEC % TWO_64 + nsec1 % TWO_64) % TWO_64 - nsec2 % TWO_64) % TWO_64
         == (seconds * NSEC + nsec1 - nsec2) % TWO_64
  {
    var s := seconds % TWO_64;
    var p := s * NSEC % TWO_64;
    var t := (p + nsec1 % TWO_64) % TWO_64;
    var q := seconds / TWO_64 * NSEC + s * NSEC / TWO_64 + (p + nsec1 % TWO_64) / TWO_64
      + nsec1 / TWO_64 - nsec2 / TWO_64;
    assert seconds * NSEC + nsec1 - nsec2 == t - nsec2 % TWO_64 + q * TWO_64;
    Wraps(t - nsec2 % TWO_64, q);
  }

  // ----- Milliseconds left -----

  /** For a deadline that is not before the epoch: 0 when it has passed; otherwise within one millisecond
      of the true time left, exactly when that many milliseconds fit 32 bits. The signed product must not
      overflow. */
  function GetMilliseconds(sec: Int64, nsec: int, clock: UInt64): (ms: nat)
    requires Normalized(nsec) && -TWO_64 / 2 <= sec * 1000 && sec * 1000 + nsec / 1_000_000 < TWO_64 / 2
    ensures var deadline := sec * 1_000_000_000 + nsec;
      sec >= 0 ==>
        && (deadline <= 100 * clock ==> ms == 0)
        && (deadline > 100 * clock ==>
             (-1_000_000 < ms * 1_000_000 - (deadline - 100 * clock) < 1_000_000
              <==> deadline / 1_000_000 - clock / 10_000 < 0x1_0000_0000))
  {
    var future: UInt64 := (sec * 1000 + nsec / 1_000_000) % TWO_64;
    var now := clock / 10_000;
    MillisecondsOf(sec, nsec);
    MillisecondsLeft(if sec >= 0 then sec * 1_000_000_000 + nsec else 0, clock);
    if future < now then 0 else (future - now) % TWO_32
  }

  lemma MillisecondsOf(sec: int, nsec: int)
    requires Normalized(nsec)
    ensures sec * 1000 + nsec / 1_000_000 == (sec * 1_000_000_000 + nsec) / 1_000_000
  {
  }

  /** The difference of two times in whole milliseconds is less than one millisecond off. */
  lemma MillisecondsLeft(deadline: nat, clock: nat)
    ensures var left := deadline / 1_000_000 - clock / 10_000;
      && -1_000_000 < left * 1_000_000 - (deadline - 100 * clock) < 1_000_000
      && (deadline <= 100 * clock ==> left <= 0)
      && (deadline > 100 * clock ==> left >= 0)
  {
  }

  /** A deadline set at one clock reading and waited for at any other one. */
  lemma TimeLeftOfSetDeadline(clock: UInt64, delay: UInt64, later: UInt64, sec: Int64, nsec: int)
    requires ClockFits(clock, delay) && Normalized(nsec) && Nanoseconds(sec, nsec) == 100 * clock + delay
    ensures 0 <= sec && sec * 1000 + nsec / 1_000_000 < TWO_64 / 2
    ensures var deadline, ms := 100 * clock + delay, GetMilliseconds(sec, nsec, later);
      && (deadline <= 100 * later ==> ms == 0)
      && (deadline > 100 * later ==>
           (-1_000_000 < ms * 1_000_000 - (deadline - 100 * later) < 1_000_000
            <==> deadline / 1_000_000 - later / 10_000 < 0x1_0000_0000))
  {
    assert sec * NSEC < 100 * TWO_64 + NSEC;
  }
}
