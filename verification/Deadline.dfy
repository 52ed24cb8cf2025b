/** Deadlines: computed by set_timespec_nsec, read by get_milliseconds, in both representations.
    Clock readings are parameters, in units of 100 ns; C's unsigned wrap-around is written out. */
module Deadline {
  import opened ByteOrder

  const INT_MAX32 := 0x7FFF_FFFF
  const UINT_MAX := 0xFFFF_FFFF
  const INFINITE := 0xFFFF_FFFF
  const TICKS_PER_MSEC := 10000
  const TICKS_PER_SEC := 10000000
  const NSEC_PER_TICK := 100
  const NSEC_PER_MSEC := 1000000
  const NSEC_PER_SEC := 1000000000

  /** C division rounds toward zero. */
  function TruncDiv(a: int, b: int): int
    requires b > 0
  {
    if a >= 0 then a / b else -((-a) / b)
  }

  function Min(a: int, b: int): int {
    if a < b then a else b
  }

  // ----- the file-time form -----

  class FileTimespec {
    var tv: int
    var maxTimeoutMsec: int

    constructor ()
    {
      tv, maxTimeoutMsec := 0, 0;
    }

    method SetNsec(now: int, nsec: int)
      requires 0 <= nsec < TWO64 && 0 <= now && now + nsec / NSEC_PER_TICK < TWO63
      modifies this
      ensures tv == now + nsec / NSEC_PER_TICK
      ensures maxTimeoutMsec == Min(nsec / NSEC_PER_MSEC, INT_MAX32)
    {
      var maxTimeout := nsec / NSEC_PER_MSEC;
      tv := now + nsec / NSEC_PER_TICK;
      maxTimeout := Min(maxTimeout, INT_MAX32);
      maxTimeoutMsec := maxTimeout;
    }
  }

  /** A wait of m milliseconds from now ends no later than the deadline; no wait at all is always possible. */
  predicate InTime(deadline: int, now: int, m: int) {
    m == 0 || now + TICKS_PER_MSEC * m <= deadline
  }

  /** The longest such wait that does not exceed the cap. */
  predicate IsLongestWait(deadline: int, now: int, cap: int, ms: int) {
    0 <= ms <= cap && InTime(deadline, now, ms) && (ms == cap || !InTime(deadline, now, ms + 1))
  }

  method GetMilliseconds(abstime: FileTimespec?, now: int) returns (ms: int)
    requires abstime != null ==> 0 <= abstime.maxTimeoutMsec <= INT_MAX32
    ensures abstime == null ==> ms == INFINITE == 0xFFFF_FFFF
    ensures abstime != null ==> IsLongestWait(abstime.tv, now, abstime.maxTimeoutMsec, ms)
  {
    if abstime == null {
      return INFINITE;
    }
    var millis := TruncDiv(abstime.tv - now, TICKS_PER_MSEC);
    if millis < 0 {
      return 0;
    }
    if millis > abstime.maxTimeoutMsec {
      millis := abstime.maxTimeoutMsec;
    }
    if millis > UINT_MAX {
      millis := UINT_MAX;
    }
    return millis;
  }

  /** With a clock that does not go back, a timeout within range is never cut short by the cap. */
  lemma CapNeverBinds(start: int, nsec: int, now: int, ms: int)
    requires 0 <= nsec && start <= now && nsec / NSEC_PER_MSEC <= INT_MAX32
    requires IsLongestWait(start + nsec / NSEC_PER_TICK, now, Min(nsec / NSEC_PER_MSEC, INT_MAX32), ms)
    ensures !InTime(start + nsec / NSEC_PER_TICK, now, ms + 1)
  {
    var q := nsec / NSEC_PER_MSEC;
    assert nsec / NSEC_PER_TICK < TICKS_PER_MSEC * (q + 1);
  }

  /** Set at start, read at now: never longer than the timeout asked for, whatever the clock did between;
      and with a clock that did not go back, the longest whole number of milliseconds before the deadline. */
  method WaitFor(nsec: int, start: int, now: int) returns (ms: int)
    requires 0 <= nsec < TWO64 && 0 <= start && start + nsec / NSEC_PER_TICK < TWO63
    ensures 0 <= ms <= Min(nsec / NSEC_PER_MSEC, INT_MAX32) && ms != INFINITE
    // in nanoseconds and milliseconds
    ensures 0 <= ms <= nsec / 1_000_000 && ms <= 0x7FFF_FFFF
    ensures start <= now && nsec / 1_000_000 <= 0x7FFF_FFFF ==>
      && (ms == 0 || now + 10_000 * ms <= start + nsec / 100)
      && now + 10_000 * (ms + 1) > start + nsec / 100
    ensures start <= now && nsec / NSEC_PER_MSEC <= INT_MAX32 ==>
      InTime(start + nsec / NSEC_PER_TICK, now, ms) && !InTime(start + nsec / NSEC_PER_TICK, now, ms + 1)
  {
    var abstime := new FileTimespec();
    abstime.SetNsec(start, nsec);
    ms := GetMilliseconds(abstime, now);
    if start <= now && nsec / NSEC_PER_MSEC <= INT_MAX32 {
      CapNeverBinds(start, nsec, now, ms);
    }
  }

  // ----- the struct form -----

  datatype Time = Time(sec: int, nsec: int)

  function Total(t: Time): int {
    t.sec * NSEC_PER_SEC + t.nsec
  }

  predicate Normal(t: Time) {
    0 <= t.nsec < NSEC_PER_SEC
  }

  lemma SecondsOf(ticks: int, rest: int)
    requires 0 <= ticks && 0 <= rest < 100
    ensures (100 * ticks + rest) / 1_000_000_000 == ticks / TICKS_PER_SEC
    ensures (100 * ticks + rest) % 1_000_000_000 == ticks % TICKS_PER_SEC * 100 + rest
  {
  }

  lemma WrappedOnce(ticks: int)
    requires 0 <= ticks < 2 * TWO64
    ensures ticks % TWO64 == if ticks >= TWO64 then ticks - TWO64 else ticks
  {
  }

  /** narrow: time_t is shorter than 64 bits, and the seconds are capped. */
  method SetNsec(systime: int, nsec: int, narrow: bool) returns (t: Time)
    requires 0 <= systime < TWO64 && 0 <= nsec < TWO64
    ensures Normal(t) && Total(t) <= systime * NSEC_PER_TICK + nsec
    // the time asked for, less 2^64 ticks on overflow: its seconds, cut at the cap, and its nanoseconds
    ensures
      var asked := systime * 100 + nsec - (if systime + nsec / 100 >= 0x1_0000_0000_0000_0000 then 100 * TWO64 else 0);
      && t.sec == (if narrow && asked / 1_000_000_000 > 0x7FFF_FFFF then 0x7FFF_FFFF else asked / 1_000_000_000)
      && t.nsec == asked % 1_000_000_000
    ensures Total(t) == systime * NSEC_PER_TICK + nsec <==>
      systime + nsec / NSEC_PER_TICK < TWO64 &&
      (narrow ==> (systime + nsec / NSEC_PER_TICK) / TICKS_PER_SEC <= INT_MAX32)
  {
    var now := (systime + nsec / NSEC_PER_TICK) % TWO64;
    SecondsOf(now, nsec % NSEC_PER_TICK);
    WrappedOnce(systime + nsec / NSEC_PER_TICK);
    var tvSec := now / TICKS_PER_SEC;
    if narrow {
      tvSec := Min(tvSec, INT_MAX32);
    }
    t := Time(tvSec, now % TICKS_PER_SEC * NSEC_PER_TICK + nsec % NSEC_PER_TICK);
  }

  lemma SecondsInTicks(systime: int, sec: int)
    requires 0 <= systime && 0 <= sec
    ensures sec * NSEC_PER_SEC / NSEC_PER_TICK == sec * TICKS_PER_SEC
    ensures (systime + sec * TICKS_PER_SEC) / TICKS_PER_SEC == systime / TICKS_PER_SEC + sec
  {
  }

  /** Whole seconds lose nothing exactly while their nanoseconds fit in 64 bits and the sum is not capped. */
  method SetSec(systime: int, sec: int, narrow: bool) returns (t: Time)
    requires 0 <= systime < TWO63 && 0 <= sec < TWO64
    ensures Normal(t)
    ensures Total(t) == systime * NSEC_PER_TICK + sec * NSEC_PER_SEC <==>
      sec * NSEC_PER_SEC < TWO64 && (narrow ==> systime / TICKS_PER_SEC + sec <= INT_MAX32)
  {
    SecondsInTicks(systime, sec);
    t := SetNsec(systime, sec * NSEC_PER_SEC % TWO64, narrow);
  }

  function Cmp(t1: Time, t2: Time): int {
    if t1.sec > t2.sec || (t1.sec == t2.sec && t1.nsec > t2.nsec) then 1
    else if t1.sec < t2.sec || (t1.sec == t2.sec && t1.nsec < t2.nsec) then -1
    else 0
  }

  function Diff(t1: Time, t2: Time): int {
    ((t1.sec - t2.sec) * NSEC_PER_SEC + t1.nsec - t2.nsec) % TWO64
  }

  /** On normalised times the comparison is that of total nanoseconds. */
  lemma CmpIsOrder(t1: Time, t2: Time)
    requires Normal(t1) && Normal(t2)
    ensures Cmp(t1, t2) == 1 <==> Total(t1) > Total(t2)
    ensures Cmp(t1, t2) == -1 <==> Total(t1) < Total(t2)
    ensures Cmp(t1, t2) == 0 <==> t1 == t2
  {
  }

  /** The difference is reduced to 64 bits without a sign. */
  lemma DiffIs(t1: Time, t2: Time)
    ensures 0 <= Diff(t1, t2) < 0x1_0000_0000_0000_0000
    ensures (Diff(t1, t2) - (t1.sec - t2.sec) * 1_000_000_000 - (t1.nsec - t2.nsec)) % 0x1_0000_0000_0000_0000 == 0
  {
    var d := (t1.sec - t2.sec) * NSEC_PER_SEC + t1.nsec - t2.nsec;
    assert d % TWO64 - d == -(d / TWO64) * TWO64;
    MultipleOfTwo64(-(d / TWO64));
  }

  lemma MultipleOfTwo64(k: int)
    ensures k * TWO64 % TWO64 == 0
  {
  }

  /** The difference is exact exactly when the first time is not the earlier one and the gap fits 64 bits. */
  lemma DiffExactIff(t1: Time, t2: Time)
    requires Normal(t1) && Normal(t2)
    ensures Diff(t1, t2) == Total(t1) - Total(t2) <==> Cmp(t1, t2) >= 0 && Total(t1) - Total(t2) < TWO64
  {
    CmpIsOrder(t1, t2);
    assert (t1.sec - t2.sec) * NSEC_PER_SEC + t1.nsec - t2.nsec == Total(t1) - Total(t2);
  }

  /** Rounding to milliseconds is off by less than one, however the deadline and the clock fall. */
  lemma MillisecondsApart(abstime: Time, systime: int)
    requires Normal(abstime) && 0 <= abstime.sec
    ensures var left := Total(abstime) - systime * NSEC_PER_TICK;
      var ms := abstime.sec * 1000 + abstime.nsec / NSEC_PER_MSEC - systime / TICKS_PER_MSEC;
      && left - NSEC_PER_MSEC < ms * NSEC_PER_MSEC < left + NSEC_PER_MSEC
      && (left < 0 ==> ms <= 0)
  {
  }

  /** The read of the struct form; the result is cut to a DWORD. */
  method GetMillisecondsOf(abstime: Time, systime: int) returns (ms: int)
    requires Normal(abstime) && 0 <= abstime.sec && abstime.sec * 1000 < TWO63 && 0 <= systime < TWO64
    ensures 0 <= ms < TWO32
    // whole milliseconds of the deadline less those of the clock, cut to 32 bits
    ensures var left := abstime.sec * 1000 + abstime.nsec / 1_000_000 - systime / 10_000;
      ms == if left < 0 then 0 else left % 0x1_0000_0000
    // within one millisecond of what is left, as long as that is less than 2^32 milliseconds
    ensures var left := Total(abstime) - systime * NSEC_PER_TICK;
      && (left < 0 ==> ms == 0)
      && (0 <= left < (TWO32 - 1) * NSEC_PER_MSEC ==> left - NSEC_PER_MSEC < ms * NSEC_PER_MSEC < left + NSEC_PER_MSEC)
  {
    MillisecondsApart(abstime, systime);
    var future := abstime.sec * 1000 + abstime.nsec / NSEC_PER_MSEC;
    var now := systime / TICKS_PER_MSEC;
    if future < now {
      return 0;
    }
    return (future - now) % TWO32;
  }

  /** Set at start and read at now, in the struct form. It has no cap, so the wait follows the clock: it is the
      timeout asked for, less what has passed, to within a millisecond; and it is longer than asked for when
      the clock has gone back by a millisecond or more. */
  method WaitForStruct(nsec: int, start: int, now: int) returns (ms: int)
    requires 0 <= nsec < TWO63 && 0 <= start && start + nsec / NSEC_PER_TICK < TWO63 && 0 <= now < TWO63
    ensures var left := nsec - (now - start) * NSEC_PER_TICK;
      && (left < 0 ==> ms == 0)
      && (0 <= left < (TWO32 - 1) * NSEC_PER_MSEC ==>
           && left - NSEC_PER_MSEC < ms * NSEC_PER_MSEC < left + NSEC_PER_MSEC
           && (start - now >= TICKS_PER_MSEC ==> ms * NSEC_PER_MSEC > nsec))
  {
    var abstime := SetNsec(start, nsec, false);
    assert abstime.sec < TWO63 / TICKS_PER_SEC + 1;
    ms := GetMillisecondsOf(abstime, now);
  }
}
