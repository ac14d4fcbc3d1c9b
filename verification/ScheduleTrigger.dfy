/**
 The tick scheduler of `every:` triggers.  Times and durations are in nanoseconds; the
 first tick is computed in whole milliseconds, with division truncating towards zero.
 */
module ScheduleTrigger {
  import opened Basics

  const MILLI: nat := 1_000_000
  const YEAR: nat := 31_557_600 * 1_000_000_000 // "1 year" as humantime reads it

  /** Division as Rust does it. */
  function TruncDiv(a: int, b: int): int
    requires b > 0
  {
    if a >= 0 then a / b else -((-a) / b)
  }

  lemma Division(a: int, b: int)
    requires b > 0
    ensures a == (a / b) * b + a % b && 0 <= a % b < b
  {}

  lemma TruncDivBounds(a: int, b: int)
    requires b > 0
    ensures a >= 0 ==> TruncDiv(a, b) * b <= a < TruncDiv(a, b) * b + b
    ensures a < 0 ==> TruncDiv(a, b) * b - b < a <= TruncDiv(a, b) * b
  {
    Division(a, b);
    Division(-a, b);
  }

  /** The first tick, in milliseconds. */
  function FirstTickMillis(now: int, millis: int): int
    requires millis > 0
  {
    (TruncDiv(now, millis) + 1) * millis
  }

  /** The first tick is always in the future.  It comes within one period exactly if the
      time is not before the epoch or the period divides it. */
  lemma FirstTickIsNext(now: int, millis: int)
    requires millis > 0
    ensures FirstTickMillis(now, millis) > now
    ensures FirstTickMillis(now, millis) <= now + millis <==> now >= 0 || now == TruncDiv(now, millis) * millis
    ensures now >= 0 ==> FirstTickMillis(now, millis) == (now / millis + 1) * millis
  {
    TruncDivBounds(now, millis);
    var q := TruncDiv(now, millis);
    assert (q + 1) * millis == q * millis + millis;
  }

  datatype Status = Started | TooLong | DividesByZero

  class ScheduleTriggerRunner {
    var duration: nat
    var nextTriggerTime: int

    constructor (duration: nat, first: int)
      ensures this.duration == duration && nextTriggerTime == first
    {
      this.duration, nextTriggerTime := duration, first;
    }

    method AdvanceTime()
      modifies this`nextTriggerTime
      ensures nextTriggerTime == old(nextTriggerTime) + duration
    {
      nextTriggerTime := nextTriggerTime + duration;
    }
  }

  /**
   The schedule loop, for as many runs as there are run times given.  A run begins when
   its tick has come and the run before it is over; it is handed the time of its tick.
   */
  method RunEvery(duration: nat, now: int, runTimes: seq<nat>)
    returns (status: Status, ticks: seq<int>, begun: seq<int>)
    ensures status == TooLong <==> duration > YEAR
    ensures status == DividesByZero <==> duration < MILLI
    ensures status == Started ==> |ticks| == |begun| == |runTimes|
    // no tick is skipped or repeated, however long runs take
    ensures status == Started ==>
              forall k :: 0 <= k < |ticks| ==>
                ticks[k] == FirstTickMillis(now / MILLI, duration / MILLI) * MILLI + k * duration
    // and each run begins at its tick or, if that is later, when the run before it is over
    ensures status == Started ==>
              forall k :: 0 <= k < |ticks| ==>
                begun[k] == Max(ticks[k], if k == 0 then now else begun[k - 1] + runTimes[k - 1])
  {
    ticks, begun := [], [];
    if duration > YEAR { return TooLong, [], []; }
    if duration / MILLI == 0 { return DividesByZero, [], []; }
    status := Started;
    var first := FirstTickMillis(now / MILLI, duration / MILLI) * MILLI;
    var runner := new ScheduleTriggerRunner(duration, first);
    var clock := now;
    for k := 0 to |runTimes|
      invariant fresh(runner) && runner.duration == duration
      invariant runner.nextTriggerTime == first + k * duration
      invariant |ticks| == |begun| == k
      invariant forall i :: 0 <= i < k ==> ticks[i] == first + i * duration
      invariant forall i :: 0 <= i < k ==>
                  begun[i] == Max(ticks[i], if i == 0 then now else begun[i - 1] + runTimes[i - 1])
      invariant clock == if k == 0 then now else begun[k - 1] + runTimes[k - 1]
    {
      var triggerTime := runner.nextTriggerTime;
      clock := Max(clock, triggerTime); // sleep until the tick
      runner.AdvanceTime();
      assert (k + 1) * duration == k * duration + duration;
      ticks, begun := ticks + [triggerTime], begun + [clock];
      clock := clock + runTimes[k];
    }
  }

  /** For a period of whole milliseconds and a time not before the epoch the ticks are
      the multiples of the period after now, one after the other. */
  lemma TicksAreMultiples(millis: nat, now: nat, k: nat)
    requires millis > 0
    ensures (millis * MILLI) / MILLI == millis
    ensures FirstTickMillis(now / MILLI, millis) * MILLI + k * (millis * MILLI) ==
            (now / (millis * MILLI) + 1 + k) * (millis * MILLI)
    ensures now < FirstTickMillis(now / MILLI, millis) * MILLI <= now + millis * MILLI
  {
    var d := millis * MILLI;
    FirstTickIsNext(now / MILLI, millis);
    DivTwice(now, millis);
    var q := now / d;
    assert FirstTickMillis(now / MILLI, millis) == (q + 1) * millis;
    assert (q + 1) * millis * MILLI == (q + 1) * d;
    assert (q + 1) * d + k * d == (q + 1 + k) * d;
    Division(now, d);
    assert (q + 1) * d == q * d + d;
  }

  /** Dividing by a million and then by the milliseconds, or by the nanoseconds at once. */
  lemma DivTwice(now: nat, millis: nat)
    requires millis > 0
    ensures (now / MILLI) / millis == now / (millis * MILLI)
  {
    var a := now / MILLI;
    var q := a / millis;
    Division(now, MILLI);
    Division(a, millis);
    var r := (a % millis) * MILLI + now % MILLI;
    assert now == q * (millis * MILLI) + r by {
      assert now == (q * millis + a % millis) * MILLI + now % MILLI;
      assert (q * millis + a % millis) * MILLI == q * millis * MILLI + (a % millis) * MILLI;
    }
    assert 0 <= r < millis * MILLI by {
      assert (a % millis) * MILLI <= (millis - 1) * MILLI;
    }
    QuotientIsUnique(now, millis * MILLI, q, r);
  }

  lemma Scales(x: int, d: nat)
    ensures x >= 1 ==> x * d >= d
    ensures x <= -1 ==> x * d + d <= 0
  {}

  lemma QuotientIsUnique(a: nat, d: nat, q: nat, r: nat)
    requires d > 0 && a == q * d + r && r < d
    ensures a / d == q
  {
    Division(a, d);
    var p := a / d;
    assert (p - q) * d == r - a % d;
    Scales(p - q, d);
  }
}
