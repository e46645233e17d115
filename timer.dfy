/**
 * Timer.cpp: a 32-bit millisecond deadline compared against the loop's clock
 * snapshot `now` (what `millis()` returns).  The snapshot is an explicit
 * parameter here.
 */
module Timers {
  import opened Common

  /** The `never` sentinel: ULONG_MAX, the largest 32-bit value. */
  const NEVER: u32 := 0xFFFF_FFFF

  /** A deadline has expired once the clock is strictly past it. */
  predicate ExpiredAt(deadline: u32, now: u32)
  {
    now > deadline
  }

  /** The deadline `set(ms)` stores: `millis() + ms` in 32-bit arithmetic. */
  function SetAt(now: u32, ms: u32): u32
  {
    Wrap32(now + ms)
  }

  /** What `getRemaining` reports for a deadline at clock `now`. */
  function RemainingAt(deadline: u32, now: u32): u32
  {
    if now >= deadline then 0 else deadline - now
  }

  /** The deadline `add(ms)` leaves: pushed later by `ms`, saturating at NEVER. */
  function AddedTo(deadline: u32, ms: word): u32
  {
    var timeLeft := NEVER - deadline;
    if ms > timeLeft then NEVER else deadline + ms
  }

  class Timer {
    var expireTime: u32

    /** Timers live in zero-initialised storage, so they start with deadline 0. */
    constructor ()
      ensures expireTime == 0
    {
      expireTime := 0;
    }

    method IsExpired(now: u32) returns (expired: bool)
      ensures expired <==> ExpiredAt(expireTime, now)
    {
      expired := now > expireTime;
    }

    method Set(now: u32, ms: u32)
      modifies this
      ensures expireTime == SetAt(now, ms)
    {
      expireTime := (now + ms) % TWO32;
    }

    method GetRemaining(now: u32) returns (remaining: u32)
      ensures remaining == RemainingAt(expireTime, now)
    {
      if now >= expireTime {
        remaining := 0;
      } else {
        remaining := expireTime - now;
      }
    }

    method Add(ms: word)
      modifies this
      ensures expireTime == AddedTo(old(expireTime), ms)
    {
      var timeLeft := NEVER - expireTime;
      if ms > timeLeft {
        expireTime := NEVER;
      } else {
        expireTime := expireTime + ms;
      }
    }

    method Never()
      modifies this
      ensures expireTime == NEVER
    {
      expireTime := NEVER;
    }
  }

  /** Right after `set(0)` the timer is not expired at the same clock value. */
  lemma SetZeroNotExpiredAtOnce(now: u32)
    ensures SetAt(now, 0) == now
    ensures !ExpiredAt(SetAt(now, 0), now)
  {
  }

  /** `set(ms)` is `millis() + ms` modulo 2^32; without wrap-around, it is not expired before `ms` ms pass. */
  lemma SetDeadline(now: u32, ms: u32, later: u32)
    ensures SetAt(now, ms) == (now + ms) % TWO32
    ensures now + ms < TWO32 && now <= later <= now + ms ==> !ExpiredAt(SetAt(now, ms), later)
    ensures now + ms < TWO32 && later > now + ms ==> ExpiredAt(SetAt(now, ms), later)
  {
  }

  /** `getRemaining` is 0 exactly when the clock has reached the deadline, otherwise the gap to it. */
  lemma RemainingMeaning(deadline: u32, now: u32)
    ensures RemainingAt(deadline, now) == 0 <==> now >= deadline
    ensures now < deadline ==> now + RemainingAt(deadline, now) == deadline
  {
  }

  /** `add(ms)` is `min(old + ms, NEVER)`: it never wraps and never moves the deadline earlier. */
  lemma AddSaturates(deadline: u32, ms: word)
    ensures AddedTo(deadline, ms) == if deadline + ms < NEVER then deadline + ms else NEVER
    ensures AddedTo(deadline, ms) >= deadline
  {
  }

  /** After `never()`, no clock value makes the timer expire. */
  lemma NeverDoesNotExpire(now: u32)
    ensures !ExpiredAt(NEVER, now)
  {
  }

  /** A zero-initialised timer is pre-expired: expired at every clock value after 0. */
  lemma ZeroTimerPreExpired(now: u32)
    ensures ExpiredAt(0, now) <==> now > 0
  {
  }
}
