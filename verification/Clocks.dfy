/** Time as the caches see it. */
module Clocks {

  /** The longest `time.Duration`, in nanoseconds. */
  const MAX_DURATION := 0x7FFF_FFFF_FFFF_FFFF

  /** The zero `time.Time`; clocks count nanoseconds from it. */
  const ZERO_TIME := 0

  /** A clock that never goes back. */
  class Clock {
    var now: int

    /** The present is further from the zero time than any duration is long. */
    ghost predicate Valid()
      reads this
    {
      now > ZERO_TIME + MAX_DURATION
    }

    method Read() returns (t: int)
      modifies this
      ensures t == now && old(now) <= now
    {
      var passed :| 0 <= passed;
      now := now + passed;
      t := now;
    }
  }
}
