/**
 * Go's time values, as integers. An instant is a count of nanoseconds since
 * Go's zero `time.Time` (January 1 of year 1, UTC), which is the value of a
 * `time.Time` field that was never assigned; a `time.Duration` is a signed
 * 64-bit count of nanoseconds.
 */
module Clock {
  type Time = nat

  /** The zero `time.Time`. */
  const ZeroTime: Time := 0

  const Millisecond: int := 1_000_000
  const Second: int := 1_000_000_000

  const MinDuration: int := -0x8000_0000_0000_0000
  const MaxDuration: int := 0x7FFF_FFFF_FFFF_FFFF

  type Duration = d: int | MinDuration <= d <= MaxDuration

  /**
   * `now.Sub(t)`: the elapsed time, saturated at the ends of the Duration
   * range (Go returns the maximum or minimum Duration when the difference
   * overflows, which is what happens when `t` is the zero time).
   */
  function Since(now: Time, t: Time): Duration {
    if now - t > MaxDuration then MaxDuration
    else if now - t < MinDuration then MinDuration
    else now - t
  }

  /**
   * Comparing a saturated `Sub` with a Duration agrees with comparing the
   * exact difference, unless the clock went back by more than the whole
   * Duration range and the bound is the minimum Duration.
   */
  lemma SinceAtLeast(now: Time, t: Time, d: Duration)
    requires d > MinDuration || now >= t
    ensures Since(now, t) >= d <==> now - t >= d
  {
  }

  /** Every instant is at least zero nanoseconds after the zero time. */
  lemma SinceZeroTime(now: Time)
    ensures Since(now, ZeroTime) >= 0
  {
  }
}
