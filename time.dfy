/** Time arithmetic. Dates are integer milliseconds since the epoch; a poll's
    duration is in whole seconds. */
module Time {
  import opened Wrappers

  const MillisPerSecond := 1000
  const MillisPerDay := 86_400_000

  /** The countdown formula shared by the server and the client:
      `max(0, duration - floor((now - startedAt) / 1000))`. Its value is the
      number of seconds left before the deadline `startedAt + 1000 * duration`,
      rounded up, and 0 once the deadline has been reached. */
  function RemainingSeconds(startedAt: int, duration: int, now: int): (r: int)
    ensures r >= 0
    ensures r > 0 <==> now < startedAt + MillisPerSecond * duration
    ensures r > 0 ==>
      MillisPerSecond * (r - 1) < startedAt + MillisPerSecond * duration - now <= MillisPerSecond * r
  {
    var elapsed := (now - startedAt) / MillisPerSecond;
    Max(0, duration - elapsed)
  }

  /** At the start instant the whole duration remains. */
  lemma {:induction false} RemainingAtStart(startedAt: int, duration: nat)
    ensures RemainingSeconds(startedAt, duration, startedAt) == duration
  {
  }

  /** The remaining time never goes up as the clock advances. */
  lemma {:induction false} RemainingMonotone(startedAt: int, duration: int, t1: int, t2: int)
    requires t1 <= t2
    ensures RemainingSeconds(startedAt, duration, t2) <= RemainingSeconds(startedAt, duration, t1)
  {
  }
}
