/** The client countdown of `usePollTimer`: a pure formula for the seconds
    left, and the `timeRemaining` state cell that an interval refreshes
    every second until it reaches 0. */
module PollTimer {
  import opened Wrappers
  import opened Time

  /** `calculateTimeRemaining`, with the hook's early exit for a poll that
      has no start time. */
  function CalculateTimeRemaining(startedAt: Option<int>, duration: int, now: int): (r: int)
    ensures r >= 0
    ensures startedAt.None? ==> r == 0
    ensures startedAt.Some? ==> (r > 0 <==> now < startedAt.value + MillisPerSecond * duration)
    ensures startedAt.Some? && r > 0 ==>
      MillisPerSecond * (r - 1) < startedAt.value + MillisPerSecond * duration - now <= MillisPerSecond * r
  {
    if startedAt.None? then 0 else RemainingSeconds(startedAt.value, duration, now)
  }

  /** The hook's state: the displayed value, whether the interval is
      running, and the clock reading of the last calculation. */
  class Countdown {
    var startedAt: Option<int>
    var duration: int
    var timeRemaining: int
    var ticking: bool
    var lastNow: int

    /** The interval runs only while there is time left, and the displayed
        value is the formula at the last calculation. */
    ghost predicate Valid()
      reads this
    {
      && timeRemaining == CalculateTimeRemaining(startedAt, duration, lastNow)
      && (ticking <==> timeRemaining > 0)
    }

    /** `useState(0)` before the effect has run. */
    constructor ()
      ensures Valid()
      ensures startedAt.None? && timeRemaining == 0 && !ticking
    {
      startedAt := None;
      duration := 0;
      timeRemaining := 0;
      ticking := false;
      lastNow := 0;
    }

    /** The effect, run whenever `startedAt` or `duration` changes: the
        initial calculation, and an interval only when time is left. */
    method Start(startedAt': Option<int>, duration': int, now: int)
      modifies this
      ensures Valid()
      ensures startedAt == startedAt' && duration == duration' && lastNow == now
      ensures timeRemaining == CalculateTimeRemaining(startedAt', duration', now)
      ensures ticking <==> startedAt'.Some? && now < startedAt'.value + MillisPerSecond * duration'
    {
      startedAt := startedAt';
      duration := duration';
      lastNow := now;
      timeRemaining := CalculateTimeRemaining(startedAt, duration, now);
      ticking := timeRemaining > 0;
    }

    /** One interval tick: recalculates from the clock reading, and clears
        the interval once the value reaches 0. `Date.now()` may step back, so
        the value never goes up only when the clock has not. */
    method Tick(now: int)
      requires Valid() && ticking
      modifies this
      ensures Valid()
      ensures startedAt == old(startedAt) && duration == old(duration) && lastNow == now
      ensures timeRemaining == CalculateTimeRemaining(startedAt, duration, now)
      ensures old(lastNow) <= now ==> timeRemaining <= old(timeRemaining)
      ensures !ticking <==> now >= startedAt.value + MillisPerSecond * duration
    {
      if lastNow <= now {
        RemainingMonotone(startedAt.value, duration, lastNow, now);
      }
      lastNow := now;
      timeRemaining := CalculateTimeRemaining(startedAt, duration, now);
      if timeRemaining <= 0 {
        ticking := false;
      }
    }
  }
}
