/**
  The `TimeInterval` helpers: a minute, an hour, and a number of minutes,
  all in seconds. `TimeInterval` is a floating-point number of seconds;
  every value these helpers produce is a whole number of seconds, so the
  model counts seconds with integers.
*/
module TimeIntervals {

  /** `TimeInterval.oneMinute`. */
  const OneMinute: int := 60

  /** `TimeInterval.oneHour`, sixty minutes. */
  const OneHour: int := OneMinute * 60

  /** `TimeInterval.minutes(_:)`: the given number of minutes, in seconds. */
  function Minutes(minutes: int): int {
    minutes * OneMinute
  }

  lemma OneHourIsThreeThousandSixHundredSeconds()
    ensures OneMinute == 60 && OneHour == 3600
  {
  }

  /** Converting minutes to seconds distributes over addition. */
  lemma MinutesAdditive(a: int, b: int)
    ensures Minutes(a + b) == Minutes(a) + Minutes(b)
  {
  }

  /** Sixty minutes make an hour, and one minute is `OneMinute`. */
  lemma MinutesOfAnHour()
    ensures Minutes(60) == OneHour && Minutes(1) == OneMinute
  {
  }

  /** Different numbers of minutes give different intervals, in the same order. */
  lemma MinutesStrictlyMonotonic(a: int, b: int)
    requires a < b
    ensures Minutes(a) < Minutes(b)
  {
  }
}
