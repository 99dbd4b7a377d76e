/**
 * The wall-clock alignment of the newer bot: after each run it sleeps until the next
 * 00:00 or 12:00 UTC, and before a run it skips that sleep when it is already within two
 * minutes past such a time. Time is whole seconds since the Unix epoch in UTC, where every
 * day has 86400 seconds; Dafny's `/` and `%` round down, like Python's `datetime` fields.
 */
module Schedule {

  const SecondsPerMinute := 60
  const SecondsPerHour := 3600

  /** `hours_interval`: posts go out every 12 hours. */
  const HoursInterval := 12

  /** The cadence in seconds. */
  const Period := HoursInterval * SecondsPerHour

  /** `min_slack`: minutes past the boundary during which the pre-run sleep is skipped. */
  const MinSlack := 2

  /** `now.hour` in UTC. */
  function HourOfDay(now: int): (hour: int)
    ensures 0 <= hour < 24
  {
    (now / SecondsPerHour) % 24
  }

  /** `now.minute`. */
  function MinuteOfHour(now: int): (minute: int)
    ensures 0 <= minute < 60
  {
    (now / SecondsPerMinute) % 60
  }

  /** `datetime(now.year, now.month, now.day, now.hour)`: the start of the current hour. */
  function HourStart(now: int): (start: int)
    ensures start % SecondsPerHour == 0
    ensures start <= now < start + SecondsPerHour
  {
    now - now % SecondsPerHour
  }

  /** Division by a positive `k` is determined by a quotient and a remainder in `[0, k)`. */
  lemma DivModUnique(x: int, k: int, q: int, r: int)
    requires k > 0 && 0 <= r < k && x == q * k + r
    ensures x / k == q && x % k == r
  {
    var q', r' := x / k, x % k;
    assert (q - q') * k == r' - r;
    if q > q' {
      MulAtLeast(q - q', k);
    } else if q < q' {
      MulAtLeast(q' - q, k);
    }
  }

  /** A positive multiple of `k` is at least `k`. */
  lemma MulAtLeast(a: int, k: int)
    requires a >= 1 && k > 0
    ensures a * k >= k
  {
    var b := a - 1;
    assert a * k == b * k + k;
    assert b * k >= 0;
  }

  /** `(a * k + b) / k == a + b / k` and `(a * k + b) % k == b % k`. */
  lemma DivModShift(a: int, k: int, b: int)
    requires k > 0
    ensures (a * k + b) / k == a + b / k
    ensures (a * k + b) % k == b % k
  {
    DivModUnique(a * k + b, k, a + b / k, b % k);
  }

  /**
   * `later` in `__sleep_until_next_time`: the start of the current hour moved on by
   * `12 - hour % 12` hours. It is the first 00:00 or 12:00 strictly after `now`.
   */
  function WakeTime(now: int): (later: int)
    ensures later % Period == 0
    ensures now < later <= now + Period
  {
    var q := now / SecondsPerHour;
    var m := q % HoursInterval;
    assert HourOfDay(now) % HoursInterval == m by {
      DivModShift(q / 24, 24, q % 24);
      DivModShift(2 * (q / 24), HoursInterval, q % 24);
    }
    assert HourStart(now) + (HoursInterval - m) * SecondsPerHour == (q / HoursInterval + 1) * Period;
    HourStart(now) + (HoursInterval - HourOfDay(now) % HoursInterval) * SecondsPerHour
  }

  /** No 00:00 or 12:00 lies strictly between `now` and the wake time. */
  lemma WakeTimeIsNextBoundary(now: int, t: int)
    requires t % Period == 0 && now < t
    ensures WakeTime(now) <= t
  {
    var later := WakeTime(now);
    DivModShift(later / Period - 1, Period, 0);
    assert later - Period == (later / Period - 1) * Period;
  }

  /** The wake time is on the hour, at hour 0 or 12 of its day, with zero minutes and seconds. */
  lemma {:induction false} WakeTimeOnTheHour(now: int)
    ensures HourOfDay(WakeTime(now)) == 0 || HourOfDay(WakeTime(now)) == HoursInterval
    ensures MinuteOfHour(WakeTime(now)) == 0 && WakeTime(now) % SecondsPerMinute == 0
  {
    var later := WakeTime(now);
    var n := later / Period;
    DivModShift(n, Period, 0);
    DivModShift(12 * n, SecondsPerHour, 0);
    DivModShift(720 * n, SecondsPerMinute, 0);
    DivModShift(12 * n, 60, 0);
    DivModShift(n / 2, 24, 12 * (n % 2));
  }

  /** The sleep before the next run: strictly positive and at most twelve hours. */
  function Delay(now: int): (d: int)
    ensures 0 < d <= Period
  {
    WakeTime(now) - now
  }

  /** `main` skips the sleep before a run exactly when `hour % 12 == 0 and minute < 2`. */
  predicate SkipPreRunSleep(now: int) {
    HourOfDay(now) % HoursInterval == 0 && MinuteOfHour(now) < MinSlack
  }

  /** The skip window is the first two minutes after each 00:00 and 12:00. */
  lemma SkipWindow(now: int)
    ensures SkipPreRunSleep(now) <==> now % Period < MinSlack * SecondsPerMinute
  {
    var n, r := now / Period, now % Period;
    DivModShift(n, Period, r);
    DivModShift(12 * n, SecondsPerHour, r);
    DivModShift(720 * n, SecondsPerMinute, r);
    var h := r / SecondsPerHour;
    assert 0 <= h < 12;
    DivModShift(n / 2, 24, 12 * (n % 2) + h);
    DivModShift(12 * n, 60, r / SecondsPerMinute);
    assert HourOfDay(now) % HoursInterval == h;
  }
}
