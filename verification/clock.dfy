/**
 * Time-of-day arithmetic on whole seconds. A local date-time is represented
 * by its wall-clock reading in seconds from a local midnight; the hour and
 * minute fields are those of `datetime.hour` and `datetime.minute`, and a
 * duration is normalised the way `timedelta` normalises it.
 */
module Clock {

  const SecondsPerMinute := 60
  const SecondsPerHour := 3600
  const SecondsPerDay := 86400

  /** Seconds since the most recent local midnight. */
  function SecondOfDay(t: int): (s: int)
    ensures 0 <= s < SecondsPerDay
    ensures (t - s) % SecondsPerDay == 0
  {
    t % SecondsPerDay
  }

  /** The `hour` field, 0 through 23. */
  function Hour(t: int): (h: int)
    ensures 0 <= h < 24
    ensures h * SecondsPerHour <= SecondOfDay(t) < (h + 1) * SecondsPerHour
  {
    SecondOfDay(t) / SecondsPerHour
  }

  /** The `minute` field, 0 through 59. */
  function Minute(t: int): (m: int)
    ensures 0 <= m < 60
    ensures Hour(t) * SecondsPerHour + m * SecondsPerMinute <= SecondOfDay(t)
    ensures SecondOfDay(t) < Hour(t) * SecondsPerHour + (m + 1) * SecondsPerMinute
  {
    (SecondOfDay(t) % SecondsPerHour) / SecondsPerMinute
  }

  /**
   * `hour + minute / 60`: the time of day in hours, with the seconds
   * dropped. The result is a whole number of minutes, at most a minute
   * below the exact time of day.
   */
  function FractionalHour(t: int): (r: real)
    ensures 0.0 <= r < 24.0
    ensures (r * 60.0).Floor as real == r * 60.0
    ensures r * 3600.0 <= SecondOfDay(t) as real < r * 3600.0 + 60.0
  {
    var h, m := Hour(t), Minute(t);
    var minutes := h * 60 + m;
    assert minutes * 60 <= SecondOfDay(t) < minutes * 60 + 60;
    var r := h as real + m as real / 60.0;
    assert r == minutes as real / 60.0;
    assert r * 60.0 == minutes as real;
    assert r * 3600.0 == (minutes * 60) as real;
    r
  }

  /**
   * `timedelta.seconds / 3600` for the difference `later - earlier`: the
   * `seconds` component of a normalised timedelta drops whole days, so the
   * result is the difference reduced modulo one day, in hours. It is the
   * unique whole-second amount in [0, 24) hours congruent to the
   * difference modulo a day.
   */
  function DurationHours(earlier: int, later: int): (r: real)
    ensures 0.0 <= r < 24.0
    ensures (r * 3600.0).Floor as real == r * 3600.0
    ensures ((r * 3600.0).Floor - (later - earlier)) % SecondsPerDay == 0
  {
    var secs := (later - earlier) % SecondsPerDay;
    assert (secs as real / 3600.0) * 3600.0 == secs as real;
    secs as real / 3600.0
  }

  /**
   * The reduced duration equals the true difference exactly when the later
   * reading is not before the earlier one and less than a day after it.
   */
  lemma DurationExactIff(earlier: int, later: int)
    ensures DurationHours(earlier, later) == (later - earlier) as real / 3600.0
        <==> 0 <= later - earlier < SecondsPerDay
  {
    var d := later - earlier;
    var r := DurationHours(earlier, later);
    if r == d as real / 3600.0 {
      assert r * 3600.0 == d as real;
      assert (r * 3600.0).Floor == d;
    }
  }

  /** Any two whole-second durations a day apart give the same reported duration. */
  lemma DurationIgnoresWholeDays(earlier: int, later: int, k: int)
    ensures DurationHours(earlier, later + k * SecondsPerDay) == DurationHours(earlier, later)
  {
    assert (later + k * SecondsPerDay - earlier) % SecondsPerDay == (later - earlier) % SecondsPerDay;
  }

  /**
   * Sample readings: a 06:00 sunrise with an 18:00 sunset gives 12 hours;
   * a sunset ten minutes past the following midnight is still measured
   * correctly (18 h 10 min); a sunset reading that precedes the sunrise
   * reading by 12 hours is reported as 12 hours, not as a negative duration.
   */
  lemma DurationExamples()
    ensures DurationHours(6 * 3600, 18 * 3600) == 12.0
    ensures DurationHours(6 * 3600, SecondsPerDay + 600) == 65400.0 / 3600.0
    ensures DurationHours(18 * 3600, 6 * 3600) == 12.0
  {
    DurationExactIff(6 * 3600, 18 * 3600);
    DurationExactIff(6 * 3600, SecondsPerDay + 600);
    assert (6 * 3600 - 18 * 3600) % SecondsPerDay == 43200;
  }
}
