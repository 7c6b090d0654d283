/**
 * UTC wall-clock arithmetic on timestamps counted in whole seconds since the
 * epoch. A calendar date is the number of days since the epoch. Dafny's
 * Euclidean `/` and `%` by a positive divisor floor, as Ruby's `Time` does for
 * instants before the epoch.
 */
module Clock {

  const SecondsPerMinute: int := 60
  const SecondsPerHour: int := 3600
  const SecondsPerDay: int := 86400
  const HalfHour: int := 1800

  /** `time.to_date`: the UTC calendar day of an instant. */
  function Day(t: int): int {
    t / SecondsPerDay
  }

  /** `time.hour`: hour of the UTC day. */
  function Hour(t: int): (h: int)
    ensures 0 <= h < 24
  {
    (t % SecondsPerDay) / SecondsPerHour
  }

  /** `time.min`: minute of the hour. */
  function Minute(t: int): (m: int)
    ensures 0 <= m < 60
  {
    (t % SecondsPerHour) / SecondsPerMinute
  }

  /** `date.beginning_of_day` (also what `date + duration` starts from). */
  function DayStart(d: int): int {
    d * SecondsPerDay
  }

  /** `date.end_of_day`, the last whole second of the day. */
  function DayEnd(d: int): int {
    DayStart(d) + SecondsPerDay - 1
  }

  /** `date <= t < date.tomorrow`. */
  predicate InDay(t: int, d: int) {
    DayStart(d) <= t < DayStart(d + 1)
  }

  /** Euclidean division is determined by its quotient and remainder. */
  lemma DivModUnique(t: int, n: int, q: int, r: int)
    requires 0 < n && 0 <= r < n && t == q * n + r
    ensures t / n == q && t % n == r
  {
    var q', r' := t / n, t % n;
    assert t == q' * n + r' && 0 <= r' < n;
    if q' < q {
      assert (q - q') * n >= n by { MulAtLeast(q - q', n); }
    } else if q < q' {
      assert (q' - q) * n >= n by { MulAtLeast(q' - q, n); }
    }
  }

  /** A positive multiple of `n` is at least `n`. */
  lemma MulAtLeast(k: int, n: int)
    requires 1 <= k && 0 < n
    ensures k * n >= n
  {
  }

  /** An instant `s` seconds into day `d` reads back as day `d`, hour and minute of `s`. */
  lemma {:induction false} ClockOf(d: int, s: int)
    requires 0 <= s < SecondsPerDay
    ensures Day(DayStart(d) + s) == d
    ensures Hour(DayStart(d) + s) == s / SecondsPerHour
    ensures Minute(DayStart(d) + s) == (s % SecondsPerHour) / SecondsPerMinute
  {
    var t := DayStart(d) + s;
    DivModUnique(t, SecondsPerDay, d, s);
    DivModUnique(t, SecondsPerHour, d * 24 + s / SecondsPerHour, s % SecondsPerHour);
  }

  /** Every instant lies in the hour `Hour(t)` of the day `Day(t)`. */
  lemma {:induction false} HourBounds(t: int)
    ensures DayStart(Day(t)) + Hour(t) * SecondsPerHour <= t
    ensures t < DayStart(Day(t)) + (Hour(t) + 1) * SecondsPerHour
  {
    var s := t % SecondsPerDay;
    assert t == Day(t) * SecondsPerDay + s;
    assert s == Hour(t) * SecondsPerHour + s % SecondsPerHour;
  }

  /** Day membership by bounds agrees with the calendar day of the instant. */
  lemma {:induction false} InDayIff(t: int, d: int)
    ensures InDay(t, d) <==> Day(t) == d
  {
    if InDay(t, d) {
      DivModUnique(t, SecondsPerDay, d, t - DayStart(d));
    }
    if Day(t) == d {
      assert t == Day(t) * SecondsPerDay + t % SecondsPerDay;
    }
  }
}
