/** Naive datetimes as integers. An instant is a number of microseconds since
    0001-01-01 00:00:00, the earliest Python `datetime` (`datetime.min`), which
    is a Monday; a `timedelta` is a number of microseconds. Python's floor
    division agrees with Dafny's `/` for a positive divisor, so weekdays and
    times of day come out the same for every instant. */
module Clock {

  import Text

  const UsPerSecond: int := 1000000
  const UsPerMinute: int := 60000000
  const UsPerHour: int := 3600000000
  const UsPerDay: int := 86400000000
  const UsPerWeek: int := 604800000000

  /** `timedelta(minutes=m)`. */
  function Minutes(m: int): int { m * 60000000 }

  /** `timedelta(hours=h)`. */
  function Hours(h: int): int { h * 3600000000 }

  /** `timedelta(days=d)`. */
  function Days(d: int): int { d * 86400000000 }

  /** The number of whole days since 0001-01-01 (Python's `toordinal() - 1`). */
  function DayIndex(t: int): int { t / UsPerDay }

  /** `t.weekday()`: 0 is Monday, 6 is Sunday. */
  function Weekday(t: int): (d: int)
    ensures 0 <= d < 7
  {
    DayIndex(t) % 7
  }

  /** `t.time()`, as microseconds since midnight. */
  function TimeOfDay(t: int): (r: int)
    ensures 0 <= r < UsPerDay
    ensures r == t - Days(DayIndex(t))
  {
    t % UsPerDay
  }

  /** Midnight of the day of `t`. */
  function DayStart(t: int): (r: int)
    ensures r <= t < r + UsPerDay
    ensures TimeOfDay(r) == 0 && DayIndex(r) == DayIndex(t)
  {
    Days(DayIndex(t))
  }

  /** `t.replace(second=0, microsecond=0)`. */
  function TruncateToMinute(t: int): (r: int)
    ensures r <= t < r + UsPerMinute
    ensures r % UsPerMinute == 0
    ensures t % UsPerMinute == 0 ==> r == t
  {
    t - t % UsPerMinute
  }

  /** `delta.total_seconds() // 60` on a timedelta of `delta` microseconds:
      the whole minutes, rounded towards minus infinity. */
  function WholeMinutes(delta: int): (m: int)
    ensures Minutes(m) <= delta < Minutes(m + 1)
  {
    delta / UsPerMinute
  }

  lemma {:induction false} WholeMinutesOfMinutes(m: int)
    ensures WholeMinutes(Minutes(m)) == m
  {
    var q := WholeMinutes(Minutes(m));
    assert Minutes(q) <= Minutes(m) < Minutes(q + 1);
  }

  /** Shifting an instant by whole days keeps its time of day and moves its
      weekday by the same number of days. */
  lemma {:induction false} ShiftByDays(t: int, k: int)
    ensures TimeOfDay(t + Days(k)) == TimeOfDay(t)
    ensures DayIndex(t + Days(k)) == DayIndex(t) + k
    ensures Weekday(t + Days(k)) == (Weekday(t) + k) % 7
  {
    var q, r := DayIndex(t), TimeOfDay(t);
    assert t + Days(k) == (q + k) * UsPerDay + r;
    DayDivMod(t + Days(k), q + k, r);
  }

  lemma DayDivMod(t: int, q: int, r: int)
    requires 0 <= r < UsPerDay && t == q * UsPerDay + r
    ensures DayIndex(t) == q && TimeOfDay(t) == r
  {
    Text.DivModUnique(t, UsPerDay, q, r);
  }
}
