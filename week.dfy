/** `shared_planner/week.py`: the Monday of the week of an instant. */
module Week {

  import opened Clock
  import opened Calendar
  import opened Outcome

  /** `monday(t) = t - timedelta(days=t.weekday())`. */
  function Monday(t: int): (m: int)
    ensures Weekday(m) == 0
    ensures m <= t < m + UsPerWeek
    ensures TimeOfDay(m) == TimeOfDay(t)
  {
    ShiftByDays(t, -Weekday(t));
    t - Days(Weekday(t))
  }

  /** Taking the Monday twice changes nothing. */
  lemma MondayIdempotent(t: int)
    ensures Monday(Monday(t)) == Monday(t)
  {
  }

  /** The Monday is the latest instant at or before `t` that is a Monday at
      the time of day of `t`. */
  lemma {:induction false} MondayIsLatest(t: int, k: int)
    requires 0 <= k && Weekday(t - Days(k)) == 0
    ensures Monday(t) >= t - Days(k)
    ensures k < 7 ==> Monday(t) == t - Days(k)
  {
    ShiftByDays(t, -k);
    var w := Weekday(t);
    assert (w - k) % 7 == 0;
  }

  /** `monday_str(t) = monday(t).strftime("%Y-%m-%d")`. */
  function MondayStr(t: int): (s: string)
    requires t >= 0
    ensures |s| == 10
  {
    FormatDate(Monday(t))
  }

  /** What `monday_str` writes reads back, with "%Y-%m-%d", as midnight of a
      Monday no later than `t` and less than a week before it. */
  lemma MondayStrParses(t: int)
    requires t >= 0 && InRange(Monday(t))
    ensures ParseDate(MondayStr(t)).Ok?
    ensures var m := ParseDate(MondayStr(t)).value;
      Weekday(m) == 0 && m <= t < m + UsPerWeek && m == DayStart(Monday(t))
  {
    ParseFormatDate(Monday(t));
  }
}
