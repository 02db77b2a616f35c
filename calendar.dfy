/** The proleptic Gregorian calendar of Python's `datetime`, and the
    `strftime`/`strptime` formats the application uses:
    "%Y-%m-%d", "%Y-%m-%d %H:%M" and "%Y%m%dT%H%M%S". */
module Calendar {

  import opened Text
  import opened Clock
  import opened Outcome

  predicate IsLeap(y: int) {
    y % 4 == 0 && (y % 100 != 0 || y % 400 == 0)
  }

  function DaysInYear(y: int): int {
    if IsLeap(y) then 366 else 365
  }

  function DaysInMonth(y: int, m: int): (n: int)
    requires 1 <= m <= 12
    ensures 28 <= n <= 31
  {
    if m == 2 then (if IsLeap(y) then 29 else 28)
    else if m == 4 || m == 6 || m == 9 || m == 11 then 30
    else 31
  }

  /** Days in the months of year `y` before month `m` (`m` = 13: the whole year). */
  function DaysBeforeMonth(y: int, m: int): (n: int)
    requires 1 <= m <= 13
    ensures 0 <= n <= DaysInYear(y)
  {
    [0, 31, 59, 90, 120, 151, 181, 212, 243, 273, 304, 334, 365][m - 1]
      + (if m > 2 && IsLeap(y) then 1 else 0)
  }

  lemma DaysBeforeMonthStep(y: int, m: int)
    requires 1 <= m <= 12
    ensures DaysBeforeMonth(y, m + 1) == DaysBeforeMonth(y, m) + DaysInMonth(y, m)
    ensures DaysBeforeMonth(y, 13) == DaysInYear(y) && DaysBeforeMonth(y, 1) == 0
  {
  }

  /** Days in the years 1 .. y-1. */
  function DaysBeforeYear(y: int): nat
    requires y >= 1
  {
    if y == 1 then 0 else DaysBeforeYear(y - 1) + DaysInYear(y - 1)
  }

  lemma {:induction false} DaysBeforeYearGrows(y1: int, y2: int)
    requires 1 <= y1 < y2
    ensures DaysBeforeYear(y1) + DaysInYear(y1) <= DaysBeforeYear(y2)
  {
    if y2 > y1 + 1 {
      DaysBeforeYearGrows(y1, y2 - 1);
    }
  }

  /** `n / k` grows by one from `n - 1` exactly when `k` divides `n`. */
  lemma FloorStep(n: int, k: int)
    requires k > 0
    ensures n / k - (n - 1) / k == (if n % k == 0 then 1 else 0)
  {
    var q, r := (n - 1) / k, (n - 1) % k;
    assert n == q * k + r + 1;
    if r + 1 == k {
      DivModUnique(n, k, q + 1, 0);
    } else {
      DivModUnique(n, k, q, r + 1);
    }
  }

  /** Year `n` has a leap day exactly when it adds one to the count of
      years divisible by 4, less those by 100, plus those by 400. */
  lemma LeapCounts(n: int)
    ensures DaysInYear(n)
      == 365 + (n / 4 - (n - 1) / 4) - (n / 100 - (n - 1) / 100) + (n / 400 - (n - 1) / 400)
  {
    FloorStep(n, 4);
    FloorStep(n, 100);
    FloorStep(n, 400);
    if n % 400 == 0 {
      var k := n / 400;
      DivModUnique(n, 100, 4 * k, 0);
      DivModUnique(n, 4, 100 * k, 0);
    } else if n % 100 == 0 {
      var k := n / 100;
      DivModUnique(n, 4, 25 * k, 0);
    }
  }

  /** The days before year `y`, in the closed form of the Gregorian rule. */
  lemma {:induction false} DaysBeforeYearClosed(y: int)
    requires y >= 1
    ensures DaysBeforeYear(y) == 365 * (y - 1) + (y - 1) / 4 - (y - 1) / 100 + (y - 1) / 400
  {
    if y > 1 {
      DaysBeforeYearClosed(y - 1);
      LeapCounts(y - 1);
    }
  }

  datatype Date = Date(year: int, month: int, day: int)

  /** A date `datetime.date` accepts (the upper bound of year 9999 aside). */
  predicate ValidDate(d: Date) {
    1 <= d.year && 1 <= d.month <= 12 && 1 <= d.day <= DaysInMonth(d.year, d.month)
  }

  /** Days since 0001-01-01: Python's `d.toordinal() - 1`. */
  function Ordinal(d: Date): nat
    requires ValidDate(d)
  {
    DaysBeforeYear(d.year) + DaysBeforeMonth(d.year, d.month) + d.day - 1
  }

  lemma OrdinalWithinYear(d: Date)
    requires ValidDate(d)
    ensures DaysBeforeYear(d.year) <= Ordinal(d) < DaysBeforeYear(d.year) + DaysInYear(d.year)
    ensures DaysBeforeMonth(d.year, d.month) <= Ordinal(d) - DaysBeforeYear(d.year)
              < DaysBeforeMonth(d.year, d.month + 1)
  {
    DaysBeforeMonthStep(d.year, d.month);
  }

  lemma DaysBeforeMonthGrows(y: int, m1: int, m2: int)
    requires 1 <= m1 < m2 <= 13
    ensures DaysBeforeMonth(y, m1 + 1) <= DaysBeforeMonth(y, m2)
  {
  }

  /** Different valid dates have different ordinals. */
  lemma OrdinalInjective(d1: Date, d2: Date)
    requires ValidDate(d1) && ValidDate(d2) && Ordinal(d1) == Ordinal(d2)
    ensures d1 == d2
  {
    OrdinalWithinYear(d1);
    OrdinalWithinYear(d2);
    if d1.year < d2.year {
      DaysBeforeYearGrows(d1.year, d2.year);
    } else if d2.year < d1.year {
      DaysBeforeYearGrows(d2.year, d1.year);
    } else if d1.month < d2.month {
      DaysBeforeMonthGrows(d1.year, d1.month, d2.month);
    } else if d2.month < d1.month {
      DaysBeforeMonthGrows(d1.year, d2.month, d1.month);
    }
  }

  function MonthFrom(y: int, n: nat, m: int): (d: Date)
    requires y >= 1 && 1 <= m <= 12
    requires DaysBeforeMonth(y, m) + n < DaysInYear(y)
    ensures ValidDate(d) && d.year == y
    ensures Ordinal(d) == DaysBeforeYear(y) + DaysBeforeMonth(y, m) + n
    decreases 12 - m
  {
    DaysBeforeMonthStep(y, m);
    if n < DaysInMonth(y, m) then Date(y, m, n + 1)
    else MonthFrom(y, n - DaysInMonth(y, m), m + 1)
  }

  function YearFrom(n: nat, y: int): (d: Date)
    requires y >= 1
    ensures ValidDate(d) && d.year >= y
    ensures Ordinal(d) == DaysBeforeYear(y) + n
    decreases n
  {
    if n < DaysInYear(y) then MonthFrom(y, n, 1)
    else YearFrom(n - DaysInYear(y), y + 1)
  }

  /** The date `n` days after 0001-01-01: Python's `date.fromordinal(n + 1)`. */
  function DateOf(n: nat): (d: Date)
    ensures ValidDate(d) && Ordinal(d) == n
  {
    YearFrom(n, 1)
  }

  lemma DateOfOrdinal(d: Date)
    requires ValidDate(d)
    ensures DateOf(Ordinal(d)) == d
  {
    OrdinalInjective(DateOf(Ordinal(d)), d);
  }

  // ---- Fields of an instant --------------------------------------------

  function DateOfInstant(t: int): (d: Date)
    requires t >= 0
    ensures ValidDate(d)
  {
    DateOf(DayIndex(t))
  }

  function Hour(t: int): int { TimeOfDay(t) / UsPerHour }
  function Minute(t: int): int { (TimeOfDay(t) / UsPerMinute) % 60 }
  function Second(t: int): int { (TimeOfDay(t) / UsPerSecond) % 60 }

  /** The instant of a calendar date at a time of day. */
  function InstantOf(d: Date, h: int, mi: int, s: int): int
    requires ValidDate(d)
  {
    Days(Ordinal(d)) + Hours(h) + Minutes(mi) + s * UsPerSecond
  }

  lemma TimeFields(t: int)
    ensures 0 <= Hour(t) < 24 && 0 <= Minute(t) < 60 && 0 <= Second(t) < 60
    ensures TimeOfDay(t) == Hours(Hour(t)) + Minutes(Minute(t)) + Second(t) * UsPerSecond + t % UsPerSecond
  {
    var r := TimeOfDay(t);
    var h, rh := r / UsPerHour, r % UsPerHour;
    var mi, rm := rh / UsPerMinute, rh % UsPerMinute;
    var s, rs := rm / UsPerSecond, rm % UsPerSecond;
    assert r == h * UsPerHour + rh;
    assert rh == mi * UsPerMinute + rm;
    assert rm == s * UsPerSecond + rs;
    assert 0 <= h < 24;
    var total := h * 3600 + mi * 60 + s;
    assert r == total * UsPerSecond + rs;
    DivModUnique(r, UsPerSecond, total, rs);
    DivModUnique(r, UsPerMinute, h * 60 + mi, rm);
    DivModUnique(h * 60 + mi, 60, h, mi);
    DivModUnique(total, 60, h * 60 + mi, s);
    DivModUnique(t, UsPerSecond, DayIndex(t) * 86400 + total, rs);
  }

  /** An instant is its date at its hour, minute and second, plus the
      microseconds. */
  lemma InstantFields(t: int)
    requires t >= 0
    ensures t == InstantOf(DateOfInstant(t), Hour(t), Minute(t), Second(t)) + t % UsPerSecond
  {
    TimeFields(t);
  }

  /** The fields of an instant built from a date and a time are that date and
      time. */
  lemma FieldsOfInstant(d: Date, h: int, mi: int, s: int)
    requires ValidDate(d) && 0 <= h < 24 && 0 <= mi < 60 && 0 <= s < 60
    ensures InstantOf(d, h, mi, s) >= 0
    ensures DateOfInstant(InstantOf(d, h, mi, s)) == d
    ensures Hour(InstantOf(d, h, mi, s)) == h && Minute(InstantOf(d, h, mi, s)) == mi
    ensures Second(InstantOf(d, h, mi, s)) == s
  {
    var t := InstantOf(d, h, mi, s);
    var r := Hours(h) + Minutes(mi) + s * UsPerSecond;
    DayDivMod(t, Ordinal(d), r);
    DateOfOrdinal(d);
    DivModUnique(r, UsPerHour, h, Minutes(mi) + s * UsPerSecond);
    DivModUnique(r, UsPerMinute, h * 60 + mi, s * UsPerSecond);
    DivModUnique(h * 60 + mi, 60, h, mi);
    DivModUnique(r, UsPerSecond, h * 3600 + mi * 60 + s, 0);
    DivModUnique(h * 3600 + mi * 60 + s, 60, h * 60 + mi, s);
  }

  /** Days from 0001-01-01 to 10000-01-01, the first day `datetime` cannot
      hold. */
  const EndOfTime: nat := 3652059

  /** An instant `datetime` can represent: at or after 0001-01-01 and before
      10000-01-01 (`InRangeYear`: its year has four digits). */
  predicate InRange(t: int) {
    0 <= t < Days(EndOfTime)
  }

  /** 10000-01-01 is day `EndOfTime`. */
  lemma YearTenThousand(y: int)
    requires y == 10000
    ensures DaysBeforeYear(y) == EndOfTime
  {
    DaysBeforeYearClosed(y);
  }

  /** The instants `datetime` holds are exactly those of years 1 to 9999. */
  lemma InRangeYear(t: int)
    requires t >= 0
    ensures InRange(t) <==> DateOfInstant(t).year <= 9999
  {
    var n, d := DayIndex(t), DateOfInstant(t);
    OrdinalWithinYear(d);
    YearTenThousand(10000);
    assert InRange(t) <==> n < EndOfTime;
    if d.year < 10000 {
      DaysBeforeYearGrows(d.year, 10000);
    } else if d.year > 10000 {
      DaysBeforeYearGrows(10000, d.year);
    }
  }

  /** `timedelta(minutes=m)` can be built: after normalisation its day count
      has magnitude at most 999999999. */
  predicate DeltaMinutesOk(m: int) {
    -999999999 * 1440 <= m < 1000000000 * 1440
  }

  /** `t + timedelta(minutes=m)`: building the timedelta raises
      `OverflowError` when its day count is too large, and the sum raises it
      when it leaves the years 1 to 9999. */
  function AddMinutes(t: int, m: int): (r: Result<int>)
    ensures r.Ok? <==> DeltaMinutesOk(m) && InRange(t + Minutes(m))
    ensures r.Ok? ==> r.value == t + Minutes(m)
    ensures r.Err? ==> r.error.OverflowError?
  {
    if !DeltaMinutesOk(m) then Err(OverflowError("days out of range for timedelta"))
    else if !InRange(t + Minutes(m)) then Err(OverflowError("date value out of range"))
    else Ok(t + Minutes(m))
  }

  /** `timedelta(hours=h)` can be built: its day count has magnitude at most
      999999999. */
  predicate DeltaHoursOk(h: int) {
    -999999999 * 24 <= h < 1000000000 * 24
  }

  /** `t + timedelta(hours=h)`, with the same two `OverflowError`s as
      `AddMinutes`. */
  function AddHours(t: int, h: int): (r: Result<int>)
    ensures r.Ok? <==> DeltaHoursOk(h) && InRange(t + Hours(h))
    ensures r.Ok? ==> r.value == t + Hours(h)
    ensures r.Err? ==> r.error.OverflowError?
  {
    if !DeltaHoursOk(h) then Err(OverflowError("days out of range for timedelta"))
    else if !InRange(t + Hours(h)) then Err(OverflowError("date value out of range"))
    else Ok(t + Hours(h))
  }

  // ---- strftime ----------------------------------------------------------

  /** `t.strftime("%Y-%m-%d")`. */
  function FormatDate(t: int): (s: string)
    requires t >= 0
    ensures |s| == 10
  {
    var d := DateOfInstant(t);
    Digits(d.year, 4) + "-" + Digits(d.month, 2) + "-" + Digits(d.day, 2)
  }

  /** `t.strftime("%Y-%m-%d %H:%M")`. */
  function FormatDateMinute(t: int): (s: string)
    requires t >= 0
    ensures |s| == 16
  {
    FormatDate(t) + " " + Digits(Hour(t), 2) + ":" + Digits(Minute(t), 2)
  }

  /** `t.strftime("%Y%m%dT%H%M%S")`, the iCalendar DATE-TIME form. */
  function FormatCompact(t: int): (s: string)
    requires t >= 0
    ensures |s| == 15
  {
    var d := DateOfInstant(t);
    Digits(d.year, 4) + Digits(d.month, 2) + Digits(d.day, 2) + "T"
      + Digits(Hour(t), 2) + Digits(Minute(t), 2) + Digits(Second(t), 2)
  }

  // ---- strptime ----------------------------------------------------------

  /** The number written by the digits of `s[i..j]`, if they are all digits. */
  function NumberAt(s: string, i: nat, j: nat): Option<nat>
    requires i <= j <= |s|
  {
    if AllDigits(s[i..j]) then Some(DigitsValue(s[i..j])) else None
  }

  /** Builds the instant `strptime` returns from the fields it read: the
      field patterns of `%m`, `%d`, `%H`, `%M` refuse out-of-range numbers, and
      `datetime` refuses year 0 and a day past the end of the month. */
  function BuildInstant(y: nat, mo: nat, d: nat, h: nat, mi: nat): Result<int>
  {
    if !(1 <= mo <= 12 && 1 <= d <= 31 && h <= 23 && mi <= 59) then
      Err(ValueError("time data does not match format"))
    else if y == 0 then Err(ValueError("year 0 is out of range"))
    else if d > DaysInMonth(y, mo) then Err(ValueError("day is out of range for month"))
    else Ok(InstantOf(Date(y, mo, d), h, mi, 0))
  }

  /** `datetime.strptime(s, "%Y-%m-%d")`, for the zero-padded form. */
  function ParseDate(s: string): (r: Result<int>)
    ensures r.Ok? ==> r.value >= 0 && TimeOfDay(r.value) == 0
  {
    if |s| != 10 || s[4] != '-' || s[7] != '-' then Err(ValueError("time data does not match format"))
    else
      match (NumberAt(s, 0, 4), NumberAt(s, 5, 7), NumberAt(s, 8, 10))
      case (Some(y), Some(mo), Some(d)) =>
        var r := BuildInstant(y, mo, d, 0, 0);
        if r.Ok? then FieldsOfInstant(Date(y, mo, d), 0, 0, 0); r else r
      case _ => Err(ValueError("time data does not match format"))
  }

  /** `datetime.strptime(s, "%Y-%m-%d %H:%M")`, for the zero-padded form. */
  function ParseDateMinute(s: string): (r: Result<int>)
    ensures r.Ok? ==> r.value >= 0 && r.value % UsPerMinute == 0
  {
    if |s| != 16 || s[4] != '-' || s[7] != '-' || s[10] != ' ' || s[13] != ':' then
      Err(ValueError("time data does not match format"))
    else
      match (NumberAt(s, 0, 4), NumberAt(s, 5, 7), NumberAt(s, 8, 10), NumberAt(s, 11, 13), NumberAt(s, 14, 16))
      case (Some(y), Some(mo), Some(d), Some(h), Some(mi)) =>
        var r := BuildInstant(y, mo, d, h, mi);
        if r.Ok? then FieldsOfInstant(Date(y, mo, d), h, mi, 0); MinuteAligned(Date(y, mo, d), h, mi); r else r
      case _ => Err(ValueError("time data does not match format"))
  }

  lemma MinuteAligned(d: Date, h: int, mi: int)
    requires ValidDate(d)
    ensures InstantOf(d, h, mi, 0) % UsPerMinute == 0
  {
    DivModUnique(InstantOf(d, h, mi, 0), UsPerMinute, Ordinal(d) * 1440 + h * 60 + mi, 0);
  }

  lemma DigitsField(n: nat, w: nat)
    requires n < Pow10(w)
    ensures DigitsValue(Digits(n, w)) == n
  {
    DigitsValueOfDigits(n, w);
  }

  /** Reading back what "%Y-%m-%d" wrote gives midnight of the same day. */
  lemma {:induction false} ParseFormatDate(t: int)
    requires InRange(t)
    ensures ParseDate(FormatDate(t)) == Ok(DayStart(t))
  {
    var d := DateOfInstant(t);
    NumbersOfDate(t);
    ParseOfDateFields(FormatDate(t), d.year, d.month, d.day);
    BuildValid(d, 0, 0);
    TimeFields(t);
    assert InstantOf(d, 0, 0, 0) == DayStart(t);
  }

  /** Where "%Y-%m-%d" puts the separators, and the numbers its three fields
      of digits hold. */
  lemma NumbersOfDate(t: int)
    requires InRange(t)
    ensures var s, d := FormatDate(t), DateOfInstant(t);
      && s[4] == '-' && s[7] == '-'
      && NumberAt(s, 0, 4) == Some(d.year as nat) && NumberAt(s, 5, 7) == Some(d.month as nat)
      && NumberAt(s, 8, 10) == Some(d.day as nat)
  {
    var d := DateOfInstant(t);
    var s := FormatDate(t);
    InRangeYear(t);
    assert s[0..4] == Digits(d.year, 4);
    assert s[5..7] == Digits(d.month, 2);
    assert s[8..10] == Digits(d.day, 2);
    DigitsField(d.year, 4);
    DigitsField(d.month, 2);
    DigitsField(d.day, 2);
  }

  /** A text of the "%Y-%m-%d" shape is read as its three numbers. */
  lemma ParseOfDateFields(s: string, y: nat, mo: nat, d: nat)
    requires |s| == 10 && s[4] == '-' && s[7] == '-'
    requires NumberAt(s, 0, 4) == Some(y) && NumberAt(s, 5, 7) == Some(mo) && NumberAt(s, 8, 10) == Some(d)
    ensures ParseDate(s) == BuildInstant(y, mo, d, 0, 0)
  {
  }

  /** Reading back what "%Y-%m-%d %H:%M" wrote gives the instant without its
      seconds and microseconds. */
  lemma {:induction false} ParseFormatDateMinute(t: int)
    requires InRange(t)
    ensures ParseDateMinute(FormatDateMinute(t)) == Ok(TruncateToMinute(t))
  {
    ParseFormatFields(t);
    MinuteOfFields(t);
  }

  /** The text "%Y-%m-%d %H:%M" wrote reads back as its fields. */
  lemma {:induction false} ParseFormatFields(t: int)
    requires InRange(t)
    ensures ParseDateMinute(FormatDateMinute(t)) == Ok(InstantOf(DateOfInstant(t), Hour(t), Minute(t), 0))
  {
    var d := DateOfInstant(t);
    TimeFields(t);
    NumbersOfFormat(t);
    ParseOfFields(FormatDateMinute(t), d.year, d.month, d.day, Hour(t), Minute(t));
    BuildValid(d, Hour(t), Minute(t));
  }

  /** Where "%Y-%m-%d %H:%M" puts the separators, and the numbers its five
      fields of digits hold. */
  lemma NumbersOfFormat(t: int)
    requires InRange(t)
    ensures var s, d := FormatDateMinute(t), DateOfInstant(t);
      && s[4] == '-' && s[7] == '-' && s[10] == ' ' && s[13] == ':'
      && NumberAt(s, 0, 4) == Some(d.year as nat) && NumberAt(s, 5, 7) == Some(d.month as nat)
      && NumberAt(s, 8, 10) == Some(d.day as nat)
      && NumberAt(s, 11, 13) == Some(Hour(t) as nat) && NumberAt(s, 14, 16) == Some(Minute(t) as nat)
  {
    var s, p := FormatDateMinute(t), FormatDate(t);
    NumbersOfDate(t);
    assert forall k :: 0 <= k < 10 ==> s[k] == p[k];
    assert s[..10] == p;
    NumberAtPrefix(s, p, 0, 4);
    NumberAtPrefix(s, p, 5, 7);
    NumberAtPrefix(s, p, 8, 10);
    NumbersOfTime(t);
  }

  /** The hour and minute "%Y-%m-%d %H:%M" writes after the date. */
  lemma NumbersOfTime(t: int)
    requires t >= 0
    ensures var s := FormatDateMinute(t);
      && s[10] == ' ' && s[13] == ':'
      && NumberAt(s, 11, 13) == Some(Hour(t) as nat) && NumberAt(s, 14, 16) == Some(Minute(t) as nat)
  {
    var s := FormatDateMinute(t);
    TimeFields(t);
    assert s[11..13] == Digits(Hour(t), 2);
    assert s[14..16] == Digits(Minute(t), 2);
    DigitsField(Hour(t), 2);
    DigitsField(Minute(t), 2);
  }

  /** A number within a prefix is read the same in the whole text. */
  lemma NumberAtPrefix(s: string, p: string, i: nat, j: nat)
    requires |p| <= |s| && s[..|p|] == p && i <= j <= |p|
    ensures NumberAt(s, i, j) == NumberAt(p, i, j)
  {
    assert forall k :: i <= k < j ==> s[k] == s[..|p|][k];
    assert s[i..j] == p[i..j];
  }

  /** A text of the "%Y-%m-%d %H:%M" shape is read as its five numbers. */
  lemma ParseOfFields(s: string, y: nat, mo: nat, d: nat, h: nat, mi: nat)
    requires |s| == 16 && s[4] == '-' && s[7] == '-' && s[10] == ' ' && s[13] == ':'
    requires NumberAt(s, 0, 4) == Some(y) && NumberAt(s, 5, 7) == Some(mo) && NumberAt(s, 8, 10) == Some(d)
    requires NumberAt(s, 11, 13) == Some(h) && NumberAt(s, 14, 16) == Some(mi)
    ensures ParseDateMinute(s) == BuildInstant(y, mo, d, h, mi)
  {
  }

  /** A valid date at a valid hour and minute is built. */
  lemma BuildValid(d: Date, h: int, mi: int)
    requires ValidDate(d) && 0 <= h < 24 && 0 <= mi < 60
    ensures BuildInstant(d.year, d.month, d.day, h, mi) == Ok(InstantOf(d, h, mi, 0))
  {
  }

  /** Dropping the seconds and microseconds of an instant leaves its date,
      hour and minute. */
  lemma MinuteOfFields(t: int)
    requires t >= 0
    ensures InstantOf(DateOfInstant(t), Hour(t), Minute(t), 0) == TruncateToMinute(t)
  {
    var d := DateOfInstant(t);
    TimeFields(t);
    InstantFields(t);
    var u := InstantOf(d, Hour(t), Minute(t), 0);
    MinuteAligned(d, Hour(t), Minute(t));
    assert t == u + (Second(t) * UsPerSecond + t % UsPerSecond);
    DivModUnique(t, UsPerMinute, u / UsPerMinute, Second(t) * UsPerSecond + t % UsPerSecond);
  }
}
