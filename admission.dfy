/** `check_reservation` (shared_planner/api/reservations.py): the ordered
    admission rules a booking must pass, the administrator's bypasses, and
    the test against the shop's weekly opening windows. */
module Admission {

  import opened Outcome
  import opened Entities
  import opened Clock
  import opened Calendar
  import opened Capacity

  /** `HTTPException(400, "error.reservation.<rule>")`. */
  function Reject(rule: string): Error {
    Http(400, "error.reservation." + rule)
  }

  /** Whether one opening window takes a booking of `duration` minutes from
      `start`: same weekday, the window is not reversed, the start's time of
      day is at or after the window's start, and the end's time of day is at
      or before the window's end. The end's time of day wraps at midnight. */
  predicate WindowAdmits(w: OpeningTime, start: int, duration: int) {
    && w.day == Weekday(start)
    && !(w.start > w.end)
    && w.start <= TimeOfDay(start)
    && TimeOfDay(start + Minutes(duration)) <= w.end
  }

  /** Some opening window of the shop takes the booking. */
  predicate FitsOpening(ranges: seq<OpeningTime>, start: int, duration: int) {
    exists i :: 0 <= i < |ranges| && WindowAdmits(ranges[i], start, duration)
  }

  /** The `for open_time in shop.open_ranges: ... break / else` loop. */
  method FindOpening(ranges: seq<OpeningTime>, start: int, duration: int) returns (found: bool)
    ensures found == FitsOpening(ranges, start, duration)
  {
    var day := Weekday(start);
    for i := 0 to |ranges|
      invariant forall j :: 0 <= j < i ==> !WindowAdmits(ranges[j], start, duration)
    {
      var w := ranges[i];
      if w.day != day || w.start > w.end {
        continue;
      }
      if w.start <= TimeOfDay(start) && TimeOfDay(start + Minutes(duration)) <= w.end {
        return true;
      }
    }
    return false;
  }

  /** The outcome of `check_reservation(shop, start, duration, user,
      exclude)`: the rules in the order the function tries them, `now` being
      the clock reading of `datetime.now()`. `rs` are the shop's reservations
      and `ranges` its opening windows, both in the order the shop lists them.
      Before any rule, building `timedelta(minutes=duration)` and adding it to
      the start in `check_overlap` can raise `OverflowError`, for
      administrators too. */
  function Decide(shop: Shop, ranges: seq<OpeningTime>, rs: seq<Reservation>, start: int,
                  duration: int, user: User, now: int, exclude: Option<int>): (r: Result<()>)
    ensures r.Err? ==> (r.error.Http? && r.error.status == 400) || r.error.OverflowError?
    ensures r.Ok? ==> DeltaMinutesOk(duration) && InRange(start + Minutes(duration))
    ensures r.Ok? && !user.admin ==> shop.minTime <= duration <= shop.maxTime && now <= start
  {
    if AddMinutes(start, duration).Err? then Err(AddMinutes(start, duration).error)
    else if !(OverlapOk(rs, shop.volunteers, start, Minutes(duration), user.id, exclude) || user.admin) then
      Err(Reject("overlap"))
    else if duration < shop.minTime && !(user.admin && duration > 0) then Err(Reject("too_short"))
    else if duration > shop.maxTime && !user.admin then Err(Reject("too_long"))
    else if start < now && !user.admin then Err(Reject("past_time"))
    else if start < shop.availableFrom && !user.admin then Err(Reject("before_open"))
    else if start > shop.availableUntil && !user.admin then Err(Reject("after_close"))
    else if !FitsOpening(ranges, start, duration) && !user.admin then Err(Reject("outside_open"))
    else Ok(())
  }

  /** `check_reservation` as the source runs it: the overlap sweep, the chain
      of guards, then the search for an opening window. */
  method CheckReservation(shop: Shop, ranges: seq<OpeningTime>, rs: seq<Reservation>, start: int,
                          duration: int, user: User, now: int, exclude: Option<int>)
    returns (r: Result<()>)
    ensures r == Decide(shop, ranges, rs, start, duration, user, now, exclude)
  {
    var end := AddMinutes(start, duration);
    if end.Err? {
      return Err(end.error);
    }
    var overlapOk := CheckOverlap(rs, shop.volunteers, start, Minutes(duration), user.id, exclude);
    if !(overlapOk || user.admin) {
      return Err(Reject("overlap"));
    }
    if duration < shop.minTime && !(user.admin && duration > 0) {
      return Err(Reject("too_short"));
    }
    if duration > shop.maxTime && !user.admin {
      return Err(Reject("too_long"));
    }
    if start < now && !user.admin {
      return Err(Reject("past_time"));
    }
    if start < shop.availableFrom && !user.admin {
      return Err(Reject("before_open"));
    }
    if start > shop.availableUntil && !user.admin {
      return Err(Reject("after_close"));
    }
    var fits := FindOpening(ranges, start, duration);
    if !fits && !user.admin {
      return Err(Reject("outside_open"));
    }
    return Ok(());
  }

  /** What a non-administrator's booking must satisfy, stated as one
      conjunction: an end `datetime` can represent, capacity and no overlap
      with the user's own bookings, a length within [minTime, maxTime], a
      start not in the past and within the shop's availability, and an
      opening window that takes it. */
  predicate Admissible(shop: Shop, ranges: seq<OpeningTime>, rs: seq<Reservation>, start: int,
                       duration: int, userId: int, now: int, exclude: Option<int>)
  {
    && AddMinutes(start, duration).Ok?
    && OverlapOk(rs, shop.volunteers, start, Minutes(duration), userId, exclude)
    && shop.minTime <= duration <= shop.maxTime
    && now <= start
    && shop.availableFrom <= start <= shop.availableUntil
    && FitsOpening(ranges, start, duration)
  }

  /** A non-administrator is admitted exactly when every rule holds. */
  lemma NonAdminAdmittedIff(shop: Shop, ranges: seq<OpeningTime>, rs: seq<Reservation>, start: int,
                            duration: int, user: User, now: int, exclude: Option<int>)
    requires !user.admin
    ensures Decide(shop, ranges, rs, start, duration, user, now, exclude).Ok?
        <==> Admissible(shop, ranges, rs, start, duration, user.id, now, exclude)
  {
  }

  /** An administrator passes every rule but one, a length below the shop's
      minimum that is also not positive; an end out of range still raises. */
  lemma AdminBypass(shop: Shop, ranges: seq<OpeningTime>, rs: seq<Reservation>, start: int,
                    duration: int, user: User, now: int, exclude: Option<int>)
    requires user.admin
    ensures Decide(shop, ranges, rs, start, duration, user, now, exclude)
         == if !DeltaMinutesOk(duration) || !InRange(start + Minutes(duration)) then
              Err(AddMinutes(start, duration).error)
            else if duration < shop.minTime && duration <= 0 then Err(Reject("too_short"))
            else Ok(())
  {
  }

  /** Every refusal is a 400 whose detail names one of the seven rules, or
      the `OverflowError` of an end `datetime` cannot represent. */
  lemma RefusalsAreRules(shop: Shop, ranges: seq<OpeningTime>, rs: seq<Reservation>, start: int,
                         duration: int, user: User, now: int, exclude: Option<int>)
    ensures var r := Decide(shop, ranges, rs, start, duration, user, now, exclude);
      r.Err? ==> (r.error in {Reject("overlap"), Reject("too_short"), Reject("too_long"),
                              Reject("past_time"), Reject("before_open"), Reject("after_close"),
                              Reject("outside_open")}
                  <==> AddMinutes(start, duration).Ok?)
    ensures var r := Decide(shop, ranges, rs, start, duration, user, now, exclude);
      r.Err? && AddMinutes(start, duration).Err? ==> r.error.OverflowError?
  {
  }

  /** The overflow comes before every rule: whoever asks, a length whose
      timedelta cannot be built, or an end past the year 9999, gives the
      `OverflowError` and nothing else is looked at. */
  lemma OverflowFirst(shop: Shop, ranges: seq<OpeningTime>, rs: seq<Reservation>, start: int,
                      duration: int, user: User, now: int, exclude: Option<int>)
    requires !DeltaMinutesOk(duration) || !InRange(start + Minutes(duration))
    ensures Decide(shop, ranges, rs, start, duration, user, now, exclude).Err?
    ensures Decide(shop, ranges, rs, start, duration, user, now, exclude).error.OverflowError?
  {
  }

  /** A window whose start is after its end never takes a booking. */
  lemma ReversedWindowIgnored(w: OpeningTime, start: int, duration: int)
    requires w.start > w.end
    ensures !WindowAdmits(w, start, duration)
  {
  }

  /** The window test only looks at times of day, so adding whole days to a
      booking's length never changes its answer. */
  lemma {:induction false} WholeDaysInvisible(w: OpeningTime, start: int, duration: int, k: int)
    ensures WindowAdmits(w, start, duration) <==> WindowAdmits(w, start, duration + 1440 * k)
  {
    assert Minutes(duration + 1440 * k) == Minutes(duration) + Days(k);
    ShiftByDays(start + Minutes(duration), k);
  }

  /** A Monday window 09:00-23:59 takes a one-hour booking from 23:30, which
      ends at 00:30 on Tuesday: the end's time of day, 00:30, is before 23:59. */
  lemma MidnightCrossingAdmitted()
    ensures var w := OpeningTime(1, 1, 0, Hours(9), Hours(23) + Minutes(59));
      var start := Hours(23) + Minutes(30);
      && WindowAdmits(w, start, 60)
      && DayIndex(start + Minutes(60)) == DayIndex(start) + 1
  {
  }

  // ---- the window test and the admission as evidently intended -----------

  /** The window test as evidently intended: besides the weekday and the
      start, the booking ends on the day it starts, at or before the
      window's end. */
  predicate WindowAdmitsFixed(w: OpeningTime, start: int, duration: int) {
    && w.day == Weekday(start)
    && DayStart(start) + w.start <= start
    && start + Minutes(duration) <= DayStart(start) + w.end
  }

  predicate FitsOpeningFixed(ranges: seq<OpeningTime>, start: int, duration: int) {
    exists i :: 0 <= i < |ranges| && WindowAdmitsFixed(ranges[i], start, duration)
  }

  /** Whether instant `t` lies inside window `w` of the week. */
  predicate InWindow(w: OpeningTime, t: int) {
    Weekday(t) == w.day && w.start <= TimeOfDay(t) < w.end
  }

  /** Every instant of a booking the intended test admits lies inside the
      window, on its weekday (a window's end being a time of day). */
  lemma {:induction false} FixedWindowContains(w: OpeningTime, start: int, duration: int, t: int)
    requires w.end <= UsPerDay
    requires WindowAdmitsFixed(w, start, duration)
    requires start <= t < start + Minutes(duration)
    ensures InWindow(w, t)
  {
    var q := DayIndex(start);
    assert DayStart(start) == q * UsPerDay;
    DayDivMod(t, q, t - DayStart(start));
  }

  /** The intended test only narrows the source's: whatever it admits, the
      window test of `check_reservation` admits too. */
  lemma {:induction false} FixedWindowNarrows(w: OpeningTime, start: int, duration: int)
    requires w.end < UsPerDay && duration >= 0
    requires WindowAdmitsFixed(w, start, duration)
    ensures WindowAdmits(w, start, duration)
  {
    var q := DayIndex(start);
    var e := start + Minutes(duration);
    assert DayStart(start) == q * UsPerDay;
    DayDivMod(start, q, start - DayStart(start));
    DayDivMod(e, q, e - DayStart(start));
  }

  /** The booking of `MidnightCrossingAdmitted` does not pass the intended
      test: it ends on Tuesday. */
  lemma MidnightCrossingRefusedFixed()
    ensures !WindowAdmitsFixed(OpeningTime(1, 1, 0, Hours(9), Hours(23) + Minutes(59)), Hours(23) + Minutes(30), 60)
  {
  }

  /** `check_reservation` as evidently intended: the same rules in the same
      order, with the intended overlap test (the request is swept, and every
      reservation sharing an instant with it is counted) and the intended
      window test. */
  function DecideFixed(shop: Shop, ranges: seq<OpeningTime>, rs: seq<Reservation>, start: int,
                       duration: int, user: User, now: int, exclude: Option<int>): Result<()>
  {
    if AddMinutes(start, duration).Err? then Err(AddMinutes(start, duration).error)
    else if !(OverlapOkFixed(rs, shop.volunteers, start, Minutes(duration), user.id, exclude) || user.admin) then
      Err(Reject("overlap"))
    else if duration < shop.minTime && !(user.admin && duration > 0) then Err(Reject("too_short"))
    else if duration > shop.maxTime && !user.admin then Err(Reject("too_long"))
    else if start < now && !user.admin then Err(Reject("past_time"))
    else if start < shop.availableFrom && !user.admin then Err(Reject("before_open"))
    else if start > shop.availableUntil && !user.admin then Err(Reject("after_close"))
    else if !FitsOpeningFixed(ranges, start, duration) && !user.admin then Err(Reject("outside_open"))
    else Ok(())
  }

  /** What the intended admission promises a non-administrator: at every
      instant of the booking the shop's volunteers suffice for the bookings
      already held plus this one, none of those is the user's own, and the
      instant lies inside one opening window of the shop. */
  lemma FixedAdmissionSafe(shop: Shop, ranges: seq<OpeningTime>, rs: seq<Reservation>, start: int,
                           duration: int, user: User, now: int, exclude: Option<int>, t: int)
    requires !user.admin
    requires DecideFixed(shop, ranges, rs, start, duration, user, now, exclude).Ok?
    requires forall r :: r in rs ==> r.start <= r.end
    requires forall i :: 0 <= i < |ranges| ==> ranges[i].end <= UsPerDay
    requires start <= t < start + Minutes(duration)
    ensures ActiveExcept(rs, exclude, t) + 1 <= shop.volunteers
    ensures forall r :: r in rs && r.userId == user.id && (exclude.None? || r.id != exclude.value) ==>
              !(r.start <= t < r.end)
    ensures exists i :: 0 <= i < |ranges| && InWindow(ranges[i], t)
  {
    FixedAdmittedOccupancy(rs, shop.volunteers, start, Minutes(duration), user.id, exclude, t);
    forall r | r in rs && r.userId == user.id && (exclude.None? || r.id != exclude.value)
      ensures !(r.start <= t < r.end)
    {
      FixedNoOwnOverlap(rs, shop.volunteers, start, Minutes(duration), user.id, exclude, r);
    }
    var i :| 0 <= i < |ranges| && WindowAdmitsFixed(ranges[i], start, duration);
    FixedWindowContains(ranges[i], start, duration, t);
  }
}
