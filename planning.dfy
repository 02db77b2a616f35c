/** `ReservedTimeRange.from_reservation` and `get_planning`
    (shared_planner/api/reservations.py): how a reservation is shown to a
    viewer, and the week planning of a shop as seven lists of reservations. */
module Planning {

  import opened Outcome
  import opened Entities
  import opened Clock
  import opened Calendar
  import opened Week
  import Text

  /** A reservation as the planning shows it. `status` is -2 for the
      viewer's own reservation, -1 for someone else's when the viewer may not
      know who, and the owner's id otherwise. */
  datatype ReservedTimeRange = ReservedTimeRange(
    id: int,
    start: int,
    durationMinutes: int,
    status: int,
    validated: bool,
    title: string)

  /** `from_reservation(reservation, user)`, with `owner` the reservation's
      user and `viewer` the user the view is for, if any. */
  function FromReservation(r: Reservation, owner: User, viewer: Option<User>): (v: ReservedTimeRange)
    ensures v.id == r.id && v.start == r.start && v.validated == r.validated
    ensures Minutes(v.durationMinutes) <= r.end - r.start < Minutes(v.durationMinutes + 1)
  {
    var (status, title) :=
      if viewer.Some? && r.userId == viewer.value.id then (-2, "message.reservation.booked_by_you")
      else if viewer.None? || viewer.value.admin then (r.userId, owner.fullName + " (" + owner.group + ")")
      else (-1, "message.reservation.booked");
    ReservedTimeRange(r.id, r.start, WholeMinutes(r.end - r.start), status, r.validated, title)
  }

  /** A viewer always recognises their own reservations. */
  lemma OwnReservationMarked(r: Reservation, owner: User, u: User)
    requires r.userId == u.id
    ensures FromReservation(r, owner, Some(u)).status == -2
    ensures FromReservation(r, owner, Some(u)).title == "message.reservation.booked_by_you"
  {
  }

  /** A viewer who is not an administrator learns nothing about who holds
      another user's reservation: the view does not depend on the owner, and
      its status only says whether the reservation is the viewer's own. */
  lemma NonAdminPrivacy(r: Reservation, owner1: User, owner2: User, u: User)
    requires !u.admin
    ensures FromReservation(r, owner1, Some(u)) == FromReservation(r, owner2, Some(u))
    ensures var v := FromReservation(r, owner1, Some(u));
      (v.status == -2 <==> r.userId == u.id) && (v.status == -1 <==> r.userId != u.id)
  {
  }

  /** An administrator, or a view for nobody, names the owner of another
      user's reservation: "<full name> (<group>)". */
  lemma AdminSeesOwner(r: Reservation, owner: User, viewer: Option<User>)
    requires viewer.None? || (viewer.value.admin && r.userId != viewer.value.id)
    ensures FromReservation(r, owner, viewer).status == r.userId
    ensures FromReservation(r, owner, viewer).title == owner.fullName + " (" + owner.group + ")"
  {
  }

  /** The reservations' owners are all known. */
  predicate Owned(used: seq<Reservation>, owners: map<int, User>) {
    forall i :: 0 <= i < |used| ==> used[i].userId in owners
  }

  /** Whether `get_planning` lists a reservation under the day starting at
      `dayStart`: it starts no earlier and ends strictly before the next
      midnight. */
  predicate InDay(r: Reservation, dayStart: int)
    ensures InDay(r, dayStart) && r.start <= r.end ==> r.end - r.start < UsPerDay
  {
    !(r.start < dayStart || r.end >= dayStart + UsPerDay)
  }

  /** The list of one day: the views of the reservations in that day, in the
      order the shop lists them. */
  function DayList(used: seq<Reservation>, owners: map<int, User>, dayStart: int, viewer: User)
    : (l: seq<ReservedTimeRange>)
    requires Owned(used, owners)
    ensures |l| <= |used|
    ensures forall v :: v in l ==>
      exists i :: 0 <= i < |used| && InDay(used[i], dayStart)
        && v == FromReservation(used[i], owners[used[i].userId], Some(viewer))
    ensures forall i :: 0 <= i < |used| && InDay(used[i], dayStart) ==>
      FromReservation(used[i], owners[used[i].userId], Some(viewer)) in l
  {
    if used == [] then []
    else
      var init, r := used[..|used| - 1], used[|used| - 1];
      assert forall i :: 0 <= i < |init| ==> init[i] == used[i];
      var head := DayList(init, owners, dayStart, viewer);
      if InDay(r, dayStart)
      then head + [FromReservation(r, owners[r.userId], Some(viewer))]
      else head
  }

  /** The seven day lists of the week starting at `weekStart`. */
  function WeekPlanning(used: seq<Reservation>, owners: map<int, User>, weekStart: int, viewer: User)
    : (w: seq<seq<ReservedTimeRange>>)
    requires Owned(used, owners)
    ensures |w| == 7
  {
    seq(7, d => DayList(used, owners, weekStart + Days(d), viewer))
  }

  /** Seven lists, each the list of its day, are the week's planning. */
  lemma WeekPlanningOf(used: seq<Reservation>, owners: map<int, User>, weekStart: int, viewer: User,
                       days: seq<seq<ReservedTimeRange>>)
    requires Owned(used, owners) && |days| == 7
    requires forall d :: 0 <= d < 7 ==> days[d] == DayList(used, owners, weekStart + Days(d), viewer)
    ensures days == WeekPlanning(used, owners, weekStart, viewer)
  {
    assert forall d :: 0 <= d < 7 ==> days[d] == WeekPlanning(used, owners, weekStart, viewer)[d];
  }

  /** `datetime` raises this when `day_start + timedelta(days=1)` leaves
      year 9999. */
  const DateOverflow: Error := OverflowError("date value out of range")

  /** The instant `d` days after the week's start is one `datetime` can
      hold. */
  predicate EndHeld(weekStart: int, d: int) {
    InRange(weekStart + Days(d))
  }

  /** Every day end `get_planning` computes, one to seven days after the
      week's start, is an instant `datetime` can hold. */
  predicate WeekInRange(weekStart: int) {
    forall d :: 1 <= d <= 7 ==> EndHeld(weekStart, d)
  }

  /** The lists of the seven days from `weekStart`, built by the two nested
      loops of `get_planning`. Each day's start is the previous day's end (or
      the week's start), so only the day's end can overflow. */
  method WeekLists(used: seq<Reservation>, owners: map<int, User>, weekStart: int, viewer: User)
    returns (r: Result<seq<seq<ReservedTimeRange>>>)
    requires Owned(used, owners)
    ensures r.Ok? <==> WeekInRange(weekStart)
    ensures r.Ok? ==> r.value == WeekPlanning(used, owners, weekStart, viewer)
    ensures r.Err? ==> r.error == DateOverflow
  {
    var days := [];
    for day := 0 to 7
      invariant |days| == day
      invariant forall d :: 1 <= d <= day ==> EndHeld(weekStart, d)
      invariant forall d :: 0 <= d < day ==> days[d] == DayList(used, owners, weekStart + Days(d), viewer)
    {
      var ranges :- OneDay(used, owners, weekStart, day, viewer);
      days := days + [ranges];
    }
    WeekPlanningOf(used, owners, weekStart, viewer, days);
    return Ok(days);
  }

  /** One turn of the outer loop of `get_planning`: the day's end, which
      `datetime` must hold, then the day's list. */
  method OneDay(used: seq<Reservation>, owners: map<int, User>, weekStart: int, day: int, viewer: User)
    returns (r: Result<seq<ReservedTimeRange>>)
    requires Owned(used, owners)
    ensures r.Ok? <==> EndHeld(weekStart, day + 1)
    ensures r.Ok? ==> r.value == DayList(used, owners, weekStart + Days(day), viewer)
    ensures r.Err? ==> r.error == DateOverflow
  {
    var dayStart := weekStart + Days(day);
    var dayEnd := dayStart + Days(1);
    assert dayEnd == weekStart + Days(day + 1);
    if !InRange(dayEnd) {
      return Err(DateOverflow);
    }
    var ranges := DayLoop(used, owners, dayStart, viewer);
    return Ok(ranges);
  }

  /** The inner loop of `get_planning`: the reservations that start at or
      after `dayStart` and end before the next midnight. */
  method DayLoop(used: seq<Reservation>, owners: map<int, User>, dayStart: int, viewer: User)
    returns (ranges: seq<ReservedTimeRange>)
    requires Owned(used, owners)
    ensures ranges == DayList(used, owners, dayStart, viewer)
  {
    var dayEnd := dayStart + Days(1);
    ranges := [];
    for i := 0 to |used|
      invariant ranges == DayList(used[..i], owners, dayStart, viewer)
    {
      var r := used[i];
      assert used[..i + 1][..i] == used[..i];
      if r.start < dayStart || r.end >= dayEnd {
        continue;
      }
      ranges := ranges + [FromReservation(r, owners[r.userId], Some(viewer))];
    }
    assert used[..|used|] == used;
  }

  /** The week an argument `monday` names: `strptime(monday, "%Y-%m-%d")`,
      refused with 400 "error.reservation.not_monday" when that is not a
      Monday. A string `strptime` refuses gives its `ValueError`. */
  function WeekOf(monday: string): (r: Result<int>)
    ensures r.Ok? ==> Weekday(r.value) == 0 && TimeOfDay(r.value) == 0
    ensures r.Err? ==> ParseDate(monday).Err? || r.error == Http(400, "error.reservation.not_monday")
  {
    var weekStart :- ParseDate(monday);
    if Weekday(weekStart) != 0 then Err(Http(400, "error.reservation.not_monday")) else Ok(weekStart)
  }

  /** The planning of a shop whose reservations are `used`, after the shop
      lookup: the week's start, then the seven lists. */
  method Plan(used: seq<Reservation>, owners: map<int, User>, monday: string, viewer: User)
    returns (r: Result<seq<seq<ReservedTimeRange>>>)
    requires Owned(used, owners)
    ensures r.Err? <==> WeekOf(monday).Err? || !WeekInRange(WeekOf(monday).value)
    ensures WeekOf(monday).Err? ==> r.error == WeekOf(monday).error
    ensures WeekOf(monday).Ok? && !WeekInRange(WeekOf(monday).value) ==> r.error == DateOverflow
    ensures r.Ok? ==> r.value == WeekPlanning(used, owners, WeekOf(monday).value, viewer)
  {
    var parsed := ParseDate(monday);
    if parsed.Err? {
      assert WeekOf(monday) == Err(parsed.error);
      return Err(parsed.error);
    }
    var weekStart := parsed.value;
    if Weekday(weekStart) != 0 {
      assert WeekOf(monday) == Err(Http(400, "error.reservation.not_monday"));
      return Err(Http(400, "error.reservation.not_monday"));
    }
    assert WeekOf(monday) == Ok(weekStart);
    r := WeekLists(used, owners, weekStart, viewer);
  }

  /** What `monday_str` writes is a week `get_planning` accepts, and it is the
      week of the instant it was written from. */
  lemma MondayStrAccepted(t: int)
    requires t >= 0 && InRange(Monday(t))
    ensures WeekOf(MondayStr(t)) == Ok(DayStart(Monday(t)))
    ensures var m := WeekOf(MondayStr(t)).value; m <= t < m + UsPerWeek
  {
    MondayStrParses(t);
  }

  /** A reservation that does not end before it starts lies in at most one
      day of the planning. */
  lemma AtMostOneDay(r: Reservation, weekStart: int, d1: int, d2: int)
    requires r.start <= r.end
    requires InDay(r, weekStart + Days(d1)) && InDay(r, weekStart + Days(d2))
    ensures d1 == d2
  {
  }

  /** A reservation that starts before midnight and ends exactly at midnight
      is in no day of the planning: the day's end is excluded. */
  lemma {:induction false} EndAtMidnightUnlisted(r: Reservation, weekStart: int, d: int)
    requires TimeOfDay(weekStart) == 0 && TimeOfDay(r.end) == 0 && r.start < r.end
    ensures !InDay(r, weekStart + Days(d))
  {
    ShiftByDays(weekStart, d);
    var ds := weekStart + Days(d);
    assert ds == Days(DayIndex(ds));
    assert r.end == Days(DayIndex(r.end));
  }

  // ---- from_reservation as written ----------------------------------------

  /** `from_reservation` fills the view's `shop` field with
      `ShopWithoutTimeRanges.from_shop(reservation.shop)`, a class method the
      class does not define: every call raises this error, and the endpoint
      answers 500. */
  const NoFromShop: Error := AttributeError("type object 'ShopWithoutTimeRanges' has no attribute 'from_shop'")

  /** Reservation `r` is listed under day `d` of the week from `weekStart`. */
  predicate ListedIn(r: Reservation, weekStart: int, d: int) {
    InDay(r, weekStart + Days(d))
  }

  /** Some reservation is listed under some day of the week. */
  predicate AnyListed(used: seq<Reservation>, weekStart: int) {
    exists d, i :: 0 <= d < 7 && 0 <= i < |used| && ListedIn(used[i], weekStart, d)
  }

  /** Some reservation is listed under day `d`. */
  predicate DayListed(used: seq<Reservation>, weekStart: int, d: int) {
    exists i :: 0 <= i < |used| && ListedIn(used[i], weekStart, d)
  }

  /** How the day loop of `get_planning` ends as written, from day `d` on,
      where `held[k]` says whether day `k`'s end is an instant `datetime` can
      hold and `listed[k]` whether day `k` has a reservation to list: at the
      first day whose end overflows, with `DateOverflow`, or at the first day
      with a reservation to list, with `NoFromShop`, whichever day comes
      first; `None` when it gets through all seven. */
  function FirstFailure(held: seq<bool>, listed: seq<bool>, d: nat): Option<Error>
    requires |held| == 7 && |listed| == 7
    decreases 7 - d
  {
    if d >= 7 then None
    else if !held[d] then Some(DateOverflow)
    else if listed[d] then Some(NoFromShop)
    else FirstFailure(held, listed, d + 1)
  }

  /** The day loop gets through days `d` to 6 exactly when all their ends can
      be held and none of them lists anything; it stops with `NoFromShop`
      when every end is held, and with `DateOverflow` when nothing is
      listed. */
  lemma {:induction false} FirstFailureIff(held: seq<bool>, listed: seq<bool>, d: nat)
    requires |held| == 7 && |listed| == 7 && d <= 7
    ensures var f := FirstFailure(held, listed, d);
      && (f.None? <==> (forall k :: d <= k < 7 ==> held[k]) && (forall k :: d <= k < 7 ==> !listed[k]))
      && (f.Some? ==> f.value == NoFromShop || f.value == DateOverflow)
      && (f.Some? && (forall k :: d <= k < 7 ==> held[k]) ==> f.value == NoFromShop)
      && (f.Some? && (forall k :: d <= k < 7 ==> !listed[k]) ==> f.value == DateOverflow)
    decreases 7 - d
  {
    if d < 7 {
      FirstFailureIff(held, listed, d + 1);
    }
  }

  /** Which of the seven day ends of the week from `weekStart` `datetime`
      can hold. */
  function EndsHeld(weekStart: int): (held: seq<bool>)
    ensures |held| == 7
    ensures (forall k :: 0 <= k < 7 ==> held[k]) <==> WeekInRange(weekStart)
  {
    var held := seq(7, d => EndHeld(weekStart, d + 1));
    assert forall k :: 0 <= k < 7 ==> held[k] == EndHeld(weekStart, k + 1);
    if WeekInRange(weekStart) then held
    else
      var k :| 1 <= k <= 7 && !EndHeld(weekStart, k);
      assert !held[k - 1];
      held
  }

  /** Which of the seven days of the week from `weekStart` list a
      reservation. */
  function DaysListed(used: seq<Reservation>, weekStart: int): (listed: seq<bool>)
    ensures |listed| == 7
    ensures (forall k :: 0 <= k < 7 ==> !listed[k]) <==> !AnyListed(used, weekStart)
  {
    var listed := seq(7, d => DayListed(used, weekStart, d));
    assert forall k :: 0 <= k < 7 ==> listed[k] == DayListed(used, weekStart, k);
    if AnyListed(used, weekStart) then
      var d, i :| 0 <= d < 7 && 0 <= i < |used| && ListedIn(used[i], weekStart, d);
      assert listed[d];
      listed
    else listed
  }

  /** `get_planning` as written: after the week is read, the day loop stops
      at the first failure; only a week that gets through every day comes
      back, as seven empty lists. */
  function PlanAsWritten(used: seq<Reservation>, monday: string): Result<seq<seq<ReservedTimeRange>>> {
    var weekStart :- WeekOf(monday);
    match FirstFailure(EndsHeld(weekStart), DaysListed(used, weekStart), 0)
    case Some(e) => Err(e)
    case None => Ok(seq(7, d => []))
  }

  /** As written, `get_planning` answers exactly when the week is read, every
      day end can be held and the intended planning is empty; then the
      answers agree. Otherwise the error is the week's, `NoFromShop` or
      `DateOverflow`; a week whose ends can all be held fails with
      `NoFromShop`, and one with nothing to list with `DateOverflow`. */
  lemma PlanAsWrittenFails(used: seq<Reservation>, owners: map<int, User>, monday: string, viewer: User)
    requires Owned(used, owners)
    ensures WeekOf(monday).Err? ==> PlanAsWritten(used, monday) == Err(WeekOf(monday).error)
    ensures WeekOf(monday).Ok? ==>
      var ws := WeekOf(monday).value;
      var w := WeekPlanning(used, owners, ws, viewer);
      var p := PlanAsWritten(used, monday);
      && (p.Ok? <==> WeekInRange(ws) && forall d :: 0 <= d < 7 ==> w[d] == [])
      && (p.Ok? ==> p.value == w)
      && (p.Err? ==> p.error == NoFromShop || p.error == DateOverflow)
      && (p.Err? && WeekInRange(ws) ==> p.error == NoFromShop)
      && (p.Err? && (forall d :: 0 <= d < 7 ==> w[d] == []) ==> p.error == DateOverflow)
  {
    if WeekOf(monday).Ok? {
      var weekStart := WeekOf(monday).value;
      WeekEmptyIff(used, owners, weekStart, viewer);
      var held, listed := EndsHeld(weekStart), DaysListed(used, weekStart);
      FirstFailureIff(held, listed, 0);
      if FirstFailure(held, listed, 0).None? {
        assert PlanAsWritten(used, monday).value == WeekPlanning(used, owners, weekStart, viewer);
      }
    }
  }

  /** The last Monday `datetime` can hold, 27 December of year `y` = 9999,
      is a week `get_planning` reads, and its fifth day ends past year 9999:
      that week's planning always fails, with `DateOverflow` when nothing is
      listed on its first four days. */
  lemma {:induction false} LastWeekOverflows(y: int)
    requires y == 9999
    ensures var t := InstantOf(Date(y, 12, 27), 0, 0, 0);
      && InRange(t) && WeekOf(FormatDate(t)) == Ok(t)
      && EndHeld(t, 4) && !EndHeld(t, 5) && !WeekInRange(t)
  {
    LastWeekRead(y);
    LastDayHeld(y);
    PastLastDay(y);
  }

  /** The text of 9999-12-27 is read back as that Monday's week. */
  lemma LastWeekRead(y: int)
    requires y == 9999
    ensures var t := InstantOf(Date(y, 12, 27), 0, 0, 0);
      InRange(t) && WeekOf(FormatDate(t)) == Ok(t)
  {
    var t := InstantOf(Date(y, 12, 27), 0, 0, 0);
    LastMonday(y);
    ParseFormatDate(t);
    WeekOfMonday(FormatDate(t), t);
  }

  /** 9999-12-27 is a Monday `datetime` can hold. */
  lemma LastMonday(y: int)
    requires y == 9999
    ensures var t := InstantOf(Date(y, 12, 27), 0, 0, 0);
      InRange(t) && Weekday(t) == 0 && DayStart(t) == t
  {
    LastMondayOrdinal(y);
    var t := InstantOf(Date(y, 12, 27), 0, 0, 0);
    assert t == 3652054 * UsPerDay;
    Text.DivModUnique(t, UsPerDay, 3652054, 0);
  }

  /** 9999-12-27 is day 3652054 since 0001-01-01, a multiple of seven. */
  lemma LastMondayOrdinal(y: int)
    requires y == 9999
    ensures Ordinal(Date(y, 12, 27)) == 3652054
  {
    DaysBeforeYearClosed(y);
  }

  /** Four days after 9999-12-27 is 9999-12-31, which `datetime` holds. */
  lemma LastDayHeld(y: int)
    requires y == 9999
    ensures EndHeld(InstantOf(Date(y, 12, 27), 0, 0, 0), 4)
  {
    LastMondayOrdinal(y);
  }

  /** Five days after 9999-12-27 is 10000-01-01, the first day `datetime`
      cannot hold. */
  lemma PastLastDay(y: int)
    requires y == 9999
    ensures !EndHeld(InstantOf(Date(y, 12, 27), 0, 0, 0), 5)
  {
    LastMondayOrdinal(y);
  }

  /** A string read as midnight of a Monday names that week. */
  lemma WeekOfMonday(s: string, t: int)
    requires ParseDate(s) == Ok(t) && Weekday(t) == 0
    ensures WeekOf(s) == Ok(t)
  {
  }

  lemma WeekEmptyIff(used: seq<Reservation>, owners: map<int, User>, weekStart: int, viewer: User)
    requires Owned(used, owners)
    ensures var w := WeekPlanning(used, owners, weekStart, viewer);
      !AnyListed(used, weekStart) <==> forall d :: 0 <= d < 7 ==> w[d] == []
  {
    var w := WeekPlanning(used, owners, weekStart, viewer);
    forall d | 0 <= d < 7
      ensures w[d] == [] <==> forall i :: 0 <= i < |used| ==> !ListedIn(used[i], weekStart, d)
    {
      DayEmptyIff(used, owners, weekStart + Days(d), viewer);
    }
    if AnyListed(used, weekStart) {
      var d, i :| 0 <= d < 7 && 0 <= i < |used| && ListedIn(used[i], weekStart, d);
      assert w[d] != [];
    }
  }

  /** A day's list is empty exactly when no reservation lies in that day. */
  lemma {:induction false} DayEmptyIff(used: seq<Reservation>, owners: map<int, User>, dayStart: int, viewer: User)
    requires Owned(used, owners)
    ensures DayList(used, owners, dayStart, viewer) == [] <==> forall i :: 0 <= i < |used| ==> !InDay(used[i], dayStart)
  {
    if used != [] {
      var init := used[..|used| - 1];
      assert Owned(init, owners);
      DayEmptyIff(init, owners, dayStart, viewer);
      assert forall i :: 0 <= i < |init| ==> init[i] == used[i];
    }
  }

  // ---- the day bound as evidently intended ---------------------------------

  /** The day test as evidently intended: the reservation starts in the day
      and ends no later than the next midnight. */
  predicate InDayFixed(r: Reservation, dayStart: int) {
    dayStart <= r.start && r.end <= dayStart + UsPerDay
  }

  /** A reservation that ends by the midnight after its start, one ending at
      that midnight included, is listed under the day it starts. */
  lemma ListedUnderStartDayFixed(r: Reservation)
    requires r.end <= DayStart(r.start) + UsPerDay
    ensures InDayFixed(r, DayStart(r.start))
  {
  }

  /** The case `EndAtMidnightUnlisted` leaves out: 23:00 to midnight of the
      first day is listed under that day. */
  lemma MidnightEndListedFixed()
    ensures var r := Reservation(1, 1, 1, Hours(23), Days(1), false, false);
      InDayFixed(r, 0) && !InDay(r, 0)
  {
  }

  /** With the intended bound a reservation of positive length is still
      listed under at most one day. */
  lemma AtMostOneDayFixed(r: Reservation, weekStart: int, d1: int, d2: int)
    requires r.start < r.end
    requires InDayFixed(r, weekStart + Days(d1)) && InDayFixed(r, weekStart + Days(d2))
    ensures d1 == d2
  {
  }
}
