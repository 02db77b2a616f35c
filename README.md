# Shared planner: booking admission and its surroundings

Shared planner lets volunteers book time slots in shops. A shop takes at
most `volunteers` people at once. It only takes bookings inside weekly
opening windows, of a length between `min_time` and `max_time` minutes, and
between its `available_from` and `available_until` dates. Administrators
bypass almost every rule.

This project models, in Dafny, the parts of the back end that decide and
record bookings. Instants are integers: microseconds since 0001-01-01
00:00, the earliest Python `datetime`, which is a Monday.

- `Capacity` is `check_overlap`. It chooses which existing reservations a
  request is compared with, rejects a request by a user who already holds
  one of them, and sweeps their start and end events sorted by time with a
  stable sort against the shop's capacity.
- `Admission` is `check_reservation`. It applies the seven rules in the
  order the code tries them, the administrator bypasses, and the search
  for an opening window.
- `Planning` is `ReservedTimeRange.from_reservation` (what a viewer may see
  of a reservation) and `get_planning` (seven day lists for a week given by
  its Monday).
- `Store` holds the tables as a pure `State`, and one step function per
  endpoint: book, update, cancel, validate, the opening-window endpoints,
  `update_shop`'s id check, login and register. Class `Database` performs
  each step on its fields in place.
- `Shops` holds the checks `create_time_range` and `update_shop` make.
- `Models` holds the record behaviour of `db/models.py`: setting values
  read as booleans and integers, token expiry and renewal, the
  password-reset life cycle, the notification queries, and pending
  reminders.
- `Auth` holds the `CurrentToken` and `CurrentAdmin` dependencies and the
  registration checks. That includes the e-mail pattern
  `[^@]+@[^@]+\.[^@]+`, applied as `re.match` applies it (anchored at the
  start only).
- `Ics` is `create_ics`: the iCalendar (RFC 5545) text attached to the
  booking e-mails.
- `Week` is `monday` and `monday_str`.
- `Serve` is `sanitize_path` and the catch-all route that serves the web
  front end.
- `TimeCodec` is the front end's `timeToMinutes` and `minutesToTime`.
- `Clock`, `Calendar`, `Text`, `Tables`, `Entities` and `Outcome` are
  shared groundwork:
  - instants and the Gregorian calendar;
  - the `strftime` and `strptime` formats;
  - string helpers;
  - tables kept in id order;
  - the records;
  - `Result` and the HTTP errors.

Each endpoint's model follows the code as written. Where the code misses
what it evidently means to do, "## Findings" names a member modelling the
code and a corrected member with the intended property proved about it.
The one exception is the missing `from_shop`: the main model returns the
view that was evidently meant, and separate members model the failure.

## Model

| member | source | states |
|---|---|---|
| Admission.FindOpening | shared_planner/api/reservations.py:181-194 | the loop over the opening windows finds one exactly when some window of the start's weekday, not reversed, holds the start's time of day and the end's time of day |
| Admission.CheckReservation | shared_planner/api/reservations.py:146-194 | the method's answer is the ordered chain `Decide`: an `OverflowError` when the end instant cannot be computed, then overlap, too short, too long, past, before open, after close, outside the opening windows |
| Admission.Decide | shared_planner/api/reservations.py:146-194 | a refusal is a 400 or an `OverflowError`; an acceptance has an end within the years 1 to 9999; a non-administrator's acceptance has a length within [min_time, max_time] and a start not in the past |
| Admission.OverflowFirst | shared_planner/api/reservations.py:156-158 | a length or an end out of Python's range is an `OverflowError` before any rule is tried, for administrators too |
| Admission.NonAdminAdmittedIff | shared_planner/api/reservations.py:156-194 | a non-administrator is admitted if and only if the end instant exists and every rule holds: capacity and no own overlap, a length within [min_time, max_time], a start not in the past, within the availability dates and inside an opening window |
| Admission.AdminBypass | shared_planner/api/reservations.py:156-194 | an administrator gets the `OverflowError` of `timedelta` or of the addition when the length or the end leaves Python's range; otherwise they are refused only for a length below the minimum that is not positive, always as "too_short" |
| Admission.RefusalsAreRules | shared_planner/api/reservations.py:156-194 | a refusal names one of the seven rules, as a 400, exactly when the end instant can be computed; otherwise it is an `OverflowError` |
| Admission.ReversedWindowIgnored | shared_planner/api/reservations.py:183-184 | a window whose start is after its end never takes a booking |
| Admission.WholeDaysInvisible | shared_planner/api/reservations.py:185-188 | adding whole days to a booking's length never changes the window test, which compares times of day only |
| Admission.MidnightCrossingAdmitted | shared_planner/api/reservations.py:185-188 | a Monday 09:00-23:59 window takes a one-hour booking from 23:30, which ends on Tuesday |
| Admission.FixedWindowContains | shared_planner/api/reservations.py:181-194 | with the corrected window test, and a window ending within its day, every instant of an admitted booking lies inside the window |
| Admission.FixedWindowNarrows | shared_planner/api/reservations.py:181-194 | the corrected window test admits only what the code's test admits, for windows ending before midnight |
| Admission.MidnightCrossingRefusedFixed | shared_planner/api/reservations.py:185-188 | the corrected window test refuses the 23:30 booking of one hour in a window closing at 23:59 |
| Admission.FixedAdmissionSafe | shared_planner/api/reservations.py:146-194 | with the corrected capacity and window tests, at every instant of an admitted non-administrator's booking the shop holds at most `volunteers` people including the requester, no other reservation of theirs holds that instant, and an opening window does |
| Capacity.CountedOf | shared_planner/api/reservations.py:127-131 | the reservations swept are exactly those of the shop whose start lies in [start, end) or whose end lies in (start, end], other than the excluded one |
| Capacity.EventsOf | shared_planner/api/reservations.py:132-133 | each swept reservation adds two events, so there are twice as many events as reservations |
| Capacity.InsertByTime | shared_planner/api/reservations.py:137 | insertion adds exactly the one event: one more element, multiset grown by it |
| Capacity.InsertSorted | shared_planner/api/reservations.py:137 | inserting into a time-sorted list keeps it sorted |
| Capacity.InsertStable | shared_planner/api/reservations.py:137 | insertion puts the new event after every event with the same time |
| Capacity.SortByTimeIsStableSort | shared_planner/api/reservations.py:137 | `sort(key=time)` yields a list sorted by time that is a permutation of its input and keeps the input order among events of equal time |
| Capacity.CheckOverlap | shared_planner/api/reservations.py:115-143 | the method returns true exactly when no swept reservation is the user's and no prefix of the time-sorted events brings the count above `volunteers` |
| Capacity.CollectEvents | shared_planner/api/reservations.py:125-135 | the first loop stops early exactly when a swept reservation belongs to the user; otherwise it has collected the events of all swept reservations in shop order |
| Capacity.CollectStep | shared_planner/api/reservations.py:127-135 | one more reservation adds its two events when it is swept and nothing otherwise |
| Capacity.PrefixHasUser | shared_planner/api/reservations.py:134-135 | an own reservation found among the first reservations is one of all the swept ones, so returning early is right |
| Capacity.Sweep | shared_planner/api/reservations.py:138-143 | the second loop returns false exactly when some prefix of the sorted events brings the running count above `volunteers` |
| Capacity.TotalUpToSort | shared_planner/api/reservations.py:137-141 | sorting does not change the net count of events at or before any instant |
| Capacity.EventsUpTo | shared_planner/api/reservations.py:132-133 | for reservations that do not end before they start, the net count of events up to `t` is the number of reservations holding `t` |
| Capacity.AdmittedOccupancy | shared_planner/api/reservations.py:137-143 | when the check admits, at every instant at most `volunteers` of the swept reservations hold it |
| Capacity.SameUserRejects | shared_planner/api/reservations.py:134-135 | a swept reservation of the same user makes the check fail whatever the capacity |
| Capacity.NothingCountedAdmits | shared_planner/api/reservations.py:127-143 | when no reservation is swept the check admits, for any capacity and any user |
| Capacity.NoneCounted | shared_planner/api/reservations.py:127-133 | when no reservation meets the test, the swept list is empty |
| Capacity.EnclosingNotCounted | shared_planner/api/reservations.py:128-131 | a reservation that strictly encloses the request is never swept |
| Capacity.CandidateNotCountedOverbooks | shared_planner/api/reservations.py:125-143 | for one volunteer, a request over exactly another user's reservation is admitted and both then hold its start: the request adds no event |
| Capacity.EnclosedRequestOverbooks | shared_planner/api/reservations.py:125-143 | with capacity 2 and A = [09:00, 10:00), B = [09:30, 10:30), a request for [09:45, 10:15) passes and three reservations then hold 09:50 |
| Capacity.OneAtATime | shared_planner/api/reservations.py:138-142 | a single reservation's two events never bring the count above 1 |
| Capacity.SameUserInsideOwnReservation | shared_planner/api/reservations.py:128-135 | a user who holds [00:00, 02:00) is admitted for [00:30, 01:00) at the same shop |
| Capacity.OverlapOk | shared_planner/api/reservations.py:115-143 | an admitted request meets no swept reservation of the same user |
| Capacity.OverlappingOf | shared_planner/api/reservations.py:127-131 | the corrected selection keeps exactly the reservations that overlap [start, end) half-open, other than the excluded one |
| Capacity.ActiveOverlapping | shared_planner/api/reservations.py:127-131 | inside the request, the corrected selection holds as many reservations at each instant as the whole shop does |
| Capacity.FixedAdmittedOccupancy | shared_planner/api/reservations.py:125-143 | with the corrected check, at every instant of an admitted request the existing reservations plus the request number at most `volunteers` |
| Capacity.FixedNoOwnOverlap | shared_planner/api/reservations.py:134-135 | with the corrected check, no reservation of the same user overlaps an admitted request |
| Capacity.FixedRefusesEnclosedRequest | shared_planner/api/reservations.py:125-143 | the corrected check refuses [09:45, 10:15) with capacity 2 beside A = [09:00, 10:00) and B = [09:30, 10:30) |
| Capacity.FixedRefusesSameHour | shared_planner/api/reservations.py:125-143 | for one volunteer, the corrected check refuses a request over exactly an existing reservation |
| Clock.Weekday | shared_planner/api/reservations.py:179 | `weekday()` lies in 0..6 |
| Clock.TimeOfDay | shared_planner/api/reservations.py:186-187 | `time()` lies in one day and is the instant minus its whole days |
| Clock.TruncateToMinute | shared_planner/api/reservations.py:293 | `replace(second=0, microsecond=0)` is the latest whole minute at or before the instant, and keeps an instant already on a minute |
| Clock.WholeMinutes | shared_planner/api/reservations.py:304-306 | `total_seconds() // 60` is the floor number of minutes: `Minutes(m) <= delta < Minutes(m + 1)` |
| Clock.WholeMinutesOfMinutes | shared_planner/api/reservations.py:56-59 | a length of exactly `m` minutes is read back as `m` |
| Clock.ShiftByDays | shared_planner/api/reservations.py:101-103 | adding whole days keeps the time of day and moves the weekday by as many days, modulo 7 |
| Calendar.FormatDate | shared_planner/week.py:11 | "%Y-%m-%d" writes ten characters |
| Calendar.FormatDateMinute | shared_planner/db/models.py:123 | "%Y-%m-%d %H:%M" writes sixteen characters |
| Calendar.FormatCompact | shared_planner/ics.py:20-23 | "%Y%m%dT%H%M%S" writes fifteen characters |
| Calendar.ParseDate | shared_planner/api/reservations.py:91 | what "%Y-%m-%d" reads is a midnight |
| Calendar.ParseDateMinute | shared_planner/ics.py:17 | what "%Y-%m-%d %H:%M" reads falls on a whole minute |
| Calendar.ParseFormatDate | shared_planner/week.py:9-11 | reading back with "%Y-%m-%d" what "%Y-%m-%d" wrote gives midnight of the same day |
| Calendar.ParseFormatDateMinute | shared_planner/ics.py:17 | reading back with "%Y-%m-%d %H:%M" what "%Y-%m-%d %H:%M" wrote gives the instant without its seconds and microseconds |
| Calendar.ParseFormatFields | shared_planner/ics.py:17 | the minute text reads back as the same date at the same hour and minute |
| Calendar.FieldsOfInstant | shared_planner/ics.py:20-22 | the date, hour, minute and second written for an instant built from a valid date and time are that date and time |
| Calendar.InstantFields | shared_planner/ics.py:20-22 | an instant is its date at its hour, minute and second plus its microseconds |
| Calendar.DateOfOrdinal | shared_planner/ics.py:20-22 | a valid date is recovered from its day number |
| Calendar.OrdinalInjective | shared_planner/ics.py:20-22 | different valid dates have different day numbers |
| Calendar.AddHours | shared_planner/db/models.py:110 | `t + timedelta(hours=h)` succeeds exactly when `h` hours is within the range of `timedelta` and the sum lies within the years 1 to 9999, and is then the sum; otherwise an `OverflowError` |
| Calendar.InRangeYear | shared_planner/api/reservations.py:101-102 | an instant lies before day 3652059 (10000-01-01) exactly when its year is at most 9999, which is the bound every `datetime` sum in the source is checked against |
| Calendar.DaysBeforeYearClosed | shared_planner/week.py:4-6 | the days before a year follow the Gregorian closed form (365 a year, plus the leap years), which fixes the weekday of every date |
| Calendar.AddMinutes | shared_planner/ics.py:18 | `start + timedelta(minutes=m)` succeeds exactly when `m` minutes is within the range of `timedelta` and the sum lies within the years 1 to 9999, and is then the sum; otherwise an `OverflowError` |
| Week.Monday | shared_planner/week.py:4-6 | the result is a Monday at the same time of day, at most one week earlier |
| Week.MondayIdempotent | shared_planner/week.py:4-6 | the Monday of a Monday is itself |
| Week.MondayIsLatest | shared_planner/week.py:4-6 | no Monday at the same time of day lies between the result and the instant |
| Week.MondayStr | shared_planner/week.py:9-11 | the text has ten characters |
| Week.MondayStrParses | shared_planner/week.py:9-11 | the text reads back as midnight of that Monday, which lies within the week before the instant |
| Planning.FromReservation | shared_planner/api/reservations.py:39-64 | the view keeps id, start and validation flag, and its length is the floor number of minutes of the reservation |
| Planning.OwnReservationMarked | shared_planner/api/reservations.py:43-45 | a viewer's own reservation shows status -2 and "booked_by_you" |
| Planning.NonAdminPrivacy | shared_planner/api/reservations.py:43-51 | for a non-administrator the view does not depend on who owns the reservation; status -2 means their own and -1 anyone else's |
| Planning.AdminSeesOwner | shared_planner/api/reservations.py:46-48 | an administrator, or a view for nobody, sees the owner's id and "<full name> (<group>)" |
| Planning.DayList | shared_planner/api/reservations.py:104-109 | a day lists exactly the views of the reservations that start on or after its midnight and end before the next one |
| Planning.WeekPlanning | shared_planner/api/reservations.py:99-109 | the planning has seven day lists |
| Planning.WeekLists | shared_planner/api/reservations.py:100-109 | the outer loop builds the seven day lists of the week in order; it fails with `OverflowError` exactly when some day's end `day_start + timedelta(days=1)` lies past year 9999 |
| Planning.OneDay | shared_planner/api/reservations.py:101-108 | one day of the outer loop fails with `OverflowError` exactly when the day's end lies past year 9999, and otherwise yields that day's list |
| Planning.DayLoop | shared_planner/api/reservations.py:104-109 | the inner loop builds that day's list, in shop order |
| Planning.WeekOf | shared_planner/api/reservations.py:90-94 | an accepted `monday` is midnight of a Monday; a refusal is the parse error or 400 "not_monday" |
| Planning.Plan | shared_planner/api/reservations.py:90-112 | the planning fails exactly when the week is refused, with its error, or when a day end of the week lies past year 9999, with `OverflowError`; otherwise it is the seven day lists |
| Planning.MondayStrAccepted | shared_planner/api/reservations.py:90-94 | a week written by `monday_str` is accepted and is the week holding its instant |
| Planning.AtMostOneDay | shared_planner/api/reservations.py:101-107 | a reservation is listed under at most one day |
| Planning.EndAtMidnightUnlisted | shared_planner/api/reservations.py:103-107 | a reservation ending exactly at midnight is listed under no day |
| Planning.InDay | shared_planner/api/reservations.py:106 | a reservation listed under a day lasts less than one day |
| Planning.PlanAsWritten | shared_planner/api/reservations.py:75-112 | no `ensures`; `get_planning` as written, whose meaning Planning.PlanAsWrittenFails states |
| Planning.PlanAsWrittenFails | shared_planner/api/reservations.py:99-109 | as written, the planning is the week's refusal, or fails at the first day that lists a reservation (the `AttributeError` of the missing `from_shop`, line 63) or whose end overflows (`OverflowError`), or is seven empty lists exactly when every day end can be held and nothing is listed |
| Planning.FirstFailureIff | shared_planner/api/reservations.py:100-107 | the day loop as written gets through the days exactly when no day end overflows and no day lists anything; it stops with the `AttributeError` when no end overflows and with `OverflowError` when nothing is listed |
| Planning.EndsHeld | shared_planner/api/reservations.py:102-103 | the seven day-end flags are all set exactly when every day end of the week lies within year 9999 |
| Planning.DaysListed | shared_planner/api/reservations.py:104-107 | the seven day flags are all clear exactly when no reservation is listed under a day of the week |
| Planning.LastWeekOverflows | shared_planner/api/reservations.py:90-103 | "9999-12-27" is read as a Monday, and its fourth day's end 9999-12-31 can be held but its fifth day's end cannot, so that week's planning fails |
| Planning.WeekEmptyIff | shared_planner/api/reservations.py:101-109 | all seven day lists are empty exactly when no reservation is listed under a day of the week |
| Planning.ListedUnderStartDayFixed | shared_planner/api/reservations.py:101-107 | with the corrected bound, a reservation ending by the next midnight is listed under the day it starts |
| Planning.MidnightEndListedFixed | shared_planner/api/reservations.py:103-107 | with the corrected bound, a reservation ending exactly at midnight is listed, where the code lists it under no day |
| Planning.AtMostOneDayFixed | shared_planner/api/reservations.py:101-107 | with the corrected bound, a reservation of positive length is still listed under at most one day |
| Shops.FindConflict | shared_planner/api/shops.py:144-157 | the loop finds a conflict exactly when some window of the same day holds the new start in [start, end) or the new end in (start, end] |
| Shops.CheckNewRange | shared_planner/api/shops.py:144-162 | a new window is accepted if and only if start < end and no window of that day catches its start or its end; a refusal is 400 "time_range_overlap" or "negative_time_range" |
| Shops.OtherDaysIgnored | shared_planner/api/shops.py:145-146 | windows of other days never stand in the way |
| Shops.OverlapReportedFirst | shared_planner/api/shops.py:144-162 | a reversed window that an existing one catches is reported as an overlap, not as a negative range |
| Shops.EnclosingRangeAccepted | shared_planner/api/shops.py:147-153 | a new window that strictly encloses an existing one is accepted |
| Shops.CheckNewRangeFixed | shared_planner/api/shops.py:144-162 | the corrected check accepts only windows with start < end |
| Shops.FixedRangeDisjoint | shared_planner/api/shops.py:147-153 | the corrected check accepts a window if and only if start < end and it shares no instant with a window of the same day |
| Shops.EnclosingRangeRefusedFixed | shared_planner/api/shops.py:147-153 | the corrected check refuses a window strictly enclosing an existing one, as an overlap |
| Shops.ShopIdCheck | shared_planner/api/shops.py:125-129 | the body's id must be absent or equal to the path's; the id kept is the path's; a mismatch is 400 "id_mismatch" |
| Store.ReservationsOwned | shared_planner/api/reservations.py:97 | every reservation listed for a shop has an owner in the users table |
| Store.BookKeepsValid | shared_planner/api/reservations.py:205-271 | booking keeps keys and foreign keys consistent, and a refused booking changes nothing |
| Store.BookAdmitted | shared_planner/api/reservations.py:205-270 | an accepted booking names a known shop, ends within the years 1 to 9999 even for an administrator, passed every rule unless the user is an administrator, and is shown as the user's own with the requested start and length |
| Store.BookAppends | shared_planner/api/reservations.py:214-267 | an accepted booking adds one reservation under a fresh id, last in its shop's list, and changes no other table and no other shop's list |
| Store.Guard | shared_planner/api/reservations.py:286-291 | no `ensures`; the owner and validated guards, shared by update and cancel (lines 382-387 with the cancel errors). Store.GuardPassesIff states when they let a caller through |
| Store.GuardPassesIff | shared_planner/api/reservations.py:286-291 | update and cancel let through exactly an administrator, or the owner of a reservation not yet validated |
| Store.SameBooking | shared_planner/api/reservations.py:304-311 | no `ensures`; the no-change test on the start and the whole minutes of the stored length. Store.RescheduleCases and Store.NoOpUpdateCanFail state what it decides |
| Store.RescheduleCases | shared_planner/api/reservations.py:295-319 | after the guards, an update is refused with the rule's error, kept as it is when the times are the stored ones, or rewritten to the new start and end |
| Store.UpdateKeepsValid | shared_planner/api/reservations.py:282-370 | updating keeps the tables consistent, and a refused update changes nothing |
| Store.UpdateChanges | shared_planner/api/reservations.py:293-319 | an accepted update passed the guards and changes at most the start and end of that one reservation, to the requested minute and `duration` minutes later |
| Store.UpdateGuardOrder | shared_planner/api/reservations.py:284-291 | a non-owner gets 403 "cant_update" before anything else, and the owner of a validated reservation gets 400 "cant_update_validated" |
| Store.NoOpUpdateCanFail | shared_planner/api/reservations.py:293-313 | an owner resubmitting the stored times of a reservation that has started is refused, though nothing would change |
| Store.CancelEffect | shared_planner/api/reservations.py:378-435 | a cancellation succeeds if and only if the reservation exists and the guards pass; it then deletes exactly that row, and a refusal changes nothing |
| Store.ValidateEffect | shared_planner/api/reservations.py:438-448 | validation succeeds if and only if the caller is an administrator and the reservation exists; it sets that one flag |
| Store.ValidatedLocked | shared_planner/api/reservations.py:284-291 | once validated, a reservation can be neither updated nor cancelled by a non-administrator |
| Store.CreateRangeKeepsValid | shared_planner/api/shops.py:136-168 | creating a window keeps the tables consistent, and a refusal changes nothing |
| Store.CreateRangeAppends | shared_planner/api/shops.py:136-168 | an accepted window came from an administrator, for a known shop, with start < end and no conflict; it is added last to the shop's windows and reservations are untouched |
| Store.UpdateRangeEffect | shared_planner/api/shops.py:187-204 | any day and times are written when the caller is an administrator and the window exists; nothing else changes |
| Store.DeleteRangeEffect | shared_planner/api/shops.py:171-184 | deleting removes exactly that window when the caller is an administrator and the window exists; a refusal changes nothing |
| Store.UpdateShopCheck | shared_planner/api/shops.py:118-129 | passes exactly for an administrator, a known shop and a body id that is absent or equal to the path's |
| Store.BookStep | shared_planner/api/reservations.py:205-270 | a refusal changes nothing; an unknown shop is 404; an acceptance adds the next id to the reservation order and leaves users, shops and windows alone |
| Store.UpdateStep | shared_planner/api/reservations.py:282-319 | a refusal changes nothing; an unknown reservation is 404; a change touches only that reservation |
| Store.RescheduleStep | shared_planner/api/reservations.py:293-319 | a refusal changes nothing; only the one reservation may change, and then to the new start and an end `duration` minutes later within the years 1 to 9999 |
| Store.CancelStep | shared_planner/api/reservations.py:378-435 | a refusal changes nothing; an acceptance removes an existing reservation and leaves the other tables alone |
| Store.ValidateStep | shared_planner/api/reservations.py:438-448 | a refusal changes nothing; an acceptance came from an administrator for an existing reservation |
| Store.CreateRangeStep | shared_planner/api/shops.py:136-168 | a refusal changes nothing; an acceptance came from an administrator, for a known shop, with start < end; reservations and shops stay |
| Store.UpdateRangeStep | shared_planner/api/shops.py:187-204 | a refusal changes nothing; it succeeds exactly for an administrator and an existing window |
| Store.DeleteRangeStep | shared_planner/api/shops.py:171-184 | a refusal changes nothing; it succeeds exactly for an administrator and an existing window, which is then gone |
| Store.RegisterStep | shared_planner/api/auth.py:85-115 | a refusal changes nothing; a registered user has the group given and is not an administrator; a missing group is refused |
| Store.MissingGroupRefused | shared_planner/api/auth.py:90-113 | a registration without a group that passes the checks fails at the commit on the `NOT NULL` group column and changes nothing |
| Store.BookAsWritten | shared_planner/api/reservations.py:197-271 | no `ensures`; `book_time_range` as written, whose meaning Store.BookCommitsThenFails states |
| Store.BookCommitsThenFails | shared_planner/api/reservations.py:266-270 | as written, an accepted booking is stored and then answered with the `AttributeError` of the missing `from_shop` |
| Store.UpdateAsWritten | shared_planner/api/reservations.py:274-370 | no `ensures`; `update_reservation` as written, whose meaning Store.UpdateCommitsThenFails states |
| Store.UpdateCommitsThenFails | shared_planner/api/reservations.py:313-369 | as written, an accepted update is stored and then answered with the `AttributeError` of the missing `from_shop` |
| Store.RescheduleStepFixed | shared_planner/api/reservations.py:305-313 | with the corrected order, resubmitting the stored times succeeds and changes nothing, and a refusal changes nothing |
| Store.UpdateStepFixed | shared_planner/api/reservations.py:282-319 | with the corrected order, a refused update changes nothing |
| Store.NoOpUpdateSucceedsFixed | shared_planner/api/reservations.py:305-313 | with the corrected order, an allowed caller resubmitting the stored minute-aligned times gets the reservation back unchanged |
| Store.FixedUpdateAgrees | shared_planner/api/reservations.py:293-319 | the corrected update differs from the code only when the stored times are resubmitted |
| Store.UpdateRangeStepFixed | shared_planner/api/shops.py:187-204 | with the corrected check, a refused update of a window changes nothing |
| Store.UpdateRangeFixedDisjoint | shared_planner/api/shops.py:187-204 | with the corrected check, an accepted updated window came from an administrator, has start < end, is the one row rewritten, and shares no instant with the shop's other windows of its day |
| Store.FindByEmail | shared_planner/api/auth.py:70-71 | finds a user with that e-mail, and finds none exactly when no user has it |
| Store.LoginCheck | shared_planner/api/auth.py:69-76 | an accepted login is a stored user with that e-mail whose password the check accepts |
| Store.UnknownEmailNotFound | shared_planner/api/auth.py:73-74 | an unknown e-mail gives 404 whatever the password |
| Store.RegisterKeepsValid | shared_planner/api/auth.py:92-115 | registering keeps the tables consistent, and a refusal changes nothing |
| Store.RegisterAccepted | shared_planner/api/auth.py:92-110 | a registered user passed every check, has an e-mail no stored user has, is not an administrator, and is the one row added |
| Store.Database.Book | shared_planner/api/reservations.py:197-271 | the method's result and new tables are those of `BookStep` on the old tables |
| Store.Database.AddReservation | shared_planner/api/reservations.py:266-267 | the new tables are the old ones with the reservation added under its id, last in the order |
| Store.Database.PutReservation | shared_planner/api/reservations.py:315-318 | the new tables are the old ones with that reservation replaced |
| Store.Database.Update | shared_planner/api/reservations.py:274-370 | the method's result and new tables are those of `UpdateStep` |
| Store.Database.MoveReservation | shared_planner/api/reservations.py:303-319 | once admitted, an update that repeats the stored start and whole-minute duration writes nothing and returns the stored reservation; any other rewrites only that reservation's start and end |
| Store.Database.Reschedule | shared_planner/api/reservations.py:293-319 | the method's result and new tables are those of `RescheduleStep` |
| Store.Database.Cancel | shared_planner/api/reservations.py:373-435 | the method's result and new tables are those of `CancelStep` |
| Store.Database.Validate | shared_planner/api/reservations.py:438-448 | the method's result and new tables are those of `ValidateStep` |
| Store.Database.CreateTimeRange | shared_planner/api/shops.py:136-168 | the method's result and new tables are those of `CreateRangeStep` |
| Store.Database.UpdateTimeRange | shared_planner/api/shops.py:187-204 | the method's result and new tables are those of `UpdateRangeStep` |
| Store.Database.DeleteTimeRange | shared_planner/api/shops.py:171-184 | the method's result and new tables are those of `DeleteRangeStep` |
| Store.Database.GetPlanning | shared_planner/api/reservations.py:75-112 | 404 for an unknown shop; otherwise the week's refusal, the `OverflowError` of a day end past year 9999, or the seven day lists of the shop's reservations |
| Store.Database.Login | shared_planner/api/auth.py:65-82 | a refusal is the check's error, else the expiry's `ValueError` or `OverflowError`, and adds no token; an acceptance appends one fresh token for the user, expiring `token_validity` hours from now; the tables do not change |
| Store.Database.Register | shared_planner/api/auth.py:85-115 | a failed check, then a failed token expiry, refuses with that error and changes nothing; otherwise the new tables are those of `RegisterStep`, and an acceptance appends one fresh token for the new user with that expiry |
| Auth.EmailMatchesIff | shared_planner/api/auth.py:103-104 | the left-to-right scan accepts exactly the e-mails the pattern matches at the start |
| Auth.MatchesHasPattern | shared_planner/api/auth.py:103 | what the scan accepts the pattern matches |
| Auth.PatternIsMatched | shared_planner/api/auth.py:103 | what the pattern matches the scan accepts |
| Auth.EmailSuffixIgnored | shared_planner/api/auth.py:103 | anything may follow a matching prefix |
| Auth.EmailExamples | shared_planner/api/auth.py:103 | "a@b.c@" is accepted and "a@b" is not |
| Auth.EmailShape | shared_planner/api/auth.py:103 | a match has a non-empty run without '@' before its '@', and a non-empty run without '@' between the '@' and the '.' |
| Auth.RegisterCheck | shared_planner/api/auth.py:93-104 | a taken e-mail is 409; any other refusal is a 400 |
| Auth.RegisterAcceptedIff | shared_planner/api/auth.py:93-104 | a registration passes if and only if the e-mail is new, the password has at least 6 characters, the name at least 3, and the e-mail matches |
| Auth.TakenEmailFirst | shared_planner/api/auth.py:93-95 | a taken e-mail is reported first as 409, whatever else is wrong |
| Auth.CurrentAdmin | shared_planner/api/auth.py:52-56 | passes the user through exactly when an administrator, else 403 |
| Auth.FirstToken | shared_planner/api/auth.py:35-36 | the first token with this access text, or none when no token has it |
| Auth.CurrentToken | shared_planner/api/auth.py:32-44 | an accepted token has that access text and is not expired; 401 "Invalid token" exactly when no token has it |
| Auth.ExpiredTokenStaysRefused | shared_planner/api/auth.py:41-43 | an expired token stays refused at every later instant |
| Models.AsBool | shared_planner/db/models.py:176-179 | exactly "True" and "False" are read, as true and false; anything else is a `ValueError` |
| Models.AsBoolOfStr | shared_planner/db/models.py:176-179 | what `str(b)` writes reads back as `b` |
| Models.ReadGrouped | shared_planner/db/models.py:173-174 | digits with single underscores between them are exactly what reads as a number |
| Models.ReadSignedOfString | shared_planner/db/models.py:173-174 | every integer's decimal form reads back as it |
| Models.IntRoundTrip | shared_planner/db/models.py:173-174 | a setting holding `str(n)` reads as `n` |
| Models.AsIntNeedsDigit | shared_planner/db/models.py:173-174 | a value without a digit is a `ValueError` |
| Models.AsInt | shared_planner/db/models.py:173-174 | a refusal is a `ValueError` |
| Models.ExpiryAfter | shared_planner/db/models.py:150-152 | `now + timedelta(hours=setting.asInt())` is the setting's `ValueError`, or an `OverflowError`, or the instant that many hours after `now`, not before `now` for a non-negative setting |
| Models.Token.constructor | shared_planner/db/models.py:133-141 | the token record carries the user, the access text, the expiry and type "bearer" |
| Models.CreateToken | shared_planner/db/models.py:154-163 | the expiry's error, and no token; or a new token carrying the user and the access text, of type "bearer", expiring `token_validity` hours from now and, with a non-negative validity, not expired now |
| Models.Token.Renew | shared_planner/db/models.py:147-152 | the expiry's error leaves the token unchanged; otherwise only the expiry changes, to `token_validity` hours from now, and the token is good until then |
| Models.Token.IsExpired | shared_planner/db/models.py:144-145 | no `ensures`; `is_expired` with the clock as a parameter, whose meaning Models.ExpiryBoundary states |
| Models.ExpiryBoundary | shared_planner/db/models.py:144-145 | a token is good at its expiry instant and expired exactly at every later one |
| Models.PasswordReset.constructor | shared_planner/db/models.py:311-317 | a new reset request is neither used nor sent |
| Models.CreateReset | shared_planner/db/models.py:295-317 | the expiry's error, and no request; or a new request for the user, neither used nor sent, expiring `reset_token_validity` hours from now |
| Models.FirstReset | shared_planner/db/models.py:321-323 | the first request with the token, or none when no request has it |
| Models.CheckToken | shared_planner/db/models.py:320-336 | an accepted request has the token, is not expired and not used; 404 exactly when no request has the token |
| Models.UseToken | shared_planner/db/models.py:339-347 | the answer is the check's; an accepted request is marked used and nothing else changes; the token is then refused at every instant |
| Models.Notification.Create | shared_planner/db/models.py:206-223 | the notification is addressed to the user or to the administrators, dated now, with "{}" for empty data; unread and not mailed |
| Models.Notification.MarkRead | shared_planner/db/models.py:198-200 | sets the read flag and nothing else |
| Models.Notification.MarkUnread | shared_planner/db/models.py:202-204 | clears the read flag and nothing else |
| Models.ListNotifications | shared_planner/db/models.py:267-280 | lists exactly the notifications addressed to the user, or to the administrators for an administrator, dated before now |
| Models.FindUnread | shared_planner/db/models.py:225-239 | lists exactly the visible notifications that are unread |
| Models.CountUnread | shared_planner/db/models.py:252-265 | the unread count is the number of unread notifications found, and at most the number of notifications |
| Models.UnreadAmongListed | shared_planner/db/models.py:225-280 | every unread notification found is one listed |
| Models.AdminNotificationsHidden | shared_planner/db/models.py:229-235 | a non-administrator sees only notifications addressed to them |
| Models.UnsentReminders | shared_planner/db/models.py:111-116 | exactly the reservations without a reminder sent that start before the bound |
| Models.FindUnsentReminders | shared_planner/db/models.py:106-116 | an `OverflowError` exactly when `now + timedelta(hours=hours_before)` cannot be computed; otherwise exactly the reservations without a reminder sent that start before that instant |
| Ics.SequenceNumber | shared_planner/ics.py:31-36 | SEQUENCE is 2 exactly for a cancellation, 1 for an update that is not one, 0 otherwise |
| Ics.MethodName | shared_planner/ics.py:39 | METHOD is PUBLISH exactly when neither flag is set, else REQUEST |
| Ics.StatusName | shared_planner/ics.py:40 | STATUS is CANCELLED exactly for a cancellation, else CONFIRMED |
| Ics.CancelWins | shared_planner/ics.py:31-40 | once `cancel` is set, all three values follow it alone |
| Ics.EscapeNewlines | shared_planner/ics.py:24 | the escaped description holds no line feed, and is longer by one character per line feed |
| Ics.UnescapeEscape | shared_planner/ics.py:24 | a description without a backslash is read back exactly by a client |
| Ics.EscapeUnchanged | shared_planner/ics.py:24 | a description without line feeds is sent as it is |
| Ics.EscapeNotInjective | shared_planner/ics.py:24 | a line feed and a backslash followed by `n` are sent alike |
| Ics.ParseOrganizer | shared_planner/ics.py:26-29 | the organizer is accepted if and only if it holds exactly one '<'; a refusal is the `ValueError` of the two-name unpacking |
| Ics.OrganizerOfForm | shared_planner/ics.py:26-29 | "Name <email>" gives the stripped name and the stripped, lowered e-mail, whatever the last character is |
| Ics.IcsLines | shared_planner/ics.py:42-58 | the calendar has 17 lines |
| Ics.IcsOfFormattedStart | shared_planner/ics.py:17-18 | a start written with "%Y-%m-%d %H:%M" gives the calendar of that instant without its seconds |
| Ics.IcsLayout | shared_planner/ics.py:42-58 | a calendar produced splits into 17 lines, one VCALENDAR around one VEVENT; only lines 1 and 5 open a component; UID, DTSTAMP, DTSTART, DTEND (`duration` minutes after the start), DESCRIPTION, METHOD, STATUS and SEQUENCE hold the values given |
| Ics.IcsSplitsIntoLines | shared_planner/ics.py:42-58 | a calendar produced splits at its line feeds into the lines of the template |
| Ics.IcsIsJoin | shared_planner/ics.py:17-58 | a calendar produced is the template's lines joined with a line feed, with the three instants in the compact form |
| Ics.LinesLayout | shared_planner/ics.py:42-58 | where the template puts each field |
| Ics.TwoBegins | shared_planner/ics.py:42-58 | only the first and the fifth line start with "BEGIN:" |
| Ics.BadStartRefused | shared_planner/ics.py:17 | a start text `strptime` refuses gives its error and no calendar |
| Ics.BadEndRefused | shared_planner/ics.py:18 | a length beyond the range of `timedelta`, or an end outside the years 1 to 9999, gives an `OverflowError` |
| Ics.BadOrganizerRefused | shared_planner/ics.py:26 | an organizer without exactly one '<' gives no calendar |
| Ics.CreateIcs | shared_planner/ics.py:17-58 | a calendar is produced exactly when the start text parses, its end can be computed, and the organizer has exactly one '<' |
| Ics.IcsFrom | shared_planner/ics.py:18-58 | from a parsed start, a calendar is produced exactly when the end can be computed and the organizer has one '<'; otherwise the end's `OverflowError` or the organizer's `ValueError` |
| Ics.CreateIcsOfStart | shared_planner/ics.py:17 | the calendar of a start text is that of the instant it parses to |
| Ics.IcsFromBadEnd | shared_planner/ics.py:18 | an end out of range gives an `OverflowError` |
| Ics.BareLineFeeds | shared_planner/ics.py:42-58 | the first line ends in a bare line feed, not CRLF |
| Ics.CrlfEndings | shared_planner/ics.py:42-58 | lines joined with CRLF have every line feed preceded by a carriage return, and the text ends with a line feed |
| Ics.EscapeText | shared_planner/ics.py:24 | the corrected escaping leaves no line feed |
| Ics.UnescapeEscapeText | shared_planner/ics.py:24 | every text comes back from its corrected escaping |
| Ics.EscapeTextSeparates | shared_planner/ics.py:24 | the corrected escaping sends a line feed and a backslash followed by `n` differently |
| Ics.ParseOrganizerFixed | shared_planner/ics.py:26-29 | the corrected parse accepts exactly an organizer with one '<' that ends with '>' |
| Ics.FixedOrganizerOfForm | shared_planner/ics.py:26-29 | "Name <email>" gives the stripped name and the stripped, lowered e-mail under the corrected parse |
| Serve.RemoveDots | shared_planner/api/__init__.py:37 | the result is no longer than the input |
| Serve.NoDotsLeft | shared_planner/api/__init__.py:37 | no ".." is left after `replace("..", "")` |
| Serve.RemoveDotsUnchanged | shared_planner/api/__init__.py:37 | a text without ".." is left as it is |
| Serve.RemoveDotsIdempotent | shared_planner/api/__init__.py:37 | removing twice is removing once |
| Serve.AbsoluteKept | shared_planner/api/__init__.py:37 | a leading '/' is never removed |
| Serve.SanitizePath | shared_planner/api/__init__.py:36-37 | the cleaned path holds no ".." and is no longer than the normalised one |
| Serve.Under | shared_planner/api/__init__.py:45-47 | `base / p` is `p` itself for an absolute `p`, and `base/p` otherwise |
| Serve.ServeApp | shared_planner/api/__init__.py:40-48 | the file served is the cleaned path under the build directory when it is not empty and exists there, and the index page otherwise |
| Serve.RelativeServedInside | shared_planner/api/__init__.py:40-48 | a relative cleaned path is served from inside the build directory, with no ".." after it |
| Serve.DotsMakeAbsolute | shared_planner/api/__init__.py:36-37 | "../etc/passwd" is cleaned to "/etc/passwd" |
| Serve.AbsoluteServedOutside | shared_planner/api/__init__.py:40-48 | an absolute normalised path whose file exists is served as it is, outside the build directory |
| Serve.DropLeadingSlashes | shared_planner/api/__init__.py:36-37 | drops the leading '/'s: the result does not start with '/' and is a suffix of the input |
| Serve.SanitizePathFixed | shared_planner/api/__init__.py:36-37 | the corrected cleaning leaves no ".." and a relative path |
| Serve.ServedInsideFixed | shared_planner/api/__init__.py:40-48 | with the corrected cleaning, every request is served from inside the build directory, by a path without ".." that is relative |
| Serve.DotsStayRelativeFixed | shared_planner/api/__init__.py:36-37 | "../etc/passwd" is cleaned to the relative "etc/passwd" |
| TimeCodec.JsRem | web/src/utils.ts:9 | `m % 60` lies strictly between -60 and 60, agrees with the mathematical remainder for m >= 0, and is not positive for m < 0 |
| TimeCodec.JsNumber | web/src/utils.ts:2 | no `ensures`; `Number` on one part of the split, trimmed of JavaScript white space, with the empty string read as 0. TimeCodec.JsNumberOfPadded states what it reads back |
| TimeCodec.JsNumberOfPadded | web/src/utils.ts:2 | `Number` reads back every integer as `toString` and `padStart(2, '0')` write it |
| TimeCodec.TimeToMinutes | web/src/utils.ts:1-4 | no `ensures`; `timeToMinutes`, whose meaning TimeCodec.TimeOfParts, TimeCodec.MissingMinuteIsNaN and TimeCodec.ExtraPartIgnored state |
| TimeCodec.TimeOfParts | web/src/utils.ts:1-4 | "H:M" with decimal parts reads as H * 60 + M |
| TimeCodec.MissingMinuteIsNaN | web/src/utils.ts:1-4 | a time without ':' reads as NaN |
| TimeCodec.ExtraPartIgnored | web/src/utils.ts:1-4 | anything after a second ':' is ignored |
| TimeCodec.MinutesToTime | web/src/utils.ts:5-11 | no `ensures`; `minutesToTime`, whose meaning TimeCodec.ReadBack and TimeCodec.ShortForm state |
| TimeCodec.ReadBack | web/src/utils.ts:1-11 | every integer's time string reads back as its floor quotient by 60, times 60, plus its JavaScript remainder by 60 |
| TimeCodec.RoundTrip | web/src/utils.ts:1-11 | every non-negative number of minutes comes back from its time string |
| TimeCodec.NegativeReadBack | web/src/utils.ts:5-11 | a negative number of minutes comes back when it is a whole number of hours, and one hour less otherwise |
| TimeCodec.RoundTripFixed | web/src/utils.ts:5-11 | with the remainder taken as the floor remainder, every number of minutes, negative ones included, comes back from its time string |
| TimeCodec.FixedAgreesOnNatural | web/src/utils.ts:5-11 | the corrected `minutesToTime` writes what the code writes for every non-negative number of minutes |
| TimeCodec.ShortForm | web/src/utils.ts:5-11 | below 100 hours the time string is "HH:MM": five characters with ':' in the middle |
| TimeCodec.CanonicalRoundTrip | web/src/utils.ts:1-11 | every "HH:MM" with MM below 60 reads as HH * 60 + MM and is written back unchanged |
| Text.PadStart | web/src/utils.ts:8 | the result is as wide as the requested width or the input, whichever is wider, ends with the input, and is filled with the pad character before it |
| Text.SplitJoin | shared_planner/ics.py:42-58 | text joined with a separator that no part holds splits back into the parts |
| Text.Split | shared_planner/ics.py:26 | `split` always yields at least one part |
| Text.Strip | shared_planner/ics.py:28-29 | the result has no white space at either end |
| Text.Lower | shared_planner/ics.py:29 | the result has the same length and no upper-case ASCII letter |
| Tables.NextId | shared_planner/db/models.py:96 | a fresh id is above every id of a table kept in increasing order |
| Tables.InsertNext | shared_planner/db/models.py:96 | a new row takes an id no row has, and the table stays in id order |
| Tables.InsertNextRows | shared_planner/db/models.py:77-79 | a row inserted under the next id comes last in a relationship list |

## Findings

| source | as written | input that shows it | evidently intended | confidence | as-written member | corrected member |
|---|---|---|---|---|---|---|
| shared_planner/api/reservations.py:63 | `from_reservation` calls `ShopWithoutTimeRanges.from_shop`, which `shared_planner/api/shops.py` does not define, so it raises `AttributeError` | any accepted booking or update (after the commit), any week with a listed reservation | the view of the reservation with its shop is returned | not executed | Store.BookCommitsThenFails, Store.UpdateCommitsThenFails, Planning.PlanAsWrittenFails | Store.BookAppends, Store.UpdateChanges, Planning.Plan |
| shared_planner/api/reservations.py:125-143 | the sweep counts only the existing reservations; the request adds no event | capacity 1, a request for exactly another user's reservation | the peak occupancy including the request stays within `volunteers` | not executed | Capacity.CandidateNotCountedOverbooks | Capacity.FixedAdmittedOccupancy |
| shared_planner/api/reservations.py:128-131 | a reservation is swept only when its start or its end lies inside the request | capacity 2, A = [09:00, 10:00), B = [09:30, 10:30), request [09:45, 10:15) | every reservation sharing an instant with the request is swept | not executed | Capacity.EnclosedRequestOverbooks, Capacity.SameUserInsideOwnReservation | Capacity.FixedRefusesEnclosedRequest, Capacity.FixedNoOwnOverlap |
| shared_planner/api/reservations.py:185-188 | the window test compares the end's time of day, which wraps at midnight | Monday window 09:00-23:59, booking from 23:30 for 60 minutes | the booking lies inside the window on the start's day | not executed | Admission.MidnightCrossingAdmitted | Admission.FixedWindowContains, Admission.MidnightCrossingRefusedFixed |
| shared_planner/api/reservations.py:295-313 | the booking rules run before the no-change test | an owner resubmitting the stored times of a reservation that has started | resubmitting the stored times succeeds and changes nothing | not executed | Store.NoOpUpdateCanFail | Store.NoOpUpdateSucceedsFixed |
| shared_planner/api/shops.py:147-153 | a new window is refused only when an old one holds its start or its end | existing [10, 20), new [5, 25) on the same day | windows of one day never share an instant | not executed | Shops.EnclosingRangeAccepted | Shops.FixedRangeDisjoint, Shops.EnclosingRangeRefusedFixed |
| shared_planner/api/shops.py:187-204 | `update_time_range` writes any day and times without the checks of `create_time_range` | a reversed window, or one overlapping another of the shop | an updated window is checked as a new one is, against the shop's other windows | not executed | Store.UpdateRangeEffect | Store.UpdateRangeFixedDisjoint |
| shared_planner/api/reservations.py:106 | `end_time >= day_end` drops a reservation ending exactly at midnight | [23:00, 24:00) on a Monday | the reservation is listed under the day it starts | not executed | Planning.EndAtMidnightUnlisted | Planning.MidnightEndListedFixed, Planning.ListedUnderStartDayFixed |
| shared_planner/ics.py:24 | only line feeds are escaped; section 3.3.11 of RFC 5545 also escapes backslash, `;` and `,` | a description holding a line feed, and one holding a backslash followed by `n` | different descriptions are sent differently | not executed | Ics.EscapeNotInjective | Ics.UnescapeEscapeText, Ics.EscapeTextSeparates |
| shared_planner/ics.py:26-27 | the last character is dropped without checking that it is '>' | "Name <a@b.c" | the organizer must have the form "Name <email>" | not executed | Ics.OrganizerOfForm | Ics.ParseOrganizerFixed, Ics.FixedOrganizerOfForm |
| shared_planner/ics.py:42-58 | lines are joined with a line feed; section 3.1 of RFC 5545 ends content lines in CRLF | any calendar | every line feed is preceded by a carriage return | not executed | Ics.BareLineFeeds | Ics.CrlfEndings |
| shared_planner/api/__init__.py:36-37 | removing ".." after `normpath` turns "../etc/passwd" into "/etc/passwd", which `pathlib` takes in place of the build directory | "../etc/passwd" | every file served lies inside the build directory | not executed | Serve.DotsMakeAbsolute, Serve.AbsoluteServedOutside | Serve.ServedInsideFixed, Serve.DotsStayRelativeFixed |
| web/src/utils.ts:9 | the minute is JavaScript's `%`, which keeps the sign, while the hour is rounded down | -30 is written "-1:-30" and read back as -90 | `timeToMinutes(minutesToTime(m)) == m` | not executed | TimeCodec.NegativeReadBack | TimeCodec.RoundTripFixed |

## Left out

- The ORM, the session lock and transactions. Each endpoint is one atomic
  step on the tables, so the concurrent-admission races are not modelled.
- Notifications and e-mails created as side effects of book, update,
  cancel and reassign; the mailer daemon; settings reads other than the
  value conversions. These depend on the settings table and the clock.
  Their settings reads and the reminder offset can abort a booking before
  the commit; the lines for Store.BookStep, Store.UpdateStep and
  Store.CancelStep below say what that leaves out.
- Password hashing (bcrypt, sha256, base64), `secrets.token_urlsafe` and
  `datetime.now()`. The hash check, the random token text and the clock
  reading are parameters.
- `get_all_data` (CSV export), `get_reservations`, `list_self`,
  `list_self_future`, `search`, `reassign_reservation`, `logout`, shop
  create, list, get and delete, and the users, notifications and settings
  routers. They are CRUD outside the booking core.
- The front end besides `web/src/utils.ts`, and `main.py`.
- Store.BookStep: returns the new reservation's view. As written, `from_reservation` raises `AttributeError` after the commit, so the client gets a 500 although the row is stored; Store.BookCommitsThenFails models that.
- Store.Database.Book: the same holds; its result is that of Store.BookStep.
- Store.BookAdmitted: the same holds; the view it describes is the intended one.
- Store.UpdateStep: returns the updated view. As written an accepted update is committed and then answered with the `AttributeError`, and so is the no-change path at `shared_planner/api/reservations.py:313`; Store.UpdateCommitsThenFails models both.
- Store.Database.Update: the same holds; its result is that of Store.UpdateStep.
- Store.Database.Reschedule: the same holds for its view.
- Store.RescheduleStep: the same holds; its `Ok` view is the one
  Store.UpdateStep answers with, where as written the `AttributeError`
  follows the commit.
- Store.BookStep: before the commit, `book_time_range` builds its
  notifications (`shared_planner/api/reservations.py:221-264`). Their
  `get(...)` settings reads, the `asBool`/`asInt` conversions and the
  reminder bound `start_time - timedelta(hours=...)`, for instance for an
  administrator's booking at 0001-01-01 00:00, can raise there. The request
  then fails with nothing stored; the model accepts it. Store.Database.Book
  and Store.BookAdmitted inherit this.
- Store.UpdateStep: the notifications are built after the commit
  (`shared_planner/api/reservations.py:321-366`), so the same errors leave
  the update stored and answer 500; the model answers with the view.
- Store.CancelStep: the notifications are built before the deletion
  (`shared_planner/api/reservations.py:389-432`), so the same errors leave
  the reservation in place; the model deletes it.
- Store.Database.Cancel: the same holds; its tables are those of
  Store.CancelStep.
- Planning.Plan: returns the seven day lists, or the `OverflowError` of a day end past year 9999. As written, the first day with a listed reservation fails with the `AttributeError` instead, unless an earlier day's end overflows; Planning.PlanAsWrittenFails models that.
- Store.Database.GetPlanning: the same holds; its lists are those of Planning.Plan.
- Store.ValidateStep: the response object is not modelled. The code builds
  `ReservedTimeRange` without `duration_minutes` after committing, so the
  client gets an error although the flag is set.
- Store.Database.Validate: the same holds; its result is that of
  Store.ValidateStep.
- Store.UpdateShopCheck: the write `session.add(shop_data)`
  (`shared_planner/api/shops.py:130`) is not modelled. It adds the request
  body, a `ShopWithoutTimeRanges` that is not a mapped table row, which
  SQLAlchemy refuses. So every request that passes the check is answered
  with a 500 and changes nothing; the model stops at the check.
- Store.CreateRangeStep: an id sent in the body is not modelled; the row
  takes the next id.
- Store.Database.CreateTimeRange: the same holds; its tables are those of
  Store.CreateRangeStep.
- Planning.FromReservation: the `shop` field is left out. It calls
  `ShopWithoutTimeRanges.from_shop`, which `shared_planner/api/shops.py`
  does not define.
- Auth.CurrentToken: the deletion of an expired token is not modelled. The
  request fails right after it and the session is never committed.
- Calendar.ParseDate: reads only the zero-padded form; `strptime` also
  accepts one-digit months, days, hours and minutes. The same holds for
  Calendar.ParseDateMinute, which also reads the format's space as exactly
  one space, where `strptime` accepts any run of white space there.
  Both read ASCII digits only, where `strptime`'s `\d` also matches other
  Unicode decimal digits: in all four digits of `%Y` and in the second
  digit of `%d`, `%H` and `%M`.
- Calendar.FormatDate: also formats instants past year 9999, which Python's
  `datetime` cannot hold. An instant the code computes by adding to
  another (`AddMinutes`, `AddHours`, the planning's day ends) is an
  `OverflowError` in the model whenever it would leave year 9999, so such
  instants reach the formatters only as inputs no `datetime` could carry.
  The same holds for Calendar.FormatDateMinute and Calendar.FormatCompact.
- Text.Strip: strips ASCII white space only, not Unicode white space.
- Text.Lower: lowers ASCII letters only, not Unicode.
- Models.AsInt: reads ASCII digits only. Python's `int` also accepts other
  Unicode decimal digits.
- TimeCodec.JsNumber: integers only. Fractions, exponents, hexadecimal and
  `Infinity` read as NaN, and the Unicode space separators other than
  U+0020 and U+00A0 are not trimmed.
  JavaScript numbers are doubles; here they are unbounded integers.
- Serve.SanitizePath: `os.path.normpath` is a parameter, not modelled
  (Python's `normpath("")` is "."), and the existence test is a parameter.
- Instants are in microseconds rather than minutes, so the update's
  truncation to the minute is exact.
- Clock.WholeMinutes: the integer floor. Python computes `total_seconds()`
  as a float, which gives the same floor for every length without a
  microsecond part and for every length below about 9 * 10^9 seconds. That
  covers every whole-minute length the endpoints store.
