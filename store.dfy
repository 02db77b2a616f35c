/** The database the endpoints of `shared_planner/api/reservations.py`,
    `shared_planner/api/shops.py` and `shared_planner/api/auth.py` work on,
    and what each endpoint does to it. Every endpoint is a pure step from one
    state of the tables to the next (`BookStep`, `UpdateStep`, ...), about
    which the invariants are proved, and a method of class `Database` that
    performs it on the tables in place. */
module Store {

  import opened Outcome
  import opened Entities
  import opened Clock
  import opened Calendar
  import opened Tables
  import opened Capacity
  import opened Admission
  import opened Planning
  import opened Shops
  import opened Auth
  import opened Models

  /** The tables, as values. */
  datatype State = State(
    users: map<int, User>,
    userOrder: seq<int>,
    shops: map<int, Shop>,
    openTimes: map<int, OpeningTime>,
    openOrder: seq<int>,
    reservations: map<int, Reservation>,
    resOrder: seq<int>)

  /** What the endpoint returned, and the tables after it. */
  datatype Step<T> = Step(result: Result<T>, after: State)

  /** Primary keys match the rows, and every foreign key names a row. */
  predicate StateValid(st: State) {
    && Keys(st.userOrder, st.users) && Keys(st.openOrder, st.openTimes) && Keys(st.resOrder, st.reservations)
    && (forall k :: k in st.users ==> st.users[k].id == k)
    && (forall k :: k in st.shops ==> st.shops[k].id == k)
    && (forall k :: k in st.openTimes ==> st.openTimes[k].id == k && st.openTimes[k].shopId in st.shops)
    && (forall k :: k in st.reservations ==>
          st.reservations[k].id == k && st.reservations[k].shopId in st.shops
          && st.reservations[k].userId in st.users)
  }

  // ---- the writes keep the keys ------------------------------------------

  lemma AddReservationValid(st: State, nr: Reservation)
    requires StateValid(st) && nr.id == NextId(st.resOrder) && nr.shopId in st.shops && nr.userId in st.users
    ensures StateValid(st.(reservations := st.reservations[nr.id := nr], resOrder := st.resOrder + [nr.id]))
  {
    InsertNext(st.resOrder, st.reservations, nr);
    var m := st.reservations[nr.id := nr];
    assert forall k :: k in m ==> m[k].id == k && m[k].shopId in st.shops && m[k].userId in st.users;
  }

  lemma SetReservationValid(st: State, nr: Reservation)
    requires StateValid(st) && nr.id in st.reservations
    requires nr.shopId == st.reservations[nr.id].shopId && nr.userId == st.reservations[nr.id].userId
    ensures StateValid(st.(reservations := st.reservations[nr.id := nr]))
  {
    UpdateKeeps(st.resOrder, st.reservations, nr.id, nr);
  }

  lemma RemoveReservationValid(st: State, id: int)
    requires StateValid(st)
    ensures StateValid(st.(reservations := st.reservations - {id}, resOrder := Without(st.resOrder, id)))
  {
    RemoveKeeps(st.resOrder, st.reservations, id);
  }

  lemma AddRangeValid(st: State, w: OpeningTime)
    requires StateValid(st) && w.id == NextId(st.openOrder) && w.shopId in st.shops
    ensures StateValid(st.(openTimes := st.openTimes[w.id := w], openOrder := st.openOrder + [w.id]))
  {
    InsertNext(st.openOrder, st.openTimes, w);
    var m := st.openTimes[w.id := w];
    assert forall k :: k in m ==> m[k].id == k && m[k].shopId in st.shops;
  }

  lemma SetRangeValid(st: State, w: OpeningTime)
    requires StateValid(st) && w.id in st.openTimes && w.shopId == st.openTimes[w.id].shopId
    ensures StateValid(st.(openTimes := st.openTimes[w.id := w]))
  {
    UpdateKeeps(st.openOrder, st.openTimes, w.id, w);
  }

  lemma RemoveRangeValid(st: State, id: int)
    requires StateValid(st)
    ensures StateValid(st.(openTimes := st.openTimes - {id}, openOrder := Without(st.openOrder, id)))
  {
    RemoveKeeps(st.openOrder, st.openTimes, id);
  }

  lemma AddUserValid(st: State, u: User)
    requires StateValid(st) && u.id == NextId(st.userOrder)
    ensures StateValid(st.(users := st.users[u.id := u], userOrder := st.userOrder + [u.id]))
  {
    InsertNext(st.userOrder, st.users, u);
    var m := st.users[u.id := u];
    assert forall k :: k in m ==> m[k].id == k;
    assert forall k :: k in st.reservations ==> st.reservations[k].userId in m;
  }

  // ---- relationship lists ----------------------------------------------

  function OfShop(rs: seq<Reservation>, shopId: int): (r: seq<Reservation>)
    ensures forall x :: x in r <==> x in rs && x.shopId == shopId
  {
    if rs == [] then []
    else
      var init, last := rs[..|rs| - 1], rs[|rs| - 1];
      assert forall x :: x in rs <==> x in init || x == last;
      if last.shopId == shopId then OfShop(init, shopId) + [last] else OfShop(init, shopId)
  }

  function RangesOfShop(ts: seq<OpeningTime>, shopId: int): (r: seq<OpeningTime>)
    ensures forall x :: x in r <==> x in ts && x.shopId == shopId
  {
    if ts == [] then []
    else
      var init, last := ts[..|ts| - 1], ts[|ts| - 1];
      assert forall x :: x in ts <==> x in init || x == last;
      if last.shopId == shopId then RangesOfShop(init, shopId) + [last] else RangesOfShop(init, shopId)
  }

  /** `shop.reservations`, in id order. */
  function ReservationsOf(st: State, shopId: int): seq<Reservation> {
    OfShop(Rows(st.resOrder, st.reservations), shopId)
  }

  /** `shop.open_ranges`, in id order. */
  function RangesOf(st: State, shopId: int): seq<OpeningTime> {
    RangesOfShop(Rows(st.openOrder, st.openTimes), shopId)
  }

  /** Every reservation listed for a shop has a known owner. */
  lemma ReservationsOwned(st: State, shopId: int)
    requires StateValid(st)
    ensures Owned(ReservationsOf(st, shopId), st.users)
  {
    var rs := ReservationsOf(st, shopId);
    forall i | 0 <= i < |rs| ensures rs[i].userId in st.users {
      assert rs[i] in rs;
      var k := RowKey(st.resOrder, st.reservations, rs[i]);
    }
  }

  // ---- book_time_range ----------------------------------------------------

  /** `book_time_range(shop_id, start_time, duration_minutes)` by `user` at
      instant `now`: an unknown shop, then `check_reservation`, then a new
      reservation from `start` for `duration` minutes. */
  function BookStep(st: State, shopId: int, start: int, duration: int, user: User, now: int)
    : (s: Step<ReservedTimeRange>)
    ensures s.result.Err? ==> s.after == st
    ensures shopId !in st.shops ==> s.result == Err(Http(404, "error.shop.not_found"))
    ensures s.result.Ok? ==> shopId in st.shops && s.after.resOrder == st.resOrder + [NextId(st.resOrder)]
    ensures s.after.users == st.users && s.after.shops == st.shops && s.after.openTimes == st.openTimes
  {
    if shopId !in st.shops then Step(Err(Http(404, "error.shop.not_found")), st)
    else
      match Decide(st.shops[shopId], RangesOf(st, shopId), ReservationsOf(st, shopId), start, duration, user, now, None)
      case Err(e) => Step(Err(e), st)
      case Ok(_) =>
        var id := NextId(st.resOrder);
        var nr := Reservation(id, user.id, shopId, start, start + Minutes(duration), false, false);
        Step(Ok(FromReservation(nr, user, Some(user))),
             st.(reservations := st.reservations[id := nr], resOrder := st.resOrder + [id]))
  }

  /** A refused booking changes nothing, and the tables stay well formed. */
  lemma BookKeepsValid(st: State, shopId: int, start: int, duration: int, user: User, now: int)
    requires StateValid(st) && user.id in st.users
    ensures var s := BookStep(st, shopId, start, duration, user, now);
      StateValid(s.after) && (s.result.Err? ==> s.after == st)
  {
    var s := BookStep(st, shopId, start, duration, user, now);
    if s.result.Ok? {
      AddReservationValid(st, Reservation(NextId(st.resOrder), user.id, shopId, start, start + Minutes(duration), false, false));
    }
  }

  /** An accepted booking passed every rule of `check_reservation`, unless
      it comes from an administrator, and shows the new reservation to its
      owner as their own with the requested length. */
  lemma BookAdmitted(st: State, shopId: int, start: int, duration: int, user: User, now: int)
    requires BookStep(st, shopId, start, duration, user, now).result.Ok?
    ensures shopId in st.shops
    ensures user.admin || Admissible(st.shops[shopId], RangesOf(st, shopId), ReservationsOf(st, shopId),
                                     start, duration, user.id, now, None)
    ensures DeltaMinutesOk(duration) && InRange(start + Minutes(duration))
    ensures var v := BookStep(st, shopId, start, duration, user, now).result.value;
      v.status == -2 && v.durationMinutes == duration && v.start == start
  {
    if !user.admin {
      NonAdminAdmittedIff(st.shops[shopId], RangesOf(st, shopId), ReservationsOf(st, shopId), start, duration, user, now, None);
    }
    WholeMinutesOfMinutes(duration);
  }

  /** An accepted booking adds exactly one reservation, under a fresh id, at
      the end of the shop's list; the lists of other shops do not change. */
  lemma BookAppends(st: State, shopId: int, start: int, duration: int, user: User, now: int)
    requires StateValid(st)
    requires BookStep(st, shopId, start, duration, user, now).result.Ok?
    ensures var after := BookStep(st, shopId, start, duration, user, now).after;
      var nr := Reservation(NextId(st.resOrder), user.id, shopId, start, start + Minutes(duration), false, false);
      && NextId(st.resOrder) !in st.reservations
      && after.reservations == st.reservations[nr.id := nr]
      && after.users == st.users && after.shops == st.shops && after.openTimes == st.openTimes
      && ReservationsOf(after, shopId) == ReservationsOf(st, shopId) + [nr]
      && (forall other :: other != shopId ==> ReservationsOf(after, other) == ReservationsOf(st, other))
  {
    var after := BookStep(st, shopId, start, duration, user, now).after;
    var nr := Reservation(NextId(st.resOrder), user.id, shopId, start, start + Minutes(duration), false, false);
    InsertNextRows(st.resOrder, st.reservations, nr);
    var before := Rows(st.resOrder, st.reservations);
    assert Rows(after.resOrder, after.reservations) == before + [nr];
    forall other
      ensures ReservationsOf(after, other)
        == if other == shopId then ReservationsOf(st, other) + [nr] else ReservationsOf(st, other)
    {
      OfShopAppend(before, nr, other);
    }
  }

  /** A row added at the end is listed last for its own shop, and for no
      other. */
  lemma OfShopAppend(rs: seq<Reservation>, x: Reservation, shopId: int)
    ensures OfShop(rs + [x], shopId) == if x.shopId == shopId then OfShop(rs, shopId) + [x] else OfShop(rs, shopId)
  {
    assert (rs + [x])[..|rs|] == rs;
  }

  // ---- shared guards of update and cancel -------------------------------

  /** The ownership and validation guards of `update_reservation` and
      `cancel_reservation`, with the error each of them raises. */
  function Guard(res: Reservation, user: User, notOwner: Error, validated: Error): Option<Error> {
    if res.userId != user.id && !user.admin then Some(notOwner)
    else if res.validated && !user.admin then Some(validated)
    else None
  }

  const UpdateNotOwner := Http(403, "error.reservation.cant_update")
  const UpdateValidated := Http(400, "error.reservation.cant_update_validated")
  const CancelNotOwner := Http(403, "error.reservation.cant_cancel")
  const CancelValidated := Http(400, "error.reservation.cant_cancel_validated")

  /** The guards let through an administrator, and otherwise only the owner
      of a reservation that is not validated yet. */
  lemma GuardPassesIff(res: Reservation, user: User, notOwner: Error, validated: Error)
    ensures Guard(res, user, notOwner, validated).None? <==> user.admin || (res.userId == user.id && !res.validated)
  {
  }

  // ---- update_reservation -------------------------------------------------

  /** Whether an update repeats the stored start and length. */
  predicate SameBooking(res: Reservation, start: int, duration: int) {
    start == res.start && duration == WholeMinutes(res.end - res.start)
  }

  /** `update_reservation(reservation_id, start_time, duration_minutes)` by
      `user` at `now`: the start loses its seconds, the booking is checked
      again without itself, and the times are rewritten unless they are the
      stored ones. */
  function UpdateStep(st: State, id: int, start: int, duration: int, user: User, now: int)
    : (s: Step<ReservedTimeRange>)
    requires StateValid(st)
    ensures s.result.Err? ==> s.after == st
    ensures id !in st.reservations ==> s.result == Err(Http(404, "error.reservation.not_found"))
    ensures s.after != st ==> && id in st.reservations && id in s.after.reservations
                              && s.after == st.(reservations := st.reservations[id := s.after.reservations[id]])
  {
    if id !in st.reservations then Step(Err(Http(404, "error.reservation.not_found")), st)
    else
      match Guard(st.reservations[id], user, UpdateNotOwner, UpdateValidated)
      case Some(e) => Step(Err(e), st)
      case None => RescheduleStep(st, id, TruncateToMinute(start), duration, user, now)
  }

  /** The part of `update_reservation` after its guards, with the start
      already cut to the minute. */
  function RescheduleStep(st: State, id: int, s: int, duration: int, user: User, now: int)
    : (r: Step<ReservedTimeRange>)
    requires StateValid(st) && id in st.reservations
    ensures r.result.Err? ==> r.after == st
    ensures id in r.after.reservations && r.after == st.(reservations := st.reservations[id := r.after.reservations[id]])
    ensures r.after != st ==> r.after.reservations[id].start == s && r.after.reservations[id].end == s + Minutes(duration)
    ensures r.after != st ==> InRange(s + Minutes(duration))
  {
    var res := st.reservations[id];
    match Decide(st.shops[res.shopId], RangesOf(st, res.shopId), ReservationsOf(st, res.shopId),
                 s, duration, user, now, Some(id))
    case Err(e) => Step(Err(e), st)
    case Ok(_) =>
      if SameBooking(res, s, duration) then
        Step(Ok(FromReservation(res, st.users[res.userId], Some(user))), st)
      else
        var nr := res.(start := s, end := s + Minutes(duration));
        Step(Ok(FromReservation(nr, st.users[res.userId], Some(user))),
             st.(reservations := st.reservations[id := nr]))
  }

  /** The three outcomes of `RescheduleStep`. */
  lemma RescheduleCases(st: State, id: int, s: int, duration: int, user: User, now: int)
    requires StateValid(st) && id in st.reservations
    ensures var res := st.reservations[id];
      var d := Decide(st.shops[res.shopId], RangesOf(st, res.shopId), ReservationsOf(st, res.shopId),
                      s, duration, user, now, Some(id));
      && (d.Err? ==> RescheduleStep(st, id, s, duration, user, now) == Step(Err(d.error), st))
      && (d.Ok? && SameBooking(res, s, duration) ==>
            RescheduleStep(st, id, s, duration, user, now)
            == Step(Ok(FromReservation(res, st.users[res.userId], Some(user))), st))
      && (d.Ok? && !SameBooking(res, s, duration) ==>
            var nr := res.(start := s, end := s + Minutes(duration));
            RescheduleStep(st, id, s, duration, user, now)
            == Step(Ok(FromReservation(nr, st.users[res.userId], Some(user))),
                    st.(reservations := st.reservations[id := nr])))
  {
  }

  /** A refused update changes nothing, and the tables stay well formed. */
  lemma UpdateKeepsValid(st: State, id: int, start: int, duration: int, user: User, now: int)
    requires StateValid(st)
    ensures var s := UpdateStep(st, id, start, duration, user, now);
      StateValid(s.after) && (s.result.Err? ==> s.after == st)
  {
    var s := UpdateStep(st, id, start, duration, user, now);
    if s.result.Ok? && s.after != st {
      SetReservationValid(st, s.after.reservations[id]);
    }
  }

  /** An update changes at most the start and end of the one reservation,
      to a start on the requested minute and an end `duration` minutes
      later, and only when the guards let the user through. */
  lemma UpdateChanges(st: State, id: int, start: int, duration: int, user: User, now: int)
    requires StateValid(st)
    requires UpdateStep(st, id, start, duration, user, now).result.Ok?
    ensures id in st.reservations && Guard(st.reservations[id], user, UpdateNotOwner, UpdateValidated).None?
    ensures var after := UpdateStep(st, id, start, duration, user, now).after;
      var res := st.reservations[id];
      && after == st.(reservations := st.reservations[id := after.reservations[id]])
      && after.reservations[id] == res.(start := after.reservations[id].start, end := after.reservations[id].end)
      && after.reservations[id].start == TruncateToMinute(start)
      && (after.reservations[id] == res
          || after.reservations[id].end == TruncateToMinute(start) + Minutes(duration))
  {
    var s := TruncateToMinute(start);
    assert UpdateStep(st, id, start, duration, user, now) == RescheduleStep(st, id, s, duration, user, now);
    RescheduleCases(st, id, s, duration, user, now);
  }

  /** A user who is neither the owner nor an administrator gets 403 and
      nothing changes; the owner of a validated reservation gets 400. */
  lemma UpdateGuardOrder(st: State, id: int, start: int, duration: int, user: User, now: int)
    requires StateValid(st) && id in st.reservations && !user.admin
    ensures var res := st.reservations[id]; var s := UpdateStep(st, id, start, duration, user, now);
      && (res.userId != user.id ==> s == Step(Err(UpdateNotOwner), st))
      && (res.userId == user.id && res.validated ==>
            s == Step(Err(UpdateValidated), st))
  {
  }

  /** Resubmitting the stored times of a reservation that has started is
      refused for its owner, although it would change nothing: the booking
      rules run before the comparison with the stored times, and a start in
      the past breaks one of them. */
  lemma NoOpUpdateCanFail(st: State, id: int, user: User, now: int)
    requires StateValid(st) && id in st.reservations
    requires var res := st.reservations[id];
      && res.userId == user.id && !user.admin && !res.validated
      && TruncateToMinute(res.start) == res.start && res.start < now
    ensures var res := st.reservations[id];
      var d := WholeMinutes(res.end - res.start);
      && SameBooking(res, res.start, d)
      && UpdateStep(st, id, res.start, d, user, now).result.Err?
  {
    var res := st.reservations[id];
    var d := WholeMinutes(res.end - res.start);
    assert UpdateStep(st, id, res.start, d, user, now) == RescheduleStep(st, id, res.start, d, user, now);
    RescheduleCases(st, id, res.start, d, user, now);
  }

  // ---- cancel_reservation -------------------------------------------------

  /** `cancel_reservation(reservation_id)` by `user`. */
  function CancelStep(st: State, id: int, user: User): (s: Step<()>)
    ensures s.result.Err? ==> s.after == st
    ensures s.result.Ok? ==> id in st.reservations && id !in s.after.reservations
    ensures s.after.users == st.users && s.after.shops == st.shops && s.after.openTimes == st.openTimes
  {
    if id !in st.reservations then Step(Err(Http(404, "error.reservation.not_found")), st)
    else
      match Guard(st.reservations[id], user, CancelNotOwner, CancelValidated)
      case Some(e) => Step(Err(e), st)
      case None =>
        Step(Ok(()), st.(reservations := st.reservations - {id}, resOrder := Without(st.resOrder, id)))
  }

  /** A cancellation deletes exactly that reservation, and only when the
      guards let the user through. */
  lemma CancelEffect(st: State, id: int, user: User)
    requires StateValid(st)
    ensures var s := CancelStep(st, id, user);
      && StateValid(s.after)
      && (s.result.Err? ==> s.after == st)
      && (s.result.Ok? <==> id in st.reservations && Guard(st.reservations[id], user, CancelNotOwner, CancelValidated).None?)
      && (s.result.Ok? ==> s.after == st.(reservations := st.reservations - {id}, resOrder := Without(st.resOrder, id)))
  {
    RemoveReservationValid(st, id);
  }

  // ---- validate_reservation -----------------------------------------------

  /** `validate_reservation(reservation_id)` by `caller`, behind `CurrentAdmin`. */
  function ValidateStep(st: State, caller: User, id: int): (s: Step<()>)
    ensures s.result.Err? ==> s.after == st
    ensures s.result.Ok? ==> caller.admin && id in st.reservations && s.after.resOrder == st.resOrder
  {
    match CurrentAdmin(caller)
    case Err(e) => Step(Err(e), st)
    case Ok(_) =>
      if id !in st.reservations then Step(Err(Http(404, "error.reservation.not_found")), st)
      else Step(Ok(()), st.(reservations := st.reservations[id := st.reservations[id].(validated := true)]))
  }

  /** Only an administrator validates, and validating sets the flag of that
      one reservation. */
  lemma ValidateEffect(st: State, caller: User, id: int)
    requires StateValid(st)
    ensures var s := ValidateStep(st, caller, id);
      && StateValid(s.after)
      && (s.result.Err? ==> s.after == st)
      && (s.result.Ok? <==> caller.admin && id in st.reservations)
      && (s.result.Ok? ==> (s.after.reservations[id].validated
            && s.after.reservations == st.reservations[id := st.reservations[id].(validated := true)]))
  {
    if caller.admin && id in st.reservations {
      SetReservationValid(st, st.reservations[id].(validated := true));
    }
  }

  /** Once validated, a reservation is out of its owner's reach: neither
      update nor cancel lets a non-administrator through. */
  lemma ValidatedLocked(st: State, caller: User, id: int, user: User)
    requires StateValid(st) && caller.admin && id in st.reservations && !user.admin
    ensures var after := ValidateStep(st, caller, id).after;
      Guard(after.reservations[id], user, UpdateNotOwner, UpdateValidated).Some? && Guard(after.reservations[id], user, CancelNotOwner, CancelValidated).Some?
  {
  }

  // ---- opening windows ----------------------------------------------------

  /** `create_time_range(shop_id, time_range)` by `caller`. */
  function CreateRangeStep(st: State, caller: User, shopId: int, day: int, start: int, end: int)
    : (s: Step<OpeningTime>)
    ensures s.result.Err? ==> s.after == st
    ensures s.result.Ok? ==> caller.admin && shopId in st.shops && start < end
    ensures s.after.reservations == st.reservations && s.after.shops == st.shops
  {
    match CurrentAdmin(caller)
    case Err(e) => Step(Err(e), st)
    case Ok(_) =>
      if shopId !in st.shops then Step(Err(Http(404, "error.shop.not_found")), st)
      else
        match CheckNewRange(RangesOf(st, shopId), day, start, end)
        case Err(e) => Step(Err(e), st)
        case Ok(_) =>
          var id := NextId(st.openOrder);
          var w := OpeningTime(id, shopId, day, start, end);
          Step(Ok(w), st.(openTimes := st.openTimes[id := w], openOrder := st.openOrder + [id]))
  }

  /** A refused window changes nothing, and the tables stay well formed. */
  lemma CreateRangeKeepsValid(st: State, caller: User, shopId: int, day: int, start: int, end: int)
    requires StateValid(st)
    ensures var s := CreateRangeStep(st, caller, shopId, day, start, end);
      StateValid(s.after) && (s.result.Err? ==> s.after == st)
  {
    var s := CreateRangeStep(st, caller, shopId, day, start, end);
    if s.result.Ok? {
      AddRangeValid(st, s.result.value);
    }
  }

  /** An accepted window passed both checks and is appended to the shop's
      windows, which stay as they were; reservations are untouched. */
  lemma CreateRangeAppends(st: State, caller: User, shopId: int, day: int, start: int, end: int)
    requires StateValid(st)
    requires CreateRangeStep(st, caller, shopId, day, start, end).result.Ok?
    ensures var s := CreateRangeStep(st, caller, shopId, day, start, end);
      && caller.admin && shopId in st.shops && start < end
      && !AnyConflict(RangesOf(st, shopId), day, start, end)
      && s.result.value == OpeningTime(NextId(st.openOrder), shopId, day, start, end)
      && RangesOf(s.after, shopId) == RangesOf(st, shopId) + [s.result.value]
      && s.after.reservations == st.reservations && s.after.resOrder == st.resOrder
  {
    var s := CreateRangeStep(st, caller, shopId, day, start, end);
    var w := s.result.value;
    InsertNextRows(st.openOrder, st.openTimes, w);
    var before := Rows(st.openOrder, st.openTimes);
    assert Rows(s.after.openOrder, s.after.openTimes) == before + [w];
    assert (before + [w])[..|before|] == before;
  }

  /** `update_time_range(time_range_id, new_tr)` by `caller`: day and times
      are overwritten with no check at all. */
  function UpdateRangeStep(st: State, caller: User, id: int, day: int, start: int, end: int)
    : (s: Step<OpeningTime>)
    ensures s.result.Err? ==> s.after == st
    ensures s.result.Ok? <==> caller.admin && id in st.openTimes
    ensures s.after.reservations == st.reservations && s.after.openOrder == st.openOrder
  {
    match CurrentAdmin(caller)
    case Err(e) => Step(Err(e), st)
    case Ok(_) =>
      if id !in st.openTimes then Step(Err(Http(404, "error.shop.time_range_not_found")), st)
      else
        var w := st.openTimes[id].(day := day, start := start, end := end);
        Step(Ok(w), st.(openTimes := st.openTimes[id := w]))
  }

  /** Any day and times are taken, even a reversed or overlapping window:
      only the id must exist. */
  lemma UpdateRangeEffect(st: State, caller: User, id: int, day: int, start: int, end: int)
    requires StateValid(st)
    ensures var s := UpdateRangeStep(st, caller, id, day, start, end);
      && StateValid(s.after)
      && (s.result.Err? ==> s.after == st)
      && (s.result.Ok? <==> caller.admin && id in st.openTimes)
      && (s.result.Ok? ==>
            && s.after.openTimes[id] == OpeningTime(id, st.openTimes[id].shopId, day, start, end)
            && s.after.openTimes == st.openTimes[id := s.after.openTimes[id]]
            && s.after.openOrder == st.openOrder)
  {
    if caller.admin && id in st.openTimes {
      SetRangeValid(st, st.openTimes[id].(day := day, start := start, end := end));
    }
  }

  /** `delete_time_range(time_range_id)` by `caller`. */
  function DeleteRangeStep(st: State, caller: User, id: int): (s: Step<()>)
    ensures s.result.Err? ==> s.after == st
    ensures s.result.Ok? <==> caller.admin && id in st.openTimes
    ensures s.result.Ok? ==> id !in s.after.openTimes
    ensures s.after.reservations == st.reservations
  {
    match CurrentAdmin(caller)
    case Err(e) => Step(Err(e), st)
    case Ok(_) =>
      if id !in st.openTimes then Step(Err(Http(404, "error.shop.time_range_not_found")), st)
      else Step(Ok(()), st.(openTimes := st.openTimes - {id}, openOrder := Without(st.openOrder, id)))
  }

  lemma DeleteRangeEffect(st: State, caller: User, id: int)
    requires StateValid(st)
    ensures var s := DeleteRangeStep(st, caller, id);
      && StateValid(s.after)
      && (s.result.Err? ==> s.after == st)
      && (s.result.Ok? <==> caller.admin && id in st.openTimes)
      && (s.result.Ok? ==> id !in s.after.openTimes && s.after.openTimes == st.openTimes - {id})
  {
    RemoveRangeValid(st, id);
  }

  /** `update_shop(shop_id, shop_data)` by `caller`, up to its id check. */
  function UpdateShopCheck(st: State, caller: User, shopId: int, bodyId: Option<int>): (r: Result<int>)
    ensures r.Ok? <==> caller.admin && shopId in st.shops && (bodyId.None? || bodyId.value == shopId)
    ensures r.Ok? ==> r.value == shopId
  {
    match CurrentAdmin(caller)
    case Err(e) => Err(e)
    case Ok(_) =>
      if shopId !in st.shops then Err(Http(404, "error.shop.not_found"))
      else ShopIdCheck(shopId, bodyId)
  }

  // ---- login and register -------------------------------------------------

  /** The first user with this e-mail, in id order. */
  function FindByEmail(us: seq<User>, email: string): (r: Option<User>)
    ensures r.Some? ==> r.value in us && r.value.email == email
    ensures r.None? <==> forall u :: u in us ==> u.email != email
  {
    if us == [] then None
    else if us[0].email == email then Some(us[0])
    else
      assert forall u :: u in us <==> u == us[0] || u in us[1..];
      FindByEmail(us[1..], email)
  }

  /** The checks of `login`: the user by e-mail, then the password, which
      `checkPassword` judges. */
  function LoginCheck(st: State, email: string, checkPassword: User -> bool): (r: Result<User>)
    ensures r.Ok? ==> r.value in st.users.Values && r.value.email == email && checkPassword(r.value)
  {
    match FindByEmail(Rows(st.userOrder, st.users), email)
    case None => Err(Http(404, "User not found"))
    case Some(u) => if !checkPassword(u) then Err(Http(401, "Invalid password")) else Ok(u)
  }

  /** An unknown e-mail gives 404 whatever the password. */
  lemma UnknownEmailNotFound(st: State, email: string, checkPassword: User -> bool)
    requires StateValid(st) && forall k :: k in st.users ==> st.users[k].email != email
    ensures LoginCheck(st, email, checkPassword) == Err(Http(404, "User not found"))
  {
    var us := Rows(st.userOrder, st.users);
    forall u | u in us ensures u.email != email {
      var k := RowKey(st.userOrder, st.users, u);
    }
  }

  /** The commit of a user row whose `group` column is NULL. */
  const GroupMissing: Error := IntegrityError("NOT NULL constraint failed: user.group")

  /** `register(email, full_name, password, group)`: the checks, then a new
      user who is never an administrator. The form field `group` may be left
      out, but the column is not nullable, so the commit then fails and
      nothing is stored. */
  function RegisterStep(st: State, email: string, fullName: string, password: string, group: Option<string>)
    : (s: Step<User>)
    ensures s.result.Err? ==> s.after == st
    ensures s.result.Ok? ==> group.Some? && s.result.value.group == group.value && !s.result.value.admin
    ensures s.after.reservations == st.reservations && s.after.shops == st.shops
  {
    var taken := FindByEmail(Rows(st.userOrder, st.users), email).Some?;
    match RegisterCheck(taken, email, fullName, password)
    case Err(e) => Step(Err(e), st)
    case Ok(_) =>
      if group.None? then Step(Err(GroupMissing), st)
      else
        var id := NextId(st.userOrder);
        var u := User(id, fullName, email, false, group.value);
        Step(Ok(u), st.(users := st.users[id := u], userOrder := st.userOrder + [id]))
  }

  /** Registering without a group passes the checks and still fails, at the
      commit. */
  lemma MissingGroupRefused(st: State, email: string, fullName: string, password: string)
    requires StateValid(st)
    requires RegisterCheck(FindByEmail(Rows(st.userOrder, st.users), email).Some?, email, fullName, password).Ok?
    ensures RegisterStep(st, email, fullName, password, None) == Step(Err(GroupMissing), st)
  {
  }

  /** A refused registration changes nothing, and the tables stay well
      formed. */
  lemma RegisterKeepsValid(st: State, email: string, fullName: string, password: string, group: Option<string>)
    requires StateValid(st)
    ensures var s := RegisterStep(st, email, fullName, password, group);
      StateValid(s.after) && (s.result.Err? ==> s.after == st)
  {
    var s := RegisterStep(st, email, fullName, password, group);
    if s.result.Ok? {
      AddUserValid(st, s.result.value);
    }
  }

  /** A registered user passed every check, has an e-mail no other user has,
      is not an administrator, and is the one row added. */
  lemma RegisterAccepted(st: State, email: string, fullName: string, password: string, group: Option<string>)
    requires StateValid(st)
    requires RegisterStep(st, email, fullName, password, group).result.Ok?
    ensures var s := RegisterStep(st, email, fullName, password, group);
      && !s.result.value.admin && s.result.value.email == email && s.result.value.fullName == fullName
      && EmailPattern(email) && |password| >= 6 && |fullName| >= 3
      && (forall k :: k in st.users ==> st.users[k].email != email)
      && s.result.value.id !in st.users
      && s.after.users == st.users[s.result.value.id := s.result.value]
  {
    var s := RegisterStep(st, email, fullName, password, group);
    var us := Rows(st.userOrder, st.users);
    RegisterAcceptedIff(FindByEmail(us, email).Some?, email, fullName, password);
    InsertNext(st.userOrder, st.users, s.result.value);
    forall k | k in st.users ensures st.users[k].email != email {
      RowsHas(st.userOrder, st.users, k);
    }
  }

  /** Every row of the table is among its rows in order. */
  lemma {:induction false} RowsHas<T>(order: seq<int>, m: map<int, T>, k: int)
    requires k in order && k in m
    ensures m[k] in Rows(order, m)
  {
    var init, last := order[..|order| - 1], order[|order| - 1];
    if last != k {
      assert k in init;
      RowsHas(init, m, k);
    }
  }

  // ---- the endpoints as written: `from_reservation` raises -----------------

  /** `book_time_range` as written: the accepted booking is added and
      committed, then `from_reservation` raises `NoFromShop` and the client
      gets a 500. A refusal is answered as in `BookStep`. */
  function BookAsWritten(st: State, shopId: int, start: int, duration: int, user: User, now: int)
    : Step<ReservedTimeRange>
  {
    var s := BookStep(st, shopId, start, duration, user, now);
    if s.result.Ok? then Step(Err(NoFromShop), s.after) else s
  }

  /** As written, no booking is ever answered with its view, yet every
      booking `BookStep` accepts is stored: the client is told of a failure
      while the new reservation holds its place. */
  lemma BookCommitsThenFails(st: State, shopId: int, start: int, duration: int, user: User, now: int)
    requires StateValid(st)
    ensures var w := BookAsWritten(st, shopId, start, duration, user, now);
      var s := BookStep(st, shopId, start, duration, user, now);
      && w.result.Err? && w.after == s.after
      && (s.result.Err? ==> w.result == s.result)
      && (s.result.Ok? ==>
            w.result == Err(NoFromShop) && NextId(st.resOrder) !in st.reservations
            && NextId(st.resOrder) in w.after.reservations)
  {
    var s := BookStep(st, shopId, start, duration, user, now);
    if s.result.Ok? {
      BookAppends(st, shopId, start, duration, user, now);
    }
  }

  /** `update_reservation` as written: the no-change path returns
      `from_reservation(...)` and the rewrite path ends with it after its
      commits, so every update that passes the checks raises `NoFromShop`;
      the rewrite is stored all the same. */
  function UpdateAsWritten(st: State, id: int, start: int, duration: int, user: User, now: int)
    : Step<ReservedTimeRange>
    requires StateValid(st)
  {
    var s := UpdateStep(st, id, start, duration, user, now);
    if s.result.Ok? then Step(Err(NoFromShop), s.after) else s
  }

  /** As written, no update is ever answered with its view, and the tables
      after it are those of `UpdateStep`. */
  lemma UpdateCommitsThenFails(st: State, id: int, start: int, duration: int, user: User, now: int)
    requires StateValid(st)
    ensures var w := UpdateAsWritten(st, id, start, duration, user, now);
      var s := UpdateStep(st, id, start, duration, user, now);
      && w.result.Err? && w.after == s.after
      && (s.result.Err? ==> w.result == s.result)
      && (s.result.Ok? ==> w.result == Err(NoFromShop))
  {
  }

  // ---- update_reservation as evidently intended ---------------------------

  /** The body of `update_reservation` after its guards, with the comparison
      with the stored times made before the booking rules: resubmitting a
      reservation as it stands answers with it and changes nothing. */
  function RescheduleStepFixed(st: State, id: int, s: int, duration: int, user: User, now: int)
    : (r: Step<ReservedTimeRange>)
    requires StateValid(st) && id in st.reservations
    ensures r.result.Err? ==> r.after == st
    ensures SameBooking(st.reservations[id], s, duration) ==> r.after == st && r.result.Ok?
  {
    var res := st.reservations[id];
    if SameBooking(res, s, duration) then
      Step(Ok(FromReservation(res, st.users[res.userId], Some(user))), st)
    else
      RescheduleStep(st, id, s, duration, user, now)
  }

  /** `update_reservation` with the intended order. */
  function UpdateStepFixed(st: State, id: int, start: int, duration: int, user: User, now: int)
    : (s: Step<ReservedTimeRange>)
    requires StateValid(st)
    ensures s.result.Err? ==> s.after == st
  {
    if id !in st.reservations then Step(Err(Http(404, "error.reservation.not_found")), st)
    else
      match Guard(st.reservations[id], user, UpdateNotOwner, UpdateValidated)
      case Some(e) => Step(Err(e), st)
      case None => RescheduleStepFixed(st, id, TruncateToMinute(start), duration, user, now)
  }

  /** The update of `NoOpUpdateCanFail` succeeds once the stored times are
      compared first: the owner gets the reservation back, whether or not it
      has started, and nothing changes. */
  lemma NoOpUpdateSucceedsFixed(st: State, id: int, user: User, now: int)
    requires StateValid(st) && id in st.reservations
    requires var res := st.reservations[id];
      && Guard(res, user, UpdateNotOwner, UpdateValidated).None?
      && TruncateToMinute(res.start) == res.start
    ensures var res := st.reservations[id];
      UpdateStepFixed(st, id, res.start, WholeMinutes(res.end - res.start), user, now)
      == Step(Ok(FromReservation(res, st.users[res.userId], Some(user))), st)
  {
  }

  /** Wherever the times change, the intended update and the source's agree. */
  lemma FixedUpdateAgrees(st: State, id: int, start: int, duration: int, user: User, now: int)
    requires StateValid(st) && id in st.reservations
    requires !SameBooking(st.reservations[id], TruncateToMinute(start), duration)
    ensures UpdateStepFixed(st, id, start, duration, user, now) == UpdateStep(st, id, start, duration, user, now)
  {
  }

  // ---- update_time_range as evidently intended ----------------------------

  /** The windows of `ts` other than window `id`. */
  function OtherRanges(ts: seq<OpeningTime>, id: int): (r: seq<OpeningTime>)
    ensures forall x :: x in r <==> x in ts && x.id != id
  {
    if ts == [] then []
    else
      var init, last := ts[..|ts| - 1], ts[|ts| - 1];
      assert forall x :: x in ts <==> x in init || x == last;
      if last.id != id then OtherRanges(init, id) + [last] else OtherRanges(init, id)
  }

  /** `update_time_range` with the checks of `create_time_range`, the window
      itself left out of the comparison. */
  function UpdateRangeStepFixed(st: State, caller: User, id: int, day: int, start: int, end: int)
    : (s: Step<OpeningTime>)
    ensures s.result.Err? ==> s.after == st
  {
    match CurrentAdmin(caller)
    case Err(e) => Step(Err(e), st)
    case Ok(_) =>
      if id !in st.openTimes then Step(Err(Http(404, "error.shop.time_range_not_found")), st)
      else
        var w := st.openTimes[id].(day := day, start := start, end := end);
        match CheckNewRangeFixed(OtherRanges(RangesOf(st, w.shopId), id), day, start, end)
        case Err(e) => Step(Err(e), st)
        case Ok(_) => Step(Ok(w), st.(openTimes := st.openTimes[id := w]))
  }

  /** An update the intended checks accept writes a window that is not empty
      or reversed and shares no instant with the other windows of its shop
      on its day; nothing else changes. */
  lemma UpdateRangeFixedDisjoint(st: State, caller: User, id: int, day: int, start: int, end: int)
    requires StateValid(st)
    requires UpdateRangeStepFixed(st, caller, id, day, start, end).result.Ok?
    ensures caller.admin && id in st.openTimes && start < end
    ensures var s := UpdateRangeStepFixed(st, caller, id, day, start, end);
      var others := OtherRanges(RangesOf(st, st.openTimes[id].shopId), id);
      && s.after == st.(openTimes := st.openTimes[id := OpeningTime(id, st.openTimes[id].shopId, day, start, end)])
      && forall i, t :: 0 <= i < |others| && others[i].day == day && Covers(others[i], t) ==> !(start <= t < end)
  {
    FixedRangeDisjoint(OtherRanges(RangesOf(st, st.openTimes[id].shopId), id), day, start, end);
  }

  // ---- the tables in place ------------------------------------------------

  class Database {
    var users: map<int, User>
    var userOrder: seq<int>
    var shops: map<int, Shop>
    var openTimes: map<int, OpeningTime>
    var openOrder: seq<int>
    var reservations: map<int, Reservation>
    var resOrder: seq<int>
    var tokens: seq<Token>

    function Snapshot(): State
      reads this
    {
      State(users, userOrder, shops, openTimes, openOrder, reservations, resOrder)
    }

    ghost predicate Valid()
      reads this
    {
      StateValid(Snapshot())
    }

    /** An empty database. */
    constructor ()
      ensures Valid() && tokens == []
      ensures Snapshot() == State(map[], [], map[], map[], [], map[], [])
    {
      users, userOrder, shops := map[], [], map[];
      openTimes, openOrder := map[], [];
      reservations, resOrder := map[], [];
      tokens := [];
    }

    /** Writes a state into the tables. */
    method Load(st: State)
      modifies this
      ensures Snapshot() == st && tokens == old(tokens)
    {
      users, userOrder, shops := st.users, st.userOrder, st.shops;
      openTimes, openOrder := st.openTimes, st.openOrder;
      reservations, resOrder := st.reservations, st.resOrder;
    }

    method Book(shopId: int, start: int, duration: int, user: User, now: int)
      returns (r: Result<ReservedTimeRange>)
      requires Valid() && user.id in users
      modifies this
      ensures Valid() && tokens == old(tokens)
      ensures Step(r, Snapshot()) == BookStep(old(Snapshot()), shopId, start, duration, user, now)
    {
      if shopId !in shops {
        return Err(Http(404, "error.shop.not_found"));
      }
      var check := CheckReservation(shops[shopId], RangesOf(Snapshot(), shopId), ReservationsOf(Snapshot(), shopId),
                                    start, duration, user, now, None);
      if check.Err? {
        return Err(check.error);
      }
      var id := NextId(resOrder);
      var nr := Reservation(id, user.id, shopId, start, start + Minutes(duration), false, false);
      AddReservation(nr);
      r := Ok(FromReservation(nr, user, Some(user)));
    }

    /** Adds a reservation under the next id. */
    method AddReservation(nr: Reservation)
      requires Valid() && nr.id == NextId(resOrder) && nr.shopId in shops && nr.userId in users
      modifies this
      ensures Valid() && tokens == old(tokens)
      ensures Snapshot() == old(Snapshot()).(reservations := old(reservations)[nr.id := nr],
                                             resOrder := old(resOrder) + [nr.id])
    {
      AddReservationValid(Snapshot(), nr);
      reservations := reservations[nr.id := nr];
      resOrder := resOrder + [nr.id];
    }

    /** Rewrites a reservation in place, keeping its shop and its owner. */
    method PutReservation(nr: Reservation)
      requires Valid() && nr.id in reservations
      requires nr.shopId == reservations[nr.id].shopId && nr.userId == reservations[nr.id].userId
      modifies this
      ensures Valid() && tokens == old(tokens)
      ensures Snapshot() == old(Snapshot()).(reservations := old(reservations)[nr.id := nr])
    {
      SetReservationValid(Snapshot(), nr);
      reservations := reservations[nr.id := nr];
    }

    method Update(id: int, start: int, duration: int, user: User, now: int)
      returns (r: Result<ReservedTimeRange>)
      requires Valid()
      modifies this
      ensures Valid() && tokens == old(tokens)
      ensures Step(r, Snapshot()) == UpdateStep(old(Snapshot()), id, start, duration, user, now)
    {
      if id !in reservations {
        return Err(Http(404, "error.reservation.not_found"));
      }
      var res := reservations[id];
      if res.userId != user.id && !user.admin {
        return Err(UpdateNotOwner);
      }
      if res.validated && !user.admin {
        return Err(UpdateValidated);
      }
      var s := TruncateToMinute(start);
      r := Reschedule(id, s, duration, user, now);
    }

    /** The body of `update_reservation` after its guards. */
    method Reschedule(id: int, s: int, duration: int, user: User, now: int)
      returns (r: Result<ReservedTimeRange>)
      requires Valid() && id in reservations
      modifies this
      ensures Valid() && tokens == old(tokens)
      ensures Step(r, Snapshot()) == RescheduleStep(old(Snapshot()), id, s, duration, user, now)
    {
      ghost var before := Snapshot();
      RescheduleCases(before, id, s, duration, user, now);
      var res := reservations[id];
      var check := CheckReservation(shops[res.shopId], RangesOf(Snapshot(), res.shopId),
                                    ReservationsOf(Snapshot(), res.shopId), s, duration, user, now, Some(id));
      if check.Err? {
        return Err(check.error);
      }
      r := MoveReservation(id, s, duration, user);
    }

    /** The admitted update: nothing is written when the start and the
        duration in whole minutes are the ones stored. */
    method MoveReservation(id: int, s: int, duration: int, user: User)
      returns (r: Result<ReservedTimeRange>)
      requires Valid() && id in reservations
      modifies this
      ensures Valid() && tokens == old(tokens)
      ensures var res := old(reservations[id]);
        var owner := old(users[res.userId]);
        var nr := res.(start := s, end := s + Minutes(duration));
        && (SameBooking(res, s, duration) ==>
              r == Ok(FromReservation(res, owner, Some(user))) && Snapshot() == old(Snapshot()))
        && (!SameBooking(res, s, duration) ==>
              r == Ok(FromReservation(nr, owner, Some(user)))
              && Snapshot() == old(Snapshot()).(reservations := old(reservations)[id := nr]))
    {
      var res := reservations[id];
      var previousDuration := WholeMinutes(res.end - res.start);
      if s == res.start && duration == previousDuration {
        assert SameBooking(res, s, duration);
        return Ok(FromReservation(res, users[res.userId], Some(user)));
      }
      var nr := res.(start := s, end := s + Minutes(duration));
      PutReservation(nr);
      r := Ok(FromReservation(nr, users[res.userId], Some(user)));
    }

    method Cancel(id: int, user: User) returns (r: Result<()>)
      requires Valid()
      modifies this
      ensures Valid() && tokens == old(tokens)
      ensures Step(r, Snapshot()) == CancelStep(old(Snapshot()), id, user)
    {
      CancelEffect(Snapshot(), id, user);
      if id !in reservations {
        return Err(Http(404, "error.reservation.not_found"));
      }
      var res := reservations[id];
      if res.userId != user.id && !user.admin {
        return Err(CancelNotOwner);
      }
      if res.validated && !user.admin {
        return Err(CancelValidated);
      }
      reservations := reservations - {id};
      resOrder := Without(resOrder, id);
      r := Ok(());
    }

    method Validate(caller: User, id: int) returns (r: Result<()>)
      requires Valid()
      modifies this
      ensures Valid() && tokens == old(tokens)
      ensures Step(r, Snapshot()) == ValidateStep(old(Snapshot()), caller, id)
    {
      ValidateEffect(Snapshot(), caller, id);
      if !caller.admin {
        return Err(Http(403, "User is not an admin"));
      }
      if id !in reservations {
        return Err(Http(404, "error.reservation.not_found"));
      }
      reservations := reservations[id := reservations[id].(validated := true)];
      r := Ok(());
    }

    method CreateTimeRange(caller: User, shopId: int, day: int, start: int, end: int)
      returns (r: Result<OpeningTime>)
      requires Valid()
      modifies this
      ensures Valid() && tokens == old(tokens)
      ensures Step(r, Snapshot()) == CreateRangeStep(old(Snapshot()), caller, shopId, day, start, end)
    {
      CreateRangeKeepsValid(Snapshot(), caller, shopId, day, start, end);
      if !caller.admin {
        return Err(Http(403, "User is not an admin"));
      }
      if shopId !in shops {
        return Err(Http(404, "error.shop.not_found"));
      }
      var conflict := FindConflict(RangesOf(Snapshot(), shopId), day, start, end);
      if conflict {
        return Err(Http(400, "error.shop.time_range_overlap"));
      }
      if start >= end {
        return Err(Http(400, "error.shop.negative_time_range"));
      }
      var id := NextId(openOrder);
      var w := OpeningTime(id, shopId, day, start, end);
      openTimes := openTimes[id := w];
      openOrder := openOrder + [id];
      r := Ok(w);
    }

    method UpdateTimeRange(caller: User, id: int, day: int, start: int, end: int)
      returns (r: Result<OpeningTime>)
      requires Valid()
      modifies this
      ensures Valid() && tokens == old(tokens)
      ensures Step(r, Snapshot()) == UpdateRangeStep(old(Snapshot()), caller, id, day, start, end)
    {
      UpdateRangeEffect(Snapshot(), caller, id, day, start, end);
      if !caller.admin {
        return Err(Http(403, "User is not an admin"));
      }
      if id !in openTimes {
        return Err(Http(404, "error.shop.time_range_not_found"));
      }
      var w := openTimes[id].(day := day, start := start, end := end);
      openTimes := openTimes[id := w];
      r := Ok(w);
    }

    method DeleteTimeRange(caller: User, id: int) returns (r: Result<()>)
      requires Valid()
      modifies this
      ensures Valid() && tokens == old(tokens)
      ensures Step(r, Snapshot()) == DeleteRangeStep(old(Snapshot()), caller, id)
    {
      DeleteRangeEffect(Snapshot(), caller, id);
      if !caller.admin {
        return Err(Http(403, "User is not an admin"));
      }
      if id !in openTimes {
        return Err(Http(404, "error.shop.time_range_not_found"));
      }
      openTimes := openTimes - {id};
      openOrder := Without(openOrder, id);
      r := Ok(());
    }

    /** `get_planning(shop_id, monday)` for `viewer`. */
    method GetPlanning(shopId: int, monday: string, viewer: User)
      returns (r: Result<seq<seq<ReservedTimeRange>>>)
      requires Valid()
      ensures shopId !in shops ==> r == Err(Http(404, "error.shop.not_found"))
      ensures shopId in shops ==>
        && Owned(ReservationsOf(Snapshot(), shopId), users)
        && (r.Err? <==> WeekOf(monday).Err? || !WeekInRange(WeekOf(monday).value))
        && (WeekOf(monday).Err? ==> r.error == WeekOf(monday).error)
        && (WeekOf(monday).Ok? && !WeekInRange(WeekOf(monday).value) ==> r.error == DateOverflow)
        && (r.Ok? ==> r.value == WeekPlanning(ReservationsOf(Snapshot(), shopId), users, WeekOf(monday).value, viewer))
    {
      if shopId !in shops {
        return Err(Http(404, "error.shop.not_found"));
      }
      ReservationsOwned(Snapshot(), shopId);
      r := Plan(ReservationsOf(Snapshot(), shopId), users, monday, viewer);
    }

    /** `login(username, password)` at `now`: `checkPassword` stands for the
        bcrypt comparison, `accessToken` for the random token text and
        `validity` for the `token_validity` setting. The token's expiry is
        computed after the checks, and its error leaves the tables as they
        were. */
    method Login(email: string, checkPassword: User -> bool, accessToken: string, now: int, validity: Setting)
      returns (r: Result<Token>)
      requires Valid()
      modifies this
      ensures Snapshot() == old(Snapshot()) && Valid()
      ensures var c, e := LoginCheck(Snapshot(), email, checkPassword), ExpiryAfter(now, validity);
        && (r.Err? <==> c.Err? || e.Err?)
        && (c.Err? ==> r.error == c.error)
        && (c.Ok? && e.Err? ==> r.error == e.error)
        && (r.Err? ==> tokens == old(tokens))
        && (r.Ok? ==> (fresh(r.value) && tokens == old(tokens) + [r.value]
              && r.value.userId == c.value.id && r.value.accessToken == accessToken
              && r.value.expiresAt == e.value))
    {
      var found := LoginCheck(Snapshot(), email, checkPassword);
      if found.Err? {
        return Err(found.error);
      }
      var created := CreateToken(found.value.id, accessToken, now, validity);
      if created.Err? {
        return Err(created.error);
      }
      tokens := tokens + [created.value];
      r := Ok(created.value);
    }

    /** `register(email, full_name, password, group)` at `now`, with the same
        stand-ins as `Login`. The password hash is not modelled. The checks
        come first, then the token's expiry, then the commit that refuses a
        missing group; an error at any of them leaves the tables as they
        were. */
    method Register(email: string, fullName: string, password: string, group: Option<string>,
                    accessToken: string, now: int, validity: Setting)
      returns (r: Result<Token>)
      requires Valid()
      modifies this
      ensures Valid()
      ensures var st := old(Snapshot());
        var c := RegisterCheck(FindByEmail(Rows(st.userOrder, st.users), email).Some?, email, fullName, password);
        var e := ExpiryAfter(now, validity);
        var s := RegisterStep(st, email, fullName, password, group);
        && (c.Err? ==> r == Err(c.error) && Snapshot() == st && tokens == old(tokens))
        && (c.Ok? && e.Err? ==> r == Err(e.error) && Snapshot() == st && tokens == old(tokens))
        && (c.Ok? && e.Ok? ==>
              && Snapshot() == s.after
              && (r.Err? <==> s.result.Err?)
              && (r.Err? ==> r.error == s.result.error && tokens == old(tokens))
              && (r.Ok? ==> (fresh(r.value) && tokens == old(tokens) + [r.value]
                    && r.value.userId == s.result.value.id && r.value.accessToken == accessToken
                    && r.value.expiresAt == e.value)))
    {
      var st := Snapshot();
      var c := RegisterCheck(FindByEmail(Rows(st.userOrder, st.users), email).Some?, email, fullName, password);
      if c.Err? {
        return Err(c.error);
      }
      var expiry := ExpiryAfter(now, validity);
      if expiry.Err? {
        return Err(expiry.error);
      }
      var s := RegisterStep(st, email, fullName, password, group);
      RegisterKeepsValid(st, email, fullName, password, group);
      if s.result.Err? {
        return Err(s.result.error);
      }
      Load(s.after);
      var token := AddToken(s.result.value.id, accessToken, expiry.value);
      r := Ok(token);
    }

    /** A new bearer token, kept with the others; the tables do not change. */
    method AddToken(userId: int, accessToken: string, expiresAt: int) returns (t: Token)
      modifies this
      ensures fresh(t) && tokens == old(tokens) + [t] && Snapshot() == old(Snapshot())
      ensures t.userId == userId && t.accessToken == accessToken && t.expiresAt == expiresAt
    {
      t := new Token(userId, accessToken, expiresAt);
      tokens := tokens + [t];
    }
  }
}
