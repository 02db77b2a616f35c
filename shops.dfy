/** The checks of `shared_planner/api/shops.py` on a shop's weekly opening
    windows (`create_time_range`) and on the body of `update_shop`. The table
    writes themselves are methods of the store. */
module Shops {

  import opened Outcome
  import opened Entities

  /** Whether an existing window rejects a new window on `day` from `start`
      to `end`: same day, and either the new start lies in [ex.start, ex.end)
      or the new end lies in (ex.start, ex.end]. */
  predicate Conflicts(ex: OpeningTime, day: int, start: int, end: int) {
    ex.day == day
    && ((ex.start <= start && ex.end > start) || (ex.start < end && ex.end >= end))
  }

  predicate AnyConflict(ranges: seq<OpeningTime>, day: int, start: int, end: int) {
    exists i :: 0 <= i < |ranges| && Conflicts(ranges[i], day, start, end)
  }

  /** The `for existing_time_range in shop.open_ranges` loop with its early
      raise. */
  method FindConflict(ranges: seq<OpeningTime>, day: int, start: int, end: int) returns (found: bool)
    ensures found == AnyConflict(ranges, day, start, end)
  {
    for i := 0 to |ranges|
      invariant forall j :: 0 <= j < i ==> !Conflicts(ranges[j], day, start, end)
    {
      var ex := ranges[i];
      if ex.day == day {
        if (ex.start <= start && ex.end > start) || (ex.start < end && ex.end >= end) {
          return true;
        }
      }
    }
    return false;
  }

  /** The answer of `create_time_range`'s checks: the overlap check first,
      then the length check. A new window is accepted exactly when it is not
      empty or reversed and no existing window of the same day catches its
      start or its end. */
  function CheckNewRange(ranges: seq<OpeningTime>, day: int, start: int, end: int): (r: Result<()>)
    ensures r.Ok? <==>
      start < end && forall i :: 0 <= i < |ranges| && ranges[i].day == day ==>
        !(ranges[i].start <= start < ranges[i].end) && !(ranges[i].start < end <= ranges[i].end)
    ensures r.Err? ==> r.error in {Http(400, "error.shop.time_range_overlap"), Http(400, "error.shop.negative_time_range")}
  {
    if AnyConflict(ranges, day, start, end) then Err(Http(400, "error.shop.time_range_overlap"))
    else if start >= end then Err(Http(400, "error.shop.negative_time_range"))
    else Ok(())
  }

  /** Windows of other days never stand in the way. */
  lemma OtherDaysIgnored(ranges: seq<OpeningTime>, day: int, start: int, end: int)
    requires forall i :: 0 <= i < |ranges| ==> ranges[i].day != day
    ensures CheckNewRange(ranges, day, start, end) == if start >= end then Err(Http(400, "error.shop.negative_time_range")) else Ok(())
  {
  }

  /** An empty or reversed window that an existing one catches is reported
      as an overlap, not as a negative range. */
  lemma OverlapReportedFirst(ranges: seq<OpeningTime>, i: int, day: int, start: int, end: int)
    requires 0 <= i < |ranges| && Conflicts(ranges[i], day, start, end) && start >= end
    ensures CheckNewRange(ranges, day, start, end) == Err(Http(400, "error.shop.time_range_overlap"))
  {
  }

  /** A new window that strictly encloses an existing one is accepted: the
      two windows then overlap. */
  lemma EnclosingRangeAccepted()
    ensures CheckNewRange([OpeningTime(1, 1, 0, 10, 20)], 0, 5, 25) == Ok(())
  {
    assert !Conflicts(OpeningTime(1, 1, 0, 10, 20), 0, 5, 25);
  }

  /** Whether window `w` holds instant `t` of its day: [start, end). */
  predicate Covers(w: OpeningTime, t: int) {
    w.start <= t < w.end
  }

  /** The overlap test as evidently intended: the two windows of the same
      day share an instant. */
  predicate ConflictsFixed(ex: OpeningTime, day: int, start: int, end: int) {
    ex.day == day && ex.start < ex.end && start < end && ex.start < end && start < ex.end
  }

  predicate AnyConflictFixed(ranges: seq<OpeningTime>, day: int, start: int, end: int) {
    exists i :: 0 <= i < |ranges| && ConflictsFixed(ranges[i], day, start, end)
  }

  /** `create_time_range`'s checks with the intended overlap test, in the
      same order. */
  function CheckNewRangeFixed(ranges: seq<OpeningTime>, day: int, start: int, end: int): (r: Result<()>)
    ensures r.Ok? ==> start < end
  {
    if AnyConflictFixed(ranges, day, start, end) then Err(Http(400, "error.shop.time_range_overlap"))
    else if start >= end then Err(Http(400, "error.shop.negative_time_range"))
    else Ok(())
  }

  /** With the intended test, a window is accepted exactly when it is not
      empty or reversed and shares no instant with a window of its day. */
  lemma FixedRangeDisjoint(ranges: seq<OpeningTime>, day: int, start: int, end: int)
    ensures CheckNewRangeFixed(ranges, day, start, end).Ok? <==>
      start < end && forall i, t :: 0 <= i < |ranges| && ranges[i].day == day && Covers(ranges[i], t) ==> !(start <= t < end)
  {
    if AnyConflictFixed(ranges, day, start, end) {
      var i :| 0 <= i < |ranges| && ConflictsFixed(ranges[i], day, start, end);
      var t := if start < ranges[i].start then ranges[i].start else start;
      assert Covers(ranges[i], t) && start <= t < end;
    }
  }

  /** The window of `EnclosingRangeAccepted` is refused by the intended test. */
  lemma EnclosingRangeRefusedFixed()
    ensures CheckNewRangeFixed([OpeningTime(1, 1, 0, 10, 20)], 0, 5, 25) == Err(Http(400, "error.shop.time_range_overlap"))
  {
    assert ConflictsFixed([OpeningTime(1, 1, 0, 10, 20)][0], 0, 5, 25);
  }

  /** The id check of `update_shop` once the shop is found: an id in the body
      must be the path's, and a missing one is filled in with it. */
  function ShopIdCheck(pathId: int, bodyId: Option<int>): (r: Result<int>)
    ensures r.Ok? <==> bodyId.None? || bodyId.value == pathId
    ensures r.Ok? ==> r.value == pathId
    ensures r.Err? ==> r.error == Http(400, "error.shop.id_mismatch")
  {
    if bodyId.Some? && bodyId.value != pathId then Err(Http(400, "error.shop.id_mismatch"))
    else Ok(pathId)
  }
}
