/** `check_overlap` (shared_planner/api/reservations.py): which existing
    reservations of a shop a candidate booking is compared with, the
    same-user rejection, and the sweep over their start and end events. */
module Capacity {

  import opened Outcome
  import opened Entities
  import opened Clock

  /** An entry of `overlap_check`: `change` is +1 at a start, -1 at an end. */
  datatype Event = Event(change: int, at: int)

  /** Whether `check_overlap` looks at an existing reservation at all: its start
      lies in [start, end) or its end in (start, end], and it is not the
      excluded one. A reservation that strictly encloses [start, end] is not
      looked at. */
  predicate Counted(r: Reservation, start: int, end: int, exclude: Option<int>) {
    (start <= r.start < end || start < r.end <= end) && (exclude.None? || r.id != exclude.value)
  }

  /** The counted reservations, in the order the shop lists them. */
  function CountedOf(rs: seq<Reservation>, start: int, end: int, exclude: Option<int>): (c: seq<Reservation>)
    ensures |c| <= |rs|
    ensures forall r :: r in c <==> r in rs && Counted(r, start, end, exclude)
  {
    if rs == [] then []
    else
      var init := CountedOf(rs[..|rs| - 1], start, end, exclude);
      var r := rs[|rs| - 1];
      assert forall x :: x in rs <==> x in rs[..|rs| - 1] || x == r;
      if Counted(r, start, end, exclude) then init + [r] else init
  }

  /** The events appended for a list of reservations: a start and an end each. */
  function EventsOf(rs: seq<Reservation>): (es: seq<Event>)
    ensures |es| == 2 * |rs|
  {
    if rs == [] then []
    else EventsOf(rs[..|rs| - 1]) + [Event(1, rs[|rs| - 1].start), Event(-1, rs[|rs| - 1].end)]
  }

  // ---- list.sort(key=time): a stable sort on the time alone --------------

  predicate SortedByTime(s: seq<Event>) {
    forall i, j :: 0 <= i < j < |s| ==> s[i].at <= s[j].at
  }

  /** Inserts `e` after every element whose time is at most its own. */
  function InsertByTime(s: seq<Event>, e: Event): (r: seq<Event>)
    ensures |r| == |s| + 1
    ensures multiset(r) == multiset(s) + multiset{e}
    ensures forall x :: x in r <==> x in s || x == e
  {
    if s == [] || s[|s| - 1].at <= e.at then s + [e]
    else
      var init := s[..|s| - 1];
      assert s == init + [s[|s| - 1]];
      InsertByTime(init, e) + [s[|s| - 1]]
  }

  /** A stable insertion sort keyed on the time. */
  function SortByTime(s: seq<Event>): (r: seq<Event>)
    ensures |r| == |s|
    ensures multiset(r) == multiset(s)
  {
    if s == [] then []
    else
      assert s == s[..|s| - 1] + [s[|s| - 1]];
      InsertByTime(SortByTime(s[..|s| - 1]), s[|s| - 1])
  }

  /** The events of `s` at time `t`, in order. */
  function At(s: seq<Event>, t: int): seq<Event> {
    if s == [] then []
    else At(s[..|s| - 1], t) + (if s[|s| - 1].at == t then [s[|s| - 1]] else [])
  }

  lemma {:induction false} AtConcat(a: seq<Event>, b: seq<Event>, t: int)
    ensures At(a + b, t) == At(a, t) + At(b, t)
  {
    if b != [] {
      assert (a + b)[..|a + b| - 1] == a + b[..|b| - 1];
      AtConcat(a, b[..|b| - 1], t);
    } else {
      assert a + b == a;
    }
  }

  lemma {:induction false} InsertSorted(s: seq<Event>, e: Event)
    requires SortedByTime(s)
    ensures SortedByTime(InsertByTime(s, e))
  {
    if s != [] && s[|s| - 1].at > e.at {
      var init, last := s[..|s| - 1], s[|s| - 1];
      InsertSorted(init, e);
      var r := InsertByTime(init, e);
      assert forall x :: x in r ==> x.at <= last.at;
      assert forall i :: 0 <= i < |r| ==> r[i] in r;
    }
  }

  lemma {:induction false} InsertStable(s: seq<Event>, e: Event, t: int)
    ensures At(InsertByTime(s, e), t) == At(s, t) + (if e.at == t then [e] else [])
  {
    if s == [] || s[|s| - 1].at <= e.at {
      assert InsertByTime(s, e) == s + [e];
      AtConcat(s, [e], t);
      AtSingle(e, t);
    } else {
      var init, last := s[..|s| - 1], s[|s| - 1];
      assert InsertByTime(s, e) == InsertByTime(init, e) + [last];
      assert s == init + [last];
      InsertStable(init, e, t);
      AtConcat(InsertByTime(init, e), [last], t);
      AtConcat(init, [last], t);
      AtSingle(last, t);
    }
  }

  lemma AtSingle(e: Event, t: int)
    ensures At([e], t) == if e.at == t then [e] else []
  {
    assert [e][..0] == [];
  }

  /** The sort orders the events by time, keeps every event, and keeps the
      events sharing a time in the order they were appended. */
  lemma {:induction false} SortByTimeIsStableSort(s: seq<Event>)
    ensures SortedByTime(SortByTime(s))
    ensures multiset(SortByTime(s)) == multiset(s)
    ensures forall t :: At(SortByTime(s), t) == At(s, t)
  {
    if s != [] {
      var init := s[..|s| - 1];
      SortByTimeIsStableSort(init);
      InsertSorted(SortByTime(init), s[|s| - 1]);
      forall t ensures At(SortByTime(s), t) == At(s, t) {
        InsertStable(SortByTime(init), s[|s| - 1], t);
      }
    }
  }

  // ---- the sweep ---------------------------------------------------------

  /** The sum of the changes of a list of events. */
  function Total(s: seq<Event>): int {
    if s == [] then 0 else Total(s[..|s| - 1]) + s[|s| - 1].change
  }

  /** Some prefix of the events brings the running count above `limit`. */
  predicate Exceeds(s: seq<Event>, limit: int) {
    exists k :: 0 < k <= |s| && Total(s[..k]) > limit
  }

  /** The answer of `check_overlap`: no counted reservation belongs to the
      user, and the running count over the sorted events of the counted
      reservations never exceeds `volunteers`. The candidate itself adds no
      event. */
  predicate OverlapOk(rs: seq<Reservation>, volunteers: int, start: int, duration: int,
                      userId: int, exclude: Option<int>)
    ensures OverlapOk(rs, volunteers, start, duration, userId, exclude) ==>
      forall r :: r in rs && Counted(r, start, start + duration, exclude) ==> r.userId != userId
  {
    var counted := CountedOf(rs, start, start + duration, exclude);
    && (forall r :: r in counted ==> r.userId != userId)
    && !Exceeds(SortByTime(EventsOf(counted)), volunteers)
  }

  /** `check_overlap(shop, start_time, duration, user, exclude_res_id)`, with
      `rs` the shop's reservations in the order the shop lists them and
      `duration` in microseconds. */
  method CheckOverlap(rs: seq<Reservation>, volunteers: int, start: int, duration: int,
                      userId: int, exclude: Option<int>) returns (ok: bool)
    ensures ok == OverlapOk(rs, volunteers, start, duration, userId, exclude)
  {
    ghost var counted := CountedOf(rs, start, start + duration, exclude);
    var events, sameUser := CollectEvents(rs, start, start + duration, userId, exclude);
    if sameUser {
      ghost var r :| r in counted && r.userId == userId;
      return false;
    }
    assert events == EventsOf(counted);
    var sorted := SortByTime(events);
    ok := Sweep(sorted, volunteers);
  }

  /** The first loop of `check_overlap`: appends the events of every counted
      reservation, and stops at the first one that belongs to the user. */
  method CollectEvents(rs: seq<Reservation>, start: int, end: int, userId: int, exclude: Option<int>)
    returns (events: seq<Event>, sameUser: bool)
    ensures sameUser <==> HasUser(CountedOf(rs, start, end, exclude), userId)
    ensures !sameUser ==> events == EventsOf(CountedOf(rs, start, end, exclude))
  {
    events := [];
    var i := 0;
    while i < |rs|
      invariant 0 <= i <= |rs|
      invariant events == EventsOf(CountedOf(rs[..i], start, end, exclude))
      invariant !HasUser(CountedOf(rs[..i], start, end, exclude), userId)
    {
      var r := rs[i];
      CollectStep(rs, i, start, end, userId, exclude);
      if Counted(r, start, end, exclude) {
        events := events + [Event(1, r.start), Event(-1, r.end)];
        if r.userId == userId {
          PrefixHasUser(rs, i + 1, start, end, userId, exclude);
          return events, true;
        }
      }
      i := i + 1;
    }
    assert rs[..i] == rs;
    return events, false;
  }

  /** Some reservation of the list belongs to the user. */
  predicate HasUser(c: seq<Reservation>, userId: int) {
    exists r :: r in c && r.userId == userId
  }

  /** What one more reservation adds to the counted list and its events. */
  lemma CollectStep(rs: seq<Reservation>, i: int, start: int, end: int, userId: int, exclude: Option<int>)
    requires 0 <= i < |rs|
    requires !HasUser(CountedOf(rs[..i], start, end, exclude), userId)
    ensures Counted(rs[i], start, end, exclude)
        ==> EventsOf(CountedOf(rs[..i + 1], start, end, exclude))
            == EventsOf(CountedOf(rs[..i], start, end, exclude)) + [Event(1, rs[i].start), Event(-1, rs[i].end)]
    ensures !Counted(rs[i], start, end, exclude)
        ==> CountedOf(rs[..i + 1], start, end, exclude) == CountedOf(rs[..i], start, end, exclude)
    ensures HasUser(CountedOf(rs[..i + 1], start, end, exclude), userId)
        <==> Counted(rs[i], start, end, exclude) && rs[i].userId == userId
  {
    var before := CountedOf(rs[..i], start, end, exclude);
    assert rs[..i + 1][..i] == rs[..i];
    if Counted(rs[i], start, end, exclude) {
      assert CountedOf(rs[..i + 1], start, end, exclude) == before + [rs[i]];
      EventsAppend(before, rs[i]);
      if HasUser(before + [rs[i]], userId) {
        var r :| r in before + [rs[i]] && r.userId == userId;
        assert r !in before;
      }
      assert rs[i] in before + [rs[i]];
    }
  }

  lemma PrefixHasUser(rs: seq<Reservation>, n: nat, start: int, end: int, userId: int, exclude: Option<int>)
    requires n <= |rs| && HasUser(CountedOf(rs[..n], start, end, exclude), userId)
    ensures HasUser(CountedOf(rs, start, end, exclude), userId)
  {
    var r :| r in CountedOf(rs[..n], start, end, exclude) && r.userId == userId;
    assert r in rs[..n];
    assert r in CountedOf(rs, start, end, exclude);
  }

  lemma EventsAppend(c: seq<Reservation>, r: Reservation)
    ensures EventsOf(c + [r]) == EventsOf(c) + [Event(1, r.start), Event(-1, r.end)]
  {
    assert (c + [r])[..|c|] == c;
  }

  /** The second loop of `check_overlap`: false as soon as the running count
      exceeds `volunteers`. */
  method Sweep(sorted: seq<Event>, volunteers: int) returns (ok: bool)
    ensures ok == !Exceeds(sorted, volunteers)
  {
    var count := 0;
    var j := 0;
    while j < |sorted|
      invariant 0 <= j <= |sorted|
      invariant count == Total(sorted[..j])
      invariant forall k :: 0 < k <= j ==> Total(sorted[..k]) <= volunteers
    {
      assert sorted[..j + 1][..j] == sorted[..j];
      count := count + sorted[j].change;
      if count > volunteers {
        return false;
      }
      j := j + 1;
    }
    return true;
  }

  // ---- what an admission says about occupancy -----------------------------

  /** The number of reservations of `rs` that hold instant `t`: [start, end). */
  function ActiveAt(rs: seq<Reservation>, t: int): nat {
    if rs == [] then 0
    else ActiveAt(rs[..|rs| - 1], t) + (if rs[|rs| - 1].start <= t < rs[|rs| - 1].end then 1 else 0)
  }

  /** The sum of the changes of the events at or before `t`. */
  function TotalUpTo(s: seq<Event>, t: int): int {
    if s == [] then 0
    else TotalUpTo(s[..|s| - 1], t) + (if s[|s| - 1].at <= t then s[|s| - 1].change else 0)
  }

  lemma {:induction false} TotalUpToConcat(a: seq<Event>, b: seq<Event>, t: int)
    ensures TotalUpTo(a + b, t) == TotalUpTo(a, t) + TotalUpTo(b, t)
  {
    if b != [] {
      assert (a + b)[..|a + b| - 1] == a + b[..|b| - 1];
      TotalUpToConcat(a, b[..|b| - 1], t);
    } else {
      assert a + b == a;
    }
  }

  lemma {:induction false} TotalUpToInsert(s: seq<Event>, e: Event, t: int)
    ensures TotalUpTo(InsertByTime(s, e), t) == TotalUpTo(s, t) + (if e.at <= t then e.change else 0)
  {
    if s == [] || s[|s| - 1].at <= e.at {
      TotalUpToConcat(s, [e], t);
      assert TotalUpTo([e], t) == TotalUpTo([], t) + (if e.at <= t then e.change else 0);
    } else {
      var init, last := s[..|s| - 1], s[|s| - 1];
      TotalUpToInsert(init, e, t);
      TotalUpToConcat(InsertByTime(init, e), [last], t);
      assert TotalUpTo([last], t) == TotalUpTo([], t) + (if last.at <= t then last.change else 0);
    }
  }

  lemma {:induction false} TotalUpToSort(s: seq<Event>, t: int)
    ensures TotalUpTo(SortByTime(s), t) == TotalUpTo(s, t)
  {
    if s != [] {
      TotalUpToSort(s[..|s| - 1], t);
      TotalUpToInsert(SortByTime(s[..|s| - 1]), s[|s| - 1], t);
    }
  }

  /** In a sorted list, the events at or before `t` form a prefix, and its
      running count is their sum. */
  lemma {:induction false} SortedPrefixUpTo(s: seq<Event>, t: int) returns (k: nat)
    requires SortedByTime(s)
    ensures k <= |s| && Total(s[..k]) == TotalUpTo(s, t)
  {
    if s == [] {
      k := 0;
    } else if s[|s| - 1].at <= t {
      k := |s|;
      var p := SortedPrefixUpTo(s[..|s| - 1], t);
      AllUpTo(s[..|s| - 1], t);
      assert s[..k] == s;
    } else {
      k := SortedPrefixUpTo(s[..|s| - 1], t);
      assert s[..|s| - 1][..k] == s[..k];
    }
  }

  lemma {:induction false} AllUpTo(s: seq<Event>, t: int)
    requires forall i :: 0 <= i < |s| ==> s[i].at <= t
    ensures TotalUpTo(s, t) == Total(s)
  {
    if s != [] {
      AllUpTo(s[..|s| - 1], t);
    }
  }

  lemma {:induction false} EventsUpTo(rs: seq<Reservation>, t: int)
    requires forall r :: r in rs ==> r.start <= r.end
    ensures TotalUpTo(EventsOf(rs), t) == ActiveAt(rs, t)
  {
    if rs != [] {
      var init, r := rs[..|rs| - 1], rs[|rs| - 1];
      EventsUpTo(init, t);
      TotalUpToConcat(EventsOf(init), [Event(1, r.start), Event(-1, r.end)], t);
      assert [Event(1, r.start), Event(-1, r.end)] == [Event(1, r.start)] + [Event(-1, r.end)];
      TotalUpToConcat([Event(1, r.start)], [Event(-1, r.end)], t);
      assert TotalUpTo([Event(1, r.start)], t) == TotalUpTo([], t) + (if r.start <= t then 1 else 0);
      assert TotalUpTo([Event(-1, r.end)], t) == TotalUpTo([], t) + (if r.end <= t then -1 else 0);
    }
  }

  /** When `check_overlap` admits, at no instant are more than `volunteers` of
      the counted reservations running (if any are), provided each of them
      ends no earlier than it starts. The candidate is not among them. */
  lemma AdmittedOccupancy(rs: seq<Reservation>, volunteers: int, start: int, duration: int,
                          userId: int, exclude: Option<int>, t: int)
    requires OverlapOk(rs, volunteers, start, duration, userId, exclude)
    requires forall r :: r in rs ==> r.start <= r.end
    ensures var counted := CountedOf(rs, start, start + duration, exclude);
      ActiveAt(counted, t) == 0 || ActiveAt(counted, t) <= volunteers
  {
    var counted := CountedOf(rs, start, start + duration, exclude);
    var sorted := SortByTime(EventsOf(counted));
    SortByTimeIsStableSort(EventsOf(counted));
    var k := SortedPrefixUpTo(sorted, t);
    TotalUpToSort(EventsOf(counted), t);
    EventsUpTo(counted, t);
    if k > 0 {
      assert Total(sorted[..k]) <= volunteers;
    }
  }

  /** Whatever `volunteers` is, a counted reservation of the same user rejects. */
  lemma SameUserRejects(rs: seq<Reservation>, volunteers: int, start: int, duration: int,
                        user: int, exclude: Option<int>, r: Reservation)
    requires r in rs && Counted(r, start, start + duration, exclude) && r.userId == user
    ensures !OverlapOk(rs, volunteers, start, duration, user, exclude)
  {
  }

  /** With nothing counted the candidate is admitted, whatever `volunteers` is:
      the candidate adds no event of its own. */
  lemma NothingCountedAdmits(rs: seq<Reservation>, volunteers: int, start: int, duration: int,
                             user: int, exclude: Option<int>)
    requires forall r :: r in rs ==> !Counted(r, start, start + duration, exclude)
    ensures OverlapOk(rs, volunteers, start, duration, user, exclude)
  {
    NoneCounted(rs, start, start + duration, exclude);
    assert EventsOf([]) == [] && SortByTime([]) == [];
    assert !Exceeds([], volunteers);
  }

  lemma {:induction false} NoneCounted(rs: seq<Reservation>, start: int, end: int, exclude: Option<int>)
    requires forall r :: r in rs ==> !Counted(r, start, end, exclude)
    ensures CountedOf(rs, start, end, exclude) == []
  {
    if rs != [] {
      assert forall r :: r in rs[..|rs| - 1] ==> r in rs;
      NoneCounted(rs[..|rs| - 1], start, end, exclude);
    }
  }

  /** A reservation that starts before the candidate and ends after it is
      never counted, even when it belongs to the same user. */
  lemma EnclosingNotCounted(r: Reservation, start: int, end: int, exclude: Option<int>)
    requires r.start < start && end < r.end
    ensures !Counted(r, start, end, exclude)
  {
  }

  /** A shop for one volunteer, one reservation of another user over exactly
      the hour asked for: `check_overlap` admits, and two reservations then
      hold the start of that hour. Only the existing reservations are swept. */
  lemma CandidateNotCountedOverbooks(existing: Reservation, candidate: Reservation)
    requires existing.start == candidate.start < candidate.end == existing.end
    requires existing.userId != candidate.userId
    ensures OverlapOk([existing], 1, candidate.start, candidate.end - candidate.start, candidate.userId, None)
    ensures ActiveAt([existing, candidate], candidate.start) == 2
  {
    var start, end := candidate.start, candidate.end;
    assert start + (end - start) == end;
    CountedSingle(existing, start, end);
    var events := [Event(1, start), Event(-1, end)];
    assert EventsOf([existing]) == events by {
      assert [existing][..0] == [];
    }
    SortedStays(events);
    OneAtATime(start, end);
    BothActive(existing, candidate, start);
  }

  lemma OneAtATime(start: int, end: int)
    ensures !Exceeds([Event(1, start), Event(-1, end)], 1)
  {
    var events := [Event(1, start), Event(-1, end)];
    assert events[..1] == [Event(1, start)];
    assert events[..1][..0] == [];
    assert Total(events[..1]) == 1;
    assert events[..2] == events;
    assert Total(events) == Total(events[..1]) - 1;
    forall k | 0 < k <= |events| ensures Total(events[..k]) <= 1 {
    }
  }

  lemma BothActive(a: Reservation, b: Reservation, t: int)
    requires a.start <= t < a.end && b.start <= t < b.end
    ensures ActiveAt([a, b], t) == 2
  {
    assert [a][..0] == [];
    assert ActiveAt([a], t) == ActiveAt([], t) + 1;
    assert [a, b][..1] == [a];
    assert ActiveAt([a, b], t) == ActiveAt([a], t) + 1;
  }

  lemma CountedSingle(r: Reservation, start: int, end: int)
    requires start <= r.start < end
    ensures CountedOf([r], start, end, None) == [r]
  {
    assert [r][..0] == [];
  }

  lemma SortedStays(s: seq<Event>)
    requires |s| == 2 && s[0].at <= s[1].at
    ensures SortByTime(s) == s
  {
    assert s[..1] == [s[0]];
    assert s[..1][..0] == [];
    assert SortByTime(s[..1]) == [s[0]];
  }

  /** User 1 holds [00:00, 02:00) and asks for [00:30, 01:00): nothing is
      counted, so `check_overlap` admits a second overlapping reservation of
      the same user. */
  lemma SameUserInsideOwnReservation()
    ensures OverlapOk([Reservation(1, 1, 7, 0, Minutes(120), false, false)], 1, Minutes(30), Minutes(30), 1, None)
  {
    var rs := [Reservation(1, 1, 7, 0, Minutes(120), false, false)];
    EnclosingNotCounted(rs[0], Minutes(30), Minutes(60), None);
    NothingCountedAdmits(rs, 1, Minutes(30), Minutes(30), 1, None);
  }

  /** A shop for two volunteers holds A = [09:00, 10:00) of user 1 and
      B = [09:30, 10:30) of user 2. User 3 asks for [09:45, 10:15): B
      encloses the request and is not counted, A alone is swept, so
      `check_overlap` admits, and three reservations then hold 09:50. */
  lemma EnclosedRequestOverbooks()
    ensures var a := Reservation(1, 1, 7, Hours(9), Hours(10), false, false);
      var b := Reservation(2, 2, 7, Hours(9) + Minutes(30), Hours(10) + Minutes(30), false, false);
      var c := Reservation(3, 3, 7, Hours(9) + Minutes(45), Hours(10) + Minutes(15), false, false);
      && OverlapOk([a, b], 2, c.start, Minutes(30), 3, None)
      && ActiveAt([a, b, c], Hours(9) + Minutes(50)) == 3
  {
    var a := Reservation(1, 1, 7, Hours(9), Hours(10), false, false);
    var b := Reservation(2, 2, 7, Hours(9) + Minutes(30), Hours(10) + Minutes(30), false, false);
    var c := Reservation(3, 3, 7, Hours(9) + Minutes(45), Hours(10) + Minutes(15), false, false);
    var s, e := c.start, c.start + Minutes(30);
    assert [a][..0] == [];
    assert [a, b][..1] == [a];
    assert CountedOf([a, b], s, e, None) == [a];
    var events := [Event(1, a.start), Event(-1, a.end)];
    assert EventsOf([a]) == events;
    SortedStays(events);
    OneAtATime(a.start, a.end);
    assert !Exceeds(events, 2);
    var t := Hours(9) + Minutes(50);
    BothActive(a, b, t);
    assert [a, b, c][..2] == [a, b];
    assert ActiveAt([a, b, c], t) == ActiveAt([a, b], t) + 1;
  }

  // ---- the sweep as evidently intended -------------------------------------

  /** Whether an existing reservation shares an instant with [start, end):
      the half-open intervals intersect. A reservation that encloses the
      request overlaps it. */
  predicate Overlaps(r: Reservation, start: int, end: int, exclude: Option<int>) {
    r.start < end && start < r.end && (exclude.None? || r.id != exclude.value)
  }

  /** The overlapping reservations, in the order the shop lists them. */
  function OverlappingOf(rs: seq<Reservation>, start: int, end: int, exclude: Option<int>): (c: seq<Reservation>)
    ensures |c| <= |rs|
    ensures forall r :: r in c <==> r in rs && Overlaps(r, start, end, exclude)
  {
    if rs == [] then []
    else
      var init := OverlappingOf(rs[..|rs| - 1], start, end, exclude);
      var r := rs[|rs| - 1];
      assert forall x :: x in rs <==> x in rs[..|rs| - 1] || x == r;
      if Overlaps(r, start, end, exclude) then init + [r] else init
  }

  /** The overlap test as evidently intended: every reservation sharing an
      instant with the request is swept, and so is the request itself, so
      the running count includes the person asking. */
  predicate OverlapOkFixed(rs: seq<Reservation>, volunteers: int, start: int, duration: int,
                           userId: int, exclude: Option<int>)
  {
    var others := OverlappingOf(rs, start, start + duration, exclude);
    && (forall r :: r in others ==> r.userId != userId)
    && !Exceeds(SortByTime(EventsOf(others) + [Event(1, start), Event(-1, start + duration)]), volunteers)
  }

  /** The number of reservations of `rs` other than the excluded one that
      hold instant `t`. */
  function ActiveExcept(rs: seq<Reservation>, exclude: Option<int>, t: int): nat {
    if rs == [] then 0
    else
      var r := rs[|rs| - 1];
      ActiveExcept(rs[..|rs| - 1], exclude, t)
        + (if r.start <= t < r.end && (exclude.None? || r.id != exclude.value) then 1 else 0)
  }

  /** Inside the request, the reservations holding an instant are exactly
      the overlapping ones that hold it. */
  lemma {:induction false} ActiveOverlapping(rs: seq<Reservation>, start: int, end: int, exclude: Option<int>, t: int)
    requires start <= t < end
    ensures ActiveAt(OverlappingOf(rs, start, end, exclude), t) == ActiveExcept(rs, exclude, t)
  {
    if rs != [] {
      var init, r := rs[..|rs| - 1], rs[|rs| - 1];
      ActiveOverlapping(init, start, end, exclude, t);
      var c := OverlappingOf(init, start, end, exclude);
      if Overlaps(r, start, end, exclude) {
        assert (c + [r])[..|c + [r]| - 1] == c;
      }
    }
  }

  /** When the intended test admits a request, at every instant of it the
      reservations already held, plus the request, number at most
      `volunteers`, provided each stored reservation ends no earlier than it
      starts. */
  lemma FixedAdmittedOccupancy(rs: seq<Reservation>, volunteers: int, start: int, duration: int,
                               userId: int, exclude: Option<int>, t: int)
    requires OverlapOkFixed(rs, volunteers, start, duration, userId, exclude)
    requires forall r :: r in rs ==> r.start <= r.end
    requires start <= t < start + duration
    ensures ActiveExcept(rs, exclude, t) + 1 <= volunteers
  {
    var others := OverlappingOf(rs, start, start + duration, exclude);
    var es := EventsOf(others) + [Event(1, start), Event(-1, start + duration)];
    SweptWithRequest(others, start, start + duration, userId, t);
    ActiveOverlapping(rs, start, start + duration, exclude, t);
    var sorted := SortByTime(es);
    SortByTimeIsStableSort(es);
    var k := SortedPrefixUpTo(sorted, t);
    TotalUpToSort(es, t);
    assert Total(sorted[..k]) == ActiveExcept(rs, exclude, t) + 1;
    assert sorted[..0] == [];
  }

  /** Up to an instant of the request, the events of the others and of the
      request add up to the others holding it, plus one. */
  lemma SweptWithRequest(others: seq<Reservation>, start: int, end: int, userId: int, t: int)
    requires forall r :: r in others ==> r.start <= r.end
    requires start <= t < end
    ensures TotalUpTo(EventsOf(others) + [Event(1, start), Event(-1, end)], t) == ActiveAt(others, t) + 1
  {
    var c := Reservation(0, userId, 0, start, end, false, false);
    EventsAppend(others, c);
    EventsUpTo(others + [c], t);
    assert (others + [c])[..|others + [c]| - 1] == others;
  }

  /** The intended test refuses a request that overlaps one of the user's own
      reservations, whichever way the two intersect. */
  lemma FixedNoOwnOverlap(rs: seq<Reservation>, volunteers: int, start: int, duration: int,
                          userId: int, exclude: Option<int>, r: Reservation)
    requires OverlapOkFixed(rs, volunteers, start, duration, userId, exclude)
    requires r in rs && r.userId == userId && (exclude.None? || r.id != exclude.value)
    ensures r.end <= start || start + duration <= r.start
  {
  }

  /** The request of `EnclosedRequestOverbooks`: B encloses it, so it
      overlaps, and the intended test refuses what `check_overlap` admits. */
  lemma FixedRefusesEnclosedRequest()
    ensures var a := Reservation(1, 1, 7, Hours(9), Hours(10), false, false);
      var b := Reservation(2, 2, 7, Hours(9) + Minutes(30), Hours(10) + Minutes(30), false, false);
      !OverlapOkFixed([a, b], 2, Hours(9) + Minutes(45), Minutes(30), 3, None)
  {
    var a := Reservation(1, 1, 7, Hours(9), Hours(10), false, false);
    var b := Reservation(2, 2, 7, Hours(9) + Minutes(30), Hours(10) + Minutes(30), false, false);
    var t := Hours(9) + Minutes(50);
    assert [a, b][..1] == [a];
    assert [a][..0] == [];
    assert ActiveExcept([a], None, t) == 1;
    assert ActiveExcept([a, b], None, t) == 2;
    if OverlapOkFixed([a, b], 2, Hours(9) + Minutes(45), Minutes(30), 3, None) {
      FixedAdmittedOccupancy([a, b], 2, Hours(9) + Minutes(45), Minutes(30), 3, None, t);
    }
  }

  /** The request of `CandidateNotCountedOverbooks`: for one volunteer, a
      second booking of the same hour is refused once the request is swept. */
  lemma FixedRefusesSameHour(existing: Reservation, start: int, end: int, userId: int)
    requires existing.start == start < end == existing.end
    ensures !OverlapOkFixed([existing], 1, start, end - start, userId, None)
  {
    FixedRefusesHeld([existing], 1, start, end - start, userId, None, start);
  }

  /** The same, with the instant held by every reservation of the list. */
  lemma FixedRefusesHeld(rs: seq<Reservation>, volunteers: int, start: int, duration: int,
                         userId: int, exclude: Option<int>, t: int)
    requires |rs| == volunteers && exclude == None
    requires forall i :: 0 <= i < |rs| ==> rs[i].start <= t < rs[i].end
    requires start <= t < start + duration
    ensures !OverlapOkFixed(rs, volunteers, start, duration, userId, exclude)
  {
    AllHold(rs, t);
    FixedRefusesFull(rs, volunteers, start, duration, userId, exclude, t);
  }

  /** Reservations that all hold an instant are all counted at it. */
  lemma {:induction false} AllHold(rs: seq<Reservation>, t: int)
    requires forall i :: 0 <= i < |rs| ==> rs[i].start <= t < rs[i].end
    ensures ActiveExcept(rs, None, t) == |rs|
  {
    if rs != [] {
      AllHold(rs[..|rs| - 1], t);
    }
  }

  /** With the request swept, an instant of the request that the other
      reservations already fill to the number of volunteers is refused. */
  lemma FixedRefusesFull(rs: seq<Reservation>, volunteers: int, start: int, duration: int,
                         userId: int, exclude: Option<int>, t: int)
    requires forall r :: r in rs ==> r.start <= r.end
    requires start <= t < start + duration && ActiveExcept(rs, exclude, t) >= volunteers
    ensures !OverlapOkFixed(rs, volunteers, start, duration, userId, exclude)
  {
    if OverlapOkFixed(rs, volunteers, start, duration, userId, exclude) {
      FixedAdmittedOccupancy(rs, volunteers, start, duration, userId, exclude, t);
    }
  }
}
