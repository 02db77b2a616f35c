/** `create_ics` of `shared_planner/ics.py`: the iCalendar text (RFC 5545) of
    one event, sent with the reservation e-mails. The clock reading for
    DTSTAMP is a parameter. */
module Ics {

  import opened Outcome
  import opened Text
  import opened Clock
  import opened Calendar

  // ---- the header values --------------------------------------------------

  /** SEQUENCE: 0 by default, 1 for an update, 2 for a cancellation, the
      cancellation being set last. */
  function SequenceNumber(cancel: bool, update: bool): (n: nat)
    ensures n == 2 <==> cancel
    ensures n == 1 <==> update && !cancel
    ensures n == 0 <==> !update && !cancel
  {
    var afterUpdate := if update then 1 else 0;
    if cancel then 2 else afterUpdate
  }

  /** METHOD. */
  function MethodName(cancel: bool, update: bool): (m: string)
    ensures m == "PUBLISH" <==> !update && !cancel
    ensures m == "PUBLISH" || m == "REQUEST"
  {
    if !update && !cancel then "PUBLISH" else "REQUEST"
  }

  /** STATUS. */
  function StatusName(cancel: bool): (s: string)
    ensures s == "CANCELLED" <==> cancel
    ensures s == "CANCELLED" || s == "CONFIRMED"
  {
    if cancel then "CANCELLED" else "CONFIRMED"
  }

  /** A cancellation sent for an update is still a cancellation: all three
      values follow `cancel` alone once it is set. */
  lemma CancelWins(update: bool)
    ensures SequenceNumber(true, update) == 2 && MethodName(true, update) == "REQUEST"
    ensures StatusName(true) == "CANCELLED"
  {
  }

  // ---- DESCRIPTION escaping -----------------------------------------------

  /** `description.replace("\n", "\\n")`: every line feed becomes a backslash
      followed by `n`. */
  function EscapeNewlines(s: string): (r: string)
    ensures '\n' !in r
    ensures |r| == |s| + Count(s, '\n')
  {
    if s == [] then [] else (if s[0] == '\n' then "\\n" else [s[0]]) + EscapeNewlines(s[1..])
  }

  /** The reading a calendar client applies to `\n` in a TEXT value. */
  function UnescapeNewlines(s: string): string {
    if |s| >= 2 && s[0] == '\\' && s[1] == 'n' then "\n" + UnescapeNewlines(s[2..])
    else if s == [] then []
    else [s[0]] + UnescapeNewlines(s[1..])
  }

  /** A description without a backslash is read back exactly. */
  lemma {:induction false} UnescapeEscape(s: string)
    requires '\\' !in s
    ensures UnescapeNewlines(EscapeNewlines(s)) == s
  {
    if s != [] {
      var rest := EscapeNewlines(s[1..]);
      assert '\\' !in s[1..];
      UnescapeEscape(s[1..]);
      if s[0] == '\n' {
        assert EscapeNewlines(s) == "\\n" + rest;
        assert ("\\n" + rest)[2..] == rest;
      } else {
        assert EscapeNewlines(s) == [s[0]] + rest;
        assert ([s[0]] + rest)[1..] == rest;
      }
      assert s == [s[0]] + s[1..];
    }
  }

  /** A description without line feeds is sent as it is. */
  lemma {:induction false} EscapeUnchanged(s: string)
    requires '\n' !in s
    ensures EscapeNewlines(s) == s
  {
    if s != [] {
      assert '\n' !in s[1..];
      EscapeUnchanged(s[1..]);
      assert s == [s[0]] + s[1..];
    }
  }

  /** Backslashes are not escaped, so a line feed and a backslash followed by
      `n` are sent alike (section 3.3.11 of RFC 5545 asks for `\\`). */
  lemma EscapeNotInjective()
    ensures EscapeNewlines("\n") == EscapeNewlines("\\n") == "\\n"
  {
    assert EscapeNewlines("\n") == "\\n" + EscapeNewlines([]);
    assert "\\n"[1..] == "n";
    assert "n"[1..] == [];
    assert EscapeNewlines("\\n") == "\\" + EscapeNewlines("n");
  }

  // ---- ORGANIZER ----------------------------------------------------------

  datatype Organizer = Organizer(name: string, email: string)

  /** `organizer_name, organizer_email = organizer.split("<")`, then the last
      character of the e-mail dropped, both parts stripped and the e-mail
      lowered. Unpacking fails unless the text holds exactly one '<'. */
  function ParseOrganizer(organizer: string): (r: Result<Organizer>)
    ensures r.Ok? <==> Count(organizer, '<') == 1
    ensures r.Err? ==> r.error.ValueError?
  {
    SplitCount(organizer, '<');
    var parts := Split(organizer, '<');
    if |parts| < 2 then Err(ValueError("not enough values to unpack (expected 2, got 1)"))
    else if |parts| > 2 then Err(ValueError("too many values to unpack (expected 2)"))
    else
      var rawEmail := if parts[1] == [] then [] else parts[1][..|parts[1]| - 1];
      Ok(Organizer(Strip(parts[0]), Lower(Strip(rawEmail))))
  }

  /** There is one more piece than separators. */
  lemma {:induction false} SplitCount(s: string, c: char)
    ensures |Split(s, c)| == Count(s, c) + 1
  {
    if s != [] {
      SplitCount(s[1..], c);
    }
  }

  lemma OrganizerOfForm(name: string, email: string, last: char)
    requires '<' !in name && '<' !in email && last != '<'
    ensures ParseOrganizer(name + "<" + email + [last]) == Ok(Organizer(Strip(name), Lower(Strip(email))))
  {
    var tail := email + [last];
    assert '<' !in tail;
    SplitOfPart(tail, '<');
    SplitSeparated(name, tail, '<');
    assert name + "<" + email + [last] == name + ['<'] + tail;
    assert tail[..|tail| - 1] == email;
  }

  // ---- the calendar -------------------------------------------------------

  /** The lines of the calendar, in order, with the three instants already
      written out. */
  function IcsLines(eventName: string, dtStart: string, dtEnd: string, dtStamp: string, description: string,
                    location: string, org: Organizer, id: string, cancel: bool, update: bool): (lines: seq<string>)
    ensures |lines| == 17
  {
    [ "BEGIN:VCALENDAR",
      "VERSION:2.0",
      "PRODID:-//LiteApp//SharedPlanner//EN",
      "METHOD:" + MethodName(cancel, update),
      "BEGIN:VEVENT",
      "UID:" + id + "@liteapp.fr",
      "DTSTAMP:" + dtStamp,
      "DTSTART:" + dtStart,
      "DTEND:" + dtEnd,
      "SUMMARY:" + eventName,
      "DESCRIPTION:" + EscapeNewlines(description),
      "LOCATION:" + location,
      "ORGANIZER;CN=" + org.name + ":MAILTO:" + org.email,
      "STATUS:" + StatusName(cancel),
      "SEQUENCE:" + NatToString(SequenceNumber(cancel, update)),
      "END:VEVENT",
      "END:VCALENDAR" ]
  }

  /** The lines joined with a line feed. */
  function IcsText(eventName: string, dtStart: string, dtEnd: string, dtStamp: string, description: string,
                   location: string, org: Organizer, id: string, cancel: bool, update: bool): string
  {
    Join(IcsLines(eventName, dtStart, dtEnd, dtStamp, description, location, org, id, cancel, update), '\n')
  }

  /** `create_ics(event_name, start_time, duration_minutes, description,
      location, organizer, id, cancel, update)` with `now` for
      `datetime.now()`: the start is read with "%Y-%m-%d %H:%M", and the rest
      is `IcsFrom`. A calendar is produced exactly when the start is read,
      the end can be built and the organizer splits. */
  function CreateIcs(eventName: string, startTime: string, duration: int, description: string,
                     location: string, organizer: string, id: string, cancel: bool, update: bool, now: int)
    : (r: Result<string>)
    requires now >= 0
    ensures r.Ok? <==> && ParseDateMinute(startTime).Ok?
                       && AddMinutes(ParseDateMinute(startTime).value, duration).Ok?
                       && Count(organizer, '<') == 1
  {
    var start :- ParseDateMinute(startTime);
    IcsFrom(eventName, start, duration, description, location, organizer, id, cancel, update, now)
  }

  /** `create_ics` once the start is read: the end lies `duration` minutes
      later and must be a date Python can hold, the organizer is split, and
      the lines are joined with a line feed. The end's `OverflowError` comes
      before the organizer's `ValueError`. */
  function IcsFrom(eventName: string, start: int, duration: int, description: string,
                   location: string, organizer: string, id: string, cancel: bool, update: bool, now: int)
    : (r: Result<string>)
    requires start >= 0 && now >= 0
    ensures r.Ok? <==> AddMinutes(start, duration).Ok? && Count(organizer, '<') == 1
    ensures AddMinutes(start, duration).Err? ==> r == Err(AddMinutes(start, duration).error)
    ensures AddMinutes(start, duration).Ok? && r.Err? ==> r.error.ValueError?
  {
    if AddMinutes(start, duration).Err? then Err(AddMinutes(start, duration).error)
    else
      var org :- ParseOrganizer(organizer);
      Ok(IcsText(eventName, FormatCompact(start), FormatCompact(start + Minutes(duration)), FormatCompact(now),
                 description, location, org, id, cancel, update))
  }

  /** A start written with "%Y-%m-%d %H:%M" is read back as that instant
      without its seconds. */
  lemma IcsOfFormattedStart(eventName: string, t: int, duration: int, description: string,
                            location: string, organizer: string, id: string, cancel: bool, update: bool, now: int)
    requires InRange(t) && now >= 0
    ensures TruncateToMinute(t) >= 0
    ensures CreateIcs(eventName, FormatDateMinute(t), duration, description, location, organizer, id, cancel, update, now)
         == IcsFrom(eventName, TruncateToMinute(t), duration, description, location, organizer, id, cancel, update, now)
  {
    ParseFormatDateMinute(t);
  }

  lemma NoNewlineInDigits(s: string)
    requires AllDigits(s)
    ensures '\n' !in s
  {
  }

  lemma NoNewlineCompact(t: int)
    requires t >= 0
    ensures '\n' !in FormatCompact(t)
  {
    var d := DateOfInstant(t);
    NoNewlineInDigits(Digits(d.year, 4));
    NoNewlineInDigits(Digits(d.month, 2));
    NoNewlineInDigits(Digits(d.day, 2));
    NoNewlineInDigits(Digits(Hour(t), 2));
    NoNewlineInDigits(Digits(Minute(t), 2));
    NoNewlineInDigits(Digits(Second(t), 2));
  }

  lemma NoNewlineInCompact()
    ensures forall t :: t >= 0 ==> '\n' !in FormatCompact(t)
  {
    forall t | t >= 0 ensures '\n' !in FormatCompact(t) {
      NoNewlineCompact(t);
    }
  }

  lemma NoNewlineLower(s: string)
    requires '\n' !in s
    ensures '\n' !in Lower(s)
  {
  }

  lemma NoNewlineStrip(s: string)
    requires '\n' !in s
    ensures '\n' !in Strip(s)
  {
    var a := StripStart(s);
    assert a == s[|s| - |a|..];
    assert '\n' !in a;
    var b := StripEnd(a);
    assert b == a[..|b|];
  }

  /** The organizer's parts hold no line feed when the organizer holds none. */
  lemma NoNewlineOrganizer(organizer: string)
    requires '\n' !in organizer && ParseOrganizer(organizer).Ok?
    ensures var org := ParseOrganizer(organizer).value; '\n' !in org.name && '\n' !in org.email
  {
    var parts := Split(organizer, '<');
    SplitPieces(organizer, '<');
    assert parts[0] in parts && parts[1] in parts;
    assert '\n' !in parts[0] && '\n' !in parts[1];
    var rawEmail := if parts[1] == [] then [] else parts[1][..|parts[1]| - 1];
    assert forall x :: x in rawEmail ==> x in parts[1];
    NoNewlineStrip(parts[0]);
    NoNewlineStrip(rawEmail);
    NoNewlineLower(Strip(rawEmail));
  }

  /** Every piece of a split holds only characters of the text. */
  lemma {:induction false} SplitPieces(s: string, c: char)
    ensures forall p, x :: p in Split(s, c) && x in p ==> x in s
  {
    if s != [] {
      SplitPieces(s[1..], c);
      var rest := Split(s[1..], c);
      assert forall x :: x in s[1..] ==> x in s;
      if s[0] != c {
        assert forall x :: x in [s[0]] + rest[0] ==> x == s[0] || x in rest[0];
        assert rest[0] in rest;
        assert forall p :: p in rest[1..] ==> p in rest;
      }
    }
  }

  /** The lines of the calendar hold no line feed when the event name, the
      location, the organizer and the id hold none. */
  lemma LinesHaveNoNewline(eventName: string, dtStart: string, dtEnd: string, dtStamp: string, description: string,
                           location: string, org: Organizer, id: string, cancel: bool, update: bool)
    requires '\n' !in eventName && '\n' !in location && '\n' !in id && '\n' !in org.name && '\n' !in org.email
    requires '\n' !in dtStart && '\n' !in dtEnd && '\n' !in dtStamp
    ensures var lines := IcsLines(eventName, dtStart, dtEnd, dtStamp, description, location, org, id, cancel, update);
      forall i :: 0 <= i < |lines| ==> '\n' !in lines[i]
  {
    var lines := IcsLines(eventName, dtStart, dtEnd, dtStamp, description, location, org, id, cancel, update);
    var sequence := NatToString(SequenceNumber(cancel, update));
    NoNewlineInDigits(sequence);
    forall i | 0 <= i < |lines| ensures '\n' !in lines[i] {
      if i < 5 {
        CalendarHeadHasNoNewline(lines[..5], MethodName(cancel, update));
        assert lines[i] == lines[..5][i];
      } else if i < 9 {
        EventHeadHasNoNewline(lines[5..9], id, dtStamp, dtStart, dtEnd);
        assert lines[i] == lines[5..9][i - 5];
      } else {
        TailHasNoNewline(lines[9..], eventName, EscapeNewlines(description), location, org, StatusName(cancel), sequence);
        assert lines[i] == lines[9..][i - 9];
      }
    }
  }

  lemma CalendarHeadHasNoNewline(head: seq<string>, methodName: string)
    requires '\n' !in methodName
    requires head == [ "BEGIN:VCALENDAR", "VERSION:2.0", "PRODID:-//LiteApp//SharedPlanner//EN", "METHOD:" + methodName,
                       "BEGIN:VEVENT" ]
    ensures forall i :: 0 <= i < |head| ==> '\n' !in head[i]
  {
    NoNewlineAppend("METHOD:", methodName);
  }

  lemma EventHeadHasNoNewline(head: seq<string>, id: string, dtStamp: string, dtStart: string, dtEnd: string)
    requires '\n' !in id && '\n' !in dtStamp && '\n' !in dtStart && '\n' !in dtEnd
    requires head == [ "UID:" + id + "@liteapp.fr", "DTSTAMP:" + dtStamp, "DTSTART:" + dtStart, "DTEND:" + dtEnd ]
    ensures forall i :: 0 <= i < |head| ==> '\n' !in head[i]
  {
    NoNewlineAppend("UID:", id);
    NoNewlineAppend("UID:" + id, "@liteapp.fr");
    NoNewlineAppend("DTSTAMP:", dtStamp);
    NoNewlineAppend("DTSTART:", dtStart);
    NoNewlineAppend("DTEND:", dtEnd);
  }

  lemma NoNewlineAppend(a: string, b: string)
    requires '\n' !in a && '\n' !in b
    ensures '\n' !in a + b
  {
  }

  lemma TailHasNoNewline(tail: seq<string>, eventName: string, description: string, location: string,
                         org: Organizer, status: string, sequence: string)
    requires '\n' !in eventName && '\n' !in description && '\n' !in location && '\n' !in org.name
    requires '\n' !in org.email && '\n' !in status && '\n' !in sequence
    requires tail == [ "SUMMARY:" + eventName, "DESCRIPTION:" + description, "LOCATION:" + location,
                       "ORGANIZER;CN=" + org.name + ":MAILTO:" + org.email, "STATUS:" + status,
                       "SEQUENCE:" + sequence, "END:VEVENT", "END:VCALENDAR" ]
    ensures forall i :: 0 <= i < |tail| ==> '\n' !in tail[i]
  {
  }

  /** A calendar that was produced is one VCALENDAR around one VEVENT,
      written as 17 lines: the UID is the id with "@liteapp.fr", DTSTART is
      the start, DTEND lies `duration` minutes after it, the description is
      escaped, and the header values follow the flags. Only the first and the
      fifth line open a component. */
  lemma IcsLayout(eventName: string, start: int, duration: int, description: string, location: string,
                  organizer: string, id: string, cancel: bool, update: bool, now: int, ics: string)
    requires start >= 0 && now >= 0
    requires '\n' !in eventName && '\n' !in location && '\n' !in id && '\n' !in organizer
    requires IcsFrom(eventName, start, duration, description, location, organizer, id, cancel, update, now) == Ok(ics)
    ensures start + Minutes(duration) >= 0
    ensures var lines := Split(ics, '\n');
      && |lines| == 17
      && lines[0] == "BEGIN:VCALENDAR" && lines[4] == "BEGIN:VEVENT"
      && lines[15] == "END:VEVENT" && lines[16] == "END:VCALENDAR"
      && (forall i :: 0 <= i < 17 && |lines[i]| >= 6 && lines[i][..6] == "BEGIN:" ==> i == 0 || i == 4)
      && lines[3] == "METHOD:" + MethodName(cancel, update)
      && lines[5] == "UID:" + id + "@liteapp.fr"
      && lines[6] == "DTSTAMP:" + FormatCompact(now)
      && lines[7] == "DTSTART:" + FormatCompact(start)
      && lines[8] == "DTEND:" + FormatCompact(start + Minutes(duration))
      && lines[10] == "DESCRIPTION:" + EscapeNewlines(description)
      && lines[13] == "STATUS:" + StatusName(cancel)
      && lines[14] == "SEQUENCE:" + NatToString(SequenceNumber(cancel, update))
  {
    IcsSplitsIntoLines(eventName, start, duration, description, location, organizer, id, cancel, update, now, ics);
    var org := ParseOrganizer(organizer).value;
    var dtStart, dtEnd, dtStamp := FormatCompact(start), FormatCompact(start + Minutes(duration)), FormatCompact(now);
    var lines := Split(ics, '\n');
    LinesLayout(lines, eventName, dtStart, dtEnd, dtStamp, description, location, org, id, cancel, update);
    TwoBegins(lines, eventName, dtStart, dtEnd, dtStamp, description, location, org, id, cancel, update);
  }

  /** A calendar that was produced splits at its line feeds into the lines
      of the template. */
  lemma IcsSplitsIntoLines(eventName: string, start: int, duration: int, description: string, location: string,
                           organizer: string, id: string, cancel: bool, update: bool, now: int, ics: string)
    requires start >= 0 && now >= 0
    requires '\n' !in eventName && '\n' !in location && '\n' !in id && '\n' !in organizer
    requires IcsFrom(eventName, start, duration, description, location, organizer, id, cancel, update, now) == Ok(ics)
    ensures start + Minutes(duration) >= 0 && ParseOrganizer(organizer).Ok?
    ensures Split(ics, '\n') == IcsLines(eventName, FormatCompact(start), FormatCompact(start + Minutes(duration)),
                                         FormatCompact(now), description, location, ParseOrganizer(organizer).value,
                                         id, cancel, update)
  {
    IcsIsJoin(eventName, start, duration, description, location, organizer, id, cancel, update, now);
    NoNewlineOrganizer(organizer);
    SplitCompactText(ics, eventName, start, duration, now, description, location, ParseOrganizer(organizer).value, id,
                     cancel, update);
  }

  /** The text of the template, with three instants written out, splits back
      into its lines. */
  lemma SplitCompactText(ics: string, eventName: string, start: int, duration: int, now: int, description: string,
                         location: string, org: Organizer, id: string, cancel: bool, update: bool)
    requires start >= 0 && start + Minutes(duration) >= 0 && now >= 0
    requires '\n' !in eventName && '\n' !in location && '\n' !in id && '\n' !in org.name && '\n' !in org.email
    requires ics == IcsText(eventName, FormatCompact(start), FormatCompact(start + Minutes(duration)), FormatCompact(now),
                            description, location, org, id, cancel, update)
    ensures Split(ics, '\n') == IcsLines(eventName, FormatCompact(start), FormatCompact(start + Minutes(duration)),
                                         FormatCompact(now), description, location, org, id, cancel, update)
  {
    var dtStart, dtEnd, dtStamp := FormatCompact(start), FormatCompact(start + Minutes(duration)), FormatCompact(now);
    NoNewlineInCompact();
    LinesSplit(eventName, dtStart, dtEnd, dtStamp, description, location, org, id, cancel, update);
  }

  lemma IcsIsJoin(eventName: string, start: int, duration: int, description: string,
                  location: string, organizer: string, id: string, cancel: bool, update: bool, now: int)
    requires start >= 0 && now >= 0
    requires IcsFrom(eventName, start, duration, description, location, organizer, id, cancel, update, now).Ok?
    ensures start + Minutes(duration) >= 0 && ParseOrganizer(organizer).Ok?
    ensures IcsFrom(eventName, start, duration, description, location, organizer, id, cancel, update, now).value
         == IcsText(eventName, FormatCompact(start), FormatCompact(start + Minutes(duration)), FormatCompact(now),
                    description, location, ParseOrganizer(organizer).value, id, cancel, update)
  {
  }

  /** Lines without line feeds, once joined, split back into those lines. */
  lemma LinesSplit(eventName: string, dtStart: string, dtEnd: string, dtStamp: string, description: string,
                   location: string, org: Organizer, id: string, cancel: bool, update: bool)
    requires '\n' !in eventName && '\n' !in location && '\n' !in id && '\n' !in org.name && '\n' !in org.email
    requires '\n' !in dtStart && '\n' !in dtEnd && '\n' !in dtStamp
    ensures Split(IcsText(eventName, dtStart, dtEnd, dtStamp, description, location, org, id, cancel, update), '\n')
         == IcsLines(eventName, dtStart, dtEnd, dtStamp, description, location, org, id, cancel, update)
  {
    LinesHaveNoNewline(eventName, dtStart, dtEnd, dtStamp, description, location, org, id, cancel, update);
    SplitJoin(IcsLines(eventName, dtStart, dtEnd, dtStamp, description, location, org, id, cancel, update), '\n');
  }

  /** Where the template puts each field. */
  lemma LinesLayout(lines: seq<string>, eventName: string, dtStart: string, dtEnd: string, dtStamp: string,
                    description: string, location: string, org: Organizer, id: string, cancel: bool, update: bool)
    requires lines == IcsLines(eventName, dtStart, dtEnd, dtStamp, description, location, org, id, cancel, update)
    ensures |lines| == 17
      && lines[0] == "BEGIN:VCALENDAR" && lines[4] == "BEGIN:VEVENT"
      && lines[15] == "END:VEVENT" && lines[16] == "END:VCALENDAR"
      && lines[3] == "METHOD:" + MethodName(cancel, update)
      && lines[5] == "UID:" + id + "@liteapp.fr"
      && lines[6] == "DTSTAMP:" + dtStamp
      && lines[7] == "DTSTART:" + dtStart
      && lines[8] == "DTEND:" + dtEnd
      && lines[10] == "DESCRIPTION:" + EscapeNewlines(description)
      && lines[12] == "ORGANIZER;CN=" + org.name + ":MAILTO:" + org.email
      && lines[13] == "STATUS:" + StatusName(cancel)
      && lines[14] == "SEQUENCE:" + NatToString(SequenceNumber(cancel, update))
  {
  }

  /** The template opens a component only on its first and fifth line:
      no other line starts with 'B'. */
  lemma TwoBegins(lines: seq<string>, eventName: string, dtStart: string, dtEnd: string, dtStamp: string,
                  description: string, location: string, org: Organizer, id: string, cancel: bool, update: bool)
    requires lines == IcsLines(eventName, dtStart, dtEnd, dtStamp, description, location, org, id, cancel, update)
    ensures forall i :: 0 <= i < |lines| && |lines[i]| >= 6 && lines[i][..6] == "BEGIN:" ==> i == 0 || i == 4
  {
    LinesFirstChars(lines, eventName, dtStart, dtEnd, dtStamp, description, location, org, id, cancel, update);
    forall i | 0 <= i < |lines| && |lines[i]| >= 6 && lines[i][..6] == "BEGIN:" ensures i == 0 || i == 4 {
      assert lines[i][0] == lines[i][..6][0];
    }
  }

  /** Every line but the first and the fifth starts with a letter other
      than 'B'. */
  lemma LinesFirstChars(lines: seq<string>, eventName: string, dtStart: string, dtEnd: string, dtStamp: string,
                        description: string, location: string, org: Organizer, id: string, cancel: bool, update: bool)
    requires lines == IcsLines(eventName, dtStart, dtEnd, dtStamp, description, location, org, id, cancel, update)
    ensures forall i :: 0 <= i < |lines| && i != 0 && i != 4 ==> lines[i] != [] && lines[i][0] != 'B'
  {
    forall i | 0 <= i < |lines| && i != 0 && i != 4 ensures lines[i] != [] && lines[i][0] != 'B' {
      if i < 9 {
        HeadFirstChars(lines[..9], MethodName(cancel, update), id, dtStamp, dtStart, dtEnd);
        assert lines[i] == lines[..9][i];
      } else {
        TailFirstChars(lines[9..], eventName, EscapeNewlines(description), location, org, StatusName(cancel),
                       NatToString(SequenceNumber(cancel, update)));
        assert lines[i] == lines[9..][i - 9];
      }
    }
  }

  lemma HeadFirstChars(head: seq<string>, methodName: string, id: string, dtStamp: string, dtStart: string, dtEnd: string)
    requires head == [ "BEGIN:VCALENDAR", "VERSION:2.0", "PRODID:-//LiteApp//SharedPlanner//EN", "METHOD:" + methodName,
                       "BEGIN:VEVENT", "UID:" + id + "@liteapp.fr", "DTSTAMP:" + dtStamp, "DTSTART:" + dtStart,
                       "DTEND:" + dtEnd ]
    ensures forall i :: 0 <= i < |head| && i != 0 && i != 4 ==> head[i] != [] && head[i][0] != 'B'
  {
  }

  lemma TailFirstChars(tail: seq<string>, eventName: string, description: string, location: string,
                       org: Organizer, status: string, sequence: string)
    requires tail == [ "SUMMARY:" + eventName, "DESCRIPTION:" + description, "LOCATION:" + location,
                       "ORGANIZER;CN=" + org.name + ":MAILTO:" + org.email, "STATUS:" + status,
                       "SEQUENCE:" + sequence, "END:VEVENT", "END:VCALENDAR" ]
    ensures forall i :: 0 <= i < |tail| ==> tail[i] != [] && tail[i][0] != 'B'
  {
  }

  /** A start text `strptime` refuses produces that error and no calendar. */
  lemma BadStartRefused(eventName: string, startTime: string, duration: int, description: string,
                        location: string, organizer: string, id: string, cancel: bool, update: bool, now: int)
    requires now >= 0 && ParseDateMinute(startTime).Err?
    ensures CreateIcs(eventName, startTime, duration, description, location, organizer, id, cancel, update, now)
         == Err(ParseDateMinute(startTime).error)
  {
  }

  /** A length whose timedelta cannot be built, or an end outside the years
      1 to 9999, produces an `OverflowError`, whatever the organizer. */
  lemma BadEndRefused(eventName: string, startTime: string, duration: int, description: string,
                      location: string, organizer: string, id: string, cancel: bool, update: bool, now: int)
    requires now >= 0 && ParseDateMinute(startTime).Ok?
    requires !DeltaMinutesOk(duration) || !InRange(ParseDateMinute(startTime).value + Minutes(duration))
    ensures var r := CreateIcs(eventName, startTime, duration, description, location, organizer, id, cancel, update, now);
      r.Err? && r.error.OverflowError?
  {
    CreateIcsOfStart(eventName, startTime, duration, description, location, organizer, id, cancel, update, now);
    IcsFromBadEnd(eventName, ParseDateMinute(startTime).value, duration, description, location, organizer, id, cancel,
                  update, now);
  }

  lemma CreateIcsOfStart(eventName: string, startTime: string, duration: int, description: string,
                         location: string, organizer: string, id: string, cancel: bool, update: bool, now: int)
    requires now >= 0 && ParseDateMinute(startTime).Ok?
    ensures ParseDateMinute(startTime).value >= 0
    ensures CreateIcs(eventName, startTime, duration, description, location, organizer, id, cancel, update, now)
         == IcsFrom(eventName, ParseDateMinute(startTime).value, duration, description, location, organizer, id,
                    cancel, update, now)
  {
  }

  lemma IcsFromBadEnd(eventName: string, start: int, duration: int, description: string,
                      location: string, organizer: string, id: string, cancel: bool, update: bool, now: int)
    requires start >= 0 && now >= 0 && (!DeltaMinutesOk(duration) || !InRange(start + Minutes(duration)))
    ensures var r := IcsFrom(eventName, start, duration, description, location, organizer, id, cancel, update, now);
      r.Err? && r.error.OverflowError?
  {
  }

  /** An organizer without exactly one '<' produces no calendar. */
  lemma BadOrganizerRefused(eventName: string, startTime: string, duration: int, description: string,
                            location: string, organizer: string, id: string, cancel: bool, update: bool, now: int)
    requires now >= 0 && Count(organizer, '<') != 1
    ensures CreateIcs(eventName, startTime, duration, description, location, organizer, id, cancel, update, now).Err?
  {
  }

  // ---- the calendar as RFC 5545 asks for it --------------------------------

  /** Lines feeds are bare: the first line, "BEGIN:VCALENDAR", is followed by
      a line feed with no carriage return before it. */
  lemma BareLineFeeds(eventName: string, dtStart: string, dtEnd: string, dtStamp: string, description: string,
                      location: string, org: Organizer, id: string, cancel: bool, update: bool)
    ensures var ics := IcsText(eventName, dtStart, dtEnd, dtStamp, description, location, org, id, cancel, update);
      |ics| > 15 && ics[15] == '\n' && ics[14] != '\r'
  {
    var lines := IcsLines(eventName, dtStart, dtEnd, dtStamp, description, location, org, id, cancel, update);
    assert IcsText(eventName, dtStart, dtEnd, dtStamp, description, location, org, id, cancel, update)
        == "BEGIN:VCALENDAR" + ['\n'] + Join(lines[1..], '\n');
  }

  /** Content lines each ended by a carriage return and a line feed, as
      section 3.1 of RFC 5545 asks. */
  function CrlfText(lines: seq<string>): string {
    if lines == [] then [] else lines[0] + "\r\n" + CrlfText(lines[1..])
  }

  /** When no line holds a line feed, every line feed of the text follows a
      carriage return, and the text ends with one. */
  lemma {:induction false} CrlfEndings(lines: seq<string>)
    requires forall i :: 0 <= i < |lines| ==> '\n' !in lines[i]
    ensures var text := CrlfText(lines);
      forall k :: 0 <= k < |text| && text[k] == '\n' ==> k > 0 && text[k - 1] == '\r'
    ensures lines != [] ==> |CrlfText(lines)| >= 2 && CrlfText(lines)[|CrlfText(lines)| - 1] == '\n'
  {
    if lines != [] {
      var l, rest := lines[0], CrlfText(lines[1..]);
      CrlfEndings(lines[1..]);
      var text := CrlfText(lines);
      assert text == l + "\r\n" + rest;
      forall k | 0 <= k < |text| && text[k] == '\n' ensures k > 0 && text[k - 1] == '\r' {
        if k > |l| + 1 {
          assert text[k] == rest[k - |l| - 2];
          assert text[k - 1] == rest[k - |l| - 3];
        }
      }
    }
  }

  /** TEXT escaping as section 3.3.11 of RFC 5545 asks: backslash, semicolon,
      comma and line feed are each preceded by a backslash (the line feed
      written as `n`). */
  function EscapeChar(c: char): string {
    if c == '\\' then "\\\\" else if c == ';' then "\\;" else if c == ',' then "\\,"
    else if c == '\n' then "\\n" else [c]
  }

  function EscapeText(s: string): (r: string)
    ensures '\n' !in r
  {
    if s == [] then [] else EscapeChar(s[0]) + EscapeText(s[1..])
  }

  /** The reading of section 3.3.11: a backslash and the next character
      stand for that character, `\n` and `\N` for a line feed. */
  function UnescapeText(s: string): string {
    if |s| >= 2 && s[0] == '\\' then (if s[1] == 'n' || s[1] == 'N' then "\n" else [s[1]]) + UnescapeText(s[2..])
    else if s == [] then []
    else [s[0]] + UnescapeText(s[1..])
  }

  lemma UnescapeChar(c: char, rest: string)
    ensures UnescapeText(EscapeChar(c) + rest) == [c] + UnescapeText(rest)
  {
    var e := EscapeChar(c) + rest;
    if |EscapeChar(c)| == 2 {
      assert e[2..] == rest;
    } else {
      assert e[1..] == rest;
    }
  }

  /** Every description is read back exactly, backslashes included. */
  lemma {:induction false} UnescapeEscapeText(s: string)
    ensures UnescapeText(EscapeText(s)) == s
  {
    if s != [] {
      UnescapeEscapeText(s[1..]);
      UnescapeChar(s[0], EscapeText(s[1..]));
      assert s == [s[0]] + s[1..];
    }
  }

  /** The two texts `EscapeNotInjective` confuses are told apart. */
  lemma EscapeTextSeparates()
    ensures EscapeText("\n") != EscapeText("\\n")
  {
    UnescapeEscapeText("\n");
    UnescapeEscapeText("\\n");
  }

  // ---- ORGANIZER as evidently intended -------------------------------------

  /** The organizer parsed as the form "name <email>" it assumes: after the
      one '<', the text must end with '>', which is what is dropped. */
  function ParseOrganizerFixed(organizer: string): (r: Result<Organizer>)
    ensures r.Ok? <==> Count(organizer, '<') == 1 && |organizer| > 0 && organizer[|organizer| - 1] == '>'
  {
    SplitCount(organizer, '<');
    var parts := Split(organizer, '<');
    if |parts| < 2 then Err(ValueError("not enough values to unpack (expected 2, got 1)"))
    else if |parts| > 2 then Err(ValueError("too many values to unpack (expected 2)"))
    else
      TailEndsLikeText(organizer, '<', '>');
      var tail := parts[1];
      if tail == [] || tail[|tail| - 1] != '>' then Err(ValueError("organizer does not end with '>'"))
      else Ok(Organizer(Strip(parts[0]), Lower(Strip(tail[..|tail| - 1]))))
  }

  /** The second of two pieces ends with `e` exactly when the text does. */
  lemma TailEndsLikeText(s: string, c: char, e: char)
    requires |Split(s, c)| == 2 && c != e
    ensures var t := Split(s, c)[1];
      (t != [] && t[|t| - 1] == e) <==> (|s| > 0 && s[|s| - 1] == e)
  {
    SplitLastPiece(s, c);
    var t := Split(s, c)[1];
    if t != [] {
      assert t[|t| - 1] == s[|s| - |t|..][|t| - 1];
    }
  }

  /** The last piece of a split is a suffix of the text, and is empty only
      when the text is or ends with the separator. */
  lemma {:induction false} SplitLastPiece(s: string, c: char)
    ensures var p := Split(s, c)[|Split(s, c)| - 1];
      |p| <= |s| && p == s[|s| - |p|..] && (p == [] <==> s == [] || s[|s| - 1] == c)
    ensures |Split(s, c)| == 1 ==> Split(s, c)[0] == s
  {
    SplitSingle(s, c);
    SplitLastSuffix(s, c);
    SplitLastEmpty(s, c);
  }

  /** A text split into one piece is that piece. */
  lemma {:induction false} SplitSingle(s: string, c: char)
    ensures |Split(s, c)| == 1 ==> Split(s, c)[0] == s
  {
    if s != [] {
      SplitSingle(s[1..], c);
      assert s == [s[0]] + s[1..];
    }
  }

  /** The last piece of a split is a suffix of the text. */
  lemma {:induction false} SplitLastSuffix(s: string, c: char)
    ensures var p := Split(s, c)[|Split(s, c)| - 1];
      |p| <= |s| && p == s[|s| - |p|..]
  {
    if s != [] {
      var rest := Split(s[1..], c);
      SplitLastSuffix(s[1..], c);
      var q := rest[|rest| - 1];
      assert s[1..][|s[1..]| - |q|..] == s[|s| - |q|..];
      if s[0] != c && |rest| == 1 {
        SplitSingle(s[1..], c);
        assert s == [s[0]] + s[1..];
      }
    }
  }

  /** The last piece is empty exactly when the text is or ends with the
      separator. */
  lemma {:induction false} SplitLastEmpty(s: string, c: char)
    ensures var p := Split(s, c)[|Split(s, c)| - 1];
      p == [] <==> s == [] || s[|s| - 1] == c
  {
    if s != [] {
      var rest := Split(s[1..], c);
      SplitLastEmpty(s[1..], c);
      assert |s| > 1 ==> s[1..][|s[1..]| - 1] == s[|s| - 1];
      if s[0] != c && |rest| == 1 {
        SplitSingle(s[1..], c);
      }
    }
  }

  /** "name <email>" is read as the stripped name and the lowered, stripped
      e-mail, nothing of the e-mail dropped. */
  lemma FixedOrganizerOfForm(name: string, email: string)
    requires '<' !in name && '<' !in email
    ensures ParseOrganizerFixed(name + "<" + email + ">") == Ok(Organizer(Strip(name), Lower(Strip(email))))
  {
    var tail := email + ">";
    assert '<' !in tail;
    SplitOfPart(tail, '<');
    SplitSeparated(name, tail, '<');
    assert name + "<" + email + ">" == name + ['<'] + tail;
    assert tail[..|tail| - 1] == email;
  }
}
