/** The two time helpers of the web front end, `web/src/utils.ts`: an
    "HH:MM" string to minutes since midnight and back. JavaScript numbers
    are taken to be integers here, with `NaN` kept apart. */
module TimeCodec {

  import opened Text

  /** A JavaScript number that is an integer, or `NaN`. */
  datatype Num = Num(value: int) | NaN

  function Add(a: Num, b: Num): (r: Num)
    ensures r.Num? <==> a.Num? && b.Num?
  {
    if a.Num? && b.Num? then Num(a.value + b.value) else NaN
  }

  function Times(a: Num, k: int): (r: Num)
    ensures r.Num? <==> a.Num?
  {
    if a.Num? then Num(a.value * k) else NaN
  }

  /** The white space `Number` trims: the ECMAScript WhiteSpace and
      LineTerminator characters; of the Unicode space separators only U+0020
      and U+00A0. */
  predicate JsSpace(c: char) {
    c == '\t' || c == '\n' || c == '\U{B}' || c == '\U{C}' || c == '\r' || c == ' '
    || c == '\U{A0}' || c == '\U{FEFF}' || c == '\U{2028}' || c == '\U{2029}'
  }

  function TrimStart(s: string): string {
    if s != [] && JsSpace(s[0]) then TrimStart(s[1..]) else s
  }

  function TrimEnd(s: string): string {
    if s != [] && JsSpace(s[|s| - 1]) then TrimEnd(s[..|s| - 1]) else s
  }

  /** A decimal integer literal: an optional sign and at least one digit. */
  function DecimalValue(s: string): Num {
    if s != [] && s[0] == '-' && |s| >= 2 && AllDigits(s[1..]) then Num(-(DigitsValue(s[1..]) as int))
    else if s != [] && s[0] == '+' && |s| >= 2 && AllDigits(s[1..]) then Num(DigitsValue(s[1..]))
    else if s != [] && AllDigits(s) then Num(DigitsValue(s))
    else NaN
  }

  /** `Number(s)` for a string: white space around the literal is dropped,
      an empty or blank string is 0. */
  function JsNumber(s: string): Num {
    var t := TrimEnd(TrimStart(s));
    if t == [] then Num(0) else DecimalValue(t)
  }

  /** `timeToMinutes(time)`: the parts before and after the first ':' as
      numbers, `hour * 60 + minute`. A string without ':' leaves the minute
      `undefined`, which makes the sum `NaN`; parts after a second ':' are
      not looked at. */
  function TimeToMinutes(time: string): Num {
    var parts := Split(time, ':');
    var hour := JsNumber(parts[0]);
    var minute := if |parts| >= 2 then JsNumber(parts[1]) else NaN;
    Add(Times(hour, 60), minute)
  }

  /** `m % 60` in JavaScript: the remainder has the sign of `m`. */
  function JsRem(m: int, d: int): (r: int)
    requires d > 0
    ensures -d < r < d
    ensures m >= 0 ==> r == m % d
    ensures m < 0 ==> r <= 0
  {
    if m >= 0 then m % d else -((-m) % d)
  }

  /** `minutesToTime(minutes)`: `Math.floor(minutes / 60)` and
      `minutes % 60`, each written in decimal, left-padded with '0' to two
      characters, joined by ':'. */
  function MinutesToTime(minutes: int): string {
    PadStart(IntToString(minutes / 60), 2, '0') + ":" + PadStart(IntToString(JsRem(minutes, 60)), 2, '0')
  }

  // ---- numbers ------------------------------------------------------------

  lemma {:induction false} LeadingZero(s: string)
    requires AllDigits(s)
    ensures AllDigits("0" + s) && DigitsValue("0" + s) == DigitsValue(s)
  {
    if s != [] {
      var t := "0" + s;
      assert t[..|t| - 1] == "0" + s[..|s| - 1];
      LeadingZero(s[..|s| - 1]);
    }
  }

  /** Padding with zeros keeps the value of a digit string. */
  lemma {:induction false} ZeroPadValue(s: string, width: nat)
    requires AllDigits(s)
    ensures AllDigits(PadStart(s, width, '0'))
    ensures DigitsValue(PadStart(s, width, '0')) == DigitsValue(s)
    decreases width
  {
    if |s| < width {
      var r := PadStart(s, width, '0');
      assert r == "0" + PadStart(s, width - 1, '0') by {
        var q := PadStart(s, width - 1, '0');
        assert |q| == width - 1;
        assert forall i :: 0 <= i < |r| ==> r[i] == ("0" + q)[i];
      }
      ZeroPadValue(s, width - 1);
      LeadingZero(PadStart(s, width - 1, '0'));
    }
  }

  lemma NoSpaceTrimmed(s: string)
    requires s != [] && !JsSpace(s[0]) && !JsSpace(s[|s| - 1])
    ensures TrimEnd(TrimStart(s)) == s
  {
  }

  /** A string of digits reads as its decimal value. */
  lemma JsNumberOfDigits(s: string)
    requires s != [] && AllDigits(s)
    ensures JsNumber(s) == Num(DigitsValue(s))
  {
    assert IsDigit(s[0]) && IsDigit(s[|s| - 1]);
    NoSpaceTrimmed(s);
  }

  /** A '-' in front of digits reads as the negated value. */
  lemma JsNumberOfNegative(s: string)
    requires |s| >= 2 && s[0] == '-' && AllDigits(s[1..])
    ensures JsNumber(s) == Num(-(DigitsValue(s[1..]) as int))
  {
    assert IsDigit(s[1..][|s| - 2]);
    NoSpaceTrimmed(s);
  }

  /** `Number` reads back every integer as `toString` writes it and
      `padStart(2, '0')` pads it. */
  lemma JsNumberOfPadded(n: int)
    ensures JsNumber(PadStart(IntToString(n), 2, '0')) == Num(n)
  {
    if n >= 0 {
      NatToStringValue(n);
      ZeroPadValue(NatToString(n), 2);
      JsNumberOfDigits(PadStart(NatToString(n), 2, '0'));
    } else {
      var t := NatToString(-n);
      NatToStringValue(-n);
      var s := "-" + t;
      assert IntToString(n) == s;
      assert PadStart(s, 2, '0') == s;
      assert s[1..] == t;
      JsNumberOfNegative(s);
    }
  }

  // ---- the codec ----------------------------------------------------------

  lemma NoColonInPadded(n: int)
    ensures ':' !in PadStart(IntToString(n), 2, '0')
  {
    var p := PadStart(IntToString(n), 2, '0');
    var s := IntToString(n);
    if n >= 0 {
      assert forall i :: 0 <= i < |s| ==> IsDigit(s[i]);
    } else {
      var t := NatToString(-n);
      assert s[1..] == t;
      forall i | 1 <= i < |s| ensures IsDigit(s[i]) {
        assert s[i] == t[i - 1];
      }
    }
    forall i | 0 <= i < |p| ensures p[i] != ':' {
      if i >= |p| - |s| {
        assert p[i] == s[i - (|p| - |s|)];
      }
    }
  }

  lemma SplitTime(h: string, m: string)
    requires ':' !in h && ':' !in m
    ensures Split(h + ":" + m, ':') == [h, m]
  {
    SplitSeparated(h, m, ':');
    SplitOfPart(m, ':');
  }

  /** `timeToMinutes("H:M")` with each part a decimal integer: H * 60 + M. */
  lemma TimeOfParts(h: string, m: string, hour: int, minute: int)
    requires ':' !in h && ':' !in m
    requires JsNumber(h) == Num(hour) && JsNumber(m) == Num(minute)
    ensures TimeToMinutes(h + ":" + m) == Num(hour * 60 + minute)
  {
    SplitTime(h, m);
  }

  /** A time without ':' has no minute part and gives `NaN`. */
  lemma MissingMinuteIsNaN(time: string)
    requires ':' !in time
    ensures TimeToMinutes(time) == NaN
  {
    SplitOfPart(time, ':');
  }

  /** A third part after another ':' is ignored. */
  lemma ExtraPartIgnored(h: string, m: string, rest: string)
    requires ':' !in h && ':' !in m
    ensures TimeToMinutes(h + ":" + m + ":" + rest) == TimeToMinutes(h + ":" + m)
  {
    SplitSeparated(h, m + ":" + rest, ':');
    assert h + ":" + m + ":" + rest == h + [':'] + (m + [':'] + rest);
    SplitSeparated(m, rest, ':');
    SplitSeparated(h, m, ':');
    SplitOfPart(m, ':');
  }

  /** What any integer's time string reads as: its `Math.floor` quotient
      by 60 times 60, plus its JavaScript remainder by 60. */
  lemma ReadBack(minutes: int)
    ensures TimeToMinutes(MinutesToTime(minutes)) == Num(60 * (minutes / 60) + JsRem(minutes, 60))
  {
    ReadBackParts(minutes / 60, JsRem(minutes, 60));
  }

  /** An hour and a minute, each padded to two places and joined by ':',
      read back as hour * 60 + minute. */
  lemma ReadBackParts(hour: int, minute: int)
    ensures TimeToMinutes(PadStart(IntToString(hour), 2, '0') + ":" + PadStart(IntToString(minute), 2, '0'))
         == Num(hour * 60 + minute)
  {
    var h := PadStart(IntToString(hour), 2, '0');
    var m := PadStart(IntToString(minute), 2, '0');
    NoColonInPadded(hour);
    NoColonInPadded(minute);
    JsNumberOfPadded(hour);
    JsNumberOfPadded(minute);
    TimeOfParts(h, m, hour, minute);
  }

  /** Every non-negative number of minutes comes back from its time string. */
  lemma RoundTrip(minutes: nat)
    ensures TimeToMinutes(MinutesToTime(minutes)) == Num(minutes)
  {
    ReadBack(minutes);
    assert 60 * (minutes / 60) + JsRem(minutes, 60) == minutes;
  }

  /** A negative number of minutes comes back only when it is a whole number
      of hours; otherwise it comes back one hour less: the hour is rounded
      down while the minute keeps the sign, so -5 is written "-1:-5" and
      read as -65. */
  lemma NegativeReadBack(minutes: int)
    requires minutes < 0
    ensures minutes % 60 == 0 ==> TimeToMinutes(MinutesToTime(minutes)) == Num(minutes)
    ensures minutes % 60 != 0 ==> TimeToMinutes(MinutesToTime(minutes)) == Num(minutes - 60)
  {
    ReadBack(minutes);
    FloorPlusRem(minutes);
  }

  lemma FloorPlusRem(m: int)
    requires m < 0
    ensures m % 60 == 0 ==> 60 * (m / 60) + JsRem(m, 60) == m
    ensures m % 60 != 0 ==> 60 * (m / 60) + JsRem(m, 60) == m - 60
  {
    var k := -m;
    var q, r := k / 60, k % 60;
    assert k == 60 * q + r;
    assert JsRem(m, 60) == -r;
    if r == 0 {
      DivModUnique(m, 60, -q, 0);
    } else {
      DivModUnique(m, 60, -q - 1, 60 - r);
    }
  }

  /** Below 100 hours, the decimal form padded to two characters is the two
      digit form. */
  lemma PaddedTwoDigits(n: nat)
    requires n < 100
    ensures PadStart(IntToString(n), 2, '0') == Digits(n, 2)
  {
    var a, b := n / 10, n % 10;
    assert a < 10 && a % 10 == a && a / 10 == 0;
    assert Digits(n, 2) == [DigitChar(a), DigitChar(b)] by {
      assert Digits(n, 2) == Digits(a, 1) + [DigitChar(b)];
      assert Digits(a, 1) == Digits(0, 0) + [DigitChar(a)];
    }
    if n < 10 {
      assert a == 0 && b == n;
      assert NatToString(n) == [DigitChar(n)];
    } else {
      assert NatToString(n) == NatToString(a) + [DigitChar(b)];
      assert NatToString(a) == [DigitChar(a)];
    }
  }

  lemma ColonInMiddle(hh: string, mm: string)
    requires |hh| == 2 && |mm| == 2
    ensures |hh + ":" + mm| == 5 && (hh + ":" + mm)[2] == ':'
  {
  }

  /** Within 100 hours the time string is five characters with ':' in the
      middle and two digits on either side, and it is the "HH:MM" form. */
  lemma ShortForm(minutes: nat)
    requires minutes < 6000
    ensures MinutesToTime(minutes) == Digits(minutes / 60, 2) + ":" + Digits(minutes % 60, 2)
    ensures |MinutesToTime(minutes)| == 5 && MinutesToTime(minutes)[2] == ':'
  {
    var q, r := minutes / 60, minutes % 60;
    assert q < 100;
    assert JsRem(minutes, 60) == r;
    PaddedTwoDigits(q);
    PaddedTwoDigits(r);
    var hh, mm := Digits(q, 2), Digits(r, 2);
    assert MinutesToTime(minutes) == hh + ":" + mm;
    ColonInMiddle(hh, mm);
  }

  /** Every "HH:MM" string with MM below 60 reads as HH * 60 + MM and is
      written back unchanged. */
  lemma CanonicalRoundTrip(h: nat, m: nat)
    requires h < 100 && m < 60
    ensures TimeToMinutes(Digits(h, 2) + ":" + Digits(m, 2)) == Num(h * 60 + m)
    ensures MinutesToTime(h * 60 + m) == Digits(h, 2) + ":" + Digits(m, 2)
  {
    PaddedTwoDigits(h);
    PaddedTwoDigits(m);
    NoColonInPadded(h);
    NoColonInPadded(m);
    JsNumberOfPadded(h);
    JsNumberOfPadded(m);
    TimeOfParts(Digits(h, 2), Digits(m, 2), h, m);
    DivModUnique(h * 60 + m, 60, h, m);
    ShortForm(h * 60 + m);
  }

  // ---- minutesToTime as evidently intended ---------------------------------

  /** `minutesToTime` with the minute field taken as the floor remainder,
      `((minutes % 60) + 60) % 60` in JavaScript, so that it is never
      negative. */
  function MinutesToTimeFixed(minutes: int): string {
    PadStart(IntToString(minutes / 60), 2, '0') + ":" + PadStart(IntToString(minutes % 60), 2, '0')
  }

  /** Every number of minutes, negative ones included, is read back. */
  lemma RoundTripFixed(minutes: int)
    ensures TimeToMinutes(MinutesToTimeFixed(minutes)) == Num(minutes)
  {
    ReadBackParts(minutes / 60, minutes % 60);
  }

  /** On numbers that are not negative the intended text is the source's. */
  lemma FixedAgreesOnNatural(minutes: nat)
    ensures MinutesToTimeFixed(minutes) == MinutesToTime(minutes)
  {
  }
}
