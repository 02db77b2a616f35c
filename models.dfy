/** The behaviour carried by the records of `shared_planner/db/models.py`:
    setting values read as booleans and integers, access tokens and their
    expiry, the password-reset life cycle, notifications and which of them a
    user sees, and the selection of reservations still owed a reminder. */
module Models {

  import opened Outcome
  import opened Text
  import opened Clock
  import opened Entities
  import opened Calendar

  // ---- Setting ------------------------------------------------------------

  datatype Setting = Setting(key: string, value: string, private: bool)

  /** `Setting.asBool`: exactly "True" and "False" are booleans. */
  function AsBool(s: Setting): (r: Result<bool>)
    ensures r.Ok? <==> s.value == "True" || s.value == "False"
    ensures r.Ok? ==> (r.value <==> s.value == "True")
  {
    if s.value != "True" && s.value != "False" then
      Err(ValueError("Setting '" + s.key + "' is not a boolean (" + s.value + ")"))
    else Ok(s.value == "True")
  }

  /** What `str(b)` writes reads back as `b`. */
  lemma AsBoolOfStr(key: string, b: bool, private: bool)
    ensures AsBool(Setting(key, if b then "True" else "False", private)) == Ok(b)
  {
  }

  /** Digits with single underscores between them, as `int()` accepts. */
  predicate Grouped(s: string) {
    && |s| >= 1 && IsDigit(s[0]) && IsDigit(s[|s| - 1])
    && (forall i :: 0 <= i < |s| ==> IsDigit(s[i]) || s[i] == '_')
    && (forall i, j :: 0 <= i < |s| && 0 <= j < |s| && j == i + 1 ==> !(s[i] == '_' && s[j] == '_'))
  }

  /** The digits of `s` with its underscores left out. */
  function Ungroup(s: string): (r: string)
    ensures (forall i :: 0 <= i < |s| ==> IsDigit(s[i]) || s[i] == '_') ==> AllDigits(r)
    ensures AllDigits(s) ==> r == s
  {
    if s == [] then []
    else (if s[0] == '_' then [] else [s[0]]) + Ungroup(s[1..])
  }

  /** Grouped digits in base 10. */
  function ReadGrouped(body: string): (r: Option<nat>)
    ensures r.Some? <==> Grouped(body)
  {
    if Grouped(body) then Some(DigitsValue(Ungroup(body))) else None
  }

  /** A signed integer in base 10: an optional sign, then grouped digits. */
  function ReadSigned(t: string): Option<int> {
    var signed := |t| > 0 && (t[0] == '-' || t[0] == '+');
    match ReadGrouped(if signed then t[1..] else t)
    case None => None
    case Some(n) => Some(if signed && t[0] == '-' then -(n as int) else n)
  }

  /** `Setting.asInt`, which is `int(value)` in base 10: a signed integer with
      white space around it. */
  function AsInt(s: Setting): (r: Result<int>)
    ensures r.Err? ==> r.error.ValueError?
  {
    match ReadSigned(Strip(s.value))
    case None => Err(ValueError("invalid literal for int() with base 10: '" + s.value + "'"))
    case Some(n) => Ok(n)
  }

  lemma DigitsGrouped(d: string)
    requires AllDigits(d) && |d| >= 1
    ensures Grouped(d) && Ungroup(d) == d
  {
  }

  lemma ReadDigits(d: string)
    requires AllDigits(d) && |d| >= 1
    ensures ReadGrouped(d) == Some(DigitsValue(d))
  {
    DigitsGrouped(d);
  }

  lemma ReadUnsigned(d: string)
    requires AllDigits(d) && |d| >= 1
    ensures ReadSigned(d) == Some(DigitsValue(d))
  {
    assert IsDigit(d[0]);
    ReadDigits(d);
  }

  lemma ReadNegative(t: string)
    requires |t| >= 2 && t[0] == '-' && AllDigits(t[1..])
    ensures ReadSigned(t) == Some(-(DigitsValue(t[1..]) as int))
  {
    ReadDigits(t[1..]);
  }

  lemma NegativeString(n: int)
    requires n < 0
    ensures var t := IntToString(n); |t| >= 2 && t[0] == '-' && t[1..] == NatToString(-n)
  {
  }

  lemma ReadSignedOfString(n: int)
    ensures ReadSigned(IntToString(n)) == Some(n)
  {
    if n < 0 {
      ReadSignedNeg(n);
    } else {
      ReadSignedPos(n);
    }
  }

  lemma ReadSignedNeg(n: int)
    requires n < 0
    ensures ReadSigned(IntToString(n)) == Some(n)
  {
    var t := IntToString(n);
    var d := NatToString(-n);
    NegativeString(n);
    NatToStringValue(-n);
    assert DigitsValue(t[1..]) == -n;
    ReadNegative(t);
    assert -(DigitsValue(t[1..]) as int) == n;
  }

  lemma ReadSignedPos(n: int)
    requires n >= 0
    ensures ReadSigned(IntToString(n)) == Some(n)
  {
    ReadUnsigned(NatToString(n));
    NatToStringValue(n);
  }

  /** What `str(n)` writes reads back as `n`. */
  lemma IntRoundTrip(key: string, n: int, private: bool)
    ensures AsInt(Setting(key, IntToString(n), private)) == Ok(n)
  {
    var s := IntToString(n);
    var digits := if n < 0 then NatToString(-n) else NatToString(n);
    assert s[|s| - 1] == digits[|digits| - 1];
    assert s[0] == '-' || s[0] == digits[0];
    StripUnchanged(s);
    ReadSignedOfString(n);
  }

  lemma ReadSignedNeedsDigit(t: string)
    requires forall i :: 0 <= i < |t| ==> !IsDigit(t[i])
    ensures ReadSigned(t).None?
  {
    assert |t| >= 2 ==> !IsDigit(t[1..][0]);
    assert |t| >= 1 ==> !IsDigit(t[0]);
  }

  /** Only a text with a digit in it is an integer. */
  lemma AsIntNeedsDigit(s: Setting)
    requires forall i :: 0 <= i < |s.value| ==> !IsDigit(s.value[i])
    ensures AsInt(s).Err?
  {
    var a := StripStart(s.value);
    assert forall i :: 0 <= i < |a| ==> a[i] == s.value[|s.value| - |a| + i];
    var t := StripEnd(a);
    assert forall i :: 0 <= i < |t| ==> t[i] == a[i];
    ReadSignedNeedsDigit(t);
  }

  // ---- Token --------------------------------------------------------------

  /** `now + timedelta(hours=validity.asInt())`, the expiry of a token or a
      reset request made at `now`: the setting's `ValueError`, or the
      `OverflowError` of the timedelta or of the sum, or the instant that many
      hours after `now`. */
  function ExpiryAfter(now: int, validity: Setting): (r: Result<int>)
    ensures AsInt(validity).Err? ==> r == Err(AsInt(validity).error)
    ensures AsInt(validity).Ok? ==> r == AddHours(now, AsInt(validity).value)
    ensures r.Err? ==> r.error.ValueError? || r.error.OverflowError?
    ensures r.Ok? ==> (AsInt(validity).Ok? && r.value == now + Hours(AsInt(validity).value)
      && (AsInt(validity).value >= 0 ==> r.value >= now))
  {
    var hours :- AsInt(validity);
    AddHours(now, hours)
  }

  /** An access token. `expiresAt` is an instant. */
  class Token {
    var userId: int
    var accessToken: string
    var expiresAt: int
    var tokenType: string

    /** The record `Token(user=..., access_token=..., expires_at=...)`. */
    constructor (userId: int, accessToken: string, expiresAt: int)
      ensures this.userId == userId && this.accessToken == accessToken
      ensures this.expiresAt == expiresAt && tokenType == "bearer"
    {
      this.userId := userId;
      this.accessToken := accessToken;
      this.expiresAt := expiresAt;
      this.tokenType := "bearer";
    }

    /** `is_expired`: strictly after the expiry instant. */
    predicate IsExpired(now: int)
      reads this
    {
      expiresAt < now
    }

    /** `renew` at `now`: the token lasts `validity` hours from `now`. When
        the expiry cannot be computed the error propagates and the token is
        left as it was. */
    method Renew(now: int, validity: Setting) returns (r: Result<()>)
      modifies this
      ensures r.Err? <==> ExpiryAfter(now, validity).Err?
      ensures r.Err? ==> r.error == ExpiryAfter(now, validity).error && expiresAt == old(expiresAt)
      ensures r.Ok? ==> expiresAt == ExpiryAfter(now, validity).value
      ensures userId == old(userId) && accessToken == old(accessToken) && tokenType == old(tokenType)
      ensures r.Ok? ==> forall t :: t <= expiresAt ==> !IsExpired(t)
    {
      var expiry := ExpiryAfter(now, validity);
      if expiry.Err? {
        return Err(expiry.error);
      }
      expiresAt := expiry.value;
      return Ok(());
    }
  }

  /** `Token.create_token(user)` at `now`: `accessToken` is the text
      `secrets.token_urlsafe(32)` drew and `validity` the `token_validity`
      setting. The token is built only once its expiry is computed. */
  method CreateToken(userId: int, accessToken: string, now: int, validity: Setting) returns (r: Result<Token>)
    ensures r.Err? <==> ExpiryAfter(now, validity).Err?
    ensures r.Err? ==> r.error == ExpiryAfter(now, validity).error
    ensures r.Ok? ==> (fresh(r.value) && r.value.userId == userId && r.value.accessToken == accessToken
      && r.value.expiresAt == ExpiryAfter(now, validity).value && r.value.tokenType == "bearer")
    ensures r.Ok? && AsInt(validity).value >= 0 ==> !r.value.IsExpired(now)
  {
    var expiry := ExpiryAfter(now, validity);
    if expiry.Err? {
      return Err(expiry.error);
    }
    var token := new Token(userId, accessToken, expiry.value);
    return Ok(token);
  }

  /** A token is still good at its expiry instant and expired from the next
      microsecond on, for ever after. */
  lemma ExpiryBoundary(tok: Token, t: int)
    ensures !tok.IsExpired(tok.expiresAt)
    ensures tok.IsExpired(t) <==> t > tok.expiresAt
  {
  }

  // ---- PasswordReset ------------------------------------------------------

  class PasswordReset {
    var userId: int
    var token: string
    var expiresAt: int
    var used: bool
    var sent: bool

    constructor (userId: int, token: string, expiresAt: int)
      ensures this.userId == userId && this.token == token && this.expiresAt == expiresAt
      ensures !used && !sent
    {
      this.userId := userId;
      this.token := token;
      this.expiresAt := expiresAt;
      this.used := false;
      this.sent := false;
    }
  }

  /** `PasswordReset.create(user, session)` at `now`: `token` is the text
      `secrets.token_urlsafe(32)` drew and `validity` the
      `reset_token_validity` setting. */
  method CreateReset(userId: int, token: string, now: int, validity: Setting) returns (r: Result<PasswordReset>)
    ensures r.Err? <==> ExpiryAfter(now, validity).Err?
    ensures r.Err? ==> r.error == ExpiryAfter(now, validity).error
    ensures r.Ok? ==> (fresh(r.value) && r.value.userId == userId && r.value.token == token
      && r.value.expiresAt == ExpiryAfter(now, validity).value && !r.value.used && !r.value.sent)
  {
    var expiry := ExpiryAfter(now, validity);
    if expiry.Err? {
      return Err(expiry.error);
    }
    var reset := new PasswordReset(userId, token, expiry.value);
    return Ok(reset);
  }

  /** The index of the first reset request with this token, or `|resets|`:
      what `.first()` of the query by token finds. */
  function FirstReset(resets: seq<PasswordReset>, token: string): (i: nat)
    reads resets
    ensures i <= |resets|
    ensures i < |resets| ==> resets[i].token == token
    ensures forall j :: 0 <= j < i ==> resets[j].token != token
  {
    if resets == [] then 0
    else if resets[0].token == token then 0
    else 1 + FirstReset(resets[1..], token)
  }

  /** `PasswordReset.check_token`: unknown, then expired, then used. */
  function CheckToken(resets: seq<PasswordReset>, token: string, now: int): (r: Result<PasswordReset>)
    reads resets
    ensures r.Ok? ==> (r.value in resets && r.value.token == token
                       && !(r.value.expiresAt < now) && !r.value.used)
    ensures r == Err(Http(404, "error.auth.invalid_reset_token"))
        <==> forall j :: 0 <= j < |resets| ==> resets[j].token != token
  {
    var i := FirstReset(resets, token);
    if i == |resets| then Err(Http(404, "error.auth.invalid_reset_token"))
    else if resets[i].expiresAt < now then Err(Http(400, "error.auth.expired_reset_token"))
    else if resets[i].used then Err(Http(400, "error.auth.used_reset_token"))
    else Ok(resets[i])
  }

  /** `PasswordReset.use_token`: checks the token and marks the request
      used, after which the token is refused at every instant, as used now
      and as used or expired later. */
  method UseToken(resets: seq<PasswordReset>, token: string, now: int) returns (r: Result<PasswordReset>)
    modifies resets
    ensures r == old(CheckToken(resets, token, now))
    ensures r.Ok? ==> (r.value.used && r.value.token == old(r.value.token)
                       && r.value.expiresAt == old(r.value.expiresAt) && r.value.userId == old(r.value.userId)
                       && r.value.sent == old(r.value.sent))
    ensures forall x :: x in resets && (r.Err? || x != r.value) ==> unchanged(x)
    ensures r.Ok? ==> CheckToken(resets, token, now) == Err(Http(400, "error.auth.used_reset_token"))
    ensures r.Ok? ==> forall t :: CheckToken(resets, token, t).Err?
  {
    r := CheckToken(resets, token, now);
    if r.Ok? {
      ghost var i := FirstReset(resets, token);
      r.value.used := true;
      assert FirstReset(resets, token) == i;
    }
  }

  // ---- Notification -------------------------------------------------------

  /** A notification; `userId` None is addressed to the administrators. */
  class Notification {
    var userId: Option<int>
    var message: string
    var date: int
    var data: string
    var isReminder: bool
    var read: bool
    var route: Option<string>
    var mail: bool
    var mailSent: bool

    /** `Notification.create(user, message, data, route, is_reminder, mail)`
        at instant `now`. `data` is the dictionary, and `dumped` the text
        `json.dumps` makes of it. */
    constructor Create(user: Option<User>, message: string, data: Option<map<string, string>>,
                       dumped: string, route: Option<string>, isReminder: bool, mail: bool, now: int)
      ensures userId == (if user.Some? then Some(user.value.id) else None)
      ensures this.message == message && date == now
      ensures this.data == (if data.Some? && |data.value| > 0 then dumped else "{}")
      ensures this.route == route && this.isReminder == isReminder && this.mail == mail
      ensures !read && !mailSent
    {
      userId := if user.Some? then Some(user.value.id) else None;
      this.message := message;
      this.data := if data.Some? && |data.value| > 0 then dumped else "{}";
      this.route := route;
      this.date := now;
      this.mail := mail;
      this.isReminder := isReminder;
      this.read := false;
      this.mailSent := false;
    }

    method MarkRead()
      modifies this
      ensures read
      ensures userId == old(userId) && message == old(message) && date == old(date) && data == old(data)
      ensures isReminder == old(isReminder) && route == old(route) && mail == old(mail)
      ensures mailSent == old(mailSent)
    {
      read := true;
    }

    method MarkUnread()
      modifies this
      ensures !read
      ensures userId == old(userId) && message == old(message) && date == old(date) && data == old(data)
      ensures isReminder == old(isReminder) && route == old(route) && mail == old(mail)
      ensures mailSent == old(mailSent)
    {
      read := false;
    }
  }

  /** Whether `user` sees `n` at `now`: addressed to them, or to the
      administrators when they are one, and dated strictly before `now`. */
  predicate VisibleTo(n: Notification, user: User, now: int)
    reads n
  {
    (n.userId == Some(user.id) || (n.userId.None? && user.admin)) && n.date < now
  }

  /** `list_notifications`. */
  function ListNotifications(ns: seq<Notification>, user: User, now: int): (r: seq<Notification>)
    reads ns
    ensures forall i :: 0 <= i < |r| ==> r[i] in ns && VisibleTo(r[i], user, now)
    ensures forall i :: 0 <= i < |ns| && VisibleTo(ns[i], user, now) ==> ns[i] in r
  {
    if ns == [] then []
    else
      assert forall i :: 1 <= i < |ns| ==> ns[i] == ns[1..][i - 1];
      (if VisibleTo(ns[0], user, now) then [ns[0]] else []) + ListNotifications(ns[1..], user, now)
  }

  /** `find_unread`. */
  function FindUnread(ns: seq<Notification>, user: User, now: int): (r: seq<Notification>)
    reads ns
    ensures forall i :: 0 <= i < |r| ==> r[i] in ns && VisibleTo(r[i], user, now) && !r[i].read
    ensures forall i :: 0 <= i < |ns| && VisibleTo(ns[i], user, now) && !ns[i].read ==> ns[i] in r
  {
    if ns == [] then []
    else
      assert forall i :: 1 <= i < |ns| ==> ns[i] == ns[1..][i - 1];
      (if VisibleTo(ns[0], user, now) && !ns[0].read then [ns[0]] else []) + FindUnread(ns[1..], user, now)
  }

  /** `count_unread`: a COUNT over the same condition. */
  function CountUnread(ns: seq<Notification>, user: User, now: int): (c: nat)
    reads ns
    ensures c == |FindUnread(ns, user, now)|
    ensures c <= |ns|
  {
    if ns == [] then 0
    else (if VisibleTo(ns[0], user, now) && !ns[0].read then 1 else 0) + CountUnread(ns[1..], user, now)
  }

  /** Every unread notification found is one of those listed. */
  lemma UnreadAmongListed(ns: seq<Notification>, user: User, now: int)
    ensures forall i :: 0 <= i < |FindUnread(ns, user, now)| ==>
      FindUnread(ns, user, now)[i] in ListNotifications(ns, user, now)
  {
  }

  /** A notification addressed to the administrators is never visible to a
      user who is not one. */
  lemma AdminNotificationsHidden(ns: seq<Notification>, user: User, now: int)
    requires !user.admin
    ensures forall i :: 0 <= i < |ListNotifications(ns, user, now)| ==>
      ListNotifications(ns, user, now)[i].userId == Some(user.id)
  {
  }

  // ---- Reminders ----------------------------------------------------------

  /** The reservations `find_unsent_reminders` selects once its bound
      `before` is computed: no reminder sent yet, and a start before the
      bound, in table order. */
  function UnsentReminders(rs: seq<Reservation>, before: int): (r: seq<Reservation>)
    ensures |r| <= |rs|
    ensures forall x :: x in r <==> x in rs && !x.reminderSent && x.start < before
  {
    if rs == [] then []
    else
      assert forall x :: x in rs <==> x == rs[0] || x in rs[1..];
      var rest := UnsentReminders(rs[1..], before);
      if !rs[0].reminderSent && rs[0].start < before then [rs[0]] + rest else rest
  }

  /** `Reservation.find_unsent_reminders(session, hours_before)` at `now`:
      the bound `now + timedelta(hours=hours_before)` raises `OverflowError`
      when it cannot be computed, and otherwise the reservations without a
      reminder that start before it are selected. */
  function FindUnsentReminders(rs: seq<Reservation>, now: int, hoursBefore: int): (r: Result<seq<Reservation>>)
    ensures r.Err? <==> !DeltaHoursOk(hoursBefore) || !InRange(now + Hours(hoursBefore))
    ensures r.Err? ==> r.error.OverflowError?
    ensures r.Ok? ==> forall x :: x in r.value <==> x in rs && !x.reminderSent && x.start < now + Hours(hoursBefore)
  {
    var before :- AddHours(now, hoursBefore);
    Ok(UnsentReminders(rs, before))
  }
}
