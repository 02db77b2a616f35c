/** The checks of `shared_planner/api/auth.py`: the dependencies that turn a
    bearer token into a user and an administrator, and the validation of a
    registration, with the e-mail pattern `[^@]+@[^@]+\.[^@]+` as `re.match`
    applies it (anchored at the start only). */
module Auth {

  import opened Outcome
  import opened Entities
  import opened Models

  // ---- the e-mail pattern -------------------------------------------------

  /** No '@' in s[lo..hi]. */
  predicate NoAt(s: string, lo: int, hi: int) {
    forall j :: lo <= j < hi && 0 <= j < |s| ==> s[j] != '@'
  }

  /** The pattern matches `s` with its '@' at `p` and its '.' at `q`: a
      non-empty run without '@' (s[0..p]), the '@', a non-empty run without
      '@' (s[p+1..q]), the '.', and one more character that is not '@'. */
  predicate EmailShape(s: string, p: int, q: int)
    ensures EmailShape(s, p, q) ==>
      0 < p < q < |s| - 1 && s[p] == '@' && '@' !in s[..p] && '@' !in s[p + 1..q]
  {
    0 < p && p + 1 < q && q + 1 < |s| && s[p] == '@' && s[q] == '.'
    && s[q + 1] != '@' && NoAt(s, 0, p) && NoAt(s, p + 1, q)
  }

  /** `re.match(r"[^@]+@[^@]+\.[^@]+", s)` succeeds: the pattern matches a
      prefix of `s`; whatever follows is not looked at. */
  predicate EmailPattern(s: string) {
    exists p, q | 0 <= p < |s| && 0 <= q < |s| :: EmailShape(s, p, q)
  }

  /** The index of the first '@' at or after `from`, or `|s|`. */
  function FirstAt(s: string, from: nat): (i: nat)
    requires from <= |s|
    ensures from <= i <= |s| && (i < |s| ==> s[i] == '@')
    ensures forall j :: from <= j < i ==> s[j] != '@'
    decreases |s| - from
  {
    if from == |s| || s[from] == '@' then from else FirstAt(s, from + 1)
  }

  /** Some '.' at or after `i`, before the next '@', is followed by a
      character other than '@'. */
  predicate DotInRun(s: string, i: nat)
    decreases |s| - i
  {
    i < |s| && s[i] != '@'
    && ((s[i] == '.' && i + 1 < |s| && s[i + 1] != '@') || DotInRun(s, i + 1))
  }

  /** A left-to-right scan for the pattern: the first '@', a character that
      is not '@' after it, then a dot inside the same run. */
  predicate EmailMatches(s: string) {
    var p := FirstAt(s, 0);
    0 < p && p + 2 < |s| && s[p + 1] != '@' && DotInRun(s, p + 2)
  }

  lemma {:induction false} DotWitness(s: string, i: nat) returns (q: nat)
    requires DotInRun(s, i)
    ensures i <= q && q + 1 < |s| && s[q] == '.' && s[q + 1] != '@'
    ensures forall j :: i <= j <= q ==> s[j] != '@'
    decreases |s| - i
  {
    if s[i] == '.' && i + 1 < |s| && s[i + 1] != '@' {
      q := i;
    } else {
      q := DotWitness(s, i + 1);
    }
  }

  lemma {:induction false} DotComplete(s: string, i: nat, q: nat)
    requires i <= q && q + 1 < |s| && s[q] == '.' && s[q + 1] != '@'
    requires forall j :: i <= j <= q ==> s[j] != '@'
    ensures DotInRun(s, i)
    decreases q - i
  {
    if i < q {
      DotComplete(s, i + 1, q);
    }
  }

  /** The scan answers exactly what the pattern says. */
  lemma EmailMatchesIff(s: string)
    ensures EmailMatches(s) <==> EmailPattern(s)
  {
    if EmailMatches(s) {
      MatchesHasPattern(s);
    }
    if EmailPattern(s) {
      PatternIsMatched(s);
    }
  }

  lemma MatchesHasPattern(s: string)
    requires EmailMatches(s)
    ensures EmailPattern(s)
  {
    var p := FirstAt(s, 0);
    var q := DotWitness(s, p + 2);
    assert EmailShape(s, p, q);
  }

  lemma PatternIsMatched(s: string)
    requires EmailPattern(s)
    ensures EmailMatches(s)
  {
    var p, q :| 0 <= p < |s| && 0 <= q < |s| && EmailShape(s, p, q);
    MatchedAt(s, p, q);
  }

  lemma MatchedAt(s: string, p: int, q: int)
    requires EmailShape(s, p, q)
    ensures EmailMatches(s)
  {
    FirstAtIs(s, 0, p);
    forall j | p + 2 <= j <= q ensures s[j] != '@' {
      if j < q {
        assert p + 1 <= j < q;
      }
    }
    DotComplete(s, p + 2, q);
    assert s[p + 1] != '@';
  }

  /** The first '@' from `from` on is at `k` when `k` holds one and nothing
      between them does. */
  lemma {:induction false} FirstAtIs(s: string, from: nat, k: nat)
    requires from <= k < |s| && s[k] == '@'
    requires forall j :: from <= j < k ==> s[j] != '@'
    ensures FirstAt(s, from) == k
    decreases k - from
  {
    if from < k {
      FirstAtIs(s, from + 1, k);
    }
  }

  /** Anything may follow a matching prefix. */
  lemma EmailSuffixIgnored(s: string, rest: string)
    requires EmailPattern(s)
    ensures EmailPattern(s + rest)
  {
    var p, q :| 0 <= p < |s| && 0 <= q < |s| && EmailShape(s, p, q);
    ShapeKept(s, rest, p, q);
  }

  lemma ShapeKept(s: string, rest: string, p: int, q: int)
    requires EmailShape(s, p, q)
    ensures EmailShape(s + rest, p, q)
  {
    var t := s + rest;
    assert forall j :: 0 <= j < |s| ==> t[j] == s[j];
  }

  /** Two addresses at either end of the pattern: a trailing second '@' is
      accepted, an address without a dot after the '@' is not. */
  lemma EmailExamples()
    ensures EmailPattern("a@b.c@")
    ensures !EmailPattern("a@b")
  {
    assert EmailShape("a@b.c@", 1, 3);
  }

  // ---- register -----------------------------------------------------------

  /** The checks of `register`, in order. `emailTaken` says whether a user
      with this e-mail exists. */
  function RegisterCheck(emailTaken: bool, email: string, fullName: string, password: string): (r: Result<()>)
    ensures emailTaken ==> r == Err(Http(409, "Email already registered"))
    ensures r.Err? ==> r.error.Http? && r.error.status in {400, 409}
  {
    if emailTaken then Err(Http(409, "Email already registered"))
    else if |password| < 6 then Err(Http(400, "Password too short"))
    else if |fullName| < 3 then Err(Http(400, "Full name too short"))
    else if !EmailMatches(email) then Err(Http(400, "Invalid email"))
    else Ok(())
  }

  /** A registration passes exactly when the e-mail is new, the password has
      at least 6 characters, the name at least 3, and the e-mail matches the
      pattern. */
  lemma RegisterAcceptedIff(emailTaken: bool, email: string, fullName: string, password: string)
    ensures RegisterCheck(emailTaken, email, fullName, password).Ok?
        <==> !emailTaken && |password| >= 6 && |fullName| >= 3 && EmailPattern(email)
  {
    EmailMatchesIff(email);
  }

  /** A taken e-mail is reported first, whatever else is wrong. */
  lemma TakenEmailFirst(email: string, fullName: string, password: string)
    ensures RegisterCheck(true, email, fullName, password) == Err(Http(409, "Email already registered"))
  {
  }

  // ---- dependencies -------------------------------------------------------

  /** `CurrentAdmin`. */
  function CurrentAdmin(user: User): (r: Result<User>)
    ensures r.Ok? <==> user.admin
    ensures r.Ok? ==> r.value == user
    ensures r.Err? ==> r.error == Http(403, "User is not an admin")
  {
    if !user.admin then Err(Http(403, "User is not an admin")) else Ok(user)
  }

  /** The index of the first token with this access token, or `|tokens|`. */
  function FirstToken(tokens: seq<Token>, accessToken: string): (i: nat)
    reads tokens
    ensures i <= |tokens|
    ensures i < |tokens| ==> tokens[i].accessToken == accessToken
    ensures forall j :: 0 <= j < i ==> tokens[j].accessToken != accessToken
  {
    if tokens == [] then 0
    else if tokens[0].accessToken == accessToken then 0
    else 1 + FirstToken(tokens[1..], accessToken)
  }

  /** `CurrentToken` at instant `now`. */
  function CurrentToken(tokens: seq<Token>, accessToken: string, now: int): (r: Result<Token>)
    reads tokens
    ensures r.Ok? ==> r.value in tokens && r.value.accessToken == accessToken && !r.value.IsExpired(now)
    ensures r == Err(Http(401, "Invalid token"))
        <==> forall j :: 0 <= j < |tokens| ==> tokens[j].accessToken != accessToken
  {
    var i := FirstToken(tokens, accessToken);
    if i == |tokens| then Err(Http(401, "Invalid token"))
    else if tokens[i].IsExpired(now) then Err(Http(401, "Token expired"))
    else Ok(tokens[i])
  }

  /** An expired token stays refused at every later instant. */
  lemma ExpiredTokenStaysRefused(tokens: seq<Token>, accessToken: string, now: int, later: int)
    requires CurrentToken(tokens, accessToken, now) == Err(Http(401, "Token expired"))
    requires now <= later
    ensures CurrentToken(tokens, accessToken, later) == Err(Http(401, "Token expired"))
  {
  }
}
