/**
  The client-side checks of the `SignUp` form.  The first failing check
  sets the error line and nothing is sent; only a form that passes all
  three is posted to `/signup`.
 */
module SignUp {
  import opened Seqs
  import JsString
  import Http
  import SignupRoute

  predicate IsAsciiLetter(c: char) {
    ('a' <= c <= 'z') || ('A' <= c <= 'Z')
  }

  predicate IsAsciiDigit(c: char) {
    '0' <= c <= '9'
  }

  /** The class `[a-zA-Z0-9._%+-]` of the local part. */
  predicate IsLocalChar(c: char) {
    IsAsciiLetter(c) || IsAsciiDigit(c) || c == '.' || c == '_' || c == '%' || c == '+' || c == '-'
  }

  /** The class `[a-zA-Z0-9.-]` of the domain. */
  predicate IsDomainChar(c: char) {
    IsAsciiLetter(c) || IsAsciiDigit(c) || c == '.' || c == '-'
  }

  /** `s` splits as local part, the `@` at `at`, domain, the `.` at `dot`
      and a top-level domain of two or more letters. */
  predicate SplitsAt(s: string, at: int, dot: int) {
    && 0 < at && at + 1 < dot && dot + 3 <= |s|
    && s[at] == '@' && s[dot] == '.'
    && (forall k :: 0 <= k < at ==> IsLocalChar(s[k]))
    && (forall k :: at < k < dot ==> IsDomainChar(s[k]))
    && (forall k :: dot < k < |s| ==> IsAsciiLetter(s[k]))
  }

  /** The whole string matches `^[a-zA-Z0-9._%+-]+@[a-zA-Z0-9.-]+\.[a-zA-Z]{2,}$`:
      the regular expression may split the string anywhere that fits. */
  ghost predicate MatchesEmailPattern(s: string) {
    exists at, dot :: SplitsAt(s, at, dot)
  }

  /** The first index of `c`, or `|s|` when there is none. */
  function IndexOf(s: string, c: char): (k: nat)
    ensures k <= |s|
    ensures k < |s| ==> s[k] == c
    ensures forall i :: 0 <= i < k ==> s[i] != c
  {
    if |s| == 0 then 0
    else if s[0] == c then 0
    else 1 + IndexOf(s[1..], c)
  }

  /** The last index of `c`, or -1 when there is none. */
  function LastIndexOf(s: string, c: char): (k: int)
    ensures -1 <= k < |s|
    ensures k >= 0 ==> s[k] == c
    ensures forall i :: k < i < |s| ==> s[i] != c
  {
    if |s| == 0 then -1
    else if s[|s| - 1] == c then |s| - 1
    else LastIndexOf(s[..|s| - 1], c)
  }

  /** No character class of the pattern contains `@`, and the top-level
      domain contains no `.`: so the only split that can fit is at the
      first `@` and the last `.`. */
  lemma {:induction false} OnlySplitIsFirstAtLastDot(s: string)
    ensures MatchesEmailPattern(s) <==> SplitsAt(s, IndexOf(s, '@'), LastIndexOf(s, '.'))
  {
    var at := IndexOf(s, '@');
    var dot := LastIndexOf(s, '.');
    if MatchesEmailPattern(s) {
      var a, d :| SplitsAt(s, a, d);
      assert at == a && dot == d;
    }
    if SplitsAt(s, at, dot) {
      assert MatchesEmailPattern(s);
    }
  }

  /** `isValidEmail(email)` */
  function IsValidEmail(s: string): (r: bool)
    ensures r <==> MatchesEmailPattern(s)
  {
    OnlySplitIsFirstAtLastDot(s);
    SplitsAt(s, IndexOf(s, '@'), LastIndexOf(s, '.'))
  }

  lemma AcceptedShortEmail()
    ensures IsValidEmail("jo@x.io")
  {
    assert SplitsAt("jo@x.io", 2, 4);
  }

  lemma AcceptedDottedEmail()
    ensures IsValidEmail("a.b+c@x.y.org")
  {
    assert SplitsAt("a.b+c@x.y.org", 5, 9);
  }

  lemma RejectedEmails()
    ensures !IsValidEmail("jo@x.c")
    ensures !IsValidEmail("@x.io")
    ensures !IsValidEmail("jo@x.i0")
  {
  }

  const FillAllFields := "Please fill up all fields"
  const InvalidEmail := "Invalid email format"
  const ShortPassword := "Password must be at least 8 characters"

  /** What `handleSubmit` does before any request: reject with the first
      failing check's message, or post the three fields. */
  datatype Submission = Rejected(error: string) | Post(email: string, userName: string, password: string)

  function HandleSubmit(email: string, userName: string, password: string): (r: Submission)
    ensures r == Rejected(FillAllFields) <==> email == "" || userName == "" || password == ""
    ensures r == Rejected(InvalidEmail) <==>
              email != "" && userName != "" && password != "" && !MatchesEmailPattern(email)
    ensures r == Rejected(ShortPassword) <==>
              email != "" && userName != "" && password != "" && MatchesEmailPattern(email)
              && JsString.Utf16Length(password) < 8
    ensures r.Post? <==>
              email != "" && userName != "" && password != "" && MatchesEmailPattern(email)
              && JsString.Utf16Length(password) >= 8
    ensures r.Post? ==> r == Post(email, userName, password)
  {
    if email == "" || userName == "" || password == "" then Rejected(FillAllFields)
    else if !IsValidEmail(email) then Rejected(InvalidEmail)
    else if JsString.Utf16Length(password) < 8 then Rejected(ShortPassword)
    else Post(email, userName, password)
  }

  /** The length check counts UTF-16 code units, not characters: with
      the other checks passed, a password of characters from the Basic
      Multilingual Plane is sent exactly when it has eight or more, and
      any password sent has at least four characters. */
  lemma PasswordLengthCountsCodeUnits(email: string, userName: string, password: string)
    requires email != "" && userName != "" && password != "" && MatchesEmailPattern(email)
    ensures (forall i :: 0 <= i < |password| ==> password[i] as int <= 0xFFFF) ==>
              (HandleSubmit(email, userName, password).Post? <==> |password| >= 8)
    ensures HandleSubmit(email, userName, password).Post? ==> |password| >= 4
  {
  }

  /** Four characters beyond the Basic Multilingual Plane make eight code
      units, enough for the length check. */
  lemma AstralPasswordIsLongEnough()
    ensures |"\U{1F600}\U{1F600}\U{1F600}\U{1F600}"| == 4
    ensures JsString.Utf16Length("\U{1F600}\U{1F600}\U{1F600}\U{1F600}") == 8
  {
    var p := "\U{1F600}\U{1F600}\U{1F600}\U{1F600}";
    assert forall i :: 0 <= i < |p| ==> p[i] == '\U{1F600}';
    assert JsString.AstralPositions(p) == {0, 1, 2, 3};
  }

  /** `JSON.stringify({ email, userName, password })` as the server parses it. */
  function RequestBody(s: Submission): Http.Body
    requires s.Post?
  {
    map["email" := Http.Str(s.email), "userName" := Http.Str(s.userName), "password" := Http.Str(s.password)]
  }

  /** Every request the form sends passes the server's check. */
  lemma SentFormIsAccepted(email: string, userName: string, password: string)
    requires HandleSubmit(email, userName, password).Post?
    ensures SignupRoute.Signup(RequestBody(HandleSubmit(email, userName, password))).status == 201
  {
  }

  /** The converse fails: the server registers an email the form rejects. */
  lemma ServerAcceptsWhatFormRejects()
    ensures HandleSubmit("not-an-email", "jo", "12345678") == Rejected(InvalidEmail)
    ensures SignupRoute.Signup(map["email" := Http.Str("not-an-email"), "userName" := Http.Str("jo"),
                                   "password" := Http.Str("12345678")]).status == 201
  {
    assert !IsValidEmail("not-an-email") by {
      var email := "not-an-email";
      assert forall k :: 0 <= k < |email| ==> email[k] != '@';
    }
    SignupRoute.SignupChecksPresenceOnly("not-an-email", "jo", "12345678");
  }

  /** After the request: a non-2xx answer shows the body's `error`, a 2xx
      answer welcomes the user, and a failed request shows a generic
      message. */
  datatype Reaction = ShowError(error: Option<string>) | Welcome(userName: string)

  function AfterResponse<T>(userName: string, response: Option<Http.Response<T>>): (r: Reaction)
    ensures response.None? ==> r == ShowError(Some("Something went Wrong!"))
    ensures response.Some? && Http.IsOk(response.value.status) ==> r == Welcome(userName)
    ensures response.Some? && !Http.IsOk(response.value.status) ==>
              r == ShowError(if response.value.payload.ErrorBody? then Some(response.value.payload.error) else None)
  {
    match response
    case None => ShowError(Some("Something went Wrong!"))
    case Some(resp) =>
      if !Http.IsOk(resp.status) then
        ShowError(if resp.payload.ErrorBody? then Some(resp.payload.error) else None)
      else Welcome(userName)
  }

  /** A form that passes the client checks ends in the welcome. */
  lemma SignupEndToEnd(email: string, userName: string, password: string)
    requires HandleSubmit(email, userName, password).Post?
    ensures AfterResponse(userName, Some(SignupRoute.Signup(RequestBody(HandleSubmit(email, userName, password)))))
            == Welcome(userName)
  {
  }
}
