/**
 * `pickUpNumber` (run.js): one claim of a listed row. Each attempt fetches the
 * claim form and submits it; the portal's answer to an attempt is an input
 * here. On a 401/403 the session is renewed by `login()` and, when that
 * succeeds, the whole claim is attempted again.
 */
module PickUp {
  import opened Wrappers

  /** JavaScript's `\d`: an ASCII decimal digit. */
  predicate IsDigit(c: char) {
    '0' <= c <= '9'
  }

  predicate AllDigits(s: string) {
    forall k :: 0 <= k < |s| ==> IsDigit(s[k])
  }

  predicate HasDigit(s: string) {
    exists k :: 0 <= k < |s| && IsDigit(s[k])
  }

  /** `d` is the first maximal run of digits in `s`, and it starts at `i`. */
  ghost predicate FirstDigitRunAt(s: string, i: nat, d: string) {
    && |d| > 0
    && i + |d| <= |s|
    && s[i..i + |d|] == d
    && AllDigits(d)
    && (forall k :: 0 <= k < i ==> !IsDigit(s[k]))
    && (i + |d| == |s| || !IsDigit(s[i + |d|]))
  }

  /** The first maximal run of digits of a string is unique. */
  lemma FirstDigitRunUnique(s: string, i: nat, d: string, j: nat, e: string)
    requires FirstDigitRunAt(s, i, d) && FirstDigitRunAt(s, j, e)
    ensures i == j && d == e
  {
    assert s[i] == d[0] && s[j] == e[0];
  }

  /** `d` is the first maximal run of digits somewhere in `s`. */
  ghost predicate IsFirstDigitRun(s: string, d: string) {
    exists i :: FirstDigitRunAt(s, i, d)
  }

  /** Number of non-digits before the first digit. */
  function LeadingNonDigits(s: string): (n: nat)
    ensures n <= |s|
    ensures forall k :: 0 <= k < n ==> !IsDigit(s[k])
    ensures n < |s| ==> IsDigit(s[n])
  {
    if s == [] || IsDigit(s[0]) then 0 else 1 + LeadingNonDigits(s[1..])
  }

  /** Length of the run of digits at the start of the string. */
  function LeadingDigits(s: string): (n: nat)
    ensures n <= |s|
    ensures forall k :: 0 <= k < n ==> IsDigit(s[k])
    ensures n < |s| ==> !IsDigit(s[n])
  {
    if s == [] || !IsDigit(s[0]) then 0 else 1 + LeadingDigits(s[1..])
  }

  /** `s.match(/\d+/)` read at index 0: the first maximal run of digits, or None where `match` gives null. */
  function MatchDigits(s: string): (r: Option<string>)
    ensures r.None? <==> !HasDigit(s)
    ensures r.Some? ==> IsFirstDigitRun(s, r.value)
  {
    var i := LeadingNonDigits(s);
    if i == |s| then None
    else
      var n := LeadingDigits(s[i..]);
      var d := s[i..i + n];
      assert FirstDigitRunAt(s, i, d);
      Some(d)
  }

  /** What the portal did with one attempt (both requests of it). */
  datatype Attempt =
    | Answered(newTabOpenUrl: Option<string>)  // the POST succeeded; its `newTabOpenUrl`, if any
    | HttpError(status: int)                   // a request failed with this HTTP status
    | NoResponse                               // a request failed without a response

  /** How the catch/else branches of `pickUpNumber` read one attempt. */
  datatype Verdict =
    | Number(digits: string)  // a truthy URL with digits
    | NoUrl                   // falsy `newTabOpenUrl`: warned, null
    | Expired                 // 401 or 403: re-login
    | Unavailable             // 422: already taken, null
    | Failed                  // any other error, including `match` giving null: null

  function Judge(a: Attempt): (v: Verdict)
    ensures v.NoUrl? <==> a.Answered? && (a.newTabOpenUrl.None? || a.newTabOpenUrl.value == "")
    ensures v.Expired? <==> a.HttpError? && (a.status == 401 || a.status == 403)
    ensures v.Unavailable? <==> a.HttpError? && a.status == 422
    ensures v.Number? <==> a.Answered? && a.newTabOpenUrl.Some? && a.newTabOpenUrl.value != ""
                           && HasDigit(a.newTabOpenUrl.value)
  {
    match a
    case Answered(url) =>
      if url.None? || url.value == "" then NoUrl
      else (match MatchDigits(url.value)
            case Some(d) => Number(d)
            case None => Failed)
    case HttpError(status) =>
      if status == 401 || status == 403 then Expired
      else if status == 422 then Unavailable
      else Failed
    case NoResponse => Failed
  }

  /**
   * The outcome of a claim: the number (None for null) with how many attempts
   * and how many `login()` calls it took, or Pending when the given responses
   * run out while the source would still be retrying.
   */
  datatype Claim = Resolved(number: Option<string>, attempts: nat, logins: nat) | Pending

  /**
   * `pickUpNumber(number)`: `responses[k]` answers the k-th attempt and
   * `logins[k]` is the result of the k-th re-login.
   */
  function PickUpNumber(responses: seq<Attempt>, logins: seq<bool>): (c: Claim)
    // it stops at the first attempt that is not an expiry followed by a good re-login
    ensures c.Resolved? ==> 1 <= c.attempts <= |responses| && c.logins <= |logins|
    ensures c.Resolved? ==> forall k :: 0 <= k < c.attempts - 1 ==>
      Judge(responses[k]).Expired? && k < |logins| && logins[k]
    // a number comes from the last attempt, after one re-login per earlier attempt
    ensures c.Resolved? && c.number.Some? ==>
      c.logins == c.attempts - 1 && Judge(responses[c.attempts - 1]) == Number(c.number.value)
    // null: either the last re-login failed, or the last attempt gave no number and no expiry
    ensures c.Resolved? && c.number.None? ==>
      if Judge(responses[c.attempts - 1]).Expired?
      then c.logins == c.attempts && !logins[c.attempts - 1]
      else c.logins == c.attempts - 1 && !Judge(responses[c.attempts - 1]).Number?
    // still retrying: every attempt seen so far expired and every re-login seen succeeded
    ensures c.Pending? ==> forall k :: 0 <= k < |responses| && k <= |logins| ==>
      Judge(responses[k]).Expired? && (k < |logins| ==> logins[k])
  {
    if responses == [] then Pending
    else
      match Judge(responses[0])
      case Number(d) => Resolved(Some(d), 1, 0)
      case Expired =>
        if logins == [] then Pending
        else if !logins[0] then Resolved(None, 1, 1)
        else
          (match PickUpNumber(responses[1..], logins[1..])
           case Pending => Pending
           case Resolved(n, a, l) => Resolved(n, a + 1, l + 1))
      case _ => Resolved(None, 1, 0)
  }

  /** A number verdict comes from a present URL, and is its first run of digits. */
  lemma JudgeNumber(a: Attempt, d: string)
    requires Judge(a) == Number(d)
    ensures a.Answered? && a.newTabOpenUrl.Some?
    ensures |d| > 0 && AllDigits(d) && IsFirstDigitRun(a.newTabOpenUrl.value, d)
  {
    var i :| FirstDigitRunAt(a.newTabOpenUrl.value, i, d);
  }

  /** A claimed number is non-empty, all digits, and the first digit run of the URL that was answered. */
  lemma ClaimedNumberIsFirstDigitRun(responses: seq<Attempt>, logins: seq<bool>)
    requires PickUpNumber(responses, logins).Resolved?
    requires PickUpNumber(responses, logins).number.Some?
    ensures var c := PickUpNumber(responses, logins);
            var a := responses[c.attempts - 1];
            && |c.number.value| > 0 && AllDigits(c.number.value)
            && a.Answered? && a.newTabOpenUrl.Some?
            && IsFirstDigitRun(a.newTabOpenUrl.value, c.number.value)
  {
    var c := PickUpNumber(responses, logins);
    JudgeNumber(responses[c.attempts - 1], c.number.value);
  }

  /** A missing or empty `newTabOpenUrl` gives null at once, without a re-login. */
  lemma FalsyUrlGivesNull(url: Option<string>, later: seq<Attempt>, logins: seq<bool>)
    requires url.None? || url.value == ""
    ensures PickUpNumber([Answered(url)] + later, logins) == Resolved(None, 1, 0)
  {
  }

  /** A URL without digits makes `match` return null; the TypeError that follows gives null. */
  lemma DigitlessUrlGivesNull(url: string, later: seq<Attempt>, logins: seq<bool>)
    requires url != "" && !HasDigit(url)
    ensures PickUpNumber([Answered(Some(url))] + later, logins) == Resolved(None, 1, 0)
  {
  }

  /** 422 and every status other than 401/403 give null and never call `login()`. */
  lemma OtherErrorsNeverRelogin(status: int, later: seq<Attempt>, logins: seq<bool>)
    requires status != 401 && status != 403
    ensures PickUpNumber([HttpError(status)] + later, logins) == Resolved(None, 1, 0)
    ensures PickUpNumber([NoResponse] + later, logins) == Resolved(None, 1, 0)
  {
  }

  /** 401/403 with a failed re-login gives null after exactly one `login()`. */
  lemma FailedReloginGivesNull(status: int, later: seq<Attempt>, more: seq<bool>)
    requires status == 401 || status == 403
    ensures PickUpNumber([HttpError(status)] + later, [false] + more) == Resolved(None, 1, 1)
  {
  }

  /** 401/403 with a good re-login retries the whole claim: the outcome is the retry's, one login more. */
  lemma ExpiryRetries(status: int, later: seq<Attempt>, more: seq<bool>)
    requires status == 401 || status == 403
    ensures var retry := PickUpNumber(later, more);
            PickUpNumber([HttpError(status)] + later, [true] + more)
              == if retry.Pending? then Pending
                 else Resolved(retry.number, retry.attempts + 1, retry.logins + 1)
  {
    assert ([HttpError(status)] + later)[1..] == later;
    assert ([true] + more)[1..] == more;
  }

  /** The retry is not limited to one: two expiries in a row with good re-logins still end in a number. */
  lemma TwoExpiriesThenNumber()
    ensures PickUpNumber([HttpError(401), HttpError(403), Answered(Some("/c/62?"))], [true, true])
         == Resolved(Some("62"), 3, 2)
  {
    var url := "/c/62?";
    assert LeadingNonDigits(url[3..]) == 0;
    assert LeadingNonDigits(url) == 3;
    assert LeadingDigits(url[3..][2..]) == 0;
    assert LeadingDigits(url[3..]) == 2;
    assert url[3..5] == "62";
    assert Judge(Answered(Some(url))) == Number("62");
    var rs := [HttpError(401), HttpError(403), Answered(Some(url))];
    assert rs[1..][1..] == [Answered(Some(url))];
    assert PickUpNumber(rs[1..][1..], [true, true][1..][1..]) == Resolved(Some("62"), 1, 0);
  }
}
