/** The `EmailAttempt` schema: how many verification or reset e-mails an
    address has requested recently. */
module EmailAttemptModel {
  import opened Base
  import opened Strings
  import opened Accounts

  /** The TTL index on `lastAttempt` (3600 seconds). */
  const AttemptLifetime: int := 3600 * MsPerSecond

  /** The two values of the `type` enum. */
  datatype Purpose = Verification | PasswordReset {
    function Tag(): string {
      if Verification? then "verification" else "password_reset"
    }
  }

  function ParsePurpose(s: string): (r: Option<Purpose>)
    ensures r.Some? ==> r.value.Tag() == s
    ensures (exists p: Purpose :: p.Tag() == s) ==> r.Some?
  {
    if s == "verification" then Some(Verification)
    else if s == "password_reset" then Some(PasswordReset)
    else None
  }

  datatype Attempt = Attempt(email: string, purpose: Purpose, attempts: int, lastAttempt: Time)

  /** `new EmailAttempt({ email, type })`: the e-mail setters apply, the
      count defaults to 1 and `lastAttempt` to now. */
  function NewAttempt(email: string, purpose: Purpose, now: Time): (a: Attempt)
    ensures a.email == NormalizeEmail(email) && a.purpose == purpose
    ensures a.attempts == 1 && a.lastAttempt == now
  {
    Attempt(NormalizeEmail(email), purpose, 1, now)
  }

  /** The unique `{ email, type }` index. */
  predicate UniqueKeys(s: seq<Attempt>) {
    forall i, j :: 0 <= i < j < |s| ==> s[i].email != s[j].email || s[i].purpose != s[j].purpose
  }

  /** The TTL: a record is dropped once an hour has passed since the last
      attempt it counts. */
  predicate Expired(a: Attempt, now: Time) {
    now - a.lastAttempt > AttemptLifetime
  }

  lemma ExpiryWindow(a: Attempt, now: Time)
    ensures now <= a.lastAttempt + 3600 * 1000 ==> !Expired(a, now)
    ensures now > a.lastAttempt + 3600 * 1000 ==> Expired(a, now)
  {
  }
}
