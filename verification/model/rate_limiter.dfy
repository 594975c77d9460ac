/** The in-memory, per-address limiter on verification e-mails and the
    check on the address's domain. */
module RateLimiter {
  import opened Base
  import opened Strings

  /** The window of the limiter: one hour. */
  const LimiterWindow: int := MsPerHour

  /** At most this many e-mails per address and window. */
  const MaxEmailsPerWindow: int := 3

  /** What the store keeps for one address. */
  datatype Record = Record(count: int, timestamp: Time)

  type LimiterStore = map<string, Record>

  /** The clean-up loop at the start of every call: an entry whose
      timestamp lies more than an hour before `now` is deleted, every other
      entry is kept as it is. */
  function Cleanup(store: LimiterStore, now: Time): (r: LimiterStore)
    ensures forall k :: k in r <==> k in store && store[k].timestamp >= now - LimiterWindow
    ensures forall k :: k in r ==> r[k] == store[k]
  {
    map k | k in store && store[k].timestamp >= now - LimiterWindow :: store[k]
  }

  /** `emailVerificationLimiter(email)` at time `now`: whether the e-mail may
      be sent, and the store afterwards. */
  function Limit(store: LimiterStore, email: string, now: Time): (res: (bool, LimiterStore))
    ensures var s := Cleanup(store, now);
      && (email !in s ==> res == (true, s[email := Record(1, now)]))
      && (email in s && s[email].count >= MaxEmailsPerWindow ==> res == (false, s))
      && (email in s && s[email].count < MaxEmailsPerWindow ==>
            res == (true, s[email := Record(s[email].count + 1, s[email].timestamp)]))
  {
    var s := Cleanup(store, now);
    var rec := if email in s then s[email] else Record(0, now);
    if rec.timestamp < now - LimiterWindow then (true, s[email := Record(1, now)])
    else if rec.count >= MaxEmailsPerWindow then (false, s)
    else (true, s[email := rec.(count := rec.count + 1)])
  }

  /** The branch that would restart an expired window never runs: the
      clean-up has already deleted every record it would apply to. */
  lemma ResetBranchUnreachable(store: LimiterStore, email: string, now: Time)
    ensures var s := Cleanup(store, now);
            var rec := if email in s then s[email] else Record(0, now);
            !(rec.timestamp < now - LimiterWindow)
  {
  }

  /** A sequence of calls for one address at the given instants: how many
      were allowed, and the store after the last one. */
  function Run(store: LimiterStore, email: string, times: seq<Time>): (res: (nat, LimiterStore))
    ensures res.0 <= |times|
    decreases |times|
  {
    if |times| == 0 then (0, store)
    else
      var (ok, s1) := Limit(store, email, times[0]);
      var (n, s2) := Run(s1, email, times[1..]);
      ((if ok then 1 else 0) + n, s2)
  }

  /** While the window opened at `t0` lasts, the record keeps its
      timestamp, so only `3 - c` more calls are allowed. */
  lemma {:induction false} RunWithinWindow(store: LimiterStore, email: string, times: seq<Time>, t0: Time, c: int)
    requires email in store && store[email] == Record(c, t0) && 1 <= c <= MaxEmailsPerWindow
    requires forall i :: 0 <= i < |times| ==> times[i] <= t0 + LimiterWindow
    ensures Run(store, email, times).0 <= MaxEmailsPerWindow - c
  {
    if |times| > 0 {
      var (ok, s1) := Limit(store, email, times[0]);
      assert email in Cleanup(store, times[0]);
      if c < MaxEmailsPerWindow {
        assert s1[email] == Record(c + 1, t0);
        RunWithinWindow(s1, email, times[1..], t0, c + 1);
      } else {
        assert s1[email] == Record(c, t0);
        RunWithinWindow(s1, email, times[1..], t0, c);
      }
    }
  }

  /** At most three e-mails per address within an hour of the first one:
      starting from no live record, calls made within one hour of the first
      call are allowed at most three times. */
  lemma AtMostThreePerWindow(store: LimiterStore, email: string, times: seq<Time>)
    requires |times| > 0
    requires email !in Cleanup(store, times[0])
    requires forall i :: 0 <= i < |times| ==> times[i] <= times[0] + LimiterWindow
    ensures Run(store, email, times).0 <= MaxEmailsPerWindow
  {
    var (ok, s1) := Limit(store, email, times[0]);
    assert s1[email] == Record(1, times[0]);
    RunWithinWindow(s1, email, times[1..], times[0], 1);
  }

  /** The three accepted mail domains. */
  const AllowedDomains: set<string> := {"gmail.com", "icloud.com", "outlook.com"}

  /** `email.split('@')[1]?.toLowerCase()`: the lower-cased second piece of
      the split, absent when there is no `@`. */
  function DomainOf(email: string): (r: Option<string>)
  {
    var parts := Split(email, '@');
    if |parts| >= 2 then Some(ToLower(parts[1])) else None
  }

  /** `validateEmailDomain`. */
  function ValidateEmailDomain(email: string): (r: bool)
  {
    var d := DomainOf(email);
    d.Some? && d.value in AllowedDomains
  }

  /** The domain independently of `split`: the text after the first `@` up
      to the next `@` or the end. */
  function SecondPiece(email: string): (r: Option<string>)
    ensures r.Some? <==> '@' in email
  {
    match IndexOf(email, '@')
    case None => None
    case Some(k) =>
      var rest := email[k + 1..];
      match IndexOf(rest, '@')
      case None => Some(rest)
      case Some(j) => Some(rest[..j])
  }

  /** The check holds exactly when the address has an `@` and the text
      between the first and the second `@` (or the end), lower-cased, is one
      of the three domains. */
  lemma ValidateEmailDomainMeans(email: string)
    ensures ValidateEmailDomain(email) <==>
              '@' in email && ToLower(SecondPiece(email).value) in AllowedDomains
  {
    var parts := Split(email, '@');
    match IndexOf(email, '@')
    case None =>
      assert parts == [email];
    case Some(k) =>
      var rest := email[k + 1..];
      assert parts == [email[..k]] + Split(rest, '@');
      match IndexOf(rest, '@')
      case None =>
        assert Split(rest, '@') == [rest];
      case Some(j) =>
        assert Split(rest, '@') == [rest[..j]] + Split(rest[j + 1..], '@');
  }
}
