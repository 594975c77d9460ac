/** The e-mail verification and password-reset flows: the per-address
    attempt counter, the one-time tokens stored on the account, and the
    five routes that send, check and consume them. */
module Verification {
  import opened Base
  import opened Strings
  import opened Json
  import opened Accounts
  import opened UserModel
  import opened BusinessModel
  import opened EmailAttemptModel
  import opened Store
  import opened AccountStore
  import opened EmailTemplates
  import RateLimiter
  import Validation

  /** Both tokens live 15 minutes. */
  const TokenLifetime: int := 15 * MsPerMinute

  /** The attempt counter refuses once a record has counted this many. */
  const MaxAttempts: int := 3

  /** The messages the flows answer with (as the `error` or `message`
      property of the JSON body). */
  datatype Text =
    | TooManyAttempts | InvalidDomain | VerifySendFailed | InvalidVerifyToken | InvalidResetToken
    | AccountNotFound | AlreadyVerified | VerificationSent | ResetSendFailed | ResetSent
    | PasswordChanged | ServerFailure
  {
    function Words(): string {
      match this
      case TooManyAttempts => "Too many attempts. Please try again in 1 hour."
      case InvalidDomain => "Invalid email domain. Only gmail.com, icloud.com, and outlook.com are allowed."
      case VerifySendFailed => "Failed to send verification email"
      case InvalidVerifyToken => "Invalid or expired verification token"
      case InvalidResetToken => "Invalid or expired reset token"
      case AccountNotFound => "Account not found"
      case AlreadyVerified => "Email is already verified"
      case VerificationSent => "Verification email sent successfully"
      case ResetSendFailed => "Failed to send password reset email"
      case ResetSent => "Password reset email sent successfully"
      case PasswordChanged => "Password reset successfully"
      case ServerFailure => "Server error"
    }
  }

  // ---------------------------------------------------------------------
  // The attempt counter

  /** The position of the first record for the key, if any. */
  function FindAttempt(s: seq<Attempt>, key: string, purpose: Purpose): (r: Option<nat>)
    ensures r.Some? ==> r.value < |s| && s[r.value].email == key && s[r.value].purpose == purpose
    ensures r.Some? ==> forall i :: 0 <= i < r.value ==> s[i].email != key || s[i].purpose != purpose
    ensures r.None? <==> forall i :: 0 <= i < |s| ==> s[i].email != key || s[i].purpose != purpose
  {
    if |s| == 0 then None
    else if s[0].email == key && s[0].purpose == purpose then Some(0)
    else
      match FindAttempt(s[1..], key, purpose)
      case None => None
      case Some(j) => Some(j + 1)
  }

  /** How many e-mails the stored record counts for an address and purpose
      (zero without a record). */
  function AttemptsFor(s: seq<Attempt>, email: string, purpose: Purpose): int {
    match FindAttempt(s, NormalizeEmail(email), purpose)
    case None => 0
    case Some(k) => s[k].attempts
  }

  /** The record for the key as `findOne` sees it. */
  function RecordFor(s: seq<Attempt>, key: string, purpose: Purpose): Option<Attempt> {
    match FindAttempt(s, key, purpose)
    case None => None
    case Some(k) => Some(s[k])
  }

  /** Replacing a record by one with the same key, or appending a record of
      a key that is absent, moves no other key's record. */
  lemma {:induction false} FindAttemptAfterUpdate(s: seq<Attempt>, k: nat, a: Attempt, key: string, purpose: Purpose)
    requires k < |s| && a.email == s[k].email && a.purpose == s[k].purpose
    ensures FindAttempt(s[k := a], key, purpose) == FindAttempt(s, key, purpose)
    decreases |s|
  {
    var t := s[k := a];
    assert t[0].email == s[0].email && t[0].purpose == s[0].purpose;
    if k == 0 {
      assert t[1..] == s[1..];
    } else if !(s[0].email == key && s[0].purpose == purpose) {
      assert t[1..] == s[1..][k - 1 := a];
      FindAttemptAfterUpdate(s[1..], k - 1, a, key, purpose);
    }
  }

  lemma {:induction false} FindAttemptAfterAppend(s: seq<Attempt>, a: Attempt, key: string, purpose: Purpose)
    ensures FindAttempt(s + [a], key, purpose) ==
              if FindAttempt(s, key, purpose).Some? then FindAttempt(s, key, purpose)
              else if a.email == key && a.purpose == purpose then Some(|s|)
              else None
    decreases |s|
  {
    if |s| > 0 && !(s[0].email == key && s[0].purpose == purpose) {
      assert (s + [a])[1..] == s[1..] + [a];
      FindAttemptAfterAppend(s[1..], a, key, purpose);
    }
  }

  /** `checkEmailAttempts(email, type)` at time `now`: the records
      afterwards, or the error it throws. */
  function CheckEmailAttempts(s: seq<Attempt>, email: string, purpose: Purpose, now: Time): (r: Result<seq<Attempt>, Text>)
    ensures r.Err? <==> AttemptsFor(s, email, purpose) >= MaxAttempts
    ensures r.Err? ==> r.error == TooManyAttempts
    ensures r.Ok? ==> AttemptsFor(r.value, email, purpose) == AttemptsFor(s, email, purpose) + 1
    ensures r.Ok? ==> RecordFor(r.value, NormalizeEmail(email), purpose).Some?
                      && RecordFor(r.value, NormalizeEmail(email), purpose).value.lastAttempt == now
    ensures r.Ok? ==> forall key, p :: key != NormalizeEmail(email) || p != purpose ==>
                        RecordFor(r.value, key, p) == RecordFor(s, key, p)
    // one record per address and purpose, as the unique index demands
    ensures r.Ok? && UniqueKeys(s) ==> UniqueKeys(r.value)
  {
    var key := NormalizeEmail(email);
    match FindAttempt(s, key, purpose)
    case Some(k) =>
      if s[k].attempts >= MaxAttempts then Err(TooManyAttempts)
      else
        var s' := s[k := s[k].(attempts := s[k].attempts + 1, lastAttempt := now)];
        CountedByUpdate(s, s', k, email, purpose, now);
        Ok(s')
    case None =>
      var s' := s + [NewAttempt(email, purpose, now)];
      CountedByAppend(s, s', email, purpose, now);
      Ok(s')
  }

  /** Counting on the stored record of the key: every key keeps its
      position, and only the key's own record changes. */
  lemma CountedByUpdate(s: seq<Attempt>, s': seq<Attempt>, k: nat, email: string, purpose: Purpose, now: Time)
    requires FindAttempt(s, NormalizeEmail(email), purpose) == Some(k)
    requires s' == s[k := s[k].(attempts := s[k].attempts + 1, lastAttempt := now)]
    ensures AttemptsFor(s', email, purpose) == AttemptsFor(s, email, purpose) + 1
    ensures RecordFor(s', NormalizeEmail(email), purpose).Some?
            && RecordFor(s', NormalizeEmail(email), purpose).value.lastAttempt == now
    ensures forall key, p :: key != NormalizeEmail(email) || p != purpose ==>
              RecordFor(s', key, p) == RecordFor(s, key, p)
    ensures UniqueKeys(s) ==> UniqueKeys(s')
  {
    if UniqueKeys(s) {
      UpdateKeepsUniqueKeys(s, k, s'[k]);
    }
    FindAttemptAfterUpdate(s, k, s'[k], NormalizeEmail(email), purpose);
    forall key, p | key != NormalizeEmail(email) || p != purpose
      ensures RecordFor(s', key, p) == RecordFor(s, key, p)
    {
      FindAttemptAfterUpdate(s, k, s'[k], key, p);
      match FindAttempt(s, key, p)
      case None =>
      case Some(j) => assert j != k;
    }
  }

  /** Counting a key without a record: the new record is found for it, and
      every other key keeps its record. */
  lemma CountedByAppend(s: seq<Attempt>, s': seq<Attempt>, email: string, purpose: Purpose, now: Time)
    requires FindAttempt(s, NormalizeEmail(email), purpose).None?
    requires s' == s + [NewAttempt(email, purpose, now)]
    ensures AttemptsFor(s', email, purpose) == AttemptsFor(s, email, purpose) + 1
    ensures RecordFor(s', NormalizeEmail(email), purpose).Some?
            && RecordFor(s', NormalizeEmail(email), purpose).value.lastAttempt == now
    ensures forall key, p :: key != NormalizeEmail(email) || p != purpose ==>
              RecordFor(s', key, p) == RecordFor(s, key, p)
    ensures UniqueKeys(s) ==> UniqueKeys(s')
  {
    var a := NewAttempt(email, purpose, now);
    if UniqueKeys(s) {
      AppendKeepsUniqueKeys(s, a);
    }
    forall key, p ensures FindAttempt(s', key, p) ==
                if FindAttempt(s, key, p).Some? then FindAttempt(s, key, p)
                else if a.email == key && a.purpose == p then Some(|s|)
                else None {
      FindAttemptAfterAppend(s, a, key, p);
    }
  }

  lemma UpdateKeepsUniqueKeys(s: seq<Attempt>, k: nat, a: Attempt)
    requires UniqueKeys(s)
    requires k < |s| && a.email == s[k].email && a.purpose == s[k].purpose
    ensures UniqueKeys(s[k := a])
  {
  }

  lemma AppendKeepsUniqueKeys(s: seq<Attempt>, a: Attempt)
    requires UniqueKeys(s)
    requires FindAttempt(s, a.email, a.purpose).None?
    ensures UniqueKeys(s + [a])
  {
  }

  /** Counts stay between one and three: a record is created with one and
      only a record below three is incremented. */
  lemma CheckKeepsCountsBounded(s: seq<Attempt>, email: string, purpose: Purpose, now: Time)
    requires forall i :: 0 <= i < |s| ==> 1 <= s[i].attempts <= MaxAttempts
    requires CheckEmailAttempts(s, email, purpose, now).Ok?
    ensures var s' := CheckEmailAttempts(s, email, purpose, now).value;
            forall i :: 0 <= i < |s'| ==> 1 <= s'[i].attempts <= MaxAttempts
  {
    var key := NormalizeEmail(email);
    match FindAttempt(s, key, purpose)
    case Some(k) =>
    case None =>
  }

  /** Successive checks for one address and purpose (no record expiring in
      between): how many passed, and the records afterwards. */
  function RunChecks(s: seq<Attempt>, email: string, purpose: Purpose, times: seq<Time>): (res: (nat, seq<Attempt>))
    ensures res.0 <= |times|
    decreases |times|
  {
    if |times| == 0 then (0, s)
    else
      match CheckEmailAttempts(s, email, purpose, times[0])
      case Err(_) => RunChecks(s, email, purpose, times[1..])
      case Ok(s1) =>
        var (n, s2) := RunChecks(s1, email, purpose, times[1..]);
        (n + 1, s2)
  }

  /** While its record lives, an address gets at most three e-mails of one
      kind: only `3 - c` more checks pass when the record counts `c`. */
  lemma {:induction false} AtMostThreeAttempts(s: seq<Attempt>, email: string, purpose: Purpose, times: seq<Time>)
    requires 0 <= AttemptsFor(s, email, purpose) <= MaxAttempts
    ensures RunChecks(s, email, purpose, times).0 <= MaxAttempts - AttemptsFor(s, email, purpose)
    decreases |times|
  {
    if |times| > 0 {
      match CheckEmailAttempts(s, email, purpose, times[0])
      case Err(_) =>
        AtMostThreeAttempts(s, email, purpose, times[1..]);
      case Ok(s1) =>
        AtMostThreeAttempts(s1, email, purpose, times[1..]);
    }
  }

  // ---------------------------------------------------------------------
  // Tokens on the account

  /** A stored token equal to the presented one whose expiry lies after
      `now` (the `{ token, expires: { $gt: now } }` query). */
  predicate LiveVerify(t: Tokens, token: string, now: Time) {
    t.verifyToken == Some(token) && t.verifyExpires.Some? && t.verifyExpires.value > now
  }

  predicate LiveReset(t: Tokens, token: string, now: Time) {
    t.resetToken == Some(token) && t.resetExpires.Some? && t.resetExpires.value > now
  }

  function WithVerifyToken(t: Tokens, token: string, now: Time): Tokens {
    t.(verifyToken := Some(token), verifyExpires := Some(now + TokenLifetime))
  }

  function WithResetToken(t: Tokens, token: string, now: Time): Tokens {
    t.(resetToken := Some(token), resetExpires := Some(now + TokenLifetime))
  }

  /** A freshly stored token is live for exactly the next 15 minutes. */
  lemma StoredTokenLifetime(t: Tokens, token: string, now: Time, later: Time)
    ensures LiveVerify(WithVerifyToken(t, token, now), token, later) <==> later < now + TokenLifetime
    ensures LiveReset(WithResetToken(t, token, now), token, later) <==> later < now + TokenLifetime
  {
  }

  /** The verification token written into an account document. */
  function StampUser(u: User, token: string, now: Time): User {
    u.(tokens := WithVerifyToken(u.tokens, token, now))
  }

  function StampBusiness(b: Business, token: string, now: Time): Business {
    b.(tokens := WithVerifyToken(b.tokens, token, now))
  }

  // ---------------------------------------------------------------------
  // sendVerificationEmail

  /** An e-mail handed to the mail service. */
  datatype Mail = Mail(to: string, letter: Letter)

  /** What a flow leaves behind: the error it threw (if any), the database
      and the e-mail it tried to send (if it got that far). */
  datatype Sending = Sending(error: Option<Text>, db: Db, mail: Option<Mail>)

  /** The greeting of the verification e-mail: the business name when the
      flag says business, the full name otherwise.  A property the document
      lacks reads as the text "undefined". */
  function GreetingName(account: Account, isBusinessAccount: bool): string {
    if isBusinessAccount then
      (if account.BusinessAccount? then account.business.businessName else "undefined")
    else
      (if account.UserAccount? then account.user.firstName + " " + account.user.lastName
       else "undefined undefined")
  }

  /** `sendVerificationEmail(account, isBusinessAccount)` with the signed
      `token`, the clock at `now`, and `sent` the answer of the mail
      service.  The flag, not the account, picks the collection written. */
  function SendVerificationEmail(db: Db, account: Account, isBusinessAccount: bool, token: string,
                                 now: Time, backendUrl: string, sent: bool): (r: Sending)
    // 1. the domain check comes first and changes nothing
    ensures !RateLimiter.ValidateEmailDomain(account.Email()) ==> r == Sending(Some(InvalidDomain), db, None)
    // 2. then the attempt check, which also changes nothing when it refuses
    ensures RateLimiter.ValidateEmailDomain(account.Email())
            && AttemptsFor(db.attempts, account.Email(), Verification) >= MaxAttempts ==>
              r == Sending(Some(TooManyAttempts), db, None)
    // 3. otherwise one attempt is counted and the token is stored before the e-mail goes out
    ensures r.mail.Some? <==> RateLimiter.ValidateEmailDomain(account.Email())
                              && AttemptsFor(db.attempts, account.Email(), Verification) < MaxAttempts
    ensures r.mail.Some? ==>
              AttemptsFor(r.db.attempts, account.Email(), Verification)
                == AttemptsFor(db.attempts, account.Email(), Verification) + 1
    ensures r.mail.Some? && isBusinessAccount ==>
              && r.db.users == db.users
              && |r.db.businesses| == |db.businesses|
              && forall j :: 0 <= j < |db.businesses| ==>
                   r.db.businesses[j] == if db.businesses[j].id == account.Id()
                                         then StampBusiness(db.businesses[j], token, now) else db.businesses[j]
    ensures r.mail.Some? && !isBusinessAccount ==>
              && r.db.businesses == db.businesses
              && |r.db.users| == |db.users|
              && forall i :: 0 <= i < |db.users| ==>
                   r.db.users[i] == if db.users[i].id == account.Id()
                                    then StampUser(db.users[i], token, now) else db.users[i]
    ensures r.mail.None? ==> r.db == db
    ensures r.mail.Some? ==> r.mail.value.to == account.Email()
                             && r.mail.value.letter == VerifyLetter(r.mail.value.letter.name, token, backendUrl)
    // 4. a refused send is an error, and what was stored stays stored
    ensures r.mail.Some? ==> (r.error.None? <==> sent)
    ensures r.mail.Some? && !sent ==> r.error == Some(VerifySendFailed)
  {
    var email := account.Email();
    if !RateLimiter.ValidateEmailDomain(email) then Sending(Some(InvalidDomain), db, None)
    else
      match CheckEmailAttempts(db.attempts, email, Verification, now)
      case Err(e) => Sending(Some(e), db, None)
      case Ok(attempts) =>
        var db1 := db.(attempts := attempts);
        var db2 := if isBusinessAccount
                   then UpdateBusiness(db1, account.Id(), (b: Business) => StampBusiness(b, token, now))
                   else UpdateUser(db1, account.Id(), (u: User) => StampUser(u, token, now));
        var mail := Mail(email, VerifyLetter(GreetingName(account, isBusinessAccount), token, backendUrl));
        Sending(if sent then None else Some(VerifySendFailed), db2, Some(mail))
  }

  // ---------------------------------------------------------------------
  // The routes

  /** What a route answers. */
  datatype Reply =
    | Done(message: Text)                // 200 with `{ message }`
    | Failed(status: int, error: Text)   // an error status with `{ error }`
    | WeakPassword(errors: seq<string>)  // 400 with `{ errors }`
    | VerifiedPage                       // the static "email verified" page

  datatype Outcome = Outcome(reply: Reply, db: Db, mail: Option<Mail>)

  function VerifiedUser(u: User): User {
    u.(isEmailVerified := true, tokens := u.tokens.(verifyToken := None, verifyExpires := None))
  }

  function VerifiedBusiness(b: Business): Business {
    b.(isEmailVerified := true, tokens := b.tokens.(verifyToken := None, verifyExpires := None))
  }

  /** The verification route's write: the holder marked verified, its
      verification token cleared. */
  function MarkUserVerified(db: Db, id: Id): (r: Db)
    ensures |r.users| == |db.users| && r.businesses == db.businesses && r.attempts == db.attempts
    ensures forall i :: 0 <= i < |db.users| ==>
              r.users[i] == if db.users[i].id == id then VerifiedUser(db.users[i]) else db.users[i]
  {
    UpdateUser(db, id, VerifiedUser)
  }

  function MarkBusinessVerified(db: Db, id: Id): (r: Db)
    ensures |r.businesses| == |db.businesses| && r.users == db.users && r.attempts == db.attempts
    ensures forall j :: 0 <= j < |db.businesses| ==>
              r.businesses[j] == if db.businesses[j].id == id then VerifiedBusiness(db.businesses[j]) else db.businesses[j]
  {
    UpdateBusiness(db, id, VerifiedBusiness)
  }

  /** The user (then the business) whose address is the token's and who
      holds the token, unexpired. */
  function VerifyHolderUser(db: Db, email: string, token: string, now: Time): (r: Option<User>)
    ensures r.Some? ==> r.value in db.users && r.value.email == NormalizeEmail(email) && LiveVerify(r.value.tokens, token, now)
    ensures r.None? <==> forall i :: 0 <= i < |db.users| ==>
              !(db.users[i].email == NormalizeEmail(email) && LiveVerify(db.users[i].tokens, token, now))
  {
    var key := NormalizeEmail(email);
    FindFirst(db.users, (u: User) => u.email == key && LiveVerify(u.tokens, token, now))
  }

  function VerifyHolderBusiness(db: Db, email: string, token: string, now: Time): (r: Option<Business>)
    ensures r.Some? ==> r.value in db.businesses && r.value.email == NormalizeEmail(email) && LiveVerify(r.value.tokens, token, now)
    ensures r.None? <==> forall j :: 0 <= j < |db.businesses| ==>
              !(db.businesses[j].email == NormalizeEmail(email) && LiveVerify(db.businesses[j].tokens, token, now))
  {
    var key := NormalizeEmail(email);
    FindFirst(db.businesses, (b: Business) => b.email == key && LiveVerify(b.tokens, token, now))
  }

  /** GET `/verify-email/:token`.  `decodedEmail` is the address in the
      token's payload, absent when the signature or expiry check throws. */
  function VerifyEmail(db: Db, token: string, decodedEmail: Option<string>, now: Time): (r: Outcome)
    ensures r.mail.None?
    ensures r.reply == VerifiedPage <==>
              decodedEmail.Some?
              && ((exists i :: 0 <= i < |db.users| && db.users[i].email == NormalizeEmail(decodedEmail.value)
                                && LiveVerify(db.users[i].tokens, token, now))
                  || (exists j :: 0 <= j < |db.businesses| && db.businesses[j].email == NormalizeEmail(decodedEmail.value)
                                && LiveVerify(db.businesses[j].tokens, token, now)))
    ensures r.reply != VerifiedPage ==> r == Outcome(Failed(400, InvalidVerifyToken), db, None)
  {
    match decodedEmail
    case None => Outcome(Failed(400, InvalidVerifyToken), db, None)
    case Some(email) =>
      match VerifyHolderUser(db, email, token, now)
      case Some(u) => Outcome(VerifiedPage, MarkUserVerified(db, u.id), None)
      case None =>
        match VerifyHolderBusiness(db, email, token, now)
        case Some(b) => Outcome(VerifiedPage, MarkBusinessVerified(db, b.id), None)
        case None => Outcome(Failed(400, InvalidVerifyToken), db, None)
  }

  /** The verification or the reset token of an account. */
  function TokenOf(t: Tokens, reset: bool): Option<string> {
    if reset then t.resetToken else t.verifyToken
  }

  /** A token is held (as a verification token, or as a reset token) by at
      most one account document. */
  predicate SoleHolder(db: Db, token: string, reset: bool) {
    && (forall i, j :: (0 <= i < |db.users| && 0 <= j < |db.users|
                        && TokenOf(db.users[i].tokens, reset) == Some(token)
                        && TokenOf(db.users[j].tokens, reset) == Some(token)) ==> i == j)
    && (forall i, j :: (0 <= i < |db.businesses| && 0 <= j < |db.businesses|
                        && TokenOf(db.businesses[i].tokens, reset) == Some(token)
                        && TokenOf(db.businesses[j].tokens, reset) == Some(token)) ==> i == j)
    && (forall i, j :: 0 <= i < |db.users| && 0 <= j < |db.businesses| ==>
          TokenOf(db.users[i].tokens, reset) != Some(token) || TokenOf(db.businesses[j].tokens, reset) != Some(token))
  }

  /** No account document holds the token. */
  predicate NoHolder(db: Db, token: string, reset: bool) {
    && (forall i :: 0 <= i < |db.users| ==> TokenOf(db.users[i].tokens, reset) != Some(token))
    && (forall j :: 0 <= j < |db.businesses| ==> TokenOf(db.businesses[j].tokens, reset) != Some(token))
  }

  /** Verification marks the holder verified and clears its token, so no
      document holds the token any more. */
  lemma VerifyClearsToken(db: Db, token: string, decodedEmail: Option<string>, now: Time)
    requires SoleHolder(db, token, false)
    requires VerifyEmail(db, token, decodedEmail, now).reply == VerifiedPage
    ensures NoHolder(VerifyEmail(db, token, decodedEmail, now).db, token, false)
  {
    var email := decodedEmail.value;
    if VerifyHolderUser(db, email, token, now).Some? {
      VerifyClearsUser(db, token, email, now);
    } else {
      VerifyClearsBusiness(db, token, email, now);
    }
  }

  lemma VerifyClearsUser(db: Db, token: string, email: string, now: Time)
    requires SoleHolder(db, token, false)
    requires VerifyHolderUser(db, email, token, now).Some?
    ensures NoHolder(VerifyEmail(db, token, Some(email), now).db, token, false)
  {
    var u := VerifyHolderUser(db, email, token, now).value;
    var k :| 0 <= k < |db.users| && db.users[k] == u;
    ClearedUserHolder(db, MarkUserVerified(db, u.id), k, token, false);
  }

  lemma VerifyClearsBusiness(db: Db, token: string, email: string, now: Time)
    requires SoleHolder(db, token, false)
    requires VerifyHolderUser(db, email, token, now).None? && VerifyHolderBusiness(db, email, token, now).Some?
    ensures NoHolder(VerifyEmail(db, token, Some(email), now).db, token, false)
  {
    var b := VerifyHolderBusiness(db, email, token, now).value;
    var k :| 0 <= k < |db.businesses| && db.businesses[k] == b;
    ClearedBusinessHolder(db, MarkBusinessVerified(db, b.id), k, token, false);
  }

  /** When the one user holding a token has it cleared (with every other
      user and every business kept), nobody holds it. */
  lemma ClearedUserHolder(db: Db, db': Db, k: nat, token: string, reset: bool)
    requires SoleHolder(db, token, reset)
    requires k < |db.users| && TokenOf(db.users[k].tokens, reset) == Some(token)
    requires |db'.users| == |db.users| && db'.businesses == db.businesses
    requires forall i :: 0 <= i < |db.users| ==>
               if db.users[i].id == db.users[k].id then TokenOf(db'.users[i].tokens, reset).None?
               else db'.users[i] == db.users[i]
    ensures NoHolder(db', token, reset)
  {
  }

  lemma ClearedBusinessHolder(db: Db, db': Db, k: nat, token: string, reset: bool)
    requires SoleHolder(db, token, reset)
    requires k < |db.businesses| && TokenOf(db.businesses[k].tokens, reset) == Some(token)
    requires |db'.businesses| == |db.businesses| && db'.users == db.users
    requires forall j :: 0 <= j < |db.businesses| ==>
               if db.businesses[j].id == db.businesses[k].id then TokenOf(db'.businesses[j].tokens, reset).None?
               else db'.businesses[j] == db.businesses[j]
    ensures NoHolder(db', token, reset)
  {
  }

  /** A verification token verifies at most once: presenting it again, at
      any later time, is refused. */
  lemma VerifyTokenSingleUse(db: Db, token: string, decodedEmail: Option<string>, now: Time, later: Time)
    requires SoleHolder(db, token, false)
    requires VerifyEmail(db, token, decodedEmail, now).reply == VerifiedPage
    ensures var db' := VerifyEmail(db, token, decodedEmail, now).db;
            VerifyEmail(db', token, decodedEmail, later).reply == Failed(400, InvalidVerifyToken)
  {
    VerifyClearsToken(db, token, decodedEmail, now);
  }

  /** Which collection `sendVerificationEmail` is told to write: as the
      route does it, from whether a business with the address exists, or
      from the account actually chosen. */
  datatype Routing = ByBusinessLookup | ByChosenAccount

  /** The account the routes pick for an address: the user, else the
      business. */
  function Chosen(db: Db, email: string): (r: Option<Account>)
    ensures r.None? <==> FindUserByEmail(db, email).None? && FindBusinessByEmail(db, email).None?
    ensures r.Some? ==> r.value.Email() == NormalizeEmail(email)
    ensures r.Some? && r.value.UserAccount? ==> r.value.user in db.users
    ensures r.Some? && r.value.BusinessAccount? ==>
              r.value.business in db.businesses && FindUserByEmail(db, email).None?
  {
    match FindUserByEmail(db, email)
    case Some(u) => Some(UserAccount(u))
    case None =>
      match FindBusinessByEmail(db, email)
      case Some(b) => Some(BusinessAccount(b))
      case None => None
  }

  /** The flag handed to `sendVerificationEmail`. */
  function BusinessFlag(db: Db, email: string, account: Account, routing: Routing): bool {
    if routing == ByBusinessLookup then FindBusinessByEmail(db, email).Some? else account.BusinessAccount?
  }

  /** The request gets as far as `sendVerificationEmail`: a string
      address of an accepted domain whose account is not yet verified. */
  predicate ReachesSend(db: Db, emailField: Value) {
    && emailField.Str? && RateLimiter.ValidateEmailDomain(emailField.s)
    && Chosen(db, emailField.s).Some? && !Chosen(db, emailField.s).value.Verified()
  }

  /** The answer to what `sendVerificationEmail` did: any error it throws is
      a 429 with its message; what it wrote stays written. */
  function SendReply(s: Sending): (r: Outcome)
    ensures r.db == s.db && r.mail == s.mail
    ensures s.error.None? <==> r.reply == Done(VerificationSent)
    ensures s.error.Some? ==> r.reply == Failed(429, s.error.value)
  {
    if s.error.Some? then Outcome(Failed(429, s.error.value), s.db, s.mail)
    else Outcome(Done(VerificationSent), s.db, s.mail)
  }

  /** POST `/resend-verification` with body field `email`, under the given
      routing of the business flag. */
  function ResendWith(db: Db, emailField: Value, token: string, now: Time, backendUrl: string,
                      sent: bool, routing: Routing): (r: Outcome)
    ensures !emailField.Str? ==> r == Outcome(Failed(500, ServerFailure), db, None)
    ensures emailField.Str? && !RateLimiter.ValidateEmailDomain(emailField.s) ==>
              r == Outcome(Failed(400, InvalidDomain), db, None)
    ensures emailField.Str? && RateLimiter.ValidateEmailDomain(emailField.s) && Chosen(db, emailField.s).None? ==>
              r == Outcome(Failed(404, AccountNotFound), db, None)
    ensures emailField.Str? && RateLimiter.ValidateEmailDomain(emailField.s)
            && Chosen(db, emailField.s).Some? && Chosen(db, emailField.s).value.Verified() ==>
              r == Outcome(Failed(400, AlreadyVerified), db, None)
    // every error `sendVerificationEmail` throws becomes a 429, its writes kept
    ensures ReachesSend(db, emailField) ==>
              var account := Chosen(db, emailField.s).value;
              r == SendReply(SendVerificationEmail(db, account, BusinessFlag(db, emailField.s, account, routing),
                                                   token, now, backendUrl, sent))
  {
    match emailField
    case Str(email) =>
      if !RateLimiter.ValidateEmailDomain(email) then Outcome(Failed(400, InvalidDomain), db, None)
      else
        (match Chosen(db, email)
        case None => Outcome(Failed(404, AccountNotFound), db, None)
        case Some(account) =>
          if account.Verified() then Outcome(Failed(400, AlreadyVerified), db, None)
          else
            SendReply(SendVerificationEmail(db, account, BusinessFlag(db, email, account, routing),
                                            token, now, backendUrl, sent)))
    case _ => Outcome(Failed(500, ServerFailure), db, None)
  }

  /** The route as written. */
  function Resend(db: Db, emailField: Value, token: string, now: Time, backendUrl: string, sent: bool): Outcome {
    ResendWith(db, emailField, token, now, backendUrl, sent, ByBusinessLookup)
  }

  /** The route with the flag taken from the account it chose. */
  function ResendCorrected(db: Db, emailField: Value, token: string, now: Time, backendUrl: string, sent: bool): Outcome {
    ResendWith(db, emailField, token, now, backendUrl, sent, ByChosenAccount)
  }

  /** As written, an address registered both as an unverified user and as
      a business gets the success reply, yet no document stores the mailed
      token: the flag sends the write to the business collection under the
      user's id.  The link in that e-mail can never verify. */
  lemma ResendMisroutesToken(db: Db, email: string, token: string, now: Time, later: Time, backendUrl: string)
    requires DistinctIds(db) && NoHolder(db, token, false)
    requires RateLimiter.ValidateEmailDomain(email) && RateLimiter.ValidateEmailDomain(NormalizeEmail(email))
    requires FindUserByEmail(db, email).Some? && !FindUserByEmail(db, email).value.isEmailVerified
    requires FindBusinessByEmail(db, email).Some?
    requires AttemptsFor(db.attempts, NormalizeEmail(email), Verification) < MaxAttempts
    ensures var r := Resend(db, Str(email), token, now, backendUrl, true);
            && r.reply == Done(VerificationSent)
            && r.db.users == db.users && r.db.businesses == db.businesses
            && VerifyEmail(r.db, token, Some(NormalizeEmail(email)), later).reply != VerifiedPage
  {
    var r := Resend(db, Str(email), token, now, backendUrl, true);
    MisroutedSend(db, email, token, now, backendUrl);
    assert NoHolder(r.db, token, false);
    NoHolderRefused(r.db, token, Some(NormalizeEmail(email)), later);
  }

  /** A token no document holds never verifies. */
  lemma NoHolderRefused(db: Db, token: string, decodedEmail: Option<string>, now: Time)
    requires NoHolder(db, token, false)
    ensures VerifyEmail(db, token, decodedEmail, now) == Outcome(Failed(400, InvalidVerifyToken), db, None)
  {
  }

  lemma MisroutedSend(db: Db, email: string, token: string, now: Time, backendUrl: string)
    requires DistinctIds(db)
    requires RateLimiter.ValidateEmailDomain(email) && RateLimiter.ValidateEmailDomain(NormalizeEmail(email))
    requires FindUserByEmail(db, email).Some? && !FindUserByEmail(db, email).value.isEmailVerified
    requires FindBusinessByEmail(db, email).Some?
    requires AttemptsFor(db.attempts, NormalizeEmail(email), Verification) < MaxAttempts
    ensures var r := Resend(db, Str(email), token, now, backendUrl, true);
            r.reply == Done(VerificationSent) && r.db.users == db.users && r.db.businesses == db.businesses
  {
    var u := FindUserByEmail(db, email).value;
    var account := UserAccount(u);
    assert Chosen(db, email) == Some(account);
    assert BusinessFlag(db, email, account, ByBusinessLookup);
    var i :| 0 <= i < |db.users| && db.users[i] == u;
    var s := SendVerificationEmail(db, account, true, token, now, backendUrl, true);
    SendToMissingBusiness(db, account, i, token, now, backendUrl);
    assert ReachesSend(db, Str(email));
  }

  /** A verification e-mail whose flag says business while the account is
      a user writes nothing: no business has the user's id. */
  lemma SendToMissingBusiness(db: Db, account: Account, i: nat, token: string, now: Time, backendUrl: string)
    requires DistinctIds(db)
    requires account.UserAccount? && i < |db.users| && db.users[i] == account.user
    requires RateLimiter.ValidateEmailDomain(account.Email())
    requires AttemptsFor(db.attempts, account.Email(), Verification) < MaxAttempts
    ensures var s := SendVerificationEmail(db, account, true, token, now, backendUrl, true);
            s.error.None? && s.db.users == db.users && s.db.businesses == db.businesses
  {
    var s := SendVerificationEmail(db, account, true, token, now, backendUrl, true);
    assert s.mail.Some?;
    forall j | 0 <= j < |db.businesses|
      ensures s.db.businesses[j] == db.businesses[j]
    {
      assert db.businesses[j].id != db.users[i].id;
    }
  }

  /** With the flag taken from the account it chose, the route stores the
      mailed token on that account, so following the link within 15
      minutes verifies it. */
  lemma ResendCorrectedStoresToken(db: Db, email: string, token: string, now: Time, later: Time, backendUrl: string)
    requires NoHolder(db, token, false)
    requires RateLimiter.ValidateEmailDomain(email) && RateLimiter.ValidateEmailDomain(NormalizeEmail(email))
    requires Chosen(db, email).Some? && !Chosen(db, email).value.Verified()
    requires AttemptsFor(db.attempts, NormalizeEmail(email), Verification) < MaxAttempts
    requires now <= later < now + TokenLifetime
    ensures var r := ResendCorrected(db, Str(email), token, now, backendUrl, true);
            && r.reply == Done(VerificationSent)
            && VerifyEmail(r.db, token, Some(NormalizeEmail(email)), later).reply == VerifiedPage
  {
    var account := Chosen(db, email).value;
    assert ReachesSend(db, Str(email));
    var i := StoredAt(db, account);
    SendStoresOnAccount(db, account, i, token, now, backendUrl);
    var s := SendVerificationEmail(db, account, account.BusinessAccount?, token, now, backendUrl, true);
    NormalizeEmailIdempotent(email);
    VerifyFindsStamped(s.db, account, i, token, later);
  }

  /** The position of a stored account in its collection. */
  ghost function StoredAt(db: Db, account: Account): (i: nat)
    requires account.UserAccount? ==> account.user in db.users
    requires account.BusinessAccount? ==> account.business in db.businesses
    ensures account.UserAccount? ==> i < |db.users| && db.users[i] == account.user
    ensures account.BusinessAccount? ==> i < |db.businesses| && db.businesses[i] == account.business
  {
    if account.UserAccount? then
      var i :| 0 <= i < |db.users| && db.users[i] == account.user; i
    else
      var i :| 0 <= i < |db.businesses| && db.businesses[i] == account.business; i
  }

  /** Told the right collection, `sendVerificationEmail` stamps the token on
      the account's own document. */
  lemma SendStoresOnAccount(db: Db, account: Account, i: nat, token: string, now: Time, backendUrl: string)
    requires account.UserAccount? ==> i < |db.users| && db.users[i] == account.user
    requires account.BusinessAccount? ==> i < |db.businesses| && db.businesses[i] == account.business
    requires RateLimiter.ValidateEmailDomain(account.Email())
    requires AttemptsFor(db.attempts, account.Email(), Verification) < MaxAttempts
    ensures var s := SendVerificationEmail(db, account, account.BusinessAccount?, token, now, backendUrl, true);
            && s.error.None?
            && (account.UserAccount? ==> i < |s.db.users| && s.db.users[i] == StampUser(account.user, token, now))
            && (account.BusinessAccount? ==>
                  i < |s.db.businesses| && s.db.businesses[i] == StampBusiness(account.business, token, now))
  {
  }

  /** A document carrying the address and a live token is found by the
      verification route. */
  lemma VerifyFindsStamped(db: Db, account: Account, i: nat, token: string, later: Time)
    requires account.UserAccount? ==>
               i < |db.users| && db.users[i].email == account.Email() && LiveVerify(db.users[i].tokens, token, later)
    requires account.BusinessAccount? ==>
               i < |db.businesses| && db.businesses[i].email == account.Email()
               && LiveVerify(db.businesses[i].tokens, token, later)
    requires NormalizeEmail(account.Email()) == account.Email()
    ensures VerifyEmail(db, token, Some(account.Email()), later).reply == VerifiedPage
  {
  }

  /** The reset token written into an account document. */
  function ResetStampUser(u: User, token: string, now: Time): User {
    u.(tokens := WithResetToken(u.tokens, token, now))
  }

  function ResetStampBusiness(b: Business, token: string, now: Time): Business {
    b.(tokens := WithResetToken(b.tokens, token, now))
  }

  /** The greeting of the reset e-mail. */
  function ResetName(account: Account): string {
    if account.UserAccount? then FullName(account.user) else account.business.businessName
  }

  /** The part of `/forgot-password` after the attempt was counted and
      an account found: store the reset token on the account (in the
      collection it came from), then mail the link. */
  function IssueResetToken(db: Db, account: Account, email: string, token: string, now: Time,
                           backendUrl: string, sent: bool): (r: Outcome)
    ensures r.mail == Some(Mail(email, ResetLetter(ResetName(account), token, backendUrl)))
    ensures r.reply == Done(ResetSent) <==> sent
    ensures !sent ==> r.reply == Failed(500, ResetSendFailed)
    ensures r.db.attempts == db.attempts
    ensures account.UserAccount? ==>
              && r.db.businesses == db.businesses
              && |r.db.users| == |db.users|
              && forall i :: 0 <= i < |db.users| ==>
                   r.db.users[i] == if db.users[i].id == account.Id() then ResetStampUser(db.users[i], token, now) else db.users[i]
    ensures account.BusinessAccount? ==>
              && r.db.users == db.users
              && |r.db.businesses| == |db.businesses|
              && forall j :: 0 <= j < |db.businesses| ==>
                   r.db.businesses[j] == if db.businesses[j].id == account.Id()
                                         then ResetStampBusiness(db.businesses[j], token, now) else db.businesses[j]
  {
    var db2 := if account.UserAccount?
               then UpdateUser(db, account.Id(), (u: User) => ResetStampUser(u, token, now))
               else UpdateBusiness(db, account.Id(), (b: Business) => ResetStampBusiness(b, token, now));
    var mail := Mail(email, ResetLetter(ResetName(account), token, backendUrl));
    if sent then Outcome(Done(ResetSent), db2, Some(mail))
    else Outcome(Failed(500, ResetSendFailed), db2, Some(mail))
  }

  /** POST `/forgot-password` with body field `email`; `token` is the
      signed reset token and `sent` the mail service's answer. */
  function ForgotPassword(db: Db, emailField: Value, token: string, now: Time, backendUrl: string, sent: bool): (r: Outcome)
    ensures !emailField.Str? ==> r == Outcome(Failed(500, ServerFailure), db, None)
    ensures emailField.Str? && !RateLimiter.ValidateEmailDomain(emailField.s) ==>
              r == Outcome(Failed(400, InvalidDomain), db, None)
    ensures emailField.Str? && RateLimiter.ValidateEmailDomain(emailField.s)
            && AttemptsFor(db.attempts, emailField.s, PasswordReset) >= MaxAttempts ==>
              r == Outcome(Failed(429, TooManyAttempts), db, None)
    // the attempt is counted before the account is looked up, so a 404 counts too
    ensures emailField.Str? && RateLimiter.ValidateEmailDomain(emailField.s)
            && AttemptsFor(db.attempts, emailField.s, PasswordReset) < MaxAttempts ==>
              && AttemptsFor(r.db.attempts, emailField.s, PasswordReset)
                   == AttemptsFor(db.attempts, emailField.s, PasswordReset) + 1
              && (Chosen(db, emailField.s).None? ==> r.reply == Failed(404, AccountNotFound) && r.mail.None?)
              && (Chosen(db, emailField.s).Some? ==>
                    r == IssueResetToken(db.(attempts := r.db.attempts), Chosen(db, emailField.s).value,
                                         emailField.s, token, now, backendUrl, sent))
  {
    match emailField
    case Str(email) =>
      if !RateLimiter.ValidateEmailDomain(email) then Outcome(Failed(400, InvalidDomain), db, None)
      else
        (match CheckEmailAttempts(db.attempts, email, PasswordReset, now)
        case Err(e) => Outcome(Failed(429, e), db, None)
        case Ok(attempts) =>
          var db1 := db.(attempts := attempts);
          match Chosen(db, email)
          case None => Outcome(Failed(404, AccountNotFound), db1, None)
          case Some(account) => IssueResetToken(db1, account, email, token, now, backendUrl, sent))
    case _ => Outcome(Failed(500, ServerFailure), db, None)
  }

  /** A user with the token's id holds the live reset token. */
  predicate UserResetHolder(db: Db, id: Id, token: string, now: Time) {
    exists i :: 0 <= i < |db.users| && db.users[i].id == id && LiveReset(db.users[i].tokens, token, now)
  }

  predicate BusinessResetHolder(db: Db, id: Id, token: string, now: Time) {
    exists j :: 0 <= j < |db.businesses| && db.businesses[j].id == id && LiveReset(db.businesses[j].tokens, token, now)
  }

  /** The user (then the business) with the token's id holding the reset
      token, unexpired. */
  function ResetHolderUser(db: Db, id: Id, token: string, now: Time): (r: Option<User>)
    ensures r.Some? ==> r.value in db.users && r.value.id == id && LiveReset(r.value.tokens, token, now)
    ensures r.None? <==> !UserResetHolder(db, id, token, now)
  {
    FindFirst(db.users, (u: User) => u.id == id && LiveReset(u.tokens, token, now))
  }

  function ResetHolderBusiness(db: Db, id: Id, token: string, now: Time): (r: Option<Business>)
    ensures r.Some? ==> r.value in db.businesses && r.value.id == id && LiveReset(r.value.tokens, token, now)
    ensures r.None? <==> !BusinessResetHolder(db, id, token, now)
  {
    FindFirst(db.businesses, (b: Business) => b.id == id && LiveReset(b.tokens, token, now))
  }

  function NewPasswordUser(u: User, password: string): User {
    u.(password := PreSave(Plain(password), true), tokens := u.tokens.(resetToken := None, resetExpires := None))
  }

  function NewPasswordBusiness(b: Business, password: string): Business {
    b.(password := PreSave(Plain(password), true), tokens := b.tokens.(resetToken := None, resetExpires := None))
  }

  /** The reset route's write: the holder's new password, hashed, and its
      reset token cleared. */
  function SetUserPassword(db: Db, id: Id, password: string): (r: Db)
    ensures |r.users| == |db.users| && r.businesses == db.businesses && r.attempts == db.attempts
    ensures forall i :: 0 <= i < |db.users| ==>
              r.users[i] == if db.users[i].id == id then NewPasswordUser(db.users[i], password) else db.users[i]
  {
    UpdateUser(db, id, (u: User) => NewPasswordUser(u, password))
  }

  function SetBusinessPassword(db: Db, id: Id, password: string): (r: Db)
    ensures |r.businesses| == |db.businesses| && r.users == db.users && r.attempts == db.attempts
    ensures forall j :: 0 <= j < |db.businesses| ==>
              r.businesses[j] == if db.businesses[j].id == id then NewPasswordBusiness(db.businesses[j], password)
                                 else db.businesses[j]
  {
    UpdateBusiness(db, id, (b: Business) => NewPasswordBusiness(b, password))
  }

  /** POST `/reset-password/:token` with body field `password`.
      `decodedId` is the id in the token's payload, absent when the
      signature or expiry check throws. */
  function ResetPassword(db: Db, passwordField: Value, token: string, decodedId: Option<Id>, now: Time): (r: Outcome)
    ensures r.mail.None?
    ensures r.reply == Done(PasswordChanged) <==>
              decodedId.Some?
              && (UserResetHolder(db, decodedId.value, token, now) || BusinessResetHolder(db, decodedId.value, token, now))
              && passwordField.Str? && Validation.ValidatePassword(passwordField.s).isValid
    // the password rules are applied only once the token has been accepted
    ensures r.reply.WeakPassword? <==>
              decodedId.Some?
              && (UserResetHolder(db, decodedId.value, token, now) || BusinessResetHolder(db, decodedId.value, token, now))
              && passwordField.Str? && !Validation.ValidatePassword(passwordField.s).isValid
    ensures r.reply.WeakPassword? ==> r.reply.errors == Validation.ValidatePassword(passwordField.s).errors
    ensures r.reply != Done(PasswordChanged) ==> r.db == db
    ensures r.reply.Failed? ==> r.reply == Failed(400, InvalidResetToken)
  {
    match decodedId
    case None => Outcome(Failed(400, InvalidResetToken), db, None)
    case Some(id) =>
      var user := ResetHolderUser(db, id, token, now);
      var business := ResetHolderBusiness(db, id, token, now);
      if user.None? && business.None? then Outcome(Failed(400, InvalidResetToken), db, None)
      else
        match passwordField
        case Str(p) =>
          var check := Validation.ValidatePassword(p);
          if !check.isValid then Outcome(WeakPassword(check.errors), db, None)
          else if user.Some? then
            Outcome(Done(PasswordChanged), SetUserPassword(db, user.value.id, p), None)
          else
            Outcome(Done(PasswordChanged), SetBusinessPassword(db, business.value.id, p), None)
        case _ => Outcome(Failed(400, InvalidResetToken), db, None)
  }

  /** After a reset the account holding the token (a user before a
      business) accepts the new password and holds no reset token. */
  lemma ResetSetsPassword(db: Db, password: string, token: string, id: Id, now: Time)
    requires ResetPassword(db, Str(password), token, Some(id), now).reply == Done(PasswordChanged)
    ensures var db' := ResetPassword(db, Str(password), token, Some(id), now).db;
            && (UserResetHolder(db, id, token, now) ==>
                  exists i :: 0 <= i < |db'.users| && db'.users[i].id == id
                    && PasswordMatches(password, db'.users[i].password) && db'.users[i].tokens.resetToken.None?)
            && (!UserResetHolder(db, id, token, now) ==>
                  exists j :: 0 <= j < |db'.businesses| && db'.businesses[j].id == id
                    && PasswordMatches(password, db'.businesses[j].password) && db'.businesses[j].tokens.resetToken.None?)
  {
    var db' := ResetPassword(db, Str(password), token, Some(id), now).db;
    if ResetHolderUser(db, id, token, now).Some? {
      var u := ResetHolderUser(db, id, token, now).value;
      var i :| 0 <= i < |db.users| && db.users[i] == u;
      ResetWritesUser(db, password, token, id, now);
      assert db'.users[i] == NewPasswordUser(u, password);
    } else {
      var b := ResetHolderBusiness(db, id, token, now).value;
      var j :| 0 <= j < |db.businesses| && db.businesses[j] == b;
      ResetWritesBusiness(db, password, token, id, now);
      assert db'.businesses[j] == NewPasswordBusiness(b, password);
    }
  }

  /** A successful reset leaves no document holding the token, when only
      one held it. */
  lemma ResetClearsToken(db: Db, passwordField: Value, token: string, decodedId: Option<Id>, now: Time)
    requires SoleHolder(db, token, true)
    requires ResetPassword(db, passwordField, token, decodedId, now).reply == Done(PasswordChanged)
    ensures NoHolder(ResetPassword(db, passwordField, token, decodedId, now).db, token, true)
  {
    var id := decodedId.value;
    var p := passwordField.s;
    assert passwordField == Str(p);
    if ResetHolderUser(db, id, token, now).Some? {
      var u := ResetHolderUser(db, id, token, now).value;
      var k :| 0 <= k < |db.users| && db.users[k] == u;
      ResetWritesUser(db, p, token, id, now);
      NewPasswordClearsUser(db, k, p, token);
    } else {
      var b := ResetHolderBusiness(db, id, token, now).value;
      var k :| 0 <= k < |db.businesses| && db.businesses[k] == b;
      ResetWritesBusiness(db, p, token, id, now);
      NewPasswordClearsBusiness(db, k, p, token);
    }
  }

  /** Which write an accepted reset makes. */
  lemma ResetWritesUser(db: Db, password: string, token: string, id: Id, now: Time)
    requires ResetHolderUser(db, id, token, now).Some?
    requires Validation.ValidatePassword(password).isValid
    ensures ResetPassword(db, Str(password), token, Some(id), now).db
              == SetUserPassword(db, ResetHolderUser(db, id, token, now).value.id, password)
  {
  }

  lemma ResetWritesBusiness(db: Db, password: string, token: string, id: Id, now: Time)
    requires ResetHolderUser(db, id, token, now).None? && ResetHolderBusiness(db, id, token, now).Some?
    requires Validation.ValidatePassword(password).isValid
    ensures ResetPassword(db, Str(password), token, Some(id), now).db
              == SetBusinessPassword(db, ResetHolderBusiness(db, id, token, now).value.id, password)
  {
  }

  lemma NewPasswordClearsUser(db: Db, k: nat, password: string, token: string)
    requires SoleHolder(db, token, true)
    requires k < |db.users| && db.users[k].tokens.resetToken == Some(token)
    ensures NoHolder(SetUserPassword(db, db.users[k].id, password), token, true)
  {
    ClearedUserHolder(db, SetUserPassword(db, db.users[k].id, password), k, token, true);
  }

  lemma NewPasswordClearsBusiness(db: Db, k: nat, password: string, token: string)
    requires SoleHolder(db, token, true)
    requires k < |db.businesses| && db.businesses[k].tokens.resetToken == Some(token)
    ensures NoHolder(SetBusinessPassword(db, db.businesses[k].id, password), token, true)
  {
    ClearedBusinessHolder(db, SetBusinessPassword(db, db.businesses[k].id, password), k, token, true);
  }

  /** A reset token resets at most once. */
  lemma ResetTokenSingleUse(db: Db, passwordField: Value, token: string, decodedId: Option<Id>, now: Time,
                            again: Value, later: Time)
    requires SoleHolder(db, token, true)
    requires ResetPassword(db, passwordField, token, decodedId, now).reply == Done(PasswordChanged)
    ensures var db' := ResetPassword(db, passwordField, token, decodedId, now).db;
            ResetPassword(db', again, token, decodedId, later).reply == Failed(400, InvalidResetToken)
  {
    ResetClearsToken(db, passwordField, token, decodedId, now);
  }

  /** The whole reset flow: after a forgot-password request for a user
      that reached the mail service, presenting the mailed token with a
      strong password within 15 minutes succeeds, and the user's document
      then accepts that password. */
  lemma ForgotThenReset(db: Db, email: string, token: string, now: Time, later: Time, backendUrl: string, password: string)
    requires ForgotPassword(db, Str(email), token, now, backendUrl, true).reply == Done(ResetSent)
    requires FindUserByEmail(db, email).Some?
    requires now <= later < now + TokenLifetime
    requires Validation.StrongPassword(password)
    ensures var id := FindUserByEmail(db, email).value.id;
            var db1 := ForgotPassword(db, Str(email), token, now, backendUrl, true).db;
            var r := ResetPassword(db1, Str(password), token, Some(id), later);
            && r.reply == Done(PasswordChanged)
            && exists i :: 0 <= i < |r.db.users| && r.db.users[i].id == id && PasswordMatches(password, r.db.users[i].password)
  {
    var u := FindUserByEmail(db, email).value;
    var db1 := ForgotPassword(db, Str(email), token, now, backendUrl, true).db;
    var i :| 0 <= i < |db.users| && db.users[i] == u;
    ForgotStampsUser(db, email, token, now, backendUrl, i);
    ResetWithLiveToken(db1, i, password, token, later);
  }

  /** A strong password presented with the live reset token of a user is
      accepted, and the user's document then accepts it. */
  lemma ResetWithLiveToken(db: Db, i: nat, password: string, token: string, now: Time)
    requires i < |db.users| && LiveReset(db.users[i].tokens, token, now)
    requires Validation.StrongPassword(password)
    ensures var id := db.users[i].id;
            var r := ResetPassword(db, Str(password), token, Some(id), now);
            && r.reply == Done(PasswordChanged)
            && exists k :: 0 <= k < |r.db.users| && r.db.users[k].id == id && PasswordMatches(password, r.db.users[k].password)
  {
    assert UserResetHolder(db, db.users[i].id, token, now);
    Validation.PasswordValidIffStrong(password);
    ResetSetsPassword(db, password, token, db.users[i].id, now);
  }

  /** A forgot-password request for a user's address stores the reset
      token on that user's document. */
  lemma ForgotStampsUser(db: Db, email: string, token: string, now: Time, backendUrl: string, i: nat)
    requires ForgotPassword(db, Str(email), token, now, backendUrl, true).reply == Done(ResetSent)
    requires FindUserByEmail(db, email).Some? && i < |db.users| && db.users[i] == FindUserByEmail(db, email).value
    ensures var db1 := ForgotPassword(db, Str(email), token, now, backendUrl, true).db;
            i < |db1.users| && db1.users[i] == ResetStampUser(db.users[i], token, now)
  {
    assert Chosen(db, email) == Some(UserAccount(db.users[i]));
  }

}
