/** Applicant registration and login: the order of the checks, what a
    registration stores, and what a login hands to the token signer. */
module UserRoutes {
  import opened Base
  import opened Strings
  import opened Json
  import opened Accounts
  import opened UserModel
  import opened Store
  import opened AccountStore
  import opened AuthGate
  import Verification
  import Validation

  datatype RegisterReply =
    | Registered(userId: Id)              // 201
    | RegisterRefused(fail: Fail)
    | RegisterWeakPassword(errors: seq<string>)  // 400 with `{ errors }`

  datatype Registration = Registration(reply: RegisterReply, db: Db, mail: Option<Verification.Mail>)

  const DuplicateAccount: string := "Email, username, or phone number already registered"

  /** One branch of the `$or` duplicate query matches `u`: the e-mail, the
      username or the phone number, each compared after its setters. */
  predicate Clashes(u: User, email: string, username: string, phoneNumber: string) {
    u.email == NormalizeEmail(email) || u.username == Trim(username) || u.phoneNumber == Trim(phoneNumber)
  }

  predicate Clash(db: Db, email: string, username: string, phoneNumber: string) {
    exists i :: 0 <= i < |db.users| && Clashes(db.users[i], email, username, phoneNumber)
  }

  /** The document `user.save()` writes: the constructor's setters and
      defaults, then the `pre('save')` hook hashing the new password. */
  function StoredUser(id: Id, email: string, password: string, username: string, firstName: string,
                      lastName: string, phoneNumber: string, interests: seq<Id>, now: Time): (u: User)
    ensures u.id == id && u.email == NormalizeEmail(email) && !u.isEmailVerified
    ensures u.username == Trim(username) && u.phoneNumber == Trim(phoneNumber)
    ensures PasswordMatches(password, u.password)
    ensures forall other :: other != password ==> !PasswordMatches(other, u.password)
  {
    SavedPasswordMatches(password, "");
    forall other | other != password
      ensures !PasswordMatches(other, PreSave(Plain(password), true))
    {
      SavedPasswordMatches(password, other);
    }
    NewUser(id, email, password, username, firstName, lastName, phoneNumber, interests, now)
      .(password := PreSave(Plain(password), true))
  }

  /** The schema validators `save` runs: required text fields and the
      interests rules (at most three, distinct, existing categories). */
  predicate Savable(db: Db, u: User) {
    RequiredPresent(u) && ValidateInterests(u.interests, CategoryIds(db)).None?
  }

  /** POST `/register`.  `id` is the id the new document gets; `token`,
      `now`, `backendUrl` and `sent` are handed to `sendVerificationEmail`,
      whose failure the route ignores. */
  function Register(db: Db, email: string, password: Value, username: string, firstName: string,
                    lastName: string, phoneNumber: string, interests: seq<Id>, id: Id,
                    now: Time, token: string, backendUrl: string, sent: bool): (r: Registration)
    // the password rules come before any lookup
    ensures password.Str? && !Validation.ValidatePassword(password.s).isValid ==>
              r == Registration(RegisterWeakPassword(Validation.ValidatePassword(password.s).errors), db, None)
    ensures password.Str? && Validation.ValidatePassword(password.s).isValid
            && Clash(db, email, username, phoneNumber) ==>
              r == Registration(RegisterRefused(Fail(400, DuplicateAccount)), db, None)
    ensures !password.Str? ==> r == Registration(RegisterRefused(ServerError), db, None)
    ensures r.reply.Registered? <==>
              && password.Str? && Validation.ValidatePassword(password.s).isValid
              && !Clash(db, email, username, phoneNumber)
              && Savable(db, StoredUser(id, email, password.s, username, firstName, lastName, phoneNumber, interests, now))
    ensures !r.reply.Registered? ==> r.db == db && r.mail.None?
    // the new document is appended; the e-mail step may stamp its token
    ensures r.reply.Registered? ==>
              var u := StoredUser(id, email, password.s, username, firstName, lastName, phoneNumber, interests, now);
              r == Enrol(db, u, token, now, backendUrl, sent)
  {
    match password
    case Str(p) =>
      var check := Validation.ValidatePassword(p);
      if !check.isValid then Registration(RegisterWeakPassword(check.errors), db, None)
      else if Clash(db, email, username, phoneNumber) then
        Registration(RegisterRefused(Fail(400, DuplicateAccount)), db, None)
      else
        var u := StoredUser(id, email, p, username, firstName, lastName, phoneNumber, interests, now);
        if !Savable(db, u) then Registration(RegisterRefused(ServerError), db, None)
        else
          Enrol(db, u, token, now, backendUrl, sent)
    case _ => Registration(RegisterRefused(ServerError), db, None)
  }

  /** A registration that passed every check: the document is appended,
      then `sendVerificationEmail` runs and may stamp its token; whatever
      it throws is swallowed. */
  function Enrol(db: Db, u: User, token: string, now: Time, backendUrl: string, sent: bool): (r: Registration)
    ensures r.reply == Registered(u.id)
    ensures |r.db.users| == |db.users| + 1
    ensures r.db.users[|db.users|] == u.(tokens := r.db.users[|db.users|].tokens)
    ensures forall i :: 0 <= i < |db.users| ==> r.db.users[i] == db.users[i].(tokens := r.db.users[i].tokens)
    ensures r.db.businesses == db.businesses
  {
    var db0 := db.(users := db.users + [u]);
    var s := Verification.SendVerificationEmail(db0, UserAccount(u), false, token, now, backendUrl, sent);
    SendChangesTokensOnly(db0, u, token, now, backendUrl, sent);
    assert forall i :: 0 <= i < |db.users| ==> db0.users[i] == db.users[i];
    assert db0.users[|db.users|] == u;
    Registration(Registered(u.id), s.db, s.mail)
  }

  /** Sending the verification e-mail of a user touches only users' tokens. */
  lemma SendChangesTokensOnly(db: Db, u: User, token: string, now: Time, backendUrl: string, sent: bool)
    ensures var s := Verification.SendVerificationEmail(db, UserAccount(u), false, token, now, backendUrl, sent);
      && |s.db.users| == |db.users| && s.db.businesses == db.businesses
      && forall i :: 0 <= i < |db.users| ==> s.db.users[i] == db.users[i].(tokens := s.db.users[i].tokens)
  {
    var s := Verification.SendVerificationEmail(db, UserAccount(u), false, token, now, backendUrl, sent);
    if s.mail.Some? {
      TokensOnly(db.users, s.db.users, u.id, token, now);
    }
  }

  /** Stamping the verification token on the users with an id changes
      nothing but their tokens. */
  lemma TokensOnly(before: seq<User>, after: seq<User>, id: Id, token: string, now: Time)
    requires |after| == |before|
    requires forall i :: 0 <= i < |before| ==>
               after[i] == if before[i].id == id then Verification.StampUser(before[i], token, now) else before[i]
    ensures forall i :: 0 <= i < |before| ==> after[i] == before[i].(tokens := after[i].tokens)
  {
  }

  /** A failed verification e-mail changes nothing about a registration:
      the same reply, the same stored documents, the same e-mail attempted. */
  lemma RegisterIgnoresSendFailure(db: Db, email: string, password: Value, username: string, firstName: string,
                                   lastName: string, phoneNumber: string, interests: seq<Id>, id: Id,
                                   now: Time, token: string, backendUrl: string)
    ensures Register(db, email, password, username, firstName, lastName, phoneNumber, interests, id,
                     now, token, backendUrl, false)
         == Register(db, email, password, username, firstName, lastName, phoneNumber, interests, id,
                     now, token, backendUrl, true)
  {
    if password.Str? {
      var u := StoredUser(id, email, password.s, username, firstName, lastName, phoneNumber, interests, now);
      EnrolIgnoresSent(db, u, token, now, backendUrl);
    }
  }

  lemma EnrolIgnoresSent(db: Db, u: User, token: string, now: Time, backendUrl: string)
    ensures Enrol(db, u, token, now, backendUrl, false) == Enrol(db, u, token, now, backendUrl, true)
  {
  }

  /** POST `/login`: the claims the token is signed with, or the refusal. */
  function Login(db: Db, email: string, password: string): (r: Result<Claims, Fail>)
    // an unknown address and a wrong password get the same answer
    ensures FindUserByEmail(db, email).None? ==> r == Err(Fail(401, "Invalid credentials"))
    ensures FindUserByEmail(db, email).Some? && !PasswordMatches(password, FindUserByEmail(db, email).value.password) ==>
              r == Err(Fail(401, "Invalid credentials"))
    // the address check comes after the password check
    ensures FindUserByEmail(db, email).Some? && PasswordMatches(password, FindUserByEmail(db, email).value.password)
            && !FindUserByEmail(db, email).value.isEmailVerified ==>
              r == Err(Fail(403, "Email not verified"))
    ensures r.Ok? <==> FindUserByEmail(db, email).Some?
                       && PasswordMatches(password, FindUserByEmail(db, email).value.password)
                       && FindUserByEmail(db, email).value.isEmailVerified
    ensures r.Ok? ==> r.value == Claims(FindUserByEmail(db, email).value.id, "user")
  {
    match FindUserByEmail(db, email)
    case None => Err(Fail(401, "Invalid credentials"))
    case Some(u) =>
      if !PasswordMatches(password, u.password) then Err(Fail(401, "Invalid credentials"))
      else if !u.isEmailVerified then Err(Fail(403, "Email not verified"))
      else Ok(Claims(u.id, "user"))
  }

  /** With distinct document ids, `findById` of an id held by a stored user
      finds that user. */
  lemma FindUserOfStored(db: Db, i: nat)
    requires DistinctIds(db) && i < |db.users|
    ensures FindUser(db, db.users[i].id) == Some(db.users[i])
  {
    var u := FindUser(db, db.users[i].id).value;
    var j :| 0 <= j < |db.users| && db.users[j] == u;
    assert i == j || i < j || j < i;
  }

  /** The token a login hands out passes `auth` and identifies the user
      who logged in. */
  lemma LoginTokenPassesAuth(db: Db, email: string, password: string, header: Option<string>,
                             verify: string -> Option<Claims>)
    requires DistinctIds(db)
    requires Login(db, email, password).Ok?
    requires BearerToken(header).Some? && verify(BearerToken(header).value) == Some(Login(db, email, password).value)
    ensures Auth(db, header, verify) == Ok(Requester(FindUserByEmail(db, email).value.id, "user"))
  {
    var u := FindUserByEmail(db, email).value;
    var i :| 0 <= i < |db.users| && db.users[i] == u;
    FindUserOfStored(db, i);
  }

  /** Right after registering, the address and password are recognised but
      the login is refused until the address is verified. */
  lemma RegisterThenLogin(db: Db, email: string, password: string, username: string, firstName: string,
                          lastName: string, phoneNumber: string, interests: seq<Id>, id: Id,
                          now: Time, token: string, backendUrl: string, sent: bool)
    requires Register(db, email, Str(password), username, firstName, lastName, phoneNumber, interests, id,
                      now, token, backendUrl, sent).reply.Registered?
    ensures var db' := Register(db, email, Str(password), username, firstName, lastName, phoneNumber, interests, id,
                                now, token, backendUrl, sent).db;
            Login(db', email, password) == Err(Fail(403, "Email not verified"))
  {
    var db' := Register(db, email, Str(password), username, firstName, lastName, phoneNumber, interests, id,
                        now, token, backendUrl, sent).db;
    var u := StoredUser(id, email, password, username, firstName, lastName, phoneNumber, interests, now);
    var n := |db.users|;
    assert !Clash(db, email, username, phoneNumber);
    assert db'.users[n].email == NormalizeEmail(email);
    forall i | 0 <= i < n
      ensures db'.users[i].email != NormalizeEmail(email)
    {
      assert db'.users[i].email == db.users[i].email;
      assert !Clashes(db.users[i], email, username, phoneNumber);
    }
    var found := FindUserByEmail(db', email).value;
    var k :| 0 <= k < |db'.users| && db'.users[k] == found;
    assert k == n;
  }
}
