/** The two authentication middlewares, `auth` and `ensureAdmin`, and the
    `/auth-check` route that answers the same question without refusing.
    Signature checking of the bearer token is a parameter: `verify` maps a
    token to the claims it was signed with, or to nothing when
    `jwt.verify` throws. */
module AuthGate {
  import opened Base
  import opened Strings
  import opened Store
  import opened AccountStore

  /** What the server signs into a token: the account id and its type
      (`'user'` or `'business'`). */
  datatype Claims = Claims(userId: Id, userType: string)

  const BearerPrefix: string := "Bearer "

  /** `req.header('Authorization')?.replace('Bearer ', '')`, where an absent
      header or an empty result counts as no token. */
  function BearerToken(header: Option<string>): (r: Option<string>)
    ensures r.Some? ==> header.Some? && |r.value| > 0
    ensures header.Some? && !Contains(header.value, BearerPrefix) ==>
              r == if |header.value| == 0 then None else Some(header.value)
  {
    match header
    case None => None
    case Some(h) =>
      var t := ReplaceFirst(h, BearerPrefix, "");
      if |t| == 0 then None else Some(t)
  }

  /** The usual header, `Bearer <token>`, hands over exactly the token. */
  lemma {:induction false} BearerTokenOfHeader(token: string)
    requires |token| > 0
    ensures BearerToken(Some(BearerPrefix + token)) == Some(token)
  {
    var h := BearerPrefix + token;
    assert h[0..|BearerPrefix|] == BearerPrefix;
    assert OccursAt(h, BearerPrefix, 0);
    assert Contains(h, BearerPrefix);
    var r := ReplaceFirst(h, BearerPrefix, "");
    var i :| OccursAt(h, BearerPrefix, i) && (forall j :: 0 <= j < i ==> !OccursAt(h, BearerPrefix, j)) &&
             r[..i] == h[..i] && r[i..i] == "" && r[i..] == h[i + |BearerPrefix|..];
    assert i == 0;
    assert h[|BearerPrefix|..] == token;
  }

  /** The account a token names: looked up among users when its type is
      `'user'`, among businesses for every other type. */
  function TokenAccount(db: Db, c: Claims): (r: Option<Account>)
    ensures r.Some? ==> r.value.Id() == c.userId
    ensures r.Some? ==> (r.value.UserAccount? <==> c.userType == "user")
    ensures r.Some? && r.value.UserAccount? ==> r.value.user in db.users
    ensures r.Some? && r.value.BusinessAccount? ==> r.value.business in db.businesses
    ensures r.None? <==> if c.userType == "user" then FindUser(db, c.userId).None?
                         else FindBusiness(db, c.userId).None?
  {
    if c.userType == "user" then
      match FindUser(db, c.userId)
      case None => None
      case Some(u) => Some(UserAccount(u))
    else
      match FindBusiness(db, c.userId)
      case None => None
      case Some(b) => Some(BusinessAccount(b))
  }

  /** The approval check: made only for a token of type `'business'`. */
  predicate ApprovalRequired(c: Claims, account: Account) {
    c.userType == "business" && !(account.BusinessAccount? && account.business.approved)
  }

  /** `auth`: the requester it sets on the request, or the refusal. */
  function Auth(db: Db, header: Option<string>, verify: string -> Option<Claims>): (r: Result<Requester, Fail>)
    ensures BearerToken(header).None? ==> r == Err(Fail(401, "Authentication required"))
    ensures BearerToken(header).Some? && verify(BearerToken(header).value).None? ==>
              r == Err(Fail(401, "Invalid or expired token"))
    ensures BearerToken(header).Some? && verify(BearerToken(header).value).Some? ==>
              var c := verify(BearerToken(header).value).value;
              && (TokenAccount(db, c).None? ==> r == Err(Fail(401, "Account not found")))
              // the address check comes before the approval check
              && (TokenAccount(db, c).Some? && !TokenAccount(db, c).value.Verified() ==>
                    r == Err(Fail(403, "Email not verified")))
              && (TokenAccount(db, c).Some? && TokenAccount(db, c).value.Verified()
                  && ApprovalRequired(c, TokenAccount(db, c).value) ==>
                    r == Err(Fail(403, "Account not approved")))
    ensures r.Ok? <==>
              && BearerToken(header).Some? && verify(BearerToken(header).value).Some?
              && var c := verify(BearerToken(header).value).value;
                 TokenAccount(db, c).Some? && TokenAccount(db, c).value.Verified()
                 && !ApprovalRequired(c, TokenAccount(db, c).value)
    ensures r.Ok? ==> var c := verify(BearerToken(header).value).value;
              r.value == Requester(c.userId, c.userType)
  {
    match BearerToken(header)
    case None => Err(Fail(401, "Authentication required"))
    case Some(token) =>
      match verify(token)
      case None => Err(Fail(401, "Invalid or expired token"))
      case Some(c) =>
        match TokenAccount(db, c)
        case None => Err(Fail(401, "Account not found"))
        case Some(account) =>
          if !account.Verified() then Err(Fail(403, "Email not verified"))
          else if ApprovalRequired(c, account) then Err(Fail(403, "Account not approved"))
          else Ok(Requester(c.userId, c.userType))
  }

  /** The reply of GET `/auth-check`. */
  datatype AuthStatus = NotAuthenticated | Authenticated(accountType: string, id: Id)

  /** GET `/auth-check`: the same checks as `auth`, answered as a status. */
  function AuthCheck(db: Db, header: Option<string>, verify: string -> Option<Claims>): (r: AuthStatus)
    ensures BearerToken(header).None? ==> r == NotAuthenticated
  {
    match BearerToken(header)
    case None => NotAuthenticated
    case Some(token) =>
      match verify(token)
      case None => NotAuthenticated
      case Some(c) =>
        match TokenAccount(db, c)
        case None => NotAuthenticated
        case Some(account) =>
          if !account.Verified() then NotAuthenticated
          else if c.userType == "business" && !(account.BusinessAccount? && account.business.approved)
          then NotAuthenticated
          else Authenticated(c.userType, account.Id())
  }

  /** `/auth-check` reports authenticated exactly when `auth` would let the
      request through, and then names the requester `auth` would set. */
  lemma AuthCheckAgreesWithAuth(db: Db, header: Option<string>, verify: string -> Option<Claims>)
    ensures AuthCheck(db, header, verify).Authenticated? <==> Auth(db, header, verify).Ok?
    ensures Auth(db, header, verify).Ok? ==>
              AuthCheck(db, header, verify) ==
                Authenticated(Auth(db, header, verify).value.userType, Auth(db, header, verify).value.id)
  {
    if BearerToken(header).Some? && verify(BearerToken(header).value).Some? {
      var c := verify(BearerToken(header).value).value;
      if TokenAccount(db, c).Some? {
        assert TokenAccount(db, c).value.Id() == c.userId;
      }
    }
  }

  /** The number of bytes of the UTF-8 encoding (`Buffer.from(s).length`). */
  function Utf8Length(s: string): (n: nat)
    ensures n >= |s|
  {
    if |s| == 0 then 0
    else
      var c := s[0] as int;
      (if c < 0x80 then 1 else if c < 0x800 then 2 else if c < 0x10000 then 3 else 4) + Utf8Length(s[1..])
  }

  /** `ensureAdmin`.  `adminSecret` is `ADMIN_SECRET` (absent when unset, so
      that `Buffer.from` throws); `crypto.timingSafeEqual` throws on buffers
      of different lengths and otherwise compares the bytes. */
  function EnsureAdmin(header: Option<string>, adminHeader: Option<string>, verify: string -> Option<Claims>,
                       adminSecret: Option<string>): (r: Result<Requester, Fail>)
    ensures BearerToken(header).None? || adminHeader.None? || adminHeader == Some("") ==>
              r == Err(Fail(401, "Admin authentication required"))
    // only a comparison that completes and fails is a 403
    ensures r == Err(Fail(403, "Invalid admin credentials")) <==>
              && BearerToken(header).Some? && adminHeader.Some? && adminHeader != Some("")
              && verify(BearerToken(header).value).Some? && adminSecret.Some?
              && Utf8Length(adminHeader.value) == Utf8Length(adminSecret.value)
              && adminHeader.value != adminSecret.value
    ensures r.Ok? <==>
              && BearerToken(header).Some? && adminHeader.Some? && adminHeader != Some("")
              && verify(BearerToken(header).value).Some? && adminSecret == adminHeader
    ensures r.Ok? ==> var c := verify(BearerToken(header).value).value;
              r.value == Requester(c.userId, c.userType)
    ensures r.Err? ==> r.error.status == 401 || r.error == Fail(403, "Invalid admin credentials")
  {
    match (BearerToken(header), adminHeader)
    case (Some(token), Some(admin)) =>
      if |admin| == 0 then Err(Fail(401, "Admin authentication required"))
      else
        (match verify(token)
        case None => Err(Fail(401, "Invalid or expired token"))
        case Some(c) =>
          match adminSecret
          case None => Err(Fail(401, "Invalid or expired token"))
          case Some(secret) =>
            if Utf8Length(admin) != Utf8Length(secret) then Err(Fail(401, "Invalid or expired token"))
            else if admin != secret then Err(Fail(403, "Invalid admin credentials"))
            else Ok(Requester(c.userId, c.userType)))
    case _ => Err(Fail(401, "Admin authentication required"))
  }

  /** A wrong admin token is answered 403 only when it has the secret's
      length in bytes; a wrong length throws inside the comparison and is
      answered like a bad bearer token. */
  lemma WrongAdminTokenStatus(header: Option<string>, admin: string, verify: string -> Option<Claims>, secret: string)
    requires BearerToken(header).Some? && verify(BearerToken(header).value).Some?
    requires |admin| > 0 && admin != secret
    ensures Utf8Length(admin) == Utf8Length(secret) ==>
              EnsureAdmin(header, Some(admin), verify, Some(secret)) == Err(Fail(403, "Invalid admin credentials"))
    ensures Utf8Length(admin) != Utf8Length(secret) ==>
              EnsureAdmin(header, Some(admin), verify, Some(secret)) == Err(Fail(401, "Invalid or expired token"))
  {
  }
}
