/** The `User` schema: an applicant's account. */
module UserModel {
  import opened Base
  import opened Strings
  import opened Json
  import opened Accounts

  /** The only value of `accountType` the enum admits. */
  const UserAccountType: string := "user"

  /** At most this many interests (the first `interests` path validator). */
  const MaxInterests: int := 3

  datatype User = User(
    id: Id,
    email: string,
    password: Secret,
    username: string,
    firstName: string,
    lastName: string,
    phoneNumber: string,
    avatar: Option<string>,
    cv: Option<string>,
    interests: seq<Id>,
    isEmailVerified: bool,
    tokens: Tokens,
    createdAt: Time)

  /** The interests are pairwise distinct (the `Set` of their string forms
      has as many members as the list). */
  predicate Distinct(s: seq<Id>) {
    forall i, j :: 0 <= i < j < |s| ==> s[i] != s[j]
  }

  datatype InterestsError = TooManyInterests | DuplicateInterests | UnknownInterest

  /** The `interests` validators: the length rule, then the duplicate rule,
      then each element must name an existing category. */
  function ValidateInterests(s: seq<Id>, categories: set<Id>): (r: Option<InterestsError>)
    ensures r.None? <==> |s| <= MaxInterests && Distinct(s) && forall i :: 0 <= i < |s| ==> s[i] in categories
    ensures r == Some(TooManyInterests) <==> |s| > MaxInterests
    ensures r == Some(DuplicateInterests) <==> |s| <= MaxInterests && !Distinct(s)
  {
    if |s| > MaxInterests then Some(TooManyInterests)
    else if !Distinct(s) then Some(DuplicateInterests)
    else if exists i :: 0 <= i < |s| && s[i] !in categories then Some(UnknownInterest)
    else None
  }

  /** What `new User({...})` stores for the submitted strings: the `trim`
      setters on username, names and phone, the e-mail setters, the
      `accountType` and `isEmailVerified` defaults and no tokens.  The
      password is still in clear until the `pre('save')` hook runs. */
  function NewUser(id: Id, email: string, password: string, username: string,
                   firstName: string, lastName: string, phoneNumber: string,
                   interests: seq<Id>, now: Time): (u: User)
    ensures u.email == NormalizeEmail(email) && IsTrimmed(u.email)
    ensures u.username == Trim(username) && u.phoneNumber == Trim(phoneNumber)
    ensures u.firstName == Trim(firstName) && u.lastName == Trim(lastName)
    ensures !u.isEmailVerified && u.tokens == NoTokens && u.password == Plain(password)
    ensures u.avatar.None? && u.cv.None? && u.interests == interests
  {
    User(id, NormalizeEmail(email), Plain(password), Trim(username), Trim(firstName),
         Trim(lastName), Trim(phoneNumber), None, None, interests, false, NoTokens, now)
  }

  /** The `required` validators: a required string may not be empty. */
  predicate RequiredPresent(u: User) {
    |u.email| > 0 && |u.username| > 0 && |u.firstName| > 0 && |u.lastName| > 0 && |u.phoneNumber| > 0
  }

  /** The `fullName` virtual. */
  function FullName(u: User): (r: string)
    ensures |r| == |u.firstName| + 1 + |u.lastName|
    ensures r[..|u.firstName|] == u.firstName && r[|u.firstName|] == ' '
    ensures r[|u.firstName| + 1..] == u.lastName
  {
    u.firstName + " " + u.lastName
  }

  function OptStr(key: Prop, v: Option<string>): Document {
    if v.Some? then [(key, Str(v.value))] else []
  }

  function IdArray(s: seq<Id>): (r: seq<Value>)
    ensures |r| == |s| && forall i :: 0 <= i < |s| ==> r[i] == Str(s[i])
  {
    if |s| == 0 then [] else [Str(s[0])] + IdArray(s[1..])
  }

  /** The stored document of a user, every property in schema order. */
  function ToDocument(u: User): (r: Document)
    ensures forall i :: 0 <= i < |r| ==> r[i].0 != IdVirtual && r[i].0 != FullNameVirtual
  {
    [(IdField, Str(u.id)), (EmailField, Str(u.email))]
    + SecretFields(u.password, u.tokens)
    + [(UsernameField, Str(u.username)), (FirstNameField, Str(u.firstName)),
       (LastNameField, Str(u.lastName)), (PhoneNumberField, Str(u.phoneNumber))]
    + OptStr(AvatarField, u.avatar) + OptStr(CvField, u.cv)
    + [(AccountTypeField, Str(UserAccountType)), (InterestsField, Arr(IdArray(u.interests))),
       (IsEmailVerifiedField, Bool(u.isEmailVerified)), (CreatedAtField, Num(u.createdAt))]
  }

  /** The two virtuals `toJSON` adds (the schema enables virtuals). */
  function Virtuals(u: User): Document {
    [(IdVirtual, Str(u.id)), (FullNameVirtual, Str(FullName(u)))]
  }

  /** `user.toJSON()`: the virtuals `id` and `fullName` are added and the
      transform then removes the secrets; every other property is the
      stored one. */
  function ToJson(u: User): (r: Document)
    ensures forall k :: k in RedactedKeys ==> Lookup(r, k).None?
    ensures Lookup(r, FullNameVirtual) == Some(Str(FullName(u)))
    ensures Lookup(r, IdVirtual) == Some(Str(u.id))
    ensures forall k :: k !in RedactedKeys && k != IdVirtual && k != FullNameVirtual ==>
              Lookup(r, k) == Lookup(ToDocument(u), k)
  {
    var withVirtuals := ToDocument(u) + Virtuals(u);
    WithVirtuals(u);
    var r := Redact(withVirtuals);
    assert forall k :: k !in RedactedKeys ==> Lookup(r, k) == Lookup(withVirtuals, k);
    r
  }

  /** Appending the virtuals shows them under their own names and nothing
      else changes, since the document has no property of those names. */
  lemma WithVirtuals(u: User)
    ensures Lookup(ToDocument(u) + Virtuals(u), IdVirtual) == Some(Str(u.id))
    ensures Lookup(ToDocument(u) + Virtuals(u), FullNameVirtual) == Some(Str(FullName(u)))
    ensures forall k :: k != IdVirtual && k != FullNameVirtual ==>
              Lookup(ToDocument(u) + Virtuals(u), k) == Lookup(ToDocument(u), k)
  {
    var d := ToDocument(u);
    var v := Virtuals(u);
    LookupAppend(d, v);
    assert v[1..] == [(FullNameVirtual, Str(FullName(u)))];
    assert Lookup(v[1..], FullNameVirtual) == Some(Str(FullName(u)));
    assert Lookup(d, IdVirtual).None? && Lookup(d, FullNameVirtual).None?;
    assert forall k :: k != IdVirtual && k != FullNameVirtual ==> Lookup(v, k).None?;
  }

  /** The password hash, the tokens and their expiry dates never appear in
      `toJSON`, whatever the account holds, while the e-mail address does. */
  lemma ToJsonHidesSecrets(u: User)
    ensures Lookup(ToJson(u), PasswordField).None?
    ensures Lookup(ToJson(u), VerifyTokenField).None? && Lookup(ToJson(u), ResetTokenField).None?
    ensures Lookup(ToJson(u), EmailField) == Some(Str(u.email))
  {
    DocumentEmail(u);
  }

  lemma DocumentEmail(u: User)
    ensures Lookup(ToDocument(u), EmailField) == Some(Str(u.email))
  {
    var d := ToDocument(u);
    assert d[0].0 == IdField && d[1..][0] == (EmailField, Str(u.email));
  }
}
