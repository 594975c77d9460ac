/** PATCH `/profile` of an applicant: which fields the body may change, the
    interest-list checks, the phone-number uniqueness check and the update
    validators, in the order the handler runs them.  File uploads are not
    part of this model. */
module ProfileUpdate {
  import opened Base
  import opened Strings
  import opened Json
  import opened UserModel
  import opened BusinessModel
  import opened Store
  import opened AccountStore

  /** The `updates` object the handler builds. */
  datatype Changes = Changes(
    firstName: Option<string>,
    lastName: Option<string>,
    phoneNumber: Option<string>,
    interests: Option<seq<Value>>)

  /** `if (v) updates.x = v.trim()`: nothing for a falsy value, the trimmed
      text for a string, and a TypeError for anything else. */
  function TruthyTrim(v: Value): (r: Result<Option<string>, Fail>)
    ensures r == Ok(None) <==> !Truthy(v)
    ensures r.Ok? && r.value.Some? <==> Truthy(v) && v.Str?
    ensures r.Ok? && r.value.Some? ==> r.value.value == Trim(v.s)
    ensures r.Err? ==> r.error == ServerError
  {
    if !Truthy(v) then Ok(None)
    else if v.Str? then Ok(Some(Trim(v.s)))
    else Err(ServerError)
  }

  /** The `SameValueZero` comparison a `Set` uses, on values fresh from
      `JSON.parse`: primitives by value, while every array and object is a
      distinct reference. */
  predicate SameValueZero(a: Value, b: Value) {
    !a.Arr? && !a.Obj? && a == b
  }

  /** `s.length === new Set(s).size`. */
  predicate SetDistinct(s: seq<Value>) {
    forall i, j :: 0 <= i < j < |s| ==> !SameValueZero(s[i], s[j])
  }

  const MustBeArray: string := "Interests must be an array"
  const TooMany: string := "Maximum 3 interests allowed"
  const Duplicates: string := "Duplicate interests are not allowed"

  /** The `interests` block.  `parsed` is what `JSON.parse` returns for the
      field, absent when it throws. */
  function InterestList(field: Value, parsed: Option<Value>): (r: Result<Option<seq<Value>>, Fail>)
    ensures !Truthy(field) ==> r == Ok(None)
    ensures Truthy(field) && parsed.None? ==> r == Err(ServerError)
    // first the type, then the length, then duplicates
    ensures Truthy(field) && parsed.Some? && !parsed.value.Arr? ==> r == Err(Fail(400, MustBeArray))
    ensures Truthy(field) && parsed.Some? && parsed.value.Arr? && |parsed.value.items| > MaxInterests ==>
              r == Err(Fail(400, TooMany))
    ensures (Truthy(field) && parsed.Some? && parsed.value.Arr? && |parsed.value.items| <= MaxInterests
             && !SetDistinct(parsed.value.items)) ==> r == Err(Fail(400, Duplicates))
    ensures r.Ok? && r.value.Some? ==>
              && Truthy(field) && parsed == Some(Arr(r.value.value))
              && |r.value.value| <= MaxInterests && SetDistinct(r.value.value)
  {
    if !Truthy(field) then Ok(None)
    else
      match parsed
      case None => Err(ServerError)
      case Some(v) =>
        if !v.Arr? then Err(Fail(400, MustBeArray))
        else if |v.items| > MaxInterests then Err(Fail(400, TooMany))
        else if SetDistinct(v.items) then Ok(Some(v.items))
        else Err(Fail(400, Duplicates))
  }

  /** The body read into `updates`, in the handler's order: names, phone,
      then interests. */
  function ReadChanges(firstName: Value, lastName: Value, phoneNumber: Value, interests: Value,
                       parsed: Option<Value>): (r: Result<Changes, Fail>)
    ensures r.Ok? <==> TruthyTrim(firstName).Ok? && TruthyTrim(lastName).Ok? && TruthyTrim(phoneNumber).Ok?
                       && InterestList(interests, parsed).Ok?
    ensures r.Ok? ==> r.value == Changes(TruthyTrim(firstName).value, TruthyTrim(lastName).value,
                                         TruthyTrim(phoneNumber).value, InterestList(interests, parsed).value)
    ensures r.Err? && TruthyTrim(firstName).Ok? && TruthyTrim(lastName).Ok? && TruthyTrim(phoneNumber).Ok? ==>
              r == Err(InterestList(interests, parsed).error)
  {
    match (TruthyTrim(firstName), TruthyTrim(lastName), TruthyTrim(phoneNumber))
    case (Ok(f), Ok(l), Ok(p)) =>
      (match InterestList(interests, parsed)
      case Ok(i) => Ok(Changes(f, l, p, i))
      case Err(e) => Err(e))
    case _ => Err(ServerError)
  }

  /** Another user, or any business contact, already has the number. */
  predicate PhoneTaken(db: Db, uid: Id, phone: string) {
    || (exists i :: 0 <= i < |db.users| && db.users[i].phoneNumber == phone && db.users[i].id != uid)
    || (exists j :: 0 <= j < |db.businesses| && db.businesses[j].contact.phoneNumber == phone)
  }

  /** Casting the interest list to ids: only strings cast (a number, array
      or object raises a cast error). */
  function CastIds(items: seq<Value>): (r: Option<seq<Id>>)
    ensures r.Some? <==> forall i :: 0 <= i < |items| ==> items[i].Str?
    ensures r.Some? ==> |r.value| == |items| && forall i :: 0 <= i < |items| ==> r.value[i] == items[i].s
  {
    if |items| == 0 then Some([])
    else if !items[0].Str? then None
    else
      match CastIds(items[1..])
      case None => None
      case Some(rest) => Some([items[0].s] + rest)
  }

  /** Distinct strings are distinct ids. */
  lemma CastKeepsDistinct(items: seq<Value>)
    requires SetDistinct(items) && CastIds(items).Some?
    ensures Distinct(CastIds(items).value)
  {
    var ids := CastIds(items).value;
    forall i, j | 0 <= i < j < |ids|
      ensures ids[i] != ids[j]
    {
      assert !SameValueZero(items[i], items[j]);
    }
  }

  /** The update validators on the paths set: a required text may not be
      empty, and the interests must pass the schema's rules. */
  predicate UpdateValid(db: Db, c: Changes, ids: Option<seq<Id>>) {
    && (c.firstName.Some? ==> |c.firstName.value| > 0)
    && (c.lastName.Some? ==> |c.lastName.value| > 0)
    && (c.phoneNumber.Some? ==> |c.phoneNumber.value| > 0)
    && (ids.Some? ==> ValidateInterests(ids.value, CategoryIds(db)).None?)
  }

  /** The `$set` applied to one user document. */
  function Apply(u: User, c: Changes, ids: Option<seq<Id>>): (v: User)
    ensures v.id == u.id && v.email == u.email && v.password == u.password && v.username == u.username
    ensures v.tokens == u.tokens && v.isEmailVerified == u.isEmailVerified && v.avatar == u.avatar && v.cv == u.cv
    ensures v.firstName == c.firstName.GetOr(u.firstName) && v.lastName == c.lastName.GetOr(u.lastName)
    ensures v.phoneNumber == c.phoneNumber.GetOr(u.phoneNumber) && v.interests == ids.GetOr(u.interests)
  {
    u.(firstName := c.firstName.GetOr(u.firstName), lastName := c.lastName.GetOr(u.lastName),
       phoneNumber := c.phoneNumber.GetOr(u.phoneNumber), interests := ids.GetOr(u.interests))
  }

  function WriteProfile(db: Db, uid: Id, c: Changes, ids: Option<seq<Id>>): (r: Db)
    ensures |r.users| == |db.users| && r.businesses == db.businesses
    ensures forall i :: 0 <= i < |db.users| ==>
              r.users[i] == if db.users[i].id == uid then Apply(db.users[i], c, ids) else db.users[i]
    ensures r == db.(users := r.users)
  {
    UpdateUser(db, uid, (u: User) => Apply(u, c, ids))
  }

  /** The interest ids to set, if the body had interests. */
  function IdsOf(c: Changes): Option<Option<seq<Id>>> {
    if c.interests.None? then Some(None)
    else
      match CastIds(c.interests.value)
      case None => None
      case Some(ids) => Some(Some(ids))
  }

  /** PATCH `/profile` for the requester `uid`: the updated document, or
      the refusal; the database afterwards. */
  function UpdateProfile(db: Db, uid: Id, firstName: Value, lastName: Value, phoneNumber: Value,
                         interests: Value, parsed: Option<Value>): (r: (Result<User, Fail>, Db))
    ensures r.0.Err? ==> r.1 == db
    ensures ReadChanges(firstName, lastName, phoneNumber, interests, parsed).Err? ==>
              r.0 == Err(ReadChanges(firstName, lastName, phoneNumber, interests, parsed).error)
    // a number supplied is always checked, against other users and every business
    ensures ReadChanges(firstName, lastName, phoneNumber, interests, parsed).Ok? ==>
              var c := ReadChanges(firstName, lastName, phoneNumber, interests, parsed).value;
              c.phoneNumber.Some? && PhoneTaken(db, uid, c.phoneNumber.value) ==>
                r.0 == Err(Fail(400, "Phone number already registered"))
    ensures r.0.Ok? <==>
              && ReadChanges(firstName, lastName, phoneNumber, interests, parsed).Ok?
              && var c := ReadChanges(firstName, lastName, phoneNumber, interests, parsed).value;
                 && !(c.phoneNumber.Some? && PhoneTaken(db, uid, c.phoneNumber.value))
                 && IdsOf(c).Some? && UpdateValid(db, c, IdsOf(c).value)
                 && FindUser(db, uid).Some?
    ensures r.0.Ok? ==>
              var c := ReadChanges(firstName, lastName, phoneNumber, interests, parsed).value;
              && r.1 == WriteProfile(db, uid, c, IdsOf(c).value)
              && r.0.value == Apply(FindUser(db, uid).value, c, IdsOf(c).value)
  {
    match ReadChanges(firstName, lastName, phoneNumber, interests, parsed)
    case Err(e) => (Err(e), db)
    case Ok(c) =>
      if c.phoneNumber.Some? && PhoneTaken(db, uid, c.phoneNumber.value) then
        (Err(Fail(400, "Phone number already registered")), db)
      else
        match IdsOf(c)
        case None => (Err(ServerError), db)
        case Some(ids) =>
          if !UpdateValid(db, c, ids) then (Err(Fail(400, "Validation error")), db)
          else
            match FindUser(db, uid)
            case None => (Err(ServerError), db)
            case Some(u) => (Ok(Apply(u, c, ids)), WriteProfile(db, uid, c, ids))
  }

  /** No two users share a phone number, and no user has a business
      contact's number. */
  predicate PhonesUnique(db: Db) {
    && (forall i, j :: 0 <= i < j < |db.users| ==> db.users[i].phoneNumber != db.users[j].phoneNumber)
    && (forall i, j :: 0 <= i < |db.users| && 0 <= j < |db.businesses| ==>
          db.users[i].phoneNumber != db.businesses[j].contact.phoneNumber)
  }

  /** With distinct user ids, a successful update keeps phone numbers
      unique: a changed number was checked against every other holder. */
  lemma UpdateKeepsPhonesUnique(db: Db, uid: Id, firstName: Value, lastName: Value, phoneNumber: Value,
                                interests: Value, parsed: Option<Value>)
    requires DistinctIds(db) && PhonesUnique(db)
    requires UpdateProfile(db, uid, firstName, lastName, phoneNumber, interests, parsed).0.Ok?
    ensures PhonesUnique(UpdateProfile(db, uid, firstName, lastName, phoneNumber, interests, parsed).1)
  {
    var c := ReadChanges(firstName, lastName, phoneNumber, interests, parsed).value;
    var ids := IdsOf(c).value;
    WrittenPhonesUnique(db, uid, c, ids);
  }

  lemma WrittenPhonesUnique(db: Db, uid: Id, c: Changes, ids: Option<seq<Id>>)
    requires DistinctIds(db) && PhonesUnique(db)
    requires c.phoneNumber.Some? ==> !PhoneTaken(db, uid, c.phoneNumber.value)
    ensures PhonesUnique(WriteProfile(db, uid, c, ids))
  {
    var db' := WriteProfile(db, uid, c, ids);
    forall i, j | 0 <= i < j < |db'.users|
      ensures db'.users[i].phoneNumber != db'.users[j].phoneNumber
    {
      assert db.users[i].id != db.users[j].id;
    }
    forall i, j | 0 <= i < |db'.users| && 0 <= j < |db'.businesses|
      ensures db'.users[i].phoneNumber != db'.businesses[j].contact.phoneNumber
    {
    }
  }

  /** Every stored user's interests pass the schema's rules. */
  predicate InterestsValid(db: Db) {
    forall i :: 0 <= i < |db.users| ==> ValidateInterests(db.users[i].interests, CategoryIds(db)).None?
  }

  /** A successful update keeps every user's interests valid, and sets the
      requester's to exactly the list sent, in order. */
  lemma UpdateKeepsInterestsValid(db: Db, uid: Id, firstName: Value, lastName: Value, phoneNumber: Value,
                                  interests: Value, parsed: Option<Value>)
    requires InterestsValid(db)
    requires UpdateProfile(db, uid, firstName, lastName, phoneNumber, interests, parsed).0.Ok?
    ensures InterestsValid(UpdateProfile(db, uid, firstName, lastName, phoneNumber, interests, parsed).1)
    ensures var u := UpdateProfile(db, uid, firstName, lastName, phoneNumber, interests, parsed).0.value;
            Truthy(interests) ==> parsed.Some? && parsed.value.Arr?
                                  && |u.interests| == |parsed.value.items| <= MaxInterests
                                  && forall k :: 0 <= k < |u.interests| ==> parsed.value.items[k] == Str(u.interests[k])
  {
    var c := ReadChanges(firstName, lastName, phoneNumber, interests, parsed).value;
    var ids := IdsOf(c).value;
    var db' := WriteProfile(db, uid, c, ids);
    assert CategoryIds(db') == CategoryIds(db);
  }
}
