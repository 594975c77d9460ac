/** Lookups and single-document updates on the two account collections,
    shared by the verification, login and profile routes. */
module AccountStore {
  import opened Base
  import opened Accounts
  import opened UserModel
  import opened BusinessModel
  import opened Store

  /** An account found in either collection. */
  datatype Account = UserAccount(user: User) | BusinessAccount(business: Business) {
    function Id(): Id {
      if UserAccount? then user.id else business.id
    }

    function Email(): string {
      if UserAccount? then user.email else business.email
    }

    function Tokens(): Tokens {
      if UserAccount? then user.tokens else business.tokens
    }

    predicate Verified() {
      if UserAccount? then user.isEmailVerified else business.isEmailVerified
    }

    function Password(): Secret {
      if UserAccount? then user.password else business.password
    }
  }

  /** `User.findOne({ email })`: the query value goes through the same
      `trim` and `lowercase` setters as the stored one. */
  function FindUserByEmail(db: Db, email: string): (r: Option<User>)
    ensures r.Some? ==> r.value in db.users && r.value.email == NormalizeEmail(email)
    ensures r.None? <==> forall i :: 0 <= i < |db.users| ==> db.users[i].email != NormalizeEmail(email)
  {
    var key := NormalizeEmail(email);
    FindFirst(db.users, (u: User) => u.email == key)
  }

  /** `Business.findOne({ email })`. */
  function FindBusinessByEmail(db: Db, email: string): (r: Option<Business>)
    ensures r.Some? ==> r.value in db.businesses && r.value.email == NormalizeEmail(email)
    ensures r.None? <==> forall i :: 0 <= i < |db.businesses| ==> db.businesses[i].email != NormalizeEmail(email)
  {
    var key := NormalizeEmail(email);
    FindFirst(db.businesses, (b: Business) => b.email == key)
  }

  /** `User.findByIdAndUpdate(id, ...)`: the user with that id becomes
      `f` of itself; every other document of every collection is kept. */
  function UpdateUser(db: Db, id: Id, f: User -> User): (r: Db)
    ensures |r.users| == |db.users|
    ensures forall i :: 0 <= i < |db.users| ==>
              r.users[i] == (if db.users[i].id == id then f(db.users[i]) else db.users[i])
    ensures r.businesses == db.businesses && r.jobs == db.jobs && r.apps == db.apps
    ensures r.messages == db.messages && r.notifications == db.notifications
    ensures r.attempts == db.attempts && r.categories == db.categories
  {
    db.(users := seq(|db.users|, i requires 0 <= i < |db.users| =>
                       if db.users[i].id == id then f(db.users[i]) else db.users[i]))
  }

  /** `Business.findByIdAndUpdate(id, ...)`. */
  function UpdateBusiness(db: Db, id: Id, f: Business -> Business): (r: Db)
    ensures |r.businesses| == |db.businesses|
    ensures forall i :: 0 <= i < |db.businesses| ==>
              r.businesses[i] == (if db.businesses[i].id == id then f(db.businesses[i]) else db.businesses[i])
    ensures r.users == db.users && r.jobs == db.jobs && r.apps == db.apps
    ensures r.messages == db.messages && r.notifications == db.notifications
    ensures r.attempts == db.attempts && r.categories == db.categories
  {
    db.(businesses := seq(|db.businesses|, i requires 0 <= i < |db.businesses| =>
                            if db.businesses[i].id == id then f(db.businesses[i]) else db.businesses[i]))
  }

  /** Document ids are unique within and across the two collections. */
  predicate DistinctIds(db: Db) {
    && (forall i, j :: 0 <= i < j < |db.users| ==> db.users[i].id != db.users[j].id)
    && (forall i, j :: 0 <= i < j < |db.businesses| ==> db.businesses[i].id != db.businesses[j].id)
    && (forall i, j :: 0 <= i < |db.users| && 0 <= j < |db.businesses| ==> db.users[i].id != db.businesses[j].id)
  }

  /** An update by id that keeps the id keeps the ids distinct. */
  lemma UpdatesKeepDistinctIds(db: Db, id: Id, f: User -> User, g: Business -> Business)
    requires DistinctIds(db)
    requires forall u :: f(u).id == u.id
    requires forall b :: g(b).id == b.id
    ensures DistinctIds(UpdateUser(db, id, f))
    ensures DistinctIds(UpdateBusiness(db, id, g))
  {
  }
}
