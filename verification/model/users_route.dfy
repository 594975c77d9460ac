/** The `/users` routes: the paged list of applicants and the deletion of
    the requester's own account with everything that hangs off it. */
module UsersRoute {
  import opened Base
  import opened Strings
  import opened Paging
  import opened UserModel
  import opened NotificationModel
  import opened ApplicationModel
  import opened Store
  import opened AccountStore

  /** The fixed page size of the list. */
  const UsersPerPage: int := 30

  /** A listed user: `select('username firstName accountType')` serialised
      with virtuals, so the document carries `_id` and its `id` copy (both
      `id` here) and the `fullName` virtual, which is computed from the
      selected fields only. */
  datatype UserRow = UserRow(id: Id, username: string, firstName: string, accountType: string, fullName: string)

  /** What a template literal prints for a field the query did not select. */
  const Undefined: string := "undefined"

  function Row(u: User): (r: UserRow)
    ensures r.id == u.id && r.username == u.username && r.firstName == u.firstName
    ensures r.accountType == UserAccountType
  {
    UserRow(u.id, u.username, u.firstName, UserAccountType, FullName(u.(lastName := Undefined)))
  }

  /** The listed `fullName` is the first name followed by " undefined":
      `lastName` is not selected, so the virtual never sees it, and it
      equals the stored user's full name only when the last name is
      literally "undefined". */
  lemma ListedFullName(u: User)
    ensures Row(u).fullName[..|u.firstName|] == u.firstName
    ensures Row(u).fullName[|u.firstName|..] == " undefined"
    ensures Row(u).fullName == FullName(u) <==> u.lastName == Undefined
  {
    var f := Row(u).fullName;
    assert f[|u.firstName|..] == [' '] + Undefined by {
      assert f[|u.firstName| + 1..] == Undefined;
    }
    if f == FullName(u) {
      assert FullName(u)[|u.firstName| + 1..] == u.lastName;
    }
  }

  /** Every stored user projected to the listed fields, in store order. */
  function Rows(users: seq<User>): (r: seq<UserRow>)
    ensures |r| == |users|
    ensures forall i :: 0 <= i < |r| ==> r[i] == Row(users[i])
  {
    seq(|users|, i requires 0 <= i < |users| => Row(users[i]))
  }

  datatype UsersPage = UsersPage(users: seq<UserRow>, pagination: PageInfo)

  /** GET `/`.  `page` is `parseInt(req.query.page)` (`None` for NaN); the
      page is not clamped, so a negative page asks the store for a negative
      skip, which it refuses, and the handler answers 500. */
  function ListUsers(db: Db, page: Option<int>): (r: Result<UsersPage, Fail>)
    ensures r.Err? <==> PageOrOne(page) < 1
    ensures r.Err? ==> r.error == ServerError
    ensures r.Ok? ==>
              var p := PageOrOne(page);
              && |r.value.users| <= UsersPerPage
              && (r.value.users != [] ==> (p - 1) * UsersPerPage + |r.value.users| <= |db.users|)
              && (forall i :: 0 <= i < |r.value.users| ==>
                    r.value.users[i] == Row(db.users[(p - 1) * UsersPerPage + i]))
              && r.value.pagination.currentPage == p
              && r.value.pagination.total == |db.users|
              && (r.value.pagination.totalPages - 1) * UsersPerPage < |db.users|
                 <= r.value.pagination.totalPages * UsersPerPage
              && (r.value.pagination.hasNextPage <==> p < r.value.pagination.totalPages)
              && (r.value.pagination.hasPrevPage <==> p > 1)
  {
    var p := PageOrOne(page);
    var skip := SkipFor(p, UsersPerPage);
    if skip < 0 then Err(ServerError)
    else Ok(UsersPage(Window(Rows(db.users), skip, UsersPerPage), Info(p, |db.users|, UsersPerPage)))
  }

  /** Pages 1..k of the list, one after the other. */
  function UserPages(db: Db, k: nat): seq<UserRow> {
    if k == 0 then [] else UserPages(db, k - 1) + ListUsers(db, Some(k)).value.users
  }

  lemma {:induction false} UserPagesArePages(db: Db, k: nat)
    ensures UserPages(db, k) == Pages(Rows(db.users), UsersPerPage, k)
  {
    if k > 0 {
      UserPagesArePages(db, k - 1);
    }
  }

  /** Walking the list from page 1 to the reported `totalPages` lists every
      user exactly once, in store order. */
  lemma ListUsersCoversAll(db: Db)
    ensures ListUsers(db, Some(1)).Ok?
    ensures var t := ListUsers(db, Some(1)).value.pagination.totalPages;
            t >= 0 && UserPages(db, t) == Rows(db.users)
  {
    PagesCoverAll(Rows(db.users), UsersPerPage);
    UserPagesArePages(db, ListUsers(db, Some(1)).value.pagination.totalPages);
  }

  /** `hasNextPage` is true exactly when the next page has users on it. */
  lemma ListUsersHasNext(db: Db, page: int)
    requires page >= 1
    ensures ListUsers(db, Some(page)).Ok? && ListUsers(db, Some(page + 1)).Ok?
    ensures ListUsers(db, Some(page)).value.pagination.hasNextPage <==>
              ListUsers(db, Some(page + 1)).value.users != []
  {
    HasNextIffMore(Rows(db.users), page, UsersPerPage);
  }

  /** `findByIdAndDelete`: the first user with the id is removed. */
  function DeleteUserDoc(users: seq<User>, id: Id): (r: seq<User>)
    ensures IsSubseq(r, users)
    ensures |r| == if exists i :: 0 <= i < |users| && users[i].id == id then |users| - 1 else |users|
    ensures forall u :: u in users && u.id != id ==> u in r
  {
    if |users| == 0 then []
    else if users[0].id == id then
      SubseqRefl(users[1..]);
      SubseqOfTail(users[1..], users);
      assert forall u :: u in users && u.id != id ==> u in users[1..] by {
        assert users == [users[0]] + users[1..];
      }
      users[1..]
    else
      var rest := DeleteUserDoc(users[1..], id);
      assert users == [users[0]] + users[1..];
      SubseqCons(users[0], rest, users[1..]);
      assert (exists i :: 0 <= i < |users| && users[i].id == id) <==>
             (exists i :: 0 <= i < |users[1..]| && users[1..][i].id == id) by {
        forall i | 0 < i < |users| ensures users[i] == users[1..][i - 1] { }
      }
      [users[0]] + rest
  }

  /** The reply of DELETE `/account`. */
  const AccountDeleted: string := "Account deleted successfully"

  /** DELETE `/account` for the authenticated requester `uid`: the user,
      every notification addressed to them and every application they made
      are deleted; their messages stay. */
  function DeleteAccount(db: Db, uid: Id): (r: (Result<string, Fail>, Db))
    ensures FindUser(db, uid).None? ==> r == (Err(Fail(404, "User not found")), db)
    ensures FindUser(db, uid).Some? ==>
              var db' := r.1;
              && r.0 == Ok(AccountDeleted)
              && IsSubseq(db'.users, db.users) && |db'.users| == |db.users| - 1
              && (forall u :: u in db.users && u.id != uid ==> u in db'.users)
              && (forall n :: n in db'.notifications <==> n in db.notifications && n.recipient != uid)
              && (forall a :: a in db'.apps <==> a in db.apps && a.userId != uid)
              && db'.businesses == db.businesses && db'.jobs == db.jobs && db'.messages == db.messages
              && db'.attempts == db.attempts && db'.categories == db.categories
  {
    if FindUser(db, uid).None? then (Err(Fail(404, "User not found")), db)
    else
      var notifications := Filter(db.notifications, (n: Notification) => n.recipient != uid);
      var apps := Filter(db.apps, (a: Application) => a.userId != uid);
      (Ok(AccountDeleted),
       db.(users := DeleteUserDoc(db.users, uid), notifications := notifications, apps := apps))
  }

  /** With distinct ids, a deleted account is gone for good: no user keeps
      its id, nothing addressed to it or made by it remains, and deleting it
      again is answered 404 without touching the store. */
  lemma DeleteAccountForgets(db: Db, uid: Id)
    requires DistinctIds(db) && FindUser(db, uid).Some?
    ensures var db' := DeleteAccount(db, uid).1;
            && FindUser(db', uid).None?
            && (forall n :: n in db'.notifications ==> n.recipient != uid)
            && (forall a :: a in db'.apps ==> a.userId != uid)
            && DeleteAccount(db', uid) == (Err(Fail(404, "User not found")), db')
  {
    var db' := DeleteAccount(db, uid).1;
    var k :| 0 <= k < |db.users| && db.users[k].id == uid;
    UniqueLeftOut(db, k);
    forall i | 0 <= i < |db'.users|
      ensures db'.users[i].id != uid
    {
      SubseqElements(db'.users, db.users, db'.users[i]);
      var j :| 0 <= j < |db.users| && db.users[j] == db'.users[i];
      assert j != k;
      assert j < k || k < j;
    }
  }

  /** With distinct ids, removing the first user with the id of `users[k]`
      leaves no copy of `users[k]`. */
  lemma UniqueLeftOut(db: Db, k: nat)
    requires DistinctIds(db) && k < |db.users|
    ensures db.users[k] !in DeleteUserDoc(db.users, db.users[k].id)
  {
    var r := DeleteUserDoc(db.users, db.users[k].id);
    if db.users[k] in r {
      // r is db.users with one element of id `users[k].id` left out, and
      // with distinct ids that element is `users[k]` itself
      CountOfId(db.users, db.users[k].id, k);
      SubseqCountId(r, db.users, db.users[k].id);
      CountInId(r, db.users[k]);
    }
  }

  /** The number of elements with the given id. */
  function IdCount(users: seq<User>, id: Id): nat {
    if |users| == 0 then 0 else (if users[0].id == id then 1 else 0) + IdCount(users[1..], id)
  }

  lemma {:induction false} CountOfId(users: seq<User>, id: Id, k: nat)
    requires k < |users| && users[k].id == id
    requires forall i, j :: 0 <= i < j < |users| ==> users[i].id != users[j].id
    ensures IdCount(users, id) == 1
  {
    if k == 0 {
      NoneOfId(users[1..], id);
    } else {
      CountOfId(users[1..], id, k - 1);
    }
  }

  lemma {:induction false} NoneOfId(users: seq<User>, id: Id)
    requires forall i :: 0 <= i < |users| ==> users[i].id != id
    ensures IdCount(users, id) == 0
  {
    if |users| > 0 {
      NoneOfId(users[1..], id);
    }
  }

  /** The deletion removes one element of the id when there is one. */
  lemma {:induction false} SubseqCountId(r: seq<User>, users: seq<User>, id: Id)
    requires r == DeleteUserDoc(users, id)
    ensures IdCount(r, id) == if IdCount(users, id) > 0 then IdCount(users, id) - 1 else 0
  {
    if |users| > 0 && users[0].id != id {
      SubseqCountId(DeleteUserDoc(users[1..], id), users[1..], id);
      assert r[1..] == DeleteUserDoc(users[1..], id);
    }
  }

  lemma {:induction false} CountInId(r: seq<User>, u: User)
    requires u in r
    ensures IdCount(r, u.id) >= 1
  {
    if r[0] != u {
      CountInId(r[1..], u);
    }
  }
}
