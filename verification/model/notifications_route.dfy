/** The notification routes: list, mark some or all read, unread count,
    delete. */
module NotificationsRoute {
  import opened Base
  import opened Json
  import opened Sorting
  import opened Paging
  import opened NotificationModel
  import opened Store

  /** The requester's unread notifications. */
  function UnreadFor(uid: Id): Notification -> bool {
    (n: Notification) => n.recipient == uid && !n.read
  }

  /** GET `/unread-count`. */
  function UnreadCount(ns: seq<Notification>, uid: Id): (c: nat)
    ensures c == |set i | 0 <= i < |ns| && ns[i].recipient == uid && !ns[i].read|
    ensures c == 0 <==> forall i :: 0 <= i < |ns| ==> ns[i].recipient != uid || ns[i].read
  {
    CountIsMatchingIndices(ns, UnreadFor(uid));
    CountZeroIff(ns, UnreadFor(uid));
    assert MatchingIndices(ns, UnreadFor(uid)) == set i | 0 <= i < |ns| && ns[i].recipient == uid && !ns[i].read;
    Count(ns, UnreadFor(uid))
  }

  /** The string ids listed in the request; other elements can match no
      notification. */
  function ListedIds(items: seq<Value>): (ids: set<Id>)
    ensures forall s :: s in ids <==> Str(s) in items
  {
    set v | v in items && v.Str? :: v.s
  }

  /** `updateMany({ _id: { $in: ids }, recipient }, { read: true })`:
      `matches` selects the notifications the filter matches. */
  function SetRead(ns: seq<Notification>, matches: Notification -> bool): (r: seq<Notification>)
    ensures |r| == |ns|
    ensures forall i :: 0 <= i < |ns| ==> r[i] == if matches(ns[i]) then ns[i].(read := true) else ns[i]
  {
    if |ns| == 0 then []
    else
      var last := ns[|ns| - 1];
      SetRead(ns[..|ns| - 1], matches) + [if matches(last) then last.(read := true) else last]
  }

  function Listed(ids: set<Id>, uid: Id): Notification -> bool {
    (n: Notification) => n.id in ids && n.recipient == uid
  }

  /** PATCH `/mark-read`: a non-array body is a 400 that changes nothing;
      otherwise exactly the listed notifications the requester owns become
      read. */
  function MarkRead(db: Db, uid: Id, notificationIds: Value): (res: (Result<(), Fail>, Db))
    ensures !notificationIds.Arr? ==> res == (Err(Fail(400, "notificationIds must be an array")), db)
    ensures notificationIds.Arr? ==> res.0.Ok?
    ensures res.1.notifications == if notificationIds.Arr?
              then SetRead(db.notifications, Listed(ListedIds(notificationIds.items), uid))
              else db.notifications
    ensures res.1 == db.(notifications := res.1.notifications)
  {
    if !notificationIds.Arr? then (Err(Fail(400, "notificationIds must be an array")), db)
    else
      var ids := ListedIds(notificationIds.items);
      (Ok(()), db.(notifications := SetRead(db.notifications, Listed(ids, uid))))
  }

  /** Nothing but `read` changes, only on listed notifications of the
      requester, and each of those ends up read. */
  lemma MarkReadOnlyOwnListed(db: Db, uid: Id, items: seq<Value>)
    ensures var ns := MarkRead(db, uid, Arr(items)).1.notifications;
      && |ns| == |db.notifications|
      && forall i :: 0 <= i < |ns| ==>
           && ns[i] == db.notifications[i].(read := ns[i].read)
           && (ns[i].read != db.notifications[i].read ==>
                 Str(db.notifications[i].id) in items && db.notifications[i].recipient == uid)
           && (Str(db.notifications[i].id) in items && db.notifications[i].recipient == uid ==> ns[i].read)
  {
  }

  function AllOf(uid: Id): Notification -> bool {
    (n: Notification) => n.recipient == uid
  }

  /** POST `/mark-all-read`: the requester's notifications all become read;
      `modifiedCount` is how many were unread and the unread count
      reported afterwards is 0. */
  function MarkAllRead(db: Db, uid: Id): (res: (nat, nat, Db))
    ensures res.0 == UnreadCount(db.notifications, uid)
    ensures res.1 == 0 && res.1 == UnreadCount(res.2.notifications, uid)
    ensures res.2 == db.(notifications := SetRead(db.notifications, AllOf(uid)))
  {
    var ns := SetRead(db.notifications, AllOf(uid));
    MarkAllCounts(db.notifications, uid);
    (UnreadCount(db.notifications, uid), UnreadCount(ns, uid), db.(notifications := ns))
  }

  lemma {:induction false} MarkAllCounts(ns: seq<Notification>, uid: Id)
    ensures UnreadCount(SetRead(ns, AllOf(uid)), uid) == 0
  {
    if |ns| > 0 {
      var r := SetRead(ns, AllOf(uid));
      MarkAllCounts(ns[..|ns| - 1], uid);
      assert r[..|r| - 1] == SetRead(ns[..|ns| - 1], AllOf(uid));
    }
  }

  /** Marking everything read leaves other recipients' unread counts
      alone. */
  lemma {:induction false} MarkAllKeepsOthers(ns: seq<Notification>, uid: Id, other: Id)
    requires other != uid
    ensures UnreadCount(SetRead(ns, AllOf(uid)), other) == UnreadCount(ns, other)
  {
    if |ns| > 0 {
      var r := SetRead(ns, AllOf(uid));
      MarkAllKeepsOthers(ns[..|ns| - 1], uid, other);
      assert r[..|r| - 1] == SetRead(ns[..|ns| - 1], AllOf(uid));
    }
  }

  /** The index of the first notification with this id owned by `uid`. */
  function FindOwned(ns: seq<Notification>, id: Id, uid: Id): (r: Option<nat>)
    ensures r.Some? ==> r.value < |ns| && ns[r.value].id == id && ns[r.value].recipient == uid
    ensures r.Some? ==> forall j :: 0 <= j < r.value ==> !(ns[j].id == id && ns[j].recipient == uid)
    ensures r.None? ==> forall j :: 0 <= j < |ns| ==> !(ns[j].id == id && ns[j].recipient == uid)
  {
    if |ns| == 0 then None
    else if ns[0].id == id && ns[0].recipient == uid then Some(0)
    else
      var r := FindOwned(ns[1..], id, uid);
      if r.Some? then Some(r.value + 1) else None
  }

  /** DELETE `/:id`: only the requester's own notification is removed, and
      the answer carries the unread count after the removal; anything else
      is a 404 that removes nothing. */
  function Delete(db: Db, id: Id, uid: Id): (res: (Result<nat, Fail>, Db))
    ensures FindOwned(db.notifications, id, uid).None? ==>
              res == (Err(Fail(404, "Notification not found or unauthorized")), db)
    ensures FindOwned(db.notifications, id, uid).Some? ==>
              var k := FindOwned(db.notifications, id, uid).value;
              && res.1 == db.(notifications := db.notifications[..k] + db.notifications[k + 1..])
              && res.0 == Ok(UnreadCount(res.1.notifications, uid))
  {
    match FindOwned(db.notifications, id, uid)
    case None => (Err(Fail(404, "Notification not found or unauthorized")), db)
    case Some(k) =>
      var ns := db.notifications[..k] + db.notifications[k + 1..];
      (Ok(UnreadCount(ns, uid)), db.(notifications := ns))
  }

  /** A delete never removes another recipient's notification: everything
      not addressed to the requester is still there, in order. */
  lemma DeleteKeepsOthers(db: Db, id: Id, uid: Id)
    ensures var ns := Delete(db, id, uid).1.notifications;
      && |db.notifications| - 1 <= |ns| <= |db.notifications|
      && forall n :: n in db.notifications && n.recipient != uid ==> n in ns
  {
    var k := FindOwned(db.notifications, id, uid);
    if k.Some? {
      var ns := Delete(db, id, uid).1.notifications;
      forall n | n in db.notifications && n.recipient != uid ensures n in ns {
        var j :| 0 <= j < |db.notifications| && db.notifications[j] == n;
        if j < k.value {
          assert ns[j] == n;
        } else {
          assert j != k.value;
          assert ns[j - 1] == n;
        }
      }
    }
  }

  /** GET `/` as written: the handler reads `MAX_ITEMS_PER_PAGE`, which
      this module never declares, so every request ends in the catch block
      with a 500. */
  function ListAsWritten(db: Db, uid: Id, pageParam: Option<int>): (res: Result<NotificationPage, Fail>)
    ensures res == Err(ServerError)
  {
    Err(ServerError)
  }

  datatype NotificationPage = NotificationPage(notifications: seq<Notification>, pagination: PageInfo)

  function ByCreatedAt(): Notification -> int {
    (n: Notification) => n.createdAt
  }

  /** The requester's notifications newest first, page `page` of 30. */
  function MinePage(mine: seq<Notification>, uid: Id, page: int): (w: seq<Notification>)
    requires forall i :: 0 <= i < |mine| ==> mine[i].recipient == uid
    requires page >= 1
    ensures SortedDesc(w, ByCreatedAt())
    ensures forall i :: 0 <= i < |w| ==> w[i].recipient == uid
    ensures forall n :: n in w ==> n in mine
    // the page starts at position (page - 1) * 30 of the newest-first order
    // and holds 30 notifications, or as many as remain
    ensures |w| == if (page - 1) * MaxItemsPerPage >= |mine| then 0
                   else Min(MaxItemsPerPage, |mine| - (page - 1) * MaxItemsPerPage)
    ensures forall i :: 0 <= i < |w| ==>
              w[i] == SortDesc(mine, ByCreatedAt())[(page - 1) * MaxItemsPerPage + i]
  {
    var sorted := SortDesc(mine, ByCreatedAt());
    var w := Window(sorted, PageSkip(page), MaxItemsPerPage);
    WindowKeepsOrder(sorted, PageSkip(page), MaxItemsPerPage, ByCreatedAt());
    MineWindowMembers(mine, uid, sorted, PageSkip(page), w);
    MineWindowPlace(|mine|, page, sorted, w);
    w
  }

  /** A window of the sorted notifications holds only the requester's. */
  lemma MineWindowMembers(mine: seq<Notification>, uid: Id, sorted: seq<Notification>, skip: nat, w: seq<Notification>)
    requires forall i :: 0 <= i < |mine| ==> mine[i].recipient == uid
    requires sorted == SortDesc(mine, ByCreatedAt())
    requires w == Window(sorted, skip, MaxItemsPerPage)
    ensures forall i :: 0 <= i < |w| ==> w[i].recipient == uid
    ensures forall n :: n in w ==> n in mine
  {
    WindowWithin(sorted, skip, MaxItemsPerPage);
    forall n | n in w ensures n in mine && n.recipient == uid {
      assert n in multiset(sorted);
    }
    forall i | 0 <= i < |w| ensures w[i].recipient == uid {
      assert w[i] in w;
    }
  }

  /** Where the window of page `page` sits in a listing of `total`. */
  lemma MineWindowPlace(total: nat, page: int, sorted: seq<Notification>, w: seq<Notification>)
    requires page >= 1 && |sorted| == total
    requires w == Window(sorted, PageSkip(page), MaxItemsPerPage)
    ensures |w| == if (page - 1) * MaxItemsPerPage >= total then 0
                   else Min(MaxItemsPerPage, total - (page - 1) * MaxItemsPerPage)
    ensures forall i :: 0 <= i < |w| ==> w[i] == sorted[(page - 1) * MaxItemsPerPage + i]
  {
    var skip := PageSkip(page);
    assert skip == (page - 1) * MaxItemsPerPage;
    forall i | 0 <= i < |w| ensures w[i] == sorted[(page - 1) * MaxItemsPerPage + i] {
      assert w[i] == sorted[skip + i];
    }
  }

  function Min(a: int, b: int): int {
    if a <= b then a else b
  }

  /** GET `/` with the constant declared as in the other list handlers:
      the requester's notifications newest first, 30 a page. */
  function ListCorrected(db: Db, uid: Id, pageParam: Option<int>): (res: Result<NotificationPage, Fail>)
    ensures res.Ok?
    ensures var page := ClampedPage(pageParam);
            var mine := Filter(db.notifications, AllOf(uid));
      && res.value.pagination == Info(page, |mine|, MaxItemsPerPage)
      && res.value.notifications == MinePage(mine, uid, page)
  {
    var page := ClampedPage(pageParam);
    var mine := Filter(db.notifications, AllOf(uid));
    Ok(NotificationPage(MinePage(mine, uid, page), Info(page, |mine|, MaxItemsPerPage)))
  }

  /** The requester's notifications, newest first. */
  function Newest(db: Db, uid: Id): seq<Notification> {
    SortDesc(Filter(db.notifications, AllOf(uid)), ByCreatedAt())
  }

  /** Pages 1..k of the corrected list, one after the other. */
  function CorrectedPages(db: Db, uid: Id, k: nat): seq<Notification> {
    if k == 0 then [] else CorrectedPages(db, uid, k - 1) + ListCorrected(db, uid, Some(k)).value.notifications
  }

  lemma {:induction false} CorrectedPagesArePages(db: Db, uid: Id, k: nat)
    ensures CorrectedPages(db, uid, k) == Pages(Newest(db, uid), MaxItemsPerPage, k)
  {
    if k > 0 {
      CorrectedPagesArePages(db, uid, k - 1);
      var mine := Filter(db.notifications, AllOf(uid));
      var sorted := Newest(db, uid);
      assert ClampedPage(Some(k)) == k;
      var page := ListCorrected(db, uid, Some(k)).value.notifications;
      assert page == MinePage(mine, uid, k);
      var w := Window(sorted, (k - 1) * MaxItemsPerPage, MaxItemsPerPage);
      PageIsWindow(mine, uid, k, page, w);
      assert CorrectedPages(db, uid, k) == CorrectedPages(db, uid, k - 1) + page;
    }
  }

  lemma PageIsWindow(mine: seq<Notification>, uid: Id, k: int, page: seq<Notification>, w: seq<Notification>)
    requires forall i :: 0 <= i < |mine| ==> mine[i].recipient == uid
    requires k >= 1 && page == MinePage(mine, uid, k)
    requires w == Window(SortDesc(mine, ByCreatedAt()), (k - 1) * MaxItemsPerPage, MaxItemsPerPage)
    ensures page == w
  {
    MulLe(1, k, MaxItemsPerPage);
    assert |page| == |w|;
    forall i | 0 <= i < |w| ensures page[i] == w[i] { }
  }

  /** Walking the corrected list from page 1 to its reported `totalPages`
      visits every notification of the requester exactly once, newest
      first, and nothing else. */
  lemma CorrectedCoversAll(db: Db, uid: Id)
    ensures var t := ListCorrected(db, uid, Some(1)).value.pagination.totalPages;
            && t >= 0
            && CorrectedPages(db, uid, t) == Newest(db, uid)
            && multiset(CorrectedPages(db, uid, t)) == multiset(Filter(db.notifications, AllOf(uid)))
  {
    var sorted := Newest(db, uid);
    PagesCoverAll(sorted, MaxItemsPerPage);
    CorrectedPagesArePages(db, uid, ListCorrected(db, uid, Some(1)).value.pagination.totalPages);
  }

  /** `hasNextPage` of the corrected list is true exactly when the next
      page has notifications on it. */
  lemma CorrectedHasNext(db: Db, uid: Id, page: int)
    requires page >= 1
    ensures ListCorrected(db, uid, Some(page)).value.pagination.hasNextPage <==>
              ListCorrected(db, uid, Some(page + 1)).value.notifications != []
  {
    var sorted := Newest(db, uid);
    HasNextIffMore(sorted, page, MaxItemsPerPage);
    var next := ListCorrected(db, uid, Some(page + 1)).value.notifications;
    var w := Window(sorted, page * MaxItemsPerPage, MaxItemsPerPage);
    assert |next| == |w|;
  }

  /** The handler as written answers every request with a 500, while the
      corrected list's pages visit each of the requester's notifications
      once. */
  lemma ListFinding(db: Db, uid: Id)
    ensures ListAsWritten(db, uid, None).Err? && ListAsWritten(db, uid, None).error.status == 500
    ensures forall n :: n in db.notifications && n.recipient == uid ==>
              var t := ListCorrected(db, uid, Some(1)).value.pagination.totalPages;
              t >= 0 && n in CorrectedPages(db, uid, t)
  {
    CorrectedCoversAll(db, uid);
    var mine := Filter(db.notifications, AllOf(uid));
    forall n | n in db.notifications && n.recipient == uid
      ensures var t := ListCorrected(db, uid, Some(1)).value.pagination.totalPages;
              t >= 0 && n in CorrectedPages(db, uid, t)
    {
      var i :| 0 <= i < |db.notifications| && db.notifications[i] == n;
      assert n in mine;
      assert n in multiset(mine);
    }
  }
}
