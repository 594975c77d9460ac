/** GET `/conversations`: the requester's applications that have at least
    one message, each with its newest message and the requester's unread
    count, newest conversation first, one page at a time. */
module Conversations {
  import opened Base
  import opened Sorting
  import opened Paging
  import opened UserModel
  import opened BusinessModel
  import opened JobModel
  import opened ApplicationModel
  import opened MessageModel
  import opened Store
  import opened Messaging

  /** The first `$match`: a `'user'` requester's own applications; for any
      other requester, the applications to the jobs it owns. */
  function Candidates(db: Db, r: Requester): (apps: seq<Application>)
    ensures forall i :: 0 <= i < |apps| ==> apps[i] in db.apps
    ensures forall a :: a in apps <==> a in db.apps && IsCandidate(db, r, a)
  {
    Filter(db.apps, (a: Application) => IsCandidate(db, r, a))
  }

  predicate IsCandidate(db: Db, r: Requester, a: Application) {
    if r.IsUser() then a.userId == r.id else a.jobId in BusinessJobIds(db, r.id)
  }

  function HasMessages(db: Db): Application -> bool {
    (a: Application) => exists i :: 0 <= i < |db.messages| && db.messages[i].jobApplication == a.id
  }

  /** One row of the aggregation before formatting: the application, its
      newest message, the unread count and the looked-up applicant, job and
      business (`None` when the lookup found nothing). */
  datatype Row = Row(
    app: Application,
    last: Message,
    unread: nat,
    user: Option<User>,
    job: Option<Job>,
    business: Option<Business>)

  function Conversation(db: Db, appId: Id): seq<Message> {
    Filter(db.messages, InConversation(appId))
  }

  /** What the aggregation puts in the row of an application: its newest
      message, the requester's unread count in it, and the applicant, job
      and business the `$lookup`s find. */
  predicate RowFor(db: Db, uid: Id, row: Row) {
    && row.last in Conversation(db, row.app.id)
    && (forall m :: m in Conversation(db, row.app.id) ==> row.last.createdAt >= m.createdAt)
    && row.unread == Count(Conversation(db, row.app.id), UnreadFor(uid))
    && row.user == FindUser(db, row.app.userId)
    && row.job == FindJob(db, row.app.jobId)
    && row.business == (if row.job.Some? then FindBusiness(db, row.job.value.businessId) else None)
  }

  function MakeRow(db: Db, a: Application, uid: Id): (row: Row)
    requires HasMessages(db)(a)
    ensures row.app == a && RowFor(db, uid, row)
  {
    var conv := Conversation(db, a.id);
    var i :| 0 <= i < |db.messages| && db.messages[i].jobApplication == a.id;
    assert db.messages[i] in conv;
    HeadIsMax(conv, ByCreatedAt());
    var last := SortDesc(conv, ByCreatedAt())[0];
    var job := FindJob(db, a.jobId);
    var business := if job.Some? then FindBusiness(db, job.value.businessId) else None;
    Row(a, last, Count(conv, UnreadFor(uid)), FindUser(db, a.userId), job, business)
  }

  /** The `$lookup`s and the `'lastMessage.0': { $exists: true }` match: one
      row for each of the requester's applications that has a message. */
  function Rows(db: Db, r: Requester): (rows: seq<Row>)
    ensures forall i :: 0 <= i < |rows| ==> rows[i].app in Candidates(db, r) && HasMessages(db)(rows[i].app)
    ensures forall a :: a in Candidates(db, r) && HasMessages(db)(a) ==>
              exists i :: 0 <= i < |rows| && rows[i].app == a
    ensures |rows| == Count(Candidates(db, r), HasMessages(db))
    ensures forall i :: 0 <= i < |rows| ==> RowFor(db, r.id, rows[i])
  {
    var withMessages := Filter(Candidates(db, r), HasMessages(db));
    var rows := MakeRows(db, withMessages, r.id);
    forall a | a in Candidates(db, r) && HasMessages(db)(a)
      ensures exists i :: 0 <= i < |rows| && rows[i].app == a
    {
      var k :| 0 <= k < |Candidates(db, r)| && Candidates(db, r)[k] == a;
      assert a in withMessages;
      var i :| 0 <= i < |withMessages| && withMessages[i] == a;
      assert rows[i].app == a;
    }
    rows
  }

  function MakeRows(db: Db, apps: seq<Application>, uid: Id): (rows: seq<Row>)
    requires forall i :: 0 <= i < |apps| ==> HasMessages(db)(apps[i])
    ensures |rows| == |apps|
    ensures forall i :: 0 <= i < |rows| ==> rows[i].app == apps[i] && RowFor(db, uid, rows[i])
  {
    seq(|apps|, i requires 0 <= i < |apps| => MakeRow(db, apps[i], uid))
  }

  function ByLastMessage(): Row -> int {
    (row: Row) => row.last.createdAt
  }

  /** A formatted conversation summary. */
  datatype Summary = Summary(
    appId: Id,
    status: Status,
    userId: Id,
    userName: string,
    jobId: Id,
    jobTitle: string,
    businessId: Id,
    businessName: string,
    unreadCount: nat,
    lastContent: string,
    lastCreatedAt: Time,
    isOwnMessage: bool,
    updatedAt: Time)

  /** The response formatting: reading `_id` of a missing applicant, job or
      business throws, so one dangling reference on the page fails the
      whole request. */
  function Format(row: Row, r: Requester): (s: Result<Summary, Fail>)
    ensures s.Ok? <==> row.user.Some? && row.job.Some? && row.business.Some?
    ensures s.Ok? ==> (s.value.isOwnMessage <==> row.last.sender == r.id && row.last.senderModel == r.Party())
    ensures s.Ok? ==> s.value.unreadCount == row.unread && s.value.lastContent == row.last.content
  {
    if row.user.None? || row.job.None? || row.business.None? then Err(ServerError)
    else
      var u := row.user.value;
      Ok(Summary(row.app.id, row.app.status, u.id, u.firstName + " " + u.lastName,
                 row.job.value.id, row.job.value.title, row.business.value.id, row.business.value.businessName,
                 row.unread, row.last.content, row.last.createdAt,
                 row.last.sender == r.id && row.last.senderModel == r.Party(),
                 row.app.updatedAt))
  }

  function FormatAll(rows: seq<Row>, r: Requester): (s: Result<seq<Summary>, Fail>)
    ensures s.Ok? <==> forall i :: 0 <= i < |rows| ==> Format(rows[i], r).Ok?
    ensures s.Ok? ==> |s.value| == |rows| && forall i :: 0 <= i < |rows| ==> s.value[i] == Format(rows[i], r).value
  {
    if |rows| == 0 then Ok([])
    else
      var head := Format(rows[0], r);
      var tail := FormatAll(rows[1..], r);
      if head.Err? then Err(head.error)
      else if tail.Err? then Err(tail.error)
      else
        assert forall i :: 1 <= i < |rows| ==> rows[i] == rows[1..][i - 1];
        Ok([head.value] + tail.value)
  }

  datatype ConversationsPage = ConversationsPage(conversations: seq<Summary>, pagination: PageInfo)

  /** The second aggregation's count.  For a `'user'` requester it uses the
      same filter as the page.  For any other requester it matches
      `'jobId.businessId'` on the unpopulated applications, a path that
      never exists, so it always counts 0. */
  function TotalAsWritten(db: Db, r: Requester): (n: nat)
    ensures r.IsUser() ==> n == |Rows(db, r)|
    ensures !r.IsUser() ==> n == 0
  {
    if r.IsUser() then Count(Candidates(db, r), HasMessages(db)) else 0
  }

  /** The handler with a count function: rows sorted by newest message,
      then skip and limit, then formatting. */
  function ListWith(db: Db, r: Requester, pageParam: Option<int>, total: nat): (res: Result<ConversationsPage, Fail>)
    ensures var page := ClampedPage(pageParam);
            var shown := Window(SortDesc(Rows(db, r), ByLastMessage()), PageSkip(page), MaxItemsPerPage);
      && (res.Ok? <==> FormatAll(shown, r).Ok?)
      && (res.Ok? ==> res.value.conversations == FormatAll(shown, r).value
                      && res.value.pagination == Info(page, total, MaxItemsPerPage))
  {
    var page := ClampedPage(pageParam);
    var sorted := SortDesc(Rows(db, r), ByLastMessage());
    var shown := Window(sorted, PageSkip(page), MaxItemsPerPage);
    var formatted := FormatAll(shown, r);
    if formatted.Err? then Err(formatted.error)
    else Ok(ConversationsPage(formatted.value, Info(page, total, MaxItemsPerPage)))
  }

  /** GET `/conversations` as written. */
  function ListConversations(db: Db, r: Requester, pageParam: Option<int>): Result<ConversationsPage, Fail> {
    ListWith(db, r, pageParam, TotalAsWritten(db, r))
  }

  /** GET `/conversations` with the count taken over the page's own rows. */
  function ListConversationsCorrected(db: Db, r: Requester, pageParam: Option<int>): Result<ConversationsPage, Fail> {
    ListWith(db, r, pageParam, |Rows(db, r)|)
  }

  /** The rows are ordered newest conversation first, and a row's
      `lastMessage` is the newest message of its conversation. */
  lemma RowsOrdered(db: Db, r: Requester)
    ensures SortedDesc(SortDesc(Rows(db, r), ByLastMessage()), ByLastMessage())
    ensures forall i :: 0 <= i < |Rows(db, r)| ==> var row := Rows(db, r)[i];
              row.last in Conversation(db, row.app.id)
              && forall m :: m in Conversation(db, row.app.id) ==> row.last.createdAt >= m.createdAt
  {
  }

  /** For `'user'` requesters both versions agree. */
  lemma UserTotalsAgree(db: Db, r: Requester, pageParam: Option<int>)
    requires r.IsUser()
    ensures ListConversations(db, r, pageParam) == ListConversationsCorrected(db, r, pageParam)
  {
  }

  /** The count as written: a business with one conversation gets the
      conversation on page 1 and a pagination saying there are none. */
  lemma BusinessTotalIsZero(b: Id, job: Job, app: Application, m: Message, user: User, biz: Business)
    requires job.businessId == b && app.jobId == job.id && m.jobApplication == app.id
    requires user.id == app.userId && biz.id == b
    ensures var db := Db([user], [biz], [job], [app], [m], [], [], []);
            var res := ListConversations(db, Requester(b, "business"), None);
      && res.Ok? && |res.value.conversations| == 1
      && res.value.pagination.total == 0 && res.value.pagination.totalPages == 0
  {
    var db := Db([user], [biz], [job], [app], [m], [], [], []);
    var r := Requester(b, "business");
    OneRow(b, job, app, m, user, biz);
    assert TotalAsWritten(db, r) == 0;
    SingleRowPage(db, r, 0);
  }

  /** A requester with a single complete row sees it alone on page 1. */
  lemma SingleRowPage(db: Db, r: Requester, total: nat)
    requires |Rows(db, r)| == 1
    requires var row := Rows(db, r)[0]; row.user.Some? && row.job.Some? && row.business.Some?
    ensures var res := ListWith(db, r, None, total);
      && res.Ok? && |res.value.conversations| == 1 && res.value.pagination == Info(1, total, MaxItemsPerPage)
  {
    var rows := Rows(db, r);
    var page := ClampedPage(None);
    var shown := Window(SortDesc(rows, ByLastMessage()), PageSkip(page), MaxItemsPerPage);
    SortSingleton(rows, ByLastMessage());
    assert page == 1 && PageSkip(page) == 0;
    SingletonWindow(rows);
    FormatAllSingle(shown, r);
  }

  lemma SingletonWindow<T>(s: seq<T>)
    requires |s| == 1
    ensures Window(s, 0, MaxItemsPerPage) == s
  {
  }

  lemma FormatAllSingle(rows: seq<Row>, r: Requester)
    requires |rows| == 1 && rows[0].user.Some? && rows[0].job.Some? && rows[0].business.Some?
    ensures FormatAll(rows, r).Ok? && |FormatAll(rows, r).value| == 1
  {
    assert Format(rows[0], r).Ok?;
  }

  /** The one conversation of the example store makes one complete row. */
  lemma OneRow(b: Id, job: Job, app: Application, m: Message, user: User, biz: Business)
    requires job.businessId == b && app.jobId == job.id && m.jobApplication == app.id
    requires user.id == app.userId && biz.id == b
    ensures var db := Db([user], [biz], [job], [app], [m], [], [], []);
            var rows := Rows(db, Requester(b, "business"));
      && |rows| == 1 && rows[0].user.Some? && rows[0].job.Some? && rows[0].business.Some?
  {
    var db := Db([user], [biz], [job], [app], [m], [], [], []);
    var r := Requester(b, "business");
    assert app.jobId in BusinessJobIds(db, b) by {
      assert db.jobs[0] == job;
    }
    var cands := Candidates(db, r);
    assert IsCandidate(db, r, app);
    assert cands == [app] by {
      assert |cands| == Count(db.apps, (a: Application) => IsCandidate(db, r, a)) == 1;
      assert cands[0] in db.apps;
    }
    assert HasMessages(db)(app) by {
      assert db.messages[0].jobApplication == app.id;
    }
    assert Count(cands, HasMessages(db)) == 1;
    var rows := Rows(db, r);
    assert rows[0].app == app;
    assert FindUser(db, app.userId) == Some(user);
    assert FindJob(db, app.jobId) == Some(job);
    assert FindBusiness(db, b) == Some(biz);
  }

  /** With the corrected count the pagination is consistent: walking pages
      1 to `totalPages` visits every conversation exactly once, and
      `hasNextPage` holds exactly when the next page is non-empty. */
  lemma CorrectedPaginationConsistent(db: Db, r: Requester, page: int)
    requires page >= 1
    ensures var rows := SortDesc(Rows(db, r), ByLastMessage());
            var info := Info(1, |Rows(db, r)|, MaxItemsPerPage);
      && Pages(rows, MaxItemsPerPage, info.totalPages) == rows
      && (Info(page, |Rows(db, r)|, MaxItemsPerPage).hasNextPage <==>
            Window(rows, page * MaxItemsPerPage, MaxItemsPerPage) != [])
  {
    var rows := SortDesc(Rows(db, r), ByLastMessage());
    PagesCoverAll(rows, MaxItemsPerPage);
    HasNextIffMore(rows, page, MaxItemsPerPage);
  }
}
