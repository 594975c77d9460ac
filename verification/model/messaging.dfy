/** The message routes of one conversation: post a message, list a page
    (which marks the requester's messages read), and the global unread
    count. */
module Messaging {
  import opened Base
  import opened Strings
  import opened Json
  import opened Sorting
  import opened Paging
  import opened MessageModel
  import opened NotificationModel
  import opened ApplicationModel
  import opened Store
  import opened AccessCache

  /** The store together with the in-process access cache. */
  datatype State = State(db: Db, cache: Cache)

  /** The content checks of the post handler, in order: a falsy value, then
      a blank one, is "required"; the untrimmed length is then bounded.  A
      truthy non-string makes `content.trim` throw. */
  function CheckContent(content: Value): (r: Result<string, Fail>)
    ensures r.Ok? <==> HasText(content) && Utf16Length(content.s) <= MaxContentLength
    ensures r.Ok? ==> r.value == Trim(content.s) && ValidContent(r.value)
    ensures !Truthy(content) ==> r == Err(Fail(400, "Message content is required"))
    ensures Truthy(content) && !content.Str? ==> r == Err(ServerError)
    ensures content.Str? && Trim(content.s) == [] ==> r == Err(Fail(400, "Message content is required"))
    ensures HasText(content) && Utf16Length(content.s) > MaxContentLength ==>
              r == Err(Fail(400, "Message content cannot exceed 2000 characters"))
  {
    if !Truthy(content) then Err(Fail(400, "Message content is required"))
    else if !content.Str? then Err(ServerError)
    else if |Trim(content.s)| == 0 then Err(Fail(400, "Message content is required"))
    else if Utf16Length(content.s) > MaxContentLength then Err(Fail(400, "Message content cannot exceed 2000 characters"))
    else
      TrimIdempotent(content.s);
      TrimUtf16(content.s);
      Ok(Trim(content.s))
  }

  /** The route's checks are stricter than the schema's: whatever passes
      them is accepted by `Message.create`, but content whose trimmed form
      would fit is still refused when the untrimmed text is too long. */
  lemma RouteContentFitsSchema(content: Value, id: Id, sender: Id, recipient: Id, sm: Party, app: Id, now: Time)
    ensures CheckContent(content).Ok? ==>
              MessageModel.Create(id, sender, sm, recipient, sm.Other(), app, content.s, now).Ok?
    ensures var padded := Str(seq(MaxContentLength, _ => ' ') + "hi");
              CheckContent(padded).Err?
              && MessageModel.Create(id, sender, sm, recipient, sm.Other(), app, padded.s, now).Ok?
  {
    if CheckContent(content).Ok? {
      TrimUtf16(content.s);
    }
    var padded := seq(MaxContentLength, _ => ' ') + "hi";
    assert Utf16Length("hi") == 2;
    assert LeadingSpaces(padded) == MaxContentLength by {
      assert !IsSpace(padded[MaxContentLength]);
    }
    assert Trim(padded) == "hi" by {
      assert TrailingSpaces(padded) == 0;
    }
  }

  /** `updateOne({ _id }, { $set: { updatedAt } })` (ids are unique). */
  function Touch(apps: seq<Application>, id: Id, now: Time): (r: seq<Application>)
    ensures |r| == |apps|
    ensures forall i :: 0 <= i < |apps| ==>
              r[i] == if apps[i].id == id then apps[i].(updatedAt := now) else apps[i]
  {
    if |apps| == 0 then [] else [if apps[0].id == id then apps[0].(updatedAt := now) else apps[0]] + Touch(apps[1..], id, now)
  }

  /** Touching an application changes no id, applicant or job, so every
      conversation snapshot is the same afterwards. */
  lemma {:induction false} TouchKeepsViews(db: Db, id: Id, now: Time, a: Id)
    ensures View(db.(apps := Touch(db.apps, id, now)), a) == View(db, a)
  {
    var t := Touch(db.apps, id, now);
    FindTouch(db.apps, id, now, a);
  }

  lemma {:induction false} FindTouch(apps: seq<Application>, id: Id, now: Time, a: Id)
    ensures var f := FindFirst(Touch(apps, id, now), (x: Application) => x.id == a);
            var g := FindFirst(apps, (x: Application) => x.id == a);
            f.Some? == g.Some? && (f.Some? ==> f.value.userId == g.value.userId && f.value.jobId == g.value.jobId)
  {
    if |apps| > 0 {
      assert Touch(apps, id, now)[1..] == Touch(apps[1..], id, now);
      FindTouch(apps[1..], id, now, a);
    }
  }

  /** The text of the `NEW_MESSAGE` notification. */
  function NewMessageText(jobTitle: string): string {
    "You have a new message regarding the application for \"" + jobTitle + "\""
  }

  /** The post handler once access is granted on snapshot `app`.  The
      message goes from the requester to the other party; the application's
      `updatedAt` is touched and a `NEW_MESSAGE` notification is added
      unless creating it fails (`notifyOk` false), which does not change the
      201. */
  function Send(db: Db, app: AppView, r: Requester, content: Value,
                msgId: Id, notifId: Id, notifyOk: bool, now: Time): (res: (Result<Message, Fail>, Db))
  {
    var c := CheckContent(content);
    if c.Err? then (Err(c.error), db)
    else if r.IsUser() && app.job.None? then (Err(ServerError), db)
    else
      var recipient := if r.IsUser() then app.job.value.businessId else app.userId;
      var created := MessageModel.Create(msgId, r.id, r.Party(), recipient, r.Party().Other(), app.id, c.value, now);
      if created.Err? then (Err(ServerError), db)
      else
        var m := created.value;
        var db1 := db.(messages := db.messages + [m], apps := Touch(db.apps, app.id, now));
        if app.job.None? then (Err(ServerError), db1)
        else
          var job := app.job.value;
          var draft := Draft(recipient, r.Party().Other(), NewMessage, "New Message", NewMessageText(job.title),
                             map["messageId" := m.id, "applicationId" := app.id, "jobId" := job.id,
                                 "jobTitle" := job.title, "senderId" := r.id, "senderModel" := r.Party().Name()]);
          var n := NotificationModel.Create(notifId, draft, now);
          var notes := if notifyOk && n.Some? then db.notifications + [n.value] else db.notifications;
          (Ok(m), db1.(notifications := notes))
  }

  /** What a successful post stores: one new message, last in the
      collection, from the requester to the other party of the snapshot,
      with the trimmed content and unread; at most one new notification,
      a `NEW_MESSAGE` to that recipient, present when creating it
      succeeded; users, businesses and jobs untouched. */
  lemma SendEffect(db: Db, app: AppView, r: Requester, content: Value,
                   msgId: Id, notifId: Id, notifyOk: bool, now: Time)
    ensures var (res, db2) := Send(db, app, r, content, msgId, notifId, notifyOk, now);
      && (res.Ok? <==> CheckContent(content).Ok? && app.job.Some?)
      && (res.Ok? ==>
            var m := res.value;
            && db2.messages == db.messages + [m]
            && m.content == Trim(content.s) && !m.read && m.jobApplication == app.id
            && m.sender == r.id && m.senderModel == r.Party()
            && m.recipientModel == r.Party().Other()
            && m.recipient == (if r.IsUser() then app.job.value.businessId else app.userId)
            && |db2.notifications| == |db.notifications| + (if notifyOk && |m.recipient| > 0 then 1 else 0)
            && db2.notifications[..|db.notifications|] == db.notifications
            && (|db2.notifications| > |db.notifications| ==>
                  var n := db2.notifications[|db.notifications|];
                  n.kind == NewMessage && n.recipient == m.recipient && n.recipientModel == m.recipientModel
                  && !n.read && n.title == "New Message"))
      && (CheckContent(content).Err? ==> res == Err(CheckContent(content).error) && db2 == db)
      && db2.users == db.users && db2.businesses == db.businesses && db2.jobs == db.jobs
  {
    SendMessagePart(db, app, r, content, msgId, notifId, notifyOk, now);
    if Send(db, app, r, content, msgId, notifId, notifyOk, now).0.Ok? {
      SendNoticePart(db, app, r, content, msgId, notifId, notifyOk, now);
    }
  }

  /** The reply, the stored message and the collections a post leaves alone. */
  lemma SendMessagePart(db: Db, app: AppView, r: Requester, content: Value,
                        msgId: Id, notifId: Id, notifyOk: bool, now: Time)
    ensures var (res, db2) := Send(db, app, r, content, msgId, notifId, notifyOk, now);
      && (res.Ok? <==> CheckContent(content).Ok? && app.job.Some?)
      && (res.Ok? ==>
            var m := res.value;
            && db2.messages == db.messages + [m]
            && m.content == Trim(content.s) && !m.read && m.jobApplication == app.id
            && m.sender == r.id && m.senderModel == r.Party()
            && m.recipientModel == r.Party().Other()
            && m.recipient == (if r.IsUser() then app.job.value.businessId else app.userId))
      && (CheckContent(content).Err? ==> res == Err(CheckContent(content).error) && db2 == db)
      && db2.users == db.users && db2.businesses == db.businesses && db2.jobs == db.jobs
  {
    var c := CheckContent(content);
    if c.Ok? {
      var recipient := if r.IsUser() && app.job.Some? then app.job.value.businessId else app.userId;
      assert MessageModel.Create(msgId, r.id, r.Party(), recipient, r.Party().Other(), app.id, c.value, now).Ok?;
    }
  }

  /** The notification a successful post adds. */
  lemma SendNoticePart(db: Db, app: AppView, r: Requester, content: Value,
                       msgId: Id, notifId: Id, notifyOk: bool, now: Time)
    requires Send(db, app, r, content, msgId, notifId, notifyOk, now).0.Ok?
    ensures var (res, db2) := Send(db, app, r, content, msgId, notifId, notifyOk, now);
            var m := res.value;
      && |db2.notifications| == |db.notifications| + (if notifyOk && |m.recipient| > 0 then 1 else 0)
      && db2.notifications[..|db.notifications|] == db.notifications
      && (|db2.notifications| > |db.notifications| ==>
            var n := db2.notifications[|db.notifications|];
            n.kind == NewMessage && n.recipient == m.recipient && n.recipientModel == m.recipientModel
            && !n.read && n.title == "New Message")
  {
    var c := CheckContent(content);
    var recipient := if r.IsUser() then app.job.value.businessId else app.userId;
    var m := MessageModel.Create(msgId, r.id, r.Party(), recipient, r.Party().Other(), app.id, c.value, now).value;
    var job := app.job.value;
    var draft := Draft(recipient, r.Party().Other(), NewMessage, "New Message", NewMessageText(job.title),
                       map["messageId" := m.id, "applicationId" := app.id, "jobId" := job.id,
                           "jobTitle" := job.title, "senderId" := r.id, "senderModel" := r.Party().Name()]);
    var n := NotificationModel.Create(notifId, draft, now);
    assert Send(db, app, r, content, msgId, notifId, notifyOk, now).0 == Ok(m);
    var notes := if notifyOk && n.Some? then db.notifications + [n.value] else db.notifications;
    assert Send(db, app, r, content, msgId, notifId, notifyOk, now).1.notifications == notes;
  }

  /** Every stored message is addressed between the two parties of its
      application: applicant to owning business or the reverse, with the
      matching collections. */
  ghost predicate WellAddressed(db: Db, m: Message) {
    var v := View(db, m.jobApplication);
    && v.Some? && v.value.job.Some?
    && var user := v.value.userId;
       var business := v.value.job.value.businessId;
       || (m.senderModel == UserParty && m.sender == user
           && m.recipientModel == BusinessParty && m.recipient == business)
       || (m.senderModel == BusinessParty && m.sender == business
           && m.recipientModel == UserParty && m.recipient == user)
  }

  ghost predicate ConversationsWellFormed(db: Db) {
    forall i :: 0 <= i < |db.messages| ==> WellAddressed(db, db.messages[i])
  }

  /** POST `/:applicationId`: the access check, then the handler. */
  function PostMessage(st: State, appId: Id, r: Requester, content: Value,
                       msgId: Id, notifId: Id, notifyOk: bool, now: Time): (res: (Result<Message, Fail>, State))
    ensures var (access, cache) := Check(st.cache, st.db, appId, r, now);
      && (!access.Granted? ==> res == (Err(access.Response()), State(st.db, cache)))
      && (access.Granted? ==> res.1.cache == cache)
  {
    var (access, cache) := Check(st.cache, st.db, appId, r, now);
    if !access.Granted? then (Err(access.Response()), State(st.db, cache))
    else
      var (out, db) := Send(st.db, access.app, r, content, msgId, notifId, notifyOk, now);
      (out, State(db, cache))
  }

  /** With a coherent cache, posting keeps every conversation well formed:
      nobody outside an application can write into it and the recipient is
      always the other party. */
  lemma PostKeepsConversationsWellFormed(st: State, appId: Id, r: Requester, content: Value,
                                          msgId: Id, notifId: Id, notifyOk: bool, now: Time)
    requires ConversationsWellFormed(st.db) && Coherent(st.cache, st.db)
    requires NoColon(appId) && NoColon(r.id)
    ensures var st2 := PostMessage(st, appId, r, content, msgId, notifId, notifyOk, now).1;
            ConversationsWellFormed(st2.db) && Coherent(st2.cache, st2.db)
  {
    var (access, cache) := Check(st.cache, st.db, appId, r, now);
    CoherentCacheIsTransparent(st.cache, st.db, appId, r, now);
    FreshCheckIsPartyTest(st.db, appId, r, now);
    if access.Granted? {
      var db2 := Send(st.db, access.app, r, content, msgId, notifId, notifyOk, now).1;
      SendKeepsWellFormed(st.db, access.app, r, content, msgId, notifId, notifyOk, now);
      CoherentUnderSameViews(cache, st.db, db2);
    }
  }

  /** A post by a party of the conversation keeps every message well
      addressed, and leaves every application snapshot as it was. */
  lemma SendKeepsWellFormed(db: Db, v: AppView, r: Requester, content: Value,
                            msgId: Id, notifId: Id, notifyOk: bool, now: Time)
    requires ConversationsWellFormed(db)
    requires View(db, v.id) == Some(v) && IsParty(v, r)
    ensures var db2 := Send(db, v, r, content, msgId, notifId, notifyOk, now).1;
            ConversationsWellFormed(db2) && forall a :: View(db2, a) == View(db, a)
  {
    var db2 := Send(db, v, r, content, msgId, notifId, notifyOk, now).1;
    SendStores(db, v, r, content, msgId, notifId, notifyOk, now);
    if db2 != db {
      SendKeepsViews(db, db2, v.id, now);
      OldMessagesStayAddressed(db, db2);
      NewMessageAddressed(db2, v, r, db2.messages[|db.messages|]);
      forall i | |db.messages| <= i < |db2.messages| ensures WellAddressed(db2, db2.messages[i]) {
        assert i == |db.messages|;
      }
    }
  }

  lemma OldMessagesStayAddressed(db: Db, db2: Db)
    requires ConversationsWellFormed(db) && forall a :: View(db2, a) == View(db, a)
    requires |db.messages| <= |db2.messages|
    requires forall i :: 0 <= i < |db.messages| ==> db2.messages[i] == db.messages[i]
    ensures forall i :: 0 <= i < |db.messages| ==> WellAddressed(db2, db2.messages[i])
  {
    forall i | 0 <= i < |db.messages| ensures WellAddressed(db2, db2.messages[i]) {
      assert WellAddressed(db, db.messages[i]);
    }
  }

  lemma NewMessageAddressed(db: Db, v: AppView, r: Requester, m: Message)
    requires View(db, v.id) == Some(v) && IsParty(v, r)
    requires m.jobApplication == v.id && m.sender == r.id && m.senderModel == r.Party()
    requires m.recipientModel == r.Party().Other()
    requires r.IsUser() ==> v.job.Some? && m.recipient == v.job.value.businessId
    requires !r.IsUser() ==> m.recipient == v.userId
    ensures WellAddressed(db, m)
  {
  }

  /** A post either stores nothing, or appends one message of the
      conversation from the requester to the other party and touches the
      application. */
  lemma SendStores(db: Db, app: AppView, r: Requester, content: Value,
                   msgId: Id, notifId: Id, notifyOk: bool, now: Time)
    ensures var db2 := Send(db, app, r, content, msgId, notifId, notifyOk, now).1;
      || db2 == db
      || (&& db2.jobs == db.jobs && db2.apps == Touch(db.apps, app.id, now)
          && |db2.messages| == |db.messages| + 1
          && (forall i :: 0 <= i < |db.messages| ==> db2.messages[i] == db.messages[i])
          && var m := db2.messages[|db.messages|];
             && m.jobApplication == app.id && m.sender == r.id && m.senderModel == r.Party()
             && m.recipientModel == r.Party().Other()
             && (r.IsUser() ==> app.job.Some? && m.recipient == app.job.value.businessId)
             && (!r.IsUser() ==> m.recipient == app.userId))
  {
    var c := CheckContent(content);
    if c.Ok? && !(r.IsUser() && app.job.None?) {
      var recipient := if r.IsUser() then app.job.value.businessId else app.userId;
      assert MessageModel.Create(msgId, r.id, r.Party(), recipient, r.Party().Other(), app.id, c.value, now).Ok?;
    }
  }

  /** A store whose applications are touched and whose jobs are unchanged
      shows every application as before. */
  lemma SendKeepsViews(db: Db, db2: Db, id: Id, now: Time)
    requires db2.apps == Touch(db.apps, id, now) && db2.jobs == db.jobs
    ensures forall a :: View(db2, a) == View(db, a)
  {
    var touched := db.(apps := Touch(db.apps, id, now));
    forall a: Id ensures View(db2, a) == View(db, a) {
      TouchKeepsViews(db, id, now, a);
      SameCollectionsSameView(db2, touched, a);
    }
  }

  lemma SameCollectionsSameView(db1: Db, db2: Db, a: Id)
    requires db1.apps == db2.apps && db1.jobs == db2.jobs
    ensures View(db1, a) == View(db2, a)
  {
  }

  /** Coherence only depends on the application snapshots. */
  lemma CoherentUnderSameViews(cache: Cache, db: Db, db2: Db)
    requires Coherent(cache, db)
    requires forall a :: View(db2, a) == View(db, a)
    ensures Coherent(cache, db2)
  {
  }

  /** The requester's unread messages. */
  function UnreadFor(uid: Id): Message -> bool {
    (m: Message) => m.recipient == uid && !m.read
  }

  /** GET `/unread/count`: unread messages addressed to the requester, in
      every conversation. */
  function UnreadCount(db: Db, uid: Id): (n: nat)
    ensures n == |set i | 0 <= i < |db.messages| && db.messages[i].recipient == uid && !db.messages[i].read|
    ensures n == 0 <==> forall i :: 0 <= i < |db.messages| ==> db.messages[i].recipient != uid || db.messages[i].read
  {
    CountIsMatchingIndices(db.messages, UnreadFor(uid));
    CountZeroIff(db.messages, UnreadFor(uid));
    assert MatchingIndices(db.messages, UnreadFor(uid))
        == set i | 0 <= i < |db.messages| && db.messages[i].recipient == uid && !db.messages[i].read;
    Count(db.messages, UnreadFor(uid))
  }

  /** The messages the mark-read update matches. */
  function MarkTarget(appId: Id, uid: Id): Message -> bool {
    (m: Message) => m.jobApplication == appId && m.recipient == uid && !m.read
  }

  /** `updateMany({ jobApplication, recipient, read: false }, { read: true })`. */
  function MarkRead(ms: seq<Message>, appId: Id, uid: Id): (r: seq<Message>)
    ensures |r| == |ms|
    ensures forall i :: 0 <= i < |ms| ==>
              r[i] == if MarkTarget(appId, uid)(ms[i]) then ms[i].(read := true) else ms[i]
  {
    if |ms| == 0 then []
    else
      var last := ms[|ms| - 1];
      MarkRead(ms[..|ms| - 1], appId, uid) + [if MarkTarget(appId, uid)(last) then last.(read := true) else last]
  }

  /** Marking read flips exactly the matched messages: the requester's
      unread count drops by their number, and afterwards none of that
      conversation's messages to the requester is unread. */
  lemma {:induction false} MarkReadCounts(ms: seq<Message>, appId: Id, uid: Id)
    ensures Count(MarkRead(ms, appId, uid), UnreadFor(uid)) + Count(ms, MarkTarget(appId, uid))
            == Count(ms, UnreadFor(uid))
    ensures Count(MarkRead(ms, appId, uid), MarkTarget(appId, uid)) == 0
  {
    if |ms| > 0 {
      var init := ms[..|ms| - 1];
      var r := MarkRead(ms, appId, uid);
      MarkReadCounts(init, appId, uid);
      assert r[..|r| - 1] == MarkRead(init, appId, uid);
    }
  }

  /** Marking read twice is marking read once. */
  lemma MarkReadIdempotent(ms: seq<Message>, appId: Id, uid: Id)
    ensures MarkRead(MarkRead(ms, appId, uid), appId, uid) == MarkRead(ms, appId, uid)
  {
  }

  /** One page of a conversation. */
  datatype MessagePage = MessagePage(messages: seq<Message>, pagination: PageInfo)

  /** The messages of one conversation. */
  function InConversation(appId: Id): Message -> bool {
    (m: Message) => m.jobApplication == appId
  }

  function ByCreatedAt(): Message -> int {
    (m: Message) => m.createdAt
  }

  /** The handler of GET `/:applicationId` once access is granted: the
      conversation newest first, skip `(page - 1) * 30`, limit 30, counted
      in full.  When the page is non-empty the requester's unread messages
      of the conversation are marked read; the page shows them as they were
      before. */
  function ListMessages(db: Db, appId: Id, uid: Id, pageParam: Option<int>): (res: (MessagePage, Db))
    ensures var page := ClampedPage(pageParam);
            var conv := Filter(db.messages, InConversation(appId));
      && res.0.pagination == Info(page, |conv|, MaxItemsPerPage)
      && res.0.messages == Window(SortDesc(conv, ByCreatedAt()), PageSkip(page), MaxItemsPerPage)
      && SortedDesc(res.0.messages, ByCreatedAt())
      && (res.0.messages == [] ==> res.1 == db)
      && (res.0.messages != [] ==> res.1 == db.(messages := MarkRead(db.messages, appId, uid)))
  {
    var page := ClampedPage(pageParam);
    var conv := Filter(db.messages, InConversation(appId));
    var sorted := SortDesc(conv, ByCreatedAt());
    var w := Window(sorted, PageSkip(page), MaxItemsPerPage);
    WindowKeepsOrder(sorted, PageSkip(page), MaxItemsPerPage, ByCreatedAt());
    var db2 := if |w| > 0 then db.(messages := MarkRead(db.messages, appId, uid)) else db;
    (MessagePage(w, Info(page, |conv|, MaxItemsPerPage)), db2)
  }

  /** GET `/:applicationId`: the access check, then the handler. */
  function GetMessages(st: State, appId: Id, r: Requester, pageParam: Option<int>, now: Time): (res: (Result<MessagePage, Fail>, State))
    ensures var (access, cache) := Check(st.cache, st.db, appId, r, now);
      && res.1.cache == cache
      && (!access.Granted? ==> res.0 == Err(access.Response()) && res.1.db == st.db)
      && (access.Granted? ==> res.0 == Ok(ListMessages(st.db, appId, r.id, pageParam).0)
                              && res.1.db == ListMessages(st.db, appId, r.id, pageParam).1)
  {
    var (access, cache) := Check(st.cache, st.db, appId, r, now);
    if !access.Granted? then (Err(access.Response()), State(st.db, cache))
    else
      var (page, db) := ListMessages(st.db, appId, r.id, pageParam);
      (Ok(page), State(db, cache))
  }

  /** Reading a non-empty page leaves the requester no unread message in
      that conversation, lowers the global unread count by exactly the
      messages flipped, and leaves other recipients' counts alone. */
  lemma ListingMarksConversationRead(db: Db, appId: Id, uid: Id, pageParam: Option<int>, other: Id)
    requires ListMessages(db, appId, uid, pageParam).0.messages != []
    ensures var db2 := ListMessages(db, appId, uid, pageParam).1;
      && Count(db2.messages, MarkTarget(appId, uid)) == 0
      && UnreadCount(db2, uid) + Count(db.messages, MarkTarget(appId, uid)) == UnreadCount(db, uid)
      && (other != uid ==> UnreadCount(db2, other) == UnreadCount(db, other))
  {
    MarkReadCounts(db.messages, appId, uid);
    if other != uid {
      OtherUnreadUnchanged(db.messages, appId, uid, other);
    }
  }

  lemma {:induction false} OtherUnreadUnchanged(ms: seq<Message>, appId: Id, uid: Id, other: Id)
    requires other != uid
    ensures Count(MarkRead(ms, appId, uid), UnreadFor(other)) == Count(ms, UnreadFor(other))
  {
    if |ms| > 0 {
      var r := MarkRead(ms, appId, uid);
      OtherUnreadUnchanged(ms[..|ms| - 1], appId, uid, other);
      assert r[..|r| - 1] == MarkRead(ms[..|ms| - 1], appId, uid);
    }
  }
}
