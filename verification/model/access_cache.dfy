/** Who may read and post in an application's conversation, and the
    in-process cache of those decisions (`ensureConversationAccess` and the
    periodic sweep). */
module AccessCache {
  import opened Base
  import opened Strings
  import opened ApplicationModel
  import opened JobModel
  import opened Store

  /** `ACCESS_CACHE_TTL`: five minutes, also the sweep period. */
  const AccessCacheTtl: int := 5 * MsPerMinute

  /** The populated job of an application: `jobId` with `businessId` and
      `title`. */
  datatype JobRef = JobRef(id: Id, businessId: Id, title: string)

  /** The application snapshot the access check loads and caches: `userId`
      and the populated `jobId`, which is `null` (`None`) when the job no
      longer exists. */
  datatype AppView = AppView(id: Id, userId: Id, job: Option<JobRef>)

  function JobView(db: Db, jobId: Id): Option<JobRef> {
    var j := FindJob(db, jobId);
    if j.Some? then Some(JobRef(j.value.id, j.value.businessId, j.value.title)) else None
  }

  /** `findById(applicationId).populate('jobId', 'businessId title')`. */
  function View(db: Db, appId: Id): (r: Option<AppView>)
    ensures r.Some? <==> FindApp(db, appId).Some?
    ensures r.Some? ==> r.value.id == appId
  {
    var a := FindApp(db, appId);
    if a.Some? then Some(AppView(a.value.id, a.value.userId, JobView(db, a.value.jobId))) else None
  }

  /** The parties of a conversation: the applicant, and the business that
      owns the job. */
  predicate IsParty(v: AppView, r: Requester) {
    (r.IsUser() && v.userId == r.id)
    || (!r.IsUser() && v.job.Some? && v.job.value.businessId == r.id)
  }

  /** The comparison of the access check.  For a non-`'user'` requester
      whose application lost its job, `application.jobId.businessId` throws
      (`None`). */
  function Decide(v: AppView, r: Requester): (d: Option<bool>)
    ensures d.None? <==> !r.IsUser() && v.job.None?
    ensures d.Some? ==> (d.value <==> IsParty(v, r))
  {
    if r.IsUser() then Some(v.userId == r.id)
    else if v.job.None? then None
    else Some(v.job.value.businessId == r.id)
  }

  /** `${applicationId}:${userId}:${userType}`. */
  function CacheKey(appId: Id, userId: Id, userType: string): string {
    appId + ":" + userId + ":" + userType
  }

  predicate NoColon(s: string) {
    ':' !in s
  }

  /** Splitting at the first colon is unique. */
  lemma ColonSplit(a: string, b: string, x: string, y: string)
    requires NoColon(a) && NoColon(b)
    requires a + ":" + x == b + ":" + y
    ensures a == b && x == y
  {
    var l := a + ":" + x;
    FirstColon(a, x);
    FirstColon(b, y);
    assert a == l[..|a|] == b;
    assert x == l[|a| + 1..] == y;
  }

  lemma FirstColon(a: string, x: string)
    requires NoColon(a)
    ensures IndexOf(a + ":" + x, ':') == Some(|a|)
  {
    var l := a + ":" + x;
    var i := IndexOf(l, ':');
    assert l[|a|] == ':';
    assert l[..|a|] == a;
  }

  /** Distinct (application, requester) pairs get distinct keys as long as
      the two ids hold no colon, which is the case for ObjectIds. */
  lemma CacheKeyInjective(a1: Id, u1: Id, t1: string, a2: Id, u2: Id, t2: string)
    requires NoColon(a1) && NoColon(u1) && NoColon(a2) && NoColon(u2)
    requires CacheKey(a1, u1, t1) == CacheKey(a2, u2, t2)
    ensures a1 == a2 && u1 == u2 && t1 == t2
  {
    assert CacheKey(a1, u1, t1) == a1 + ":" + (u1 + ":" + t1);
    assert CacheKey(a2, u2, t2) == a2 + ":" + (u2 + ":" + t2);
    ColonSplit(a1, a2, u1 + ":" + t1, u2 + ":" + t2);
    ColonSplit(u1, u2, t1, t2);
  }

  /** Without the colon-free ids the keys collide. */
  lemma CacheKeyCollision()
    ensures CacheKey("a:b", "c", "user") == CacheKey("a", "b:c", "user")
  {
  }

  /** A cached decision with the application snapshot it was made on. */
  datatype Entry = Entry(hasAccess: bool, app: AppView, timestamp: Time)

  type Cache = map<string, Entry>

  datatype Access = Granted(app: AppView) | Denied | AppNotFound | AccessFailed {
    function Response(): (f: Fail)
      requires !Granted?
    {
      match this
      case Denied => Fail(403, "You do not have access to this conversation")
      case AppNotFound => Fail(404, "Job application not found")
      case AccessFailed => ServerError
    }
  }

  /** `ensureConversationAccess`: a cached entry is trusted whatever its
      age; otherwise the application is loaded, a missing one is a 404 that
      caches nothing, and any decision made is cached under the key with the
      current time before it is enforced. */
  function Check(cache: Cache, db: Db, appId: Id, r: Requester, now: Time): (res: (Access, Cache))
    ensures var key := CacheKey(appId, r.id, r.userType);
      && (key in cache ==>
            && res.1 == cache
            && res.0 == if cache[key].hasAccess then Granted(cache[key].app) else Denied)
      && (key !in cache && View(db, appId).None? ==> res == (AppNotFound, cache))
      && (key !in cache && View(db, appId).Some? ==> var v := View(db, appId).value;
            && (Decide(v, r).None? ==> res == (AccessFailed, cache))
            && (Decide(v, r).Some? ==>
                  && res.1 == cache[key := Entry(IsParty(v, r), v, now)]
                  && res.0 == if IsParty(v, r) then Granted(v) else Denied))
  {
    var key := CacheKey(appId, r.id, r.userType);
    if key in cache then
      var e := cache[key];
      (if e.hasAccess then Granted(e.app) else Denied, cache)
    else
      var v := View(db, appId);
      if v.None? then (AppNotFound, cache)
      else
        var d := Decide(v.value, r);
        if d.None? then (AccessFailed, cache)
        else
          var c := cache[key := Entry(d.value, v.value, now)];
          (if d.value then Granted(v.value) else Denied, c)
  }

  /** With nothing cached the decision is exactly party membership, made
      on the stored application. */
  lemma FreshCheckIsPartyTest(db: Db, appId: Id, r: Requester, now: Time)
    ensures var res := Check(map[], db, appId, r, now).0;
      && (res.AppNotFound? <==> FindApp(db, appId).None?)
      && (res.Granted? <==> View(db, appId).Some? && IsParty(View(db, appId).value, r))
      && (res.Granted? ==> res.app == View(db, appId).value)
      && (res.AccessFailed? <==> View(db, appId).Some? && !r.IsUser() && View(db, appId).value.job.None?)
  {
  }

  /** A hit consults neither the store nor the clock: the same cache gives
      the same answer against any store contents at any time. */
  lemma HitIgnoresStoreAndAge(cache: Cache, db1: Db, db2: Db, appId: Id, r: Requester, t1: Time, t2: Time)
    requires CacheKey(appId, r.id, r.userType) in cache
    ensures Check(cache, db1, appId, r, t1) == Check(cache, db2, appId, r, t2)
  {
  }

  /** Every cached entry is the decision a fresh check would make against
      `db`. */
  ghost predicate Coherent(cache: Cache, db: Db) {
    forall a: Id, u: Id, t: string ::
      NoColon(a) && NoColon(u) && CacheKey(a, u, t) in cache ==>
        var e := cache[CacheKey(a, u, t)];
        && View(db, a) == Some(e.app)
        && Decide(e.app, Requester(u, t)) == Some(e.hasAccess)
  }

  /** While the store does not change, the cache is transparent: a check
      answers as a check with an empty cache would, and leaves the cache
      coherent. */
  lemma CoherentCacheIsTransparent(cache: Cache, db: Db, appId: Id, r: Requester, now: Time)
    requires Coherent(cache, db) && NoColon(appId) && NoColon(r.id)
    ensures Check(cache, db, appId, r, now).0 == Check(map[], db, appId, r, now).0
    ensures Coherent(Check(cache, db, appId, r, now).1, db)
  {
    var key := CacheKey(appId, r.id, r.userType);
    var c := Check(cache, db, appId, r, now).1;
    if key in cache {
      assert r == Requester(r.id, r.userType);
    } else {
      forall a: Id, u: Id, t: string | NoColon(a) && NoColon(u) && CacheKey(a, u, t) in c
        ensures View(db, a) == Some(c[CacheKey(a, u, t)].app)
        ensures Decide(c[CacheKey(a, u, t)].app, Requester(u, t)) == Some(c[CacheKey(a, u, t)].hasAccess)
      {
        if CacheKey(a, u, t) == key {
          CacheKeyInjective(a, u, t, appId, r.id, r.userType);
        } else {
          assert CacheKey(a, u, t) in cache;
        }
      }
    }
  }

  /** The cache is not refreshed when the store changes: after the
      application is deleted a cached grant still admits the applicant,
      where a fresh check answers 404. */
  lemma StaleGrantSurvivesDeletion(db: Db, app: Application, now: Time)
    requires db.apps == [app] && NoColon(app.id)
    ensures var r := Requester(app.userId, "user");
      var (first, cache) := Check(map[], db, app.id, r, now);
      && first.Granted?
      && Check(cache, db.(apps := []), app.id, r, now + 1).0.Granted?
      && Check(map[], db.(apps := []), app.id, r, now + 1).0 == AppNotFound
  {
  }

  /** One pass of the periodic cleanup: exactly the entries older than the
      TTL are removed; the others are kept as they are. */
  function Sweep(cache: Cache, now: Time): (r: Cache)
    ensures forall k :: k in r <==> k in cache && now - cache[k].timestamp <= AccessCacheTtl
    ensures forall k :: k in r ==> r[k] == cache[k]
  {
    map k | k in cache && now - cache[k].timestamp <= AccessCacheTtl :: cache[k]
  }

  /** The cleanup as the loop writes it: walk the entries and delete each
      expired one. */
  method SweepEntries(cache: Cache, now: Time) returns (r: Cache)
    ensures r == Sweep(cache, now)
  {
    r := cache;
    var pending := cache.Keys;
    while pending != {}
      invariant pending <= cache.Keys
      invariant forall k :: k in r <==> k in cache && (k in pending || now - cache[k].timestamp <= AccessCacheTtl)
      invariant forall k :: k in r ==> r[k] == cache[k]
      decreases |pending|
    {
      var k :| k in pending;
      if now - cache[k].timestamp > AccessCacheTtl {
        r := r - {k};
      }
      pending := pending - {k};
    }
  }

  /** A sweep only forgets decisions, so it keeps a coherent cache
      coherent. */
  lemma SweepKeepsCoherent(cache: Cache, db: Db, now: Time)
    requires Coherent(cache, db)
    ensures Coherent(Sweep(cache, now), db)
  {
    var s := Sweep(cache, now);
    forall a: Id, u: Id, t: string | NoColon(a) && NoColon(u) && CacheKey(a, u, t) in s
      ensures View(db, a) == Some(s[CacheKey(a, u, t)].app)
      ensures Decide(s[CacheKey(a, u, t)].app, Requester(u, t)) == Some(s[CacheKey(a, u, t)].hasAccess)
    {
      assert CacheKey(a, u, t) in cache;
    }
  }

  /** With the sweep running every TTL, a decision served between two sweeps
      is younger than two TTLs (just under ten minutes) when it was already
      cached at the last sweep. */
  lemma ServedAgeBound(cache: Cache, swept: Time, now: Time, key: string)
    requires swept <= now < swept + AccessCacheTtl
    requires key in Sweep(cache, swept)
    ensures now - Sweep(cache, swept)[key].timestamp < 2 * AccessCacheTtl
  {
  }
}
