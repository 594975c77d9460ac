/** The application routes of the job board: applying for a posting and the
    owning business deciding on an application. */
module JobApplications {
  import opened Base
  import opened Strings
  import opened Json
  import opened UserModel
  import opened BusinessModel
  import opened JobModel
  import opened ApplicationModel
  import opened NotificationModel
  import opened Store
  import opened JobPostings

  /** The `cv` file of the multipart request: none, stored at a URL, or an
      upload that failed. */
  datatype Upload = NoFile | Uploaded(url: string) | UploadFailed

  /** The CV an application is filed with: an uploaded file wins over the
      profile's CV; `None` when neither gives a non-empty URL. */
  function ResolveCv(file: Upload, profileCv: Option<string>): (r: Option<string>)
    requires !file.UploadFailed?
    ensures r.Some? ==> |r.value| > 0
    ensures file.Uploaded? ==> (r.Some? <==> |file.url| > 0) && (r.Some? ==> r.value == file.url)
    ensures file.NoFile? ==> (r.Some? <==> profileCv.Some? && |profileCv.value| > 0) && (r.Some? ==> r == profileCv)
  {
    var url := if file.Uploaded? then Some(file.url) else profileCv;
    if url.Some? && |url.value| > 0 then url else None
  }

  /** The `NEW_APPLICATION` notice to the business that owns the posting. */
  function ApplicationDraft(u: User, j: Job, a: Application): Draft {
    Draft(j.businessId, BusinessParty, NewApplication, "New Job Application",
          u.firstName + " " + u.lastName + " has applied for \"" + j.title + "\"",
          map["jobId" := j.id, "jobTitle" := j.title, "applicationId" := a.id,
              "applicantName" := u.firstName + " " + u.lastName, "applicantId" := u.id,
              "applicantEmail" := u.email, "applicantPhone" := u.phoneNumber, "cvUrl" := a.cv])
  }

  /** Everything POST `/:id/apply` checks holds: a non-blank cover letter,
      an approved posting whose business exists, a known user who has not
      applied yet, no failed upload, a CV from the upload or the profile,
      and the phone number the application schema requires. */
  predicate CanApply(db: Db, jobId: Id, uid: Id, coverLetter: Value, file: Upload) {
    && HasText(coverLetter)
    && GetJob(db, jobId).Ok? && FindBusiness(db, GetJob(db, jobId).value.businessId).Some?
    && FindUser(db, uid).Some? && !HasApplied(db.apps, uid, jobId)
    && !file.UploadFailed? && ResolveCv(file, FindUser(db, uid).value.cv).Some?
    && |FindUser(db, uid).value.phoneNumber| > 0
  }

  /** The checks of POST `/:id/apply` in order: a blank cover letter (400,
      before any lookup), an unknown or unapproved posting (404), a posting
      whose business is gone (400), an unknown user (404), a repeated
      application (400), a failed upload (500), no CV at all (400), then
      the schema validation; the result is the application to file, with
      the applicant and the posting. */
  function Admit(db: Db, jobId: Id, uid: Id, coverLetter: Value, file: Upload,
                 appId: Id, now: Time): (r: Result<(Application, User, Job), Fail>)
    ensures TrimThrows(coverLetter) ==> r == Err(ServerError)
    ensures !TrimThrows(coverLetter) && !HasText(coverLetter) ==> r == Err(Fail(400, "Missing cover letter"))
    ensures r.Ok? <==> CanApply(db, jobId, uid, coverLetter, file)
    ensures r.Ok? ==> var (a, u, j) := r.value;
      && u == FindUser(db, uid).value && j == GetJob(db, jobId).value
      && a.id == appId && a.userId == uid && a.jobId == jobId && a.status == Pending
      && a.coverLetter == Some(Trim(coverLetter.s)) && a.appliedAt == now
      && a.phoneNumber == u.phoneNumber
      && Some(a.cv) == ResolveCv(file, u.cv)
  {
    match OptionalTrim(coverLetter)
    case NotAString => Err(ServerError)
    case Absent => Err(Fail(400, "Missing cover letter"))
    case TrimmedStr(letter) =>
      if |letter| == 0 then Err(Fail(400, "Missing cover letter"))
      else
        match GetJob(db, jobId)
        case Err(_) => Err(Fail(404, "Job not found"))
        case Ok(j) =>
          match FindBusiness(db, j.businessId)
          case None => Err(Fail(400, "Invalid job posting"))
          case Some(_) =>
            match FindUser(db, uid)
            case None => Err(Fail(404, "User not found"))
            case Some(u) =>
              if HasApplied(db.apps, uid, jobId) then Err(Fail(400, "Duplicate application"))
              else if file.UploadFailed? then Err(Fail(500, "CV upload failed"))
              else
                match ResolveCv(file, u.cv)
                case None => Err(Fail(400, "CV required"))
                case Some(cv) =>
                  match ApplicationModel.Create(appId, uid, jobId, cv, u.phoneNumber, Some(coverLetter.s), now)
                  case Err(_) => Err(Fail(400, "Validation error"))
                  case Ok(a) => Ok((a, u, j))
  }

  /** `n` is the `NEW_APPLICATION` notice about application `a` to
      posting `j`: it goes to the posting's business and names the
      application. */
  predicate ApplicationNotice(n: Notification, j: Job, a: Application) {
    && n.kind == NewApplication && n.recipientModel == BusinessParty && n.recipient == j.businessId
    && "applicationId" in n.metadata && n.metadata["applicationId"] == a.id
  }

  /** The notices after a filed application: the `NEW_APPLICATION`
      notice to the business is appended when it can be created. */
  function NotifyBusiness(notes: seq<Notification>, u: User, j: Job, a: Application, notifId: Id,
                          notifyOk: bool, now: Time): (r: seq<Notification>)
    ensures !notifyOk ==> r == notes
    ensures |notes| <= |r| <= |notes| + 1 && r[..|notes|] == notes
    ensures notifyOk && |j.businessId| > 0 ==> |r| == |notes| + 1 && ApplicationNotice(r[|notes|], j, a)
  {
    var n := NotificationModel.Create(notifId, ApplicationDraft(u, j, a), now);
    if notifyOk && n.Some? then notes + [n.value] else notes
  }

  /** POST `/:id/apply`: the checks of `Admit`, then the application is
      filed and the business is notified (`notifyOk` false: the notice
      could not be created, which does not change the 201). */
  function Apply(db: Db, jobId: Id, uid: Id, coverLetter: Value, file: Upload,
                 appId: Id, notifId: Id, notifyOk: bool, now: Time): (res: (Result<Application, Fail>, Db))
    ensures res.0.Err? ==> res.1 == db
    ensures TrimThrows(coverLetter) ==> res.0 == Err(ServerError)
    ensures !TrimThrows(coverLetter) && !HasText(coverLetter) ==>
              res.0 == Err(Fail(400, "Missing cover letter"))
    ensures res.0.Ok? <==> CanApply(db, jobId, uid, coverLetter, file)
    ensures res.0.Ok? ==> var a := res.0.value;
      && a.id == appId && a.userId == uid && a.jobId == jobId && a.status == Pending
      && a.coverLetter == Some(Trim(coverLetter.s)) && a.appliedAt == now
      && a.phoneNumber == FindUser(db, uid).value.phoneNumber
      && Some(a.cv) == ResolveCv(file, FindUser(db, uid).value.cv)
      && res.1.apps == db.apps + [a]
      && res.1 == db.(apps := res.1.apps, notifications := res.1.notifications)
      && (!notifyOk ==> res.1.notifications == db.notifications)
      && (notifyOk && |GetJob(db, jobId).value.businessId| > 0 ==>
            && |res.1.notifications| == |db.notifications| + 1
            && res.1.notifications[..|db.notifications|] == db.notifications
            && ApplicationNotice(res.1.notifications[|db.notifications|], GetJob(db, jobId).value, a))
  {
    match Admit(db, jobId, uid, coverLetter, file, appId, now)
    case Err(e) => (Err(e), db)
    case Ok((a, u, j)) =>
      match Insert(db.apps, a)
      case Err(_) => (Err(Fail(400, "Duplicate application")), db)
      case Ok(apps) =>
        (Ok(a), db.(apps := apps, notifications := NotifyBusiness(db.notifications, u, j, a, notifId, notifyOk, now)))
  }

  /** The cover letter is checked before anything is looked up: with a
      blank one, the answer and the store are the same whatever the store
      holds. */
  lemma CoverLetterCheckedFirst(db1: Db, db2: Db, jobId: Id, uid: Id, coverLetter: Value, file: Upload,
                                appId: Id, notifId: Id, notifyOk: bool, now: Time)
    requires !HasText(coverLetter)
    ensures Apply(db1, jobId, uid, coverLetter, file, appId, notifId, notifyOk, now).0
         == Apply(db2, jobId, uid, coverLetter, file, appId, notifId, notifyOk, now).0
  {
  }

  /** A user who has applied for a posting is refused a second time and
      nothing is stored; so applying keeps at most one application per user
      and posting. */
  lemma ApplyKeepsPairsUnique(db: Db, jobId: Id, uid: Id, coverLetter: Value, file: Upload,
                              appId: Id, notifId: Id, notifyOk: bool, now: Time)
    requires UniquePairs(db.apps)
    ensures var (r, db2) := Apply(db, jobId, uid, coverLetter, file, appId, notifId, notifyOk, now);
      && UniquePairs(db2.apps)
      && (HasApplied(db.apps, uid, jobId) ==> r.Err? && db2 == db)
  {
  }

  /** `status.charAt(0).toUpperCase() + status.slice(1)` for a status name
      (lower-case ASCII letters). */
  function Capitalize(s: string): (r: string)
    ensures |r| == |s|
    ensures |s| > 0 ==> r[1..] == s[1..]
  {
    if |s| == 0 then s
    else [if 'a' <= s[0] <= 'z' then (s[0] as int - 32) as char else s[0]] + s[1..]
  }

  /** The title of the status notice, one per status. */
  lemma StatusTitles()
    ensures "Application " + Capitalize(Pending.Name()) == "Application Pending"
    ensures "Application " + Capitalize(Accepted.Name()) == "Application Accepted"
    ensures "Application " + Capitalize(Rejected.Name()) == "Application Rejected"
  {
    CapitalizeLower("pending", "Pending");
    CapitalizeLower("accepted", "Accepted");
    CapitalizeLower("rejected", "Rejected");
  }

  /** A name starting with a lower-case letter gets that letter's capital. */
  lemma CapitalizeLower(s: string, t: string)
    requires |s| == |t| > 0 && 'a' <= s[0] <= 'z' && t[0] as int == s[0] as int - 32
    requires s[1..] == t[1..]
    ensures Capitalize(s) == t
  {
    assert t == [t[0]] + t[1..];
  }

  function StatusDraft(a: Application, st: Status, j: Job, b: Business): Draft {
    Draft(a.userId, UserParty, ApplicationStatusUpdated, "Application " + Capitalize(st.Name()),
          "Your application for \"" + j.title + "\" at " + b.businessName + " has been " + st.Name(),
          map["jobId" := j.id, "jobTitle" := j.title, "applicationId" := a.id, "status" := st.Name(),
              "businessName" := b.businessName, "businessId" := b.id])
  }

  function InJob(appId: Id, jobId: Id): Application -> bool {
    (a: Application) => a.id == appId && a.jobId == jobId
  }

  /** The key an application is saved under. */
  function AppId(a: Application): Id { a.id }

  /** The handler once the status is parsed and the application `prev` is
      found: the posting's business must be the requester (403); the new
      status is saved; a notice goes to the applicant only when the status
      changed.  If the applicant's account is gone the save still happens
      but the answer is a 500. */
  function SaveStatus(db: Db, uid: Id, prev: Application, st: Status,
                      notifId: Id, notifyOk: bool, now: Time): (res: (Result<Application, Fail>, Db))
    ensures res.0.Ok? ==> var a := res.0.value;
      && a == prev.(status := st, updatedAt := now)
      && res.1.apps == ReplaceById(db.apps, a, AppId)
      && res.1 == db.(apps := res.1.apps, notifications := res.1.notifications)
      && (prev.status == st || !notifyOk ==> res.1.notifications == db.notifications)
      && (prev.status != st && notifyOk && |prev.userId| > 0 ==>
            && |res.1.notifications| == |db.notifications| + 1
            && res.1.notifications[|db.notifications|].recipient == a.userId
            && res.1.notifications[|db.notifications|].kind == ApplicationStatusUpdated
            && res.1.notifications[|db.notifications|].title == "Application " + Capitalize(st.Name()))
    ensures res.0.Err? && res.1 != db ==> res.0 == Err(ServerError) && FindUser(db, prev.userId).None?
  {
    match FindJob(db, prev.jobId)
    case None => (Err(ServerError), db)
    case Some(j) =>
      match FindBusiness(db, j.businessId)
      case None => (Err(ServerError), db)
      case Some(biz) =>
        if biz.id != uid then (Err(Fail(403, "Unauthorized to update this application")), db)
        else
          var a := prev.(status := st, updatedAt := now);
          var db1 := db.(apps := ReplaceById(db.apps, a, AppId));
          var applicant := FindUser(db, prev.userId);
          if prev.status == st then
            (if applicant.None? then Err(ServerError) else Ok(a), db1)
          else if applicant.None? then (Err(ServerError), db1)
          else
            var n := NotificationModel.Create(notifId, StatusDraft(prev, st, j, biz), now);
            (Ok(a), db1.(notifications := if notifyOk && n.Some? then db.notifications + [n.value] else db.notifications))
  }

  /** PATCH `/:jobId/applications/:applicationId` behind the business and
      owner gates: the status must be one of the three names (400) and the
      application must belong to that posting (404). */
  function UpdateStatus(db: Db, uid: Id, jobId: Id, appId: Id, status: Value,
                        notifId: Id, notifyOk: bool, now: Time): (res: (Result<Application, Fail>, Db))
    ensures EnsureBusiness(db, uid).Err? ==> res == (Err(EnsureBusiness(db, uid).error), db)
    ensures (EnsureBusiness(db, uid).Ok? && EnsureJobOwner(db, jobId, uid).Err?) ==>
              res == (Err(Fail(404, "Job not found or unauthorized")), db)
    ensures (EnsureBusiness(db, uid).Ok? && EnsureJobOwner(db, jobId, uid).Ok?
             && !(status.Str? && ParseStatus(status.s).Some?)) ==>
              res == (Err(Fail(400, "Invalid status")), db)
    ensures res.0.Ok? ==>
      && status.Str? && ParseStatus(status.s) == Some(res.0.value.status)
      && FindFirst(db.apps, InJob(appId, jobId)).Some?
      && res == SaveStatus(db, uid, FindFirst(db.apps, InJob(appId, jobId)).value, res.0.value.status, notifId, notifyOk, now)
  {
    match EnsureBusiness(db, uid)
    case Err(e) => (Err(e), db)
    case Ok(_) =>
      match EnsureJobOwner(db, jobId, uid)
      case Err(e) => (Err(e), db)
      case Ok(_) =>
        if !(status.Str? && ParseStatus(status.s).Some?) then (Err(Fail(400, "Invalid status")), db)
        else
          var st := ParseStatus(status.s).value;
          match FindFirst(db.apps, InJob(appId, jobId))
          case None => (Err(Fail(404, "Application not found")), db)
          case Some(prev) => SaveStatus(db, uid, prev, st, notifId, notifyOk, now)
  }

  /** With unique job ids the business check after the owner gate never
      fails: a requester who passed the gates is never told 403. */
  lemma StatusOwnerCheckUnreachable(db: Db, uid: Id, jobId: Id, appId: Id, status: Value,
                                    notifId: Id, notifyOk: bool, now: Time)
    requires UniqueJobIds(db.jobs)
    ensures UpdateStatus(db, uid, jobId, appId, status, notifId, notifyOk, now).0
            != Err(Fail(403, "Unauthorized to update this application"))
  {
    if EnsureBusiness(db, uid).Ok? && EnsureJobOwner(db, jobId, uid).Ok? && status.Str? && ParseStatus(status.s).Some? {
      var own := EnsureJobOwner(db, jobId, uid).value;
      var found := FindFirst(db.apps, InJob(appId, jobId));
      if found.Some? && FindJob(db, jobId).Some? {
        var j := FindJob(db, jobId).value;
        assert found.value.jobId == jobId;
        var i :| 0 <= i < |db.jobs| && db.jobs[i] == own;
        var k :| 0 <= k < |db.jobs| && db.jobs[k] == j;
        assert i == k;
      }
    }
  }
}
