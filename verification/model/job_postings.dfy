/** The job-posting routes: the `ensureBusiness` and `ensureJobOwner`
    gates, the required-field check shared by create and update, the
    public and own-jobs listings, a single posting, delete and the admin
    approval. */
module JobPostings {
  import opened Base
  import opened Strings
  import opened Json
  import opened Sorting
  import opened Paging
  import opened UserModel
  import opened BusinessModel
  import opened JobModel
  import opened ApplicationModel
  import opened NotificationModel
  import opened Store

  /** `ensureBusiness`: the requester must be a business account (looked up
      in the business collection only) and an approved one. */
  function EnsureBusiness(db: Db, uid: Id): (r: Result<Business, Fail>)
    ensures r.Ok? <==> FindBusiness(db, uid).Some? && FindBusiness(db, uid).value.approved
    ensures r.Ok? ==> r.value.id == uid && r.value in db.businesses && r.value.approved
    ensures FindBusiness(db, uid).None? ==> r == Err(Fail(403, "Only businesses can perform this action"))
    ensures r.Err? ==> r.error.status == 403
  {
    match FindBusiness(db, uid)
    case None => Err(Fail(403, "Only businesses can perform this action"))
    case Some(b) => if !b.approved then Err(Fail(403, "Account not approved")) else Ok(b)
  }

  function OwnedBy(jobId: Id, uid: Id): Job -> bool {
    (j: Job) => j.id == jobId && j.businessId == uid
  }

  /** `Job.findOne({ _id, businessId: req.userId })`, the lookup of
      `ensureJobOwner` and of the update and delete handlers. */
  function FindOwnedJob(db: Db, jobId: Id, uid: Id): (r: Option<Job>)
    ensures r.Some? <==> exists i :: 0 <= i < |db.jobs| && db.jobs[i].id == jobId && db.jobs[i].businessId == uid
    ensures r.Some? ==> r.value in db.jobs && r.value.id == jobId && r.value.businessId == uid
  {
    FindFirst(db.jobs, OwnedBy(jobId, uid))
  }

  /** `ensureJobOwner`: a job that exists but belongs to another business
      is reported exactly like a missing one. */
  function EnsureJobOwner(db: Db, jobId: Id, uid: Id): (r: Result<Job, Fail>)
    ensures r.Ok? <==> exists i :: 0 <= i < |db.jobs| && db.jobs[i].id == jobId && db.jobs[i].businessId == uid
    ensures r.Ok? ==> r.value in db.jobs && r.value.id == jobId && r.value.businessId == uid
    ensures r.Err? ==> r.error == Fail(404, "Job not found or unauthorized")
  {
    match FindOwnedJob(db, jobId, uid)
    case None => Err(Fail(404, "Job not found or unauthorized"))
    case Some(j) => Ok(j)
  }

  /** Ownership is not transferable: no business passes the owner gate for
      a job another business owns. */
  lemma OwnerGateIsExclusive(db: Db, jobId: Id, uid: Id, other: Id)
    requires UniqueJobIds(db.jobs)
    requires EnsureJobOwner(db, jobId, uid).Ok? && other != uid
    ensures EnsureJobOwner(db, jobId, other).Err?
  {
  }

  /** The body fields a posting is written from. */
  datatype JobBody = JobBody(
    title: Value,
    description: Value,
    requirements: Value,
    salary: Value,
    category: Value,
    approved: Value)

  /** The value of `v?.trim()` read as a truth value, or `None` when the call
      throws (a non-string that is not nullish). */
  function TextPresent(v: Value): (r: Option<bool>)
    ensures r.None? <==> TrimThrows(v)
    ensures r == Some(true) <==> HasText(v)
  {
    match v
    case Undefined => Some(false)
    case Null => Some(false)
    case Str(s) => Some(!AllSpace(s))
    case _ => None
  }

  /** `requirements.filter(r => r?.trim()).length > 0` on the entries of an
      array: `None` when some entry makes `?.trim()` throw. */
  function EntriesPresent(items: seq<Value>): (r: Option<bool>)
    ensures r.None? <==> exists i :: 0 <= i < |items| && TrimThrows(items[i])
    ensures r == Some(true) <==> r.Some? && exists i :: 0 <= i < |items| && HasText(items[i])
  {
    if |items| == 0 then Some(false)
    else
      var rest := EntriesPresent(items[1..]);
      assert forall i :: 0 < i < |items| ==> items[i] == items[1..][i - 1];
      if TrimThrows(items[0]) then None
      else if rest.None? then None
      else Some(HasText(items[0]) || rest.value)
  }

  /** Requirements count as given only for an array holding a non-blank
      string entry; anything that is not an array counts as missing. */
  function RequirementsPresent(v: Value): (r: Option<bool>)
    ensures r == Some(true) ==> v.Arr?
    ensures !v.Arr? ==> r == Some(false)
  {
    if v.Arr? then EntriesPresent(v.items) else Some(false)
  }

  /** The fields the handlers check, by name. */
  datatype JobField = TitleField | DescriptionField | RequirementsField | SalaryField | CategoryField {
    function Name(): string {
      match this
      case TitleField => "title"
      case DescriptionField => "description"
      case RequirementsField => "requirements"
      case SalaryField => "salary"
      case CategoryField => "category"
    }
  }

  /** The order of the `requiredFields` object: create checks the category
      too, update does not. */
  function FieldOrder(withCategory: bool): seq<JobField> {
    [TitleField, DescriptionField, RequirementsField, SalaryField] + (if withCategory then [CategoryField] else [])
  }

  /** The value the `requiredFields` object holds for one field. */
  function Present(b: JobBody, f: JobField): Option<bool> {
    match f
    case TitleField => TextPresent(b.title)
    case DescriptionField => TextPresent(b.description)
    case RequirementsField => RequirementsPresent(b.requirements)
    case SalaryField => TextPresent(b.salary)
    case CategoryField => TextPresent(b.category)
  }

  /** The fields of `fs` whose value is falsy, in order. */
  function MissingAmong(b: JobBody, fs: seq<JobField>): (r: seq<JobField>)
    requires forall f :: f in fs ==> Present(b, f).Some?
    ensures IsSubseq(r, fs)
    ensures forall f :: f in r <==> f in fs && Present(b, f) == Some(false)
  {
    if |fs| == 0 then []
    else
      var rest := MissingAmong(b, fs[1..]);
      assert forall f :: f in fs <==> f == fs[0] || f in fs[1..];
      if Present(b, fs[0]) == Some(false) then
        SubseqCons(fs[0], rest, fs[1..]);
        assert [fs[0]] + fs[1..] == fs;
        [fs[0]] + rest
      else
        SubseqSkip(fs[0], rest, fs[1..]);
        assert [fs[0]] + fs[1..] == fs;
        rest
  }

  /** Building the `requiredFields` object: a `?.trim()` on a non-string
      throws (a 500); otherwise the fields whose value is falsy, in the
      order title, description, requirements, salary and (on create)
      category. */
  function MissingFields(b: JobBody, withCategory: bool): (r: Result<seq<JobField>, Fail>)
    ensures r.Err? <==> exists f :: f in FieldOrder(withCategory) && Present(b, f).None?
    ensures r.Err? ==> r.error == ServerError
    ensures r.Ok? ==> IsSubseq(r.value, FieldOrder(withCategory))
    ensures r.Ok? ==> forall f :: f in r.value <==> f in FieldOrder(withCategory) && Present(b, f) == Some(false)
  {
    if exists f :: f in FieldOrder(withCategory) && Present(b, f).None? then Err(ServerError)
    else Ok(MissingAmong(b, FieldOrder(withCategory)))
  }

  /** What "missing" means field by field: a text field is missing unless
      it holds a non-blank string, and the requirements unless they are an
      array with a non-blank string entry. */
  lemma MissingMeans(b: JobBody, withCategory: bool)
    requires MissingFields(b, withCategory).Ok?
    ensures var m := MissingFields(b, withCategory).value;
      && (TitleField in m <==> !HasText(b.title))
      && (DescriptionField in m <==> !HasText(b.description))
      && (RequirementsField in m <==> !(b.requirements.Arr? && exists i :: 0 <= i < |b.requirements.items| && HasText(b.requirements.items[i])))
      && (SalaryField in m <==> !HasText(b.salary))
      && (CategoryField in m <==> withCategory && !HasText(b.category))
  {
    var fo := FieldOrder(withCategory);
    assert fo[0] == TitleField && fo[1] == DescriptionField && fo[2] == RequirementsField && fo[3] == SalaryField;
    MissingText(b, withCategory, TitleField, b.title);
    MissingText(b, withCategory, DescriptionField, b.description);
    MissingText(b, withCategory, SalaryField, b.salary);
    if withCategory {
      assert fo[4] == CategoryField;
      MissingText(b, withCategory, CategoryField, b.category);
    } else {
      assert CategoryField !in fo;
    }
    assert Present(b, RequirementsField).Some?;
  }

  lemma MissingText(b: JobBody, withCategory: bool, f: JobField, v: Value)
    requires MissingFields(b, withCategory).Ok?
    requires f in FieldOrder(withCategory) && f != RequirementsField
    requires v == match f
                  case TitleField => b.title
                  case DescriptionField => b.description
                  case SalaryField => b.salary
                  case _ => b.category
    ensures f in MissingFields(b, withCategory).value <==> !HasText(v)
  {
    assert Present(b, f) == TextPresent(v);
  }

  /** A non-array `requirements` is always reported as a missing field, so
      the separate "Invalid requirements format" answer can never be
      given. */
  lemma FormatCheckUnreachable(b: JobBody, withCategory: bool)
    requires !b.requirements.Arr?
    ensures MissingFields(b, withCategory).Ok? ==> RequirementsField in MissingFields(b, withCategory).value
  {
    assert RequirementsField in FieldOrder(withCategory);
  }

  /** `requirements.map(r => r.trim())`: `None` when some entry is not a
      string (a `null` entry passes the presence check but throws here). */
  function TrimEntries(items: seq<Value>): (r: Option<seq<string>>)
    ensures r.Some? <==> forall i :: 0 <= i < |items| ==> items[i].Str?
    ensures r.Some? ==> |r.value| == |items| && forall i :: 0 <= i < |items| ==> r.value[i] == Trim(items[i].s)
  {
    if |items| == 0 then Some([])
    else
      var rest := TrimEntries(items[1..]);
      assert forall i :: 0 < i < |items| ==> items[i] == items[1..][i - 1];
      if !items[0].Str? || rest.None? then None else Some([Trim(items[0].s)] + rest.value)
  }

  function NonBlank(): string -> bool {
    (s: string) => |s| > 0
  }

  /** The stored requirements: the trimmed entries with the blank ones
      dropped; `None` when some entry is not a string. */
  function CleanRequirements(items: seq<Value>): (r: Option<seq<string>>)
    ensures r.Some? <==> forall i :: 0 <= i < |items| ==> items[i].Str?
  {
    match TrimEntries(items)
    case None => None
    case Some(ts) => Some(Filter(ts, NonBlank()))
  }

  /** Every stored requirement is trimmed and non-empty, every non-blank
      entry is kept, and there is at least one when the presence check
      passed. */
  lemma CleanRequirementsShape(items: seq<Value>)
    requires CleanRequirements(items).Some?
    ensures var r := CleanRequirements(items).value;
      && (forall i :: 0 <= i < |r| ==> |r[i]| > 0 && IsTrimmed(r[i]))
      && (forall i :: 0 <= i < |items| && HasText(items[i]) ==> Trim(items[i].s) in r)
      && (EntriesPresent(items) == Some(true) ==> |r| > 0)
  {
    var ts := TrimEntries(items).value;
    var kept := Filter(ts, NonBlank());
    KeptTrimmed(items, ts, kept);
    KeptText(items, ts, kept);
    if EntriesPresent(items) == Some(true) {
      var k :| 0 <= k < |items| && HasText(items[k]);
      assert Trim(items[k].s) in kept;
    }
  }

  lemma KeptTrimmed(items: seq<Value>, ts: seq<string>, kept: seq<string>)
    requires TrimEntries(items) == Some(ts) && kept == Filter(ts, NonBlank())
    ensures forall i :: 0 <= i < |kept| ==> |kept[i]| > 0 && IsTrimmed(kept[i])
  {
    forall i | 0 <= i < |kept| ensures IsTrimmed(kept[i]) {
      var k :| 0 <= k < |ts| && ts[k] == kept[i];
      TrimIdempotent(items[k].s);
    }
  }

  lemma KeptText(items: seq<Value>, ts: seq<string>, kept: seq<string>)
    requires TrimEntries(items) == Some(ts) && kept == Filter(ts, NonBlank())
    ensures forall k :: 0 <= k < |items| && HasText(items[k]) ==> Trim(items[k].s) in kept
  {
    forall k | 0 <= k < |items| && HasText(items[k]) ensures Trim(items[k].s) in kept {
      assert NonBlank()(ts[k]);
    }
  }

  /** The `NEW_JOB_IN_INTEREST` notice to one interested user; `title` is
      the submitted title as given, untrimmed. */
  function InterestDraft(u: User, job: Job, title: string, c: Category): Draft {
    Draft(u.id, UserParty, NewJobInInterest, "New Job in Your Interest Area",
          "A new job \"" + title + "\" has been posted in " + c.name,
          map["jobId" := job.id, "jobTitle" := title, "categoryId" := c.id, "categoryName" := c.name])
  }

  /** The users `User.find({ interests: category })` returns (an id-less
      record could not be notified and is left aside). */
  function Interested(category: Id): User -> bool {
    (u: User) => category in u.interests && |u.id| > 0
  }

  /** The notices a new job sends: one to each interested user. */
  function JobNotices(users: seq<User>, job: Job, title: string, c: Category,
                      notifId: Id -> Id, now: Time): seq<Notification>
  {
    InterestNotices(Filter(users, Interested(job.category)), job, title, c, notifId, now)
  }

  /** One notice per interested user, in store order. */
  function InterestNotices(users: seq<User>, job: Job, title: string, c: Category,
                           notifId: Id -> Id, now: Time): (r: seq<Notification>)
    requires forall i :: 0 <= i < |users| ==> |users[i].id| > 0
    ensures |r| == |users|
    ensures forall i :: 0 <= i < |r| ==>
              && r[i].recipient == users[i].id && r[i].recipientModel == UserParty
              && r[i].kind == NewJobInInterest && !r[i].read
              && "jobId" in r[i].metadata && r[i].metadata["jobId"] == job.id
  {
    if |users| == 0 then []
    else
      var n := NotificationModel.Create(notifId(users[0].id), InterestDraft(users[0], job, title, c), now);
      [n.value] + InterestNotices(users[1..], job, title, c, notifId, now)
  }

  /** The posting POST `/` accepts, with its category: the checks of the
      business gate and of the body, in the order they run. */
  function DraftJob(db: Db, uid: Id, b: JobBody, jobId: Id, now: Time): (r: Result<(Job, Category), Fail>)
    ensures EnsureBusiness(db, uid).Err? ==> r == Err(EnsureBusiness(db, uid).error)
    ensures r.Ok? ==> var j := r.value.0;
      && EnsureBusiness(db, uid).Ok?
      && j.id == jobId && j.businessId == uid && !j.approved && j.createdAt == now
      && JobModel.Valid(j) && HasText(b.title) && j.title == Trim(b.title.s)
      && HasText(b.description) && j.description == Trim(b.description.s)
      && HasText(b.salary) && j.salary == Trim(b.salary.s)
      && HasText(b.category) && j.category == b.category.s && FindCategory(db, j.category) == Some(r.value.1)
      && b.requirements.Arr? && CleanRequirements(b.requirements.items) == Some(j.requirements)
      && (forall i :: 0 <= i < |j.requirements| ==> |j.requirements[i]| > 0 && IsTrimmed(j.requirements[i]))
  {
    match EnsureBusiness(db, uid)
    case Err(e) => Err(e)
    case Ok(_) =>
      match MissingFields(b, true)
      case Err(e) => Err(e)
      case Ok(missing) =>
        if |missing| > 0 then Err(Fail(400, "Missing required fields"))
        else if !b.requirements.Arr? then Err(Fail(400, "Invalid requirements format"))
        else if b.approved == Bool(true) then Err(Fail(403, "Not allowed"))
        else
          MissingMeans(b, true);
          match FindCategory(db, b.category.s)
          case None => Err(Fail(400, "Invalid category"))
          case Some(c) =>
            match CleanRequirements(b.requirements.items)
            case None => Err(ServerError)
            case Some(reqs) =>
              CleanRequirementsShape(b.requirements.items);
              match JobModel.Create(jobId, uid, Trim(b.title.s), Trim(b.description.s), reqs,
                                    Trim(b.salary.s), b.category.s, Some(false), now)
              case Err(_) => Err(Fail(400, "Validation error"))
              case Ok(j) =>
                TrimIdempotent(b.title.s);
                Ok((j, c))
  }

  /** POST `/` after the business gate, as its checks run: missing fields
      (400), the unreachable format check, a client-set `approved: true`
      (403), an unknown category (400), then the posting is saved
      unapproved and every user interested in its category is notified
      (`notifyOk` false: the background batch insert failed). */
  function CreateJob(db: Db, uid: Id, b: JobBody, jobId: Id, notifId: Id -> Id,
                     notifyOk: bool, now: Time): (res: (Result<Job, Fail>, Db))
    ensures res.0.Err? ==> res.1 == db
    ensures EnsureBusiness(db, uid).Err? ==> res == (Err(EnsureBusiness(db, uid).error), db)
    ensures res.0.Ok? ==> var j := res.0.value;
      && EnsureBusiness(db, uid).Ok?
      && j.id == jobId && j.businessId == uid && !j.approved && j.createdAt == now
      && JobModel.Valid(j) && HasText(b.title) && j.title == Trim(b.title.s)
      && HasText(b.description) && j.description == Trim(b.description.s)
      && HasText(b.salary) && j.salary == Trim(b.salary.s)
      && HasText(b.category) && j.category == b.category.s && FindCategory(db, j.category).Some?
      && b.requirements.Arr? && CleanRequirements(b.requirements.items) == Some(j.requirements)
      && (forall i :: 0 <= i < |j.requirements| ==> |j.requirements[i]| > 0 && IsTrimmed(j.requirements[i]))
      && res.1.jobs == db.jobs + [j]
      && res.1 == db.(jobs := res.1.jobs, notifications := res.1.notifications)
      && (!notifyOk ==> res.1.notifications == db.notifications)
      && (notifyOk ==>
            res.1.notifications == db.notifications + JobNotices(db.users, j, b.title.s,
                              FindCategory(db, j.category).value, notifId, now))
  {
    match DraftJob(db, uid, b, jobId, now)
    case Err(e) => (Err(e), db)
    case Ok((j, c)) => (Ok(j), Publish(db, j, b.title.s, c, notifId, notifyOk, now))
  }

  /** Storing a created posting: the job is appended and, when creating
      notifications succeeds, one notice per interested user follows. */
  function Publish(db: Db, j: Job, title: string, c: Category, notifId: Id -> Id, notifyOk: bool, now: Time): (db2: Db)
    ensures db2.jobs == db.jobs + [j]
    ensures db2 == db.(jobs := db2.jobs, notifications := db2.notifications)
    ensures !notifyOk ==> db2.notifications == db.notifications
    ensures notifyOk ==>
              db2.notifications == db.notifications + JobNotices(db.users, j, title, c, notifId, now)
  {
    var notes := JobNotices(db.users, j, title, c, notifId, now);
    db.(jobs := db.jobs + [j], notifications := if notifyOk then db.notifications + notes else db.notifications)
  }

  /** Every field present and well-formed, with a known category: the
      create answer then depends only on `approved`, and `approved: true`
      is refused without storing anything. */
  lemma CreateRejectsSelfApproval(db: Db, uid: Id, b: JobBody, jobId: Id, notifId: Id -> Id,
                                  notifyOk: bool, now: Time)
    requires EnsureBusiness(db, uid).Ok?
    requires MissingFields(b, true) == Ok([])
    requires b.approved == Bool(true)
    ensures CreateJob(db, uid, b, jobId, notifId, notifyOk, now) == (Err(Fail(403, "Not allowed")), db)
  {
    MissingMeans(b, true);
  }

  /** The notices of a create go exactly to the users whose interests hold
      the category: each is addressed to such a user, and every such user
      gets one. */
  lemma NoticesReachInterested(users: seq<User>, job: Job, title: string, c: Category,
                               notifId: Id -> Id, now: Time, notes: seq<Notification>)
    requires notes == JobNotices(users, job, title, c, notifId, now)
    ensures forall i :: 0 <= i < |notes| ==>
              notes[i].kind == NewJobInInterest
              && exists u :: u in users && u.id == notes[i].recipient && job.category in u.interests
    ensures forall u :: u in users && job.category in u.interests && |u.id| > 0 ==>
              exists i :: 0 <= i < |notes| && notes[i].recipient == u.id
  {
    var fans := Filter(users, Interested(job.category));
    assert notes == InterestNotices(fans, job, title, c, notifId, now);
    forall i | 0 <= i < |notes|
      ensures exists u :: u in users && u.id == notes[i].recipient && job.category in u.interests
    {
      assert fans[i] in users && Interested(job.category)(fans[i]);
    }
    FansGetNotices(users, fans, notes, job.category);
  }

  /** Every user the filter keeps is the recipient of some notice. */
  lemma FansGetNotices(users: seq<User>, fans: seq<User>, notes: seq<Notification>, category: Id)
    requires fans == Filter(users, Interested(category))
    requires |notes| == |fans| && forall i :: 0 <= i < |notes| ==> notes[i].recipient == fans[i].id
    ensures forall u :: u in users && category in u.interests && |u.id| > 0 ==>
              exists i :: 0 <= i < |notes| && notes[i].recipient == u.id
  {
    forall u | u in users && category in u.interests && |u.id| > 0
      ensures exists i :: 0 <= i < |notes| && notes[i].recipient == u.id
    {
      FanGetsNotice(users, fans, notes, category, u);
    }
  }

  /** A user kept by the filter is the recipient of the notice at its place. */
  lemma FanGetsNotice(users: seq<User>, fans: seq<User>, notes: seq<Notification>, category: Id, u: User)
    requires fans == Filter(users, Interested(category))
    requires |notes| == |fans| && forall i :: 0 <= i < |notes| ==> notes[i].recipient == fans[i].id
    requires u in users && category in u.interests && |u.id| > 0
    ensures exists i :: 0 <= i < |notes| && notes[i].recipient == u.id
  {
    var k :| 0 <= k < |users| && users[k] == u;
    assert Interested(category)(users[k]);
    assert u in fans;
    var i :| 0 <= i < |fans| && fans[i] == u;
    assert notes[i].recipient == u.id;
  }

  /** No two stored postings share an id. */
  predicate UniqueJobIds(jobs: seq<Job>) {
    forall i, k :: 0 <= i < k < |jobs| ==> jobs[i].id != jobs[k].id
  }

  /** The key a posting is saved under. */
  function JobId(j: Job): Id { j.id }

  /** PUT `/:id`: the same field checks without a category, then the owner
      lookup (404), then title, description, requirements and salary are
      replaced by their trimmed values; nothing else of the posting changes,
      in particular not its approval. */
  function UpdateJob(db: Db, uid: Id, jobId: Id, b: JobBody): (res: (Result<Job, Fail>, Db))
    ensures res.0.Err? ==> res.1 == db
    ensures res.0.Ok? ==> var j := res.0.value;
      && EnsureBusiness(db, uid).Ok?
      && FindOwnedJob(db, jobId, uid).Some?
      && b.requirements.Arr? && CleanRequirements(b.requirements.items) == Some(j.requirements)
      && j == FindOwnedJob(db, jobId, uid).value.(title := j.title, description := j.description,
                                                 requirements := j.requirements, salary := j.salary)
      && HasText(b.title) && HasText(b.description) && HasText(b.salary)
      && j.title == Trim(b.title.s) && j.description == Trim(b.description.s) && j.salary == Trim(b.salary.s)
      && JobModel.Valid(j)
      && res.1 == db.(jobs := ReplaceById(db.jobs, j, JobId))
  {
    match EnsureBusiness(db, uid)
    case Err(e) => (Err(e), db)
    case Ok(_) =>
      match MissingFields(b, false)
      case Err(e) => (Err(e), db)
      case Ok(missing) =>
        if |missing| > 0 then (Err(Fail(400, "Missing required fields")), db)
        else if !b.requirements.Arr? then (Err(Fail(400, "Invalid requirements format")), db)
        else
          MissingMeans(b, false);
          match FindOwnedJob(db, jobId, uid)
          case None => (Err(Fail(404, "Job not found")), db)
          case Some(prev) =>
            match CleanRequirements(b.requirements.items)
            case None => (Err(ServerError), db)
            case Some(reqs) =>
              var j := prev.(title := Trim(b.title.s), description := Trim(b.description.s),
                            requirements := reqs, salary := Trim(b.salary.s));
              TrimIdempotent(b.title.s);
              if !JobModel.Valid(j) then (Err(Fail(400, "Validation error")), db)
              else (Ok(j), db.(jobs := ReplaceById(db.jobs, j, JobId)))
  }

  /** An update never approves a posting: the approval flag of every
      stored job is the same afterwards. */
  lemma UpdateKeepsApproval(db: Db, uid: Id, jobId: Id, b: JobBody)
    requires UniqueJobIds(db.jobs)
    ensures var db2 := UpdateJob(db, uid, jobId, b).1;
      |db2.jobs| == |db.jobs| && forall i :: 0 <= i < |db.jobs| ==> db2.jobs[i].approved == db.jobs[i].approved
  {
    var (r, db2) := UpdateJob(db, uid, jobId, b);
    if r.Ok? {
      var prev := FindOwnedJob(db, jobId, uid).value;
      var k :| 0 <= k < |db.jobs| && db.jobs[k] == prev;
      forall i | 0 <= i < |db.jobs| ensures db2.jobs[i].approved == db.jobs[i].approved {
        if db.jobs[i].id == jobId {
          assert i == k;
        }
      }
    }
  }

  function ForJob(jobId: Id): Application -> bool {
    (a: Application) => a.jobId == jobId
  }

  function NotForJob(jobId: Id): Application -> bool {
    (a: Application) => a.jobId != jobId
  }

  function OtherJob(jobId: Id): Job -> bool {
    (j: Job) => j.id != jobId
  }

  /** The `JOB_DELETED` notice to one applicant. */
  function DeletedDraft(a: Application, j: Job, b: Business): Draft {
    Draft(a.userId, UserParty, JobDeleted, "Job Posting Deleted",
          "The job \"" + j.title + "\" at " + b.businessName + " you applied for has been deleted",
          map["jobId" := j.id, "jobTitle" := j.title, "businessName" := b.businessName,
              "businessId" := b.id, "applicationId" := a.id])
  }

  /** A `JOB_DELETED` notice to an existing applicant of posting `jobId`. */
  function StartedFor(db: Db, jobId: Id): Notification -> bool {
    (n: Notification) => n.kind == JobDeleted && FindUser(db, n.recipient).Some? &&
      exists a :: a in db.apps && a.jobId == jobId && a.userId == n.recipient
  }

  /** `n` is the `JOB_DELETED` notice about application `a`: it goes to
      the applicant and names the application. */
  predicate NoticeFor(n: Notification, a: Application) {
    && n.kind == JobDeleted && n.recipientModel == UserParty && n.recipient == a.userId
    && "applicationId" in n.metadata && n.metadata["applicationId"] == a.id
  }

  /** `n` is the `JOB_DELETED` notice about one of `apps`. */
  predicate AboutOneOf(n: Notification, apps: seq<Application>) {
    exists k :: 0 <= k < |apps| && NoticeFor(n, apps[k])
  }

  /** Every application names an applicant. */
  predicate ApplicantIds(apps: seq<Application>) {
    forall k :: 0 <= k < |apps| ==> |apps[k].userId| > 0
  }

  /** The notices for a run of applications, in order; a draft the
      notification schema refuses (an empty applicant id) is skipped. */
  function DeletedNotices(apps: seq<Application>, j: Job, b: Business, notifId: Id -> Id, now: Time): (r: seq<Notification>)
    ensures |r| <= |apps|
    ensures forall i :: 0 <= i < |r| ==> AboutOneOf(r[i], apps)
    ensures ApplicantIds(apps) ==> |r| == |apps| && forall i :: 0 <= i < |r| ==> NoticeFor(r[i], apps[i])
  {
    if |apps| == 0 then []
    else
      var head := DeletedNotice(apps[0], j, b, notifId(apps[0].id), now);
      var rest := DeletedNotices(apps[1..], j, b, notifId, now);
      DeletedNoticesStep(apps, head, rest);
      head + rest
  }

  /** The notice for one application, when the schema accepts it: it is
      created whenever the applicant id is present, and is the notice
      about that application. */
  function DeletedNotice(a: Application, j: Job, b: Business, id: Id, now: Time): (h: seq<Notification>)
    ensures |h| <= 1 && (|a.userId| > 0 ==> |h| == 1)
    ensures forall i :: 0 <= i < |h| ==> NoticeFor(h[i], a)
  {
    var n := NotificationModel.Create(id, DeletedDraft(a, j, b), now);
    if n.Some? then [n.value] else []
  }

  /** The notices for a run of applications are those for its first
      application followed by those for the others. */
  lemma DeletedNoticesStep(apps: seq<Application>, head: seq<Notification>, rest: seq<Notification>)
    requires |apps| > 0 && |head| <= 1
    requires forall i :: 0 <= i < |head| ==> NoticeFor(head[i], apps[0])
    requires |apps[0].userId| > 0 ==> |head| == 1
    requires forall i :: 0 <= i < |rest| ==> AboutOneOf(rest[i], apps[1..])
    requires ApplicantIds(apps[1..]) ==> |rest| == |apps[1..]| && forall i :: 0 <= i < |rest| ==> NoticeFor(rest[i], apps[1..][i])
    ensures forall i :: 0 <= i < |head + rest| ==> AboutOneOf((head + rest)[i], apps)
    ensures ApplicantIds(apps) ==> |head + rest| == |apps| && forall i :: 0 <= i < |head + rest| ==> NoticeFor((head + rest)[i], apps[i])
  {
    NoticesStepSome(apps, head, rest);
    if ApplicantIds(apps) {
      assert ApplicantIds(apps[1..]) by {
        forall k | 0 <= k < |apps[1..]| ensures |apps[1..][k].userId| > 0 {
          assert apps[1..][k] == apps[k + 1];
        }
      }
      NoticesStepExact(apps, head, rest);
    }
  }

  lemma NoticesStepSome(apps: seq<Application>, head: seq<Notification>, rest: seq<Notification>)
    requires |apps| > 0
    requires forall i :: 0 <= i < |head| ==> NoticeFor(head[i], apps[0])
    requires forall i :: 0 <= i < |rest| ==> AboutOneOf(rest[i], apps[1..])
    ensures forall i :: 0 <= i < |head + rest| ==> AboutOneOf((head + rest)[i], apps)
  {
    forall i | 0 <= i < |head + rest| ensures AboutOneOf((head + rest)[i], apps) {
      var n := (head + rest)[i];
      if i < |head| {
        assert n == head[i];
        assert NoticeFor(n, apps[0]);
      } else {
        assert n == rest[i - |head|];
        var k :| 0 <= k < |apps[1..]| && NoticeFor(n, apps[1..][k]);
        assert apps[1..][k] == apps[k + 1];
        assert NoticeFor(n, apps[k + 1]);
      }
    }
  }

  lemma NoticesStepExact(apps: seq<Application>, head: seq<Notification>, rest: seq<Notification>)
    requires |apps| > 0 && |head| == 1 && NoticeFor(head[0], apps[0])
    requires |rest| == |apps[1..]| && forall i :: 0 <= i < |rest| ==> NoticeFor(rest[i], apps[1..][i])
    ensures |head + rest| == |apps| && forall i :: 0 <= i < |head + rest| ==> NoticeFor((head + rest)[i], apps[i])
  {
    var r := head + rest;
    forall i | 0 <= i < |r| ensures NoticeFor(r[i], apps[i]) {
      if i > 0 {
        assert r[i] == rest[i - 1];
        assert apps[1..][i - 1] == apps[i];
      }
    }
  }

  /** How many applications come before the first one whose applicant's
      account is gone (all of them when there is none). */
  function FirstMissing(db: Db, apps: seq<Application>): (k: nat)
    ensures k <= |apps|
    ensures forall i :: 0 <= i < k ==> FindUser(db, apps[i].userId).Some?
    ensures k < |apps| ==> FindUser(db, apps[k].userId).None?
  {
    if |apps| == 0 || FindUser(db, apps[0].userId).None? then 0
    else 1 + FirstMissing(db, apps[1..])
  }

  /** Some application to the posting has lost its applicant exactly when
      the scan stops short. */
  lemma MissingApplicantIff(db: Db, jobId: Id, apps: seq<Application>, k: nat)
    requires apps == Filter(db.apps, ForJob(jobId)) && k == FirstMissing(db, apps)
    ensures k < |apps| <==> exists a :: a in db.apps && a.jobId == jobId && FindUser(db, a.userId).None?
  {
    if k < |apps| {
      assert apps[k] in db.apps && ForJob(jobId)(apps[k]);
    }
    forall a | a in db.apps && a.jobId == jobId && FindUser(db, a.userId).None? ensures k < |apps| {
      var i :| 0 <= i < |db.apps| && db.apps[i] == a;
      assert ForJob(jobId)(db.apps[i]);
      var m :| 0 <= m < |apps| && apps[m] == a;
      assert !(m < k);
    }
  }

  /** The notices started before the scan stopped go to applicants of the
      posting whose accounts exist. */
  /** The applications found for a posting are stored ones to it. */
  lemma ApplicationsOfJob(db: Db, jobId: Id, apps: seq<Application>)
    requires apps == Filter(db.apps, ForJob(jobId))
    ensures forall i :: 0 <= i < |apps| ==> apps[i] in db.apps && apps[i].jobId == jobId
  {
    forall i | 0 <= i < |apps| ensures apps[i] in db.apps && apps[i].jobId == jobId {
      assert ForJob(jobId)(apps[i]);
    }
  }

  lemma StartedNoticesReachApplicants(db: Db, jobId: Id, apps: seq<Application>, k: nat, started: seq<Notification>)
    requires k <= |apps|
    requires forall i :: 0 <= i < |apps| ==> apps[i] in db.apps && apps[i].jobId == jobId
    requires forall i :: 0 <= i < k ==> FindUser(db, apps[i].userId).Some?
    requires forall i :: 0 <= i < |started| ==> AboutOneOf(started[i], apps[..k])
    ensures forall i :: 0 <= i < |started| ==> StartedFor(db, jobId)(started[i])
  {
    forall i | 0 <= i < |started| ensures StartedFor(db, jobId)(started[i]) {
      var n := started[i];
      var m :| 0 <= m < |apps[..k]| && NoticeFor(n, apps[..k][m]);
      assert apps[..k][m] == apps[m];
      assert FindUser(db, apps[m].userId).Some?;
    }
  }

  /** Appending `extra` keeps the old prefix and puts `extra` after it. */
  lemma AppendedTail<T>(front: seq<T>, extra: seq<T>, p: T -> bool)
    requires forall i :: 0 <= i < |extra| ==> p(extra[i])
    ensures (front + extra)[..|front|] == front
    ensures forall i :: |front| <= i < |front + extra| ==> p((front + extra)[i])
  {
    forall i | |front| <= i < |front + extra| ensures p((front + extra)[i]) {
      assert (front + extra)[i] == extra[i - |front|];
    }
  }

  /** DELETE `/:id`: the owner lookup (404), then one `JOB_DELETED` notice
      per applicant, and the posting and all its applications are removed.
      The notices are started one applicant at a time; reaching an
      applicant whose account is gone throws (a 500) after the notices to
      the applicants before it were started, so those are written while
      the posting and the applications stay.  The conversations of the
      applications are not removed. */
  function DeleteJob(db: Db, uid: Id, jobId: Id, notifId: Id -> Id, notifyOk: bool, now: Time): (res: (Result<(), Fail>, Db))
    ensures res.0.Err? ==>
      && res.1.(notifications := db.notifications) == db
      && |db.notifications| <= |res.1.notifications|
      && res.1.notifications[..|db.notifications|] == db.notifications
      && (res.0.error.status == 500 <==>
            EnsureBusiness(db, uid).Ok? && FindOwnedJob(db, jobId, uid).Some? &&
            exists a :: a in db.apps && a.jobId == jobId && FindUser(db, a.userId).None?)
      && (res.0.error.status != 500 ==> res.1 == db)
      && forall i :: |db.notifications| <= i < |res.1.notifications| ==> StartedFor(db, jobId)(res.1.notifications[i])
    ensures res.0.Ok? ==>
      && EnsureBusiness(db, uid).Ok?
      && FindOwnedJob(db, jobId, uid).Some?
      && (forall a :: a in db.apps && a.jobId == jobId ==> FindUser(db, a.userId).Some?)
      && res.1.jobs == Filter(db.jobs, OtherJob(jobId))
      && res.1.apps == Filter(db.apps, NotForJob(jobId))
      && res.1.messages == db.messages && res.1.users == db.users && res.1.businesses == db.businesses
      && res.1.notifications == db.notifications +
           (if notifyOk then DeletedNotices(Filter(db.apps, ForJob(jobId)), FindOwnedJob(db, jobId, uid).value,
                                            EnsureBusiness(db, uid).value, notifId, now)
            else [])
  {
    match EnsureBusiness(db, uid)
    case Err(e) => (Err(e), db)
    case Ok(biz) =>
      match FindOwnedJob(db, jobId, uid)
      case None => (Err(Fail(404, "Job not found or unauthorized")), db)
      case Some(j) => DeleteOwned(db, jobId, j, biz, notifId, notifyOk, now)
  }

  /** The part of DELETE `/:id` after the owner lookup found `j`. */
  function DeleteOwned(db: Db, jobId: Id, j: Job, biz: Business, notifId: Id -> Id, notifyOk: bool, now: Time)
    : (res: (Result<(), Fail>, Db))
    ensures res.0.Err? ==>
      && res.0.error == ServerError
      && res.1.(notifications := db.notifications) == db
      && |db.notifications| <= |res.1.notifications|
      && res.1.notifications[..|db.notifications|] == db.notifications
      && forall i :: |db.notifications| <= i < |res.1.notifications| ==> StartedFor(db, jobId)(res.1.notifications[i])
    ensures res.0.Err? <==> exists a :: a in db.apps && a.jobId == jobId && FindUser(db, a.userId).None?
    ensures res.0.Ok? ==>
      && res.1 == db.(jobs := Filter(db.jobs, OtherJob(jobId)), apps := Filter(db.apps, NotForJob(jobId)),
                      notifications := res.1.notifications)
      && res.1.notifications == db.notifications +
           (if notifyOk then DeletedNotices(Filter(db.apps, ForJob(jobId)), j, biz, notifId, now) else [])
  {
    var apps := Filter(db.apps, ForJob(jobId));
    var k := FirstMissing(db, apps);
    var started := DeletedNotices(apps[..k], j, biz, notifId, now);
    MissingApplicantIff(db, jobId, apps, k);
    if k < |apps| then
      ApplicationsOfJob(db, jobId, apps);
      StartedNoticesReachApplicants(db, jobId, apps, k, started);
      var written := if notifyOk then started else [];
      AppendedTail(db.notifications, written, StartedFor(db, jobId));
      (Err(ServerError), db.(notifications := db.notifications + written))
    else
      assert apps[..k] == apps;
      (Ok(()), db.(jobs := Filter(db.jobs, OtherJob(jobId)),
                   apps := Filter(db.apps, NotForJob(jobId)),
                   notifications := if notifyOk then db.notifications + started else db.notifications))
  }

  /** After a delete neither the posting nor any application to it is
      left, and every other posting and application is still there. */
  lemma DeleteRemovesExactly(db: Db, uid: Id, jobId: Id, notifId: Id -> Id, notifyOk: bool, now: Time)
    requires DeleteJob(db, uid, jobId, notifId, notifyOk, now).0.Ok?
    ensures var db2 := DeleteJob(db, uid, jobId, notifId, notifyOk, now).1;
      && (forall j :: j in db2.jobs <==> j in db.jobs && j.id != jobId)
      && (forall a :: a in db2.apps <==> a in db.apps && a.jobId != jobId)
  {
    var db2 := DeleteJob(db, uid, jobId, notifId, notifyOk, now).1;
    forall j | j in db.jobs && j.id != jobId ensures j in db2.jobs {
      var k :| 0 <= k < |db.jobs| && db.jobs[k] == j;
    }
    forall a | a in db.apps && a.jobId != jobId ensures a in db2.apps {
      var k :| 0 <= k < |db.apps| && db.apps[k] == a;
    }
    forall j | j in db2.jobs ensures j in db.jobs && j.id != jobId {
      var k :| 0 <= k < |db2.jobs| && db2.jobs[k] == j;
    }
    forall a | a in db2.apps ensures a in db.apps && a.jobId != jobId {
      var k :| 0 <= k < |db2.apps| && db2.apps[k] == a;
    }
  }

  function ApprovalDraft(j: Job, approved: bool): Draft {
    Draft(j.businessId, BusinessParty, if approved then JobApproved else JobRejected,
          if approved then "Job Posting Approved" else "Job Posting Rejected",
          if approved then "Your job posting \"" + j.title + "\" has been approved and is now visible to the public."
          else "Your job posting \"" + j.title + "\" has been rejected. Please contact support for more information.",
          map["jobId" := j.id, "jobTitle" := j.title])
  }

  /** PATCH `/:id/approval` behind the admin gate: `approved` must be a
      JSON boolean (400), the job must exist (404); the flag is set and the
      owning business gets a `JOB_APPROVED` or `JOB_REJECTED` notice. */
  function SetApproval(db: Db, jobId: Id, approved: Value, notifId: Id, notifyOk: bool, now: Time): (res: (Result<Job, Fail>, Db))
    ensures !approved.Bool? ==> res == (Err(Fail(400, "Approved status must be a boolean")), db)
    ensures approved.Bool? && FindJob(db, jobId).None? ==> res == (Err(Fail(404, "Job not found")), db)
    ensures res.0.Ok? ==>
      && approved.Bool? && FindJob(db, jobId).Some?
      && res.0.value == FindJob(db, jobId).value.(approved := approved.b)
      && res.1.jobs == ReplaceById(db.jobs, res.0.value, JobId)
      && res.1 == db.(jobs := res.1.jobs, notifications := res.1.notifications)
      && (forall i :: |db.notifications| <= i < |res.1.notifications| ==>
            res.1.notifications[i].recipient == res.0.value.businessId
            && res.1.notifications[i].recipientModel == BusinessParty
            && (res.1.notifications[i].kind == JobApproved <==> approved.b))
  {
    if !approved.Bool? then (Err(Fail(400, "Approved status must be a boolean")), db)
    else
      match FindJob(db, jobId)
      case None => (Err(Fail(404, "Job not found")), db)
      case Some(prev) =>
        var j := prev.(approved := approved.b);
        var n := NotificationModel.Create(notifId, ApprovalDraft(j, approved.b), now);
        (Ok(j), db.(jobs := ReplaceById(db.jobs, j, JobId),
                    notifications := if notifyOk && n.Some? then db.notifications + [n.value] else db.notifications))
  }

  /** An approved posting no longer expires; a rejected one stays stored
      and is left to the 30-day expiry of unapproved postings. */
  lemma ApprovalStopsExpiry(db: Db, jobId: Id, notifId: Id, notifyOk: bool, now: Time, later: Time)
    requires SetApproval(db, jobId, Bool(true), notifId, notifyOk, now).0.Ok?
    ensures !JobModel.Expired(SetApproval(db, jobId, Bool(true), notifId, notifyOk, now).0.value, later)
  {
    ApprovedNeverExpires(SetApproval(db, jobId, Bool(true), notifId, notifyOk, now).0.value, later);
  }

  /** The query string of the public list: an absent parameter is the empty
      string (both are falsy). */
  datatype JobQuery = JobQuery(
    page: Option<int>,
    category: string,
    business: string,
    search: string,
    sort: string,
    order: string)

  /** The `sort` stage the public list uses. */
  datatype SortChoice = ByTextScore | BySalary(descending: bool) | ByNewest

  /** A search sorts by text score; otherwise `sort=salary` sorts by salary,
      descending only for `order=desc`; anything else is newest first. */
  function ChooseSort(q: JobQuery): (r: SortChoice)
    ensures r.ByTextScore? <==> q.search != ""
    ensures r.BySalary? <==> q.search == "" && q.sort == "salary"
    ensures r.BySalary? ==> (r.descending <==> q.order == "desc")
  {
    if q.search != "" then ByTextScore
    else if q.sort == "salary" then BySalary(q.order == "desc")
    else ByNewest
  }

  /** The text index and the order of salary strings are the database's:
      `textMatch` and `textScore` stand for `$text` and its score, and
      `salaryRank` ranks salaries in the database's string order. */
  datatype SearchIndex = SearchIndex(textMatch: Job -> bool, textScore: Job -> int, salaryRank: Job -> int)

  /** The key the chosen sort orders by, largest first. */
  function SortKey(choice: SortChoice, ix: SearchIndex): Job -> int {
    match choice
    case ByTextScore => ix.textScore
    case BySalary(desc) => if desc then ix.salaryRank else (j: Job) => -ix.salaryRank(j)
    case ByNewest => (j: Job) => j.createdAt
  }

  /** The list's `conditions`: approved only, and each given filter
      conjoined. */
  function Matches(q: JobQuery, ix: SearchIndex): Job -> bool {
    (j: Job) => j.approved
                && (q.category == "" || j.category == q.category)
                && (q.business == "" || j.businessId == q.business)
                && (q.search == "" || ix.textMatch(j))
  }

  datatype JobPage = JobPage(jobs: seq<Job>, pagination: PageInfo)

  /** GET `/` (public): the matching postings in the chosen order, 30 a
      page, and the pagination computed from the count of all matches. */
  function ListJobs(db: Db, q: JobQuery, ix: SearchIndex): (r: JobPage)
    ensures var page := ClampedPage(q.page);
            var all := Filter(db.jobs, Matches(q, ix));
      && r.pagination == Info(page, |all|, MaxItemsPerPage)
      && r.jobs == Window(SortDesc(all, SortKey(ChooseSort(q), ix)), PageSkip(page), MaxItemsPerPage)
  {
    var page := ClampedPage(q.page);
    var all := Filter(db.jobs, Matches(q, ix));
    JobPage(Window(SortDesc(all, SortKey(ChooseSort(q), ix)), PageSkip(page), MaxItemsPerPage),
            Info(page, |all|, MaxItemsPerPage))
  }

  /** Only approved postings are listed, each one satisfying every filter
      given, and the page is in the chosen order: salaries ascend unless
      `order=desc`, and without search or salary sort the newest comes
      first. */
  lemma ListedJobsMatch(db: Db, q: JobQuery, ix: SearchIndex, js: seq<Job>)
    requires js == ListJobs(db, q, ix).jobs
    ensures forall i :: 0 <= i < |js| ==>
              js[i] in db.jobs && js[i].approved
              && (q.category != "" ==> js[i].category == q.category)
              && (q.business != "" ==> js[i].businessId == q.business)
    ensures ChooseSort(q) == ByNewest ==> forall i, k :: 0 <= i < k < |js| ==> js[i].createdAt >= js[k].createdAt
    ensures ChooseSort(q) == BySalary(false) ==> forall i, k :: 0 <= i < k < |js| ==> ix.salaryRank(js[i]) <= ix.salaryRank(js[k])
    ensures ChooseSort(q) == BySalary(true) ==> forall i, k :: 0 <= i < k < |js| ==> ix.salaryRank(js[i]) >= ix.salaryRank(js[k])
  {
    var page := ClampedPage(q.page);
    var all := Filter(db.jobs, Matches(q, ix));
    var key := SortKey(ChooseSort(q), ix);
    var sorted := SortDesc(all, key);
    WindowKeepsOrder(sorted, PageSkip(page), MaxItemsPerPage, key);
    ListedAreMatches(all, sorted, js, PageSkip(page));
    forall i | 0 <= i < |js|
      ensures js[i] in db.jobs && Matches(q, ix)(js[i])
    {
      assert js[i] in all;
    }
    SortedByChoice(js, ChooseSort(q), ix);
  }

  /** A page of a sorting of the matches holds only matches. */
  lemma ListedAreMatches(all: seq<Job>, sorted: seq<Job>, js: seq<Job>, skip: nat)
    requires multiset(sorted) == multiset(all) && js == Window(sorted, skip, MaxItemsPerPage)
    ensures forall i :: 0 <= i < |js| ==> js[i] in all
  {
    WindowWithin(sorted, skip, MaxItemsPerPage);
    forall i | 0 <= i < |js| ensures js[i] in all {
      assert js[i] in sorted;
      assert js[i] in multiset(sorted);
    }
  }

  /** What ordering by each sort key means for the listed postings. */
  lemma SortedByChoice(js: seq<Job>, choice: SortChoice, ix: SearchIndex)
    requires SortedDesc(js, SortKey(choice, ix))
    ensures choice == ByNewest ==> forall i, k :: 0 <= i < k < |js| ==> js[i].createdAt >= js[k].createdAt
    ensures choice == BySalary(false) ==> forall i, k :: 0 <= i < k < |js| ==> ix.salaryRank(js[i]) <= ix.salaryRank(js[k])
    ensures choice == BySalary(true) ==> forall i, k :: 0 <= i < k < |js| ==> ix.salaryRank(js[i]) >= ix.salaryRank(js[k])
  {
  }

  function OwnJob(uid: Id): Job -> bool {
    (j: Job) => j.businessId == uid
  }

  function ByCreatedAt(): Job -> int {
    (j: Job) => j.createdAt
  }

  /** GET `/my-jobs` after the business gate: the requester's postings,
      approved or not, newest first. */
  function ListMyJobs(db: Db, uid: Id, pageParam: Option<int>): (r: Result<JobPage, Fail>)
    ensures r.Err? <==> EnsureBusiness(db, uid).Err?
    ensures r.Ok? ==> var page := ClampedPage(pageParam);
                      var own := Filter(db.jobs, OwnJob(uid));
      && r.value.pagination == Info(page, |own|, MaxItemsPerPage)
      && r.value.jobs == Window(SortDesc(own, ByCreatedAt()), PageSkip(page), MaxItemsPerPage)
      && SortedDesc(r.value.jobs, ByCreatedAt())
  {
    match EnsureBusiness(db, uid)
    case Err(e) => Err(e)
    case Ok(_) =>
      var page := ClampedPage(pageParam);
      var own := Filter(db.jobs, OwnJob(uid));
      var sorted := SortDesc(own, ByCreatedAt());
      WindowKeepsOrder(sorted, PageSkip(page), MaxItemsPerPage, ByCreatedAt());
      Ok(JobPage(Window(sorted, PageSkip(page), MaxItemsPerPage), Info(page, |own|, MaxItemsPerPage)))
  }

  function PublicJob(jobId: Id): Job -> bool {
    (j: Job) => j.id == jobId && j.approved
  }

  /** GET `/:id` (public): an unapproved posting is as invisible as a
      missing one. */
  function GetJob(db: Db, jobId: Id): (r: Result<Job, Fail>)
    ensures r.Ok? <==> exists i :: 0 <= i < |db.jobs| && db.jobs[i].id == jobId && db.jobs[i].approved
    ensures r.Ok? ==> r.value in db.jobs && r.value.id == jobId && r.value.approved
    ensures r.Err? ==> r.error == Fail(404, "Job not found")
  {
    match FindFirst(db.jobs, PublicJob(jobId))
    case None => Err(Fail(404, "Job not found"))
    case Some(j) => Ok(j)
  }
}
