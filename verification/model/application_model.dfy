/** The `JobApplication` schema: an applicant's application to one job,
    which is also the identity of the conversation between the applicant
    and the business that owns the job. */
module ApplicationModel {
  import opened Base
  import opened Strings

  datatype Status = Pending | Accepted | Rejected {
    function Name(): string {
      match this
      case Pending => "pending"
      case Accepted => "accepted"
      case Rejected => "rejected"
    }
  }

  /** The `status` enum check (`['pending', 'accepted', 'rejected'].includes`). */
  function ParseStatus(s: string): (r: Option<Status>)
    ensures r.Some? ==> r.value.Name() == s
  {
    if s == "pending" then Some(Pending)
    else if s == "accepted" then Some(Accepted)
    else if s == "rejected" then Some(Rejected)
    else None
  }

  /** The enum accepts exactly the three status names. */
  lemma ParseStatusComplete(st: Status)
    ensures ParseStatus(st.Name()) == Some(st)
  {
  }

  datatype Application = Application(
    id: Id,
    userId: Id,
    jobId: Id,
    status: Status,
    cv: string,
    phoneNumber: string,
    coverLetter: Option<string>,
    appliedAt: Time,
    createdAt: Time,
    updatedAt: Time)

  /** `cv` and `phoneNumber` are required (a required string may not be
      empty); `coverLetter` is stored trimmed. */
  predicate Valid(a: Application) {
    |a.cv| > 0 && |a.phoneNumber| > 0
    && (a.coverLetter.Some? ==> IsTrimmed(a.coverLetter.value))
  }

  datatype ApplicationError = CvRequired | PhoneRequired | DuplicateApplication

  /** `new JobApplication({...}).save()` without the uniqueness check:
      status defaults to pending and `appliedAt` to the creation time. */
  function Create(id: Id, userId: Id, jobId: Id, cv: string, phoneNumber: string,
                  coverLetter: Option<string>, now: Time): (r: Result<Application, ApplicationError>)
    ensures r.Ok? <==> |cv| > 0 && |phoneNumber| > 0
    ensures r.Ok? ==> var a := r.value;
      && Valid(a) && a.status == Pending && a.appliedAt == now
      && a.id == id && a.userId == userId && a.jobId == jobId
      && a.cv == cv && a.phoneNumber == phoneNumber
      && (coverLetter.Some? <==> a.coverLetter.Some?)
      && (coverLetter.Some? ==> a.coverLetter.value == Trim(coverLetter.value))
  {
    if |cv| == 0 then Err(CvRequired)
    else if |phoneNumber| == 0 then Err(PhoneRequired)
    else
      var letter := if coverLetter.Some? then Some(Trim(coverLetter.value)) else None;
      TrimIdempotent(coverLetter.GetOr([]));
      Ok(Application(id, userId, jobId, Pending, cv, phoneNumber, letter, now, now, now))
  }

  /** The unique `{ userId, jobId }` index: no two applications of one user
      to one job. */
  predicate UniquePairs(apps: seq<Application>) {
    forall i, j :: 0 <= i < j < |apps| ==>
      apps[i].userId != apps[j].userId || apps[i].jobId != apps[j].jobId
  }

  predicate HasApplied(apps: seq<Application>, userId: Id, jobId: Id) {
    exists i :: 0 <= i < |apps| && apps[i].userId == userId && apps[i].jobId == jobId
  }

  /** An insert under the unique index: refused exactly when the pair is
      already present, and otherwise keeps the index invariant. */
  function Insert(apps: seq<Application>, a: Application): (r: Result<seq<Application>, ApplicationError>)
    ensures r.Err? <==> HasApplied(apps, a.userId, a.jobId)
    ensures r.Ok? ==> r.value == apps + [a]
    ensures r.Ok? && UniquePairs(apps) ==> UniquePairs(r.value)
  {
    if HasApplied(apps, a.userId, a.jobId) then Err(DuplicateApplication)
    else Ok(apps + [a])
  }
}
