/** The `Job` schema: a posting owned by one business. */
module JobModel {
  import opened Base
  import opened Strings

  /** The TTL index that removes postings still unapproved 30 days after
      their creation. */
  const UnapprovedLifetime: int := 30 * MsPerDay

  datatype Job = Job(
    id: Id,
    businessId: Id,
    title: string,
    description: string,
    requirements: seq<string>,
    salary: string,
    category: Id,
    approved: bool,
    createdAt: Time)

  /** The schema validators: the five required fields are non-empty, the
      title is stored trimmed and at least one requirement is given. */
  predicate Valid(j: Job) {
    |j.businessId| > 0 && IsTrimmed(j.title) && |j.title| > 0 && |j.description| > 0
    && |j.requirements| > 0 && |j.salary| > 0 && |j.category| > 0
  }

  datatype JobError = MissingField(name: string) | NoRequirements

  /** `new Job({...}).save()`: the `trim` setter on the title runs before
      validation and `approved` defaults to false unless given. */
  function Create(id: Id, businessId: Id, title: string, description: string, requirements: seq<string>,
                  salary: string, category: Id, approved: Option<bool>, now: Time): (r: Result<Job, JobError>)
    ensures r.Ok? <==> |businessId| > 0 && |Trim(title)| > 0 && |description| > 0
                       && |requirements| > 0 && |salary| > 0 && |category| > 0
    ensures r.Ok? ==> Valid(r.value) && r.value.title == Trim(title)
                      && r.value.requirements == requirements && r.value.createdAt == now
                      && r.value.approved == approved.GetOr(false)
    ensures r.Ok? ==> r.value.id == id && r.value.businessId == businessId && r.value.description == description
                      && r.value.salary == salary && r.value.category == category
    ensures r == Err(NoRequirements) <==> |businessId| > 0 && |Trim(title)| > 0 && |description| > 0
                                          && |requirements| == 0
  {
    TrimIdempotent(title);
    if |businessId| == 0 then Err(MissingField("businessId"))
    else if |Trim(title)| == 0 then Err(MissingField("title"))
    else if |description| == 0 then Err(MissingField("description"))
    else if |requirements| == 0 then Err(NoRequirements)
    else if |salary| == 0 then Err(MissingField("salary"))
    else if |category| == 0 then Err(MissingField("category"))
    else Ok(Job(id, businessId, Trim(title), description, requirements, salary, category,
                approved.GetOr(false), now))
  }

  /** The partial TTL index: only an unapproved posting expires, 30 days
      after it was created. */
  function ExpiresAt(j: Job): (r: Option<Time>)
    ensures r.Some? <==> !j.approved
    ensures r.Some? ==> r.value - j.createdAt == 30 * 24 * 60 * 60 * 1000
  {
    if j.approved then None else Some(j.createdAt + UnapprovedLifetime)
  }

  predicate Expired(j: Job, now: Time) {
    var e := ExpiresAt(j); e.Some? && now > e.value
  }

  /** Approval stops the clock: an approved posting never expires, and an
      unapproved one survives its first 30 days. */
  lemma ApprovedNeverExpires(j: Job, now: Time)
    ensures j.approved ==> !Expired(j, now)
    ensures now <= j.createdAt + UnapprovedLifetime ==> !Expired(j, now)
  {
  }
}
