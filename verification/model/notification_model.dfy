/** The `Notification` schema: an in-app notice to one user or business. */
module NotificationModel {
  import opened Base

  /** The `expires` option on `createdAt`: a notification is removed by the
      database 30 days after it was created. */
  const Lifetime: int := 30 * MsPerDay

  /** The nine values of the `type` enum. */
  datatype Kind =
    | NewApplication | ApplicationStatusUpdated | JobApproved | JobRejected | JobDeleted
    | NewJobInInterest | BusinessApproved | BusinessRejected | NewMessage
  {
    function Tag(): string {
      match this
      case NewApplication => "NEW_APPLICATION"
      case ApplicationStatusUpdated => "APPLICATION_STATUS_UPDATED"
      case JobApproved => "JOB_APPROVED"
      case JobRejected => "JOB_REJECTED"
      case JobDeleted => "JOB_DELETED"
      case NewJobInInterest => "NEW_JOB_IN_INTEREST"
      case BusinessApproved => "BUSINESS_APPROVED"
      case BusinessRejected => "BUSINESS_REJECTED"
      case NewMessage => "NEW_MESSAGE"
    }
  }

  /** The enum check on `type`. */
  function ParseKind(s: string): (r: Option<Kind>)
    ensures r.Some? ==> r.value.Tag() == s
  {
    if s == "NEW_APPLICATION" then Some(NewApplication)
    else if s == "APPLICATION_STATUS_UPDATED" then Some(ApplicationStatusUpdated)
    else if s == "JOB_APPROVED" then Some(JobApproved)
    else if s == "JOB_REJECTED" then Some(JobRejected)
    else if s == "JOB_DELETED" then Some(JobDeleted)
    else if s == "NEW_JOB_IN_INTEREST" then Some(NewJobInInterest)
    else if s == "BUSINESS_APPROVED" then Some(BusinessApproved)
    else if s == "BUSINESS_REJECTED" then Some(BusinessRejected)
    else if s == "NEW_MESSAGE" then Some(NewMessage)
    else None
  }

  /** Every tag is accepted and read back as the kind that wrote it, so the
      nine tags are pairwise distinct. */
  lemma ParseKindComplete(k: Kind)
    ensures ParseKind(k.Tag()) == Some(k)
  {
  }

  datatype Notification = Notification(
    id: Id,
    recipient: Id,
    recipientModel: Party,
    kind: Kind,
    title: string,
    message: string,
    metadata: map<string, string>,
    read: bool,
    createdAt: Time)

  datatype Draft = Draft(
    recipient: Id,
    recipientModel: Party,
    kind: Kind,
    title: string,
    message: string,
    metadata: map<string, string>)

  /** `new Notification(data).save()`: `title` and `message` are required
      (non-empty), `read` defaults to false and `createdAt` to now. */
  function Create(id: Id, d: Draft, now: Time): (r: Option<Notification>)
    ensures r.Some? <==> |d.recipient| > 0 && |d.title| > 0 && |d.message| > 0
    ensures r.Some? ==> var n := r.value;
      && !n.read && n.createdAt == now && n.id == id
      && n.recipient == d.recipient && n.recipientModel == d.recipientModel && n.kind == d.kind
      && n.title == d.title && n.message == d.message && n.metadata == d.metadata
  {
    if |d.recipient| == 0 || |d.title| == 0 || |d.message| == 0 then None
    else Some(Notification(id, d.recipient, d.recipientModel, d.kind, d.title, d.message, d.metadata, false, now))
  }

  /** The TTL: the database drops a notification once 30 days have passed
      since its creation. */
  predicate Expired(n: Notification, now: Time) {
    now - n.createdAt > Lifetime
  }

  lemma ExpiryWindow(n: Notification, now: Time)
    ensures now <= n.createdAt + 30 * 24 * 60 * 60 * 1000 ==> !Expired(n, now)
    ensures now > n.createdAt + 30 * 24 * 60 * 60 * 1000 ==> Expired(n, now)
  {
  }
}
