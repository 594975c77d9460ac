/** The `Message` schema: one message of an application-scoped conversation. */
module MessageModel {
  import opened Base
  import opened Strings

  /** `maxlength` of `content`. */
  const MaxContentLength: int := 2000

  /** A stored message.  `senderModel` and `recipientModel` can only name
      one of the two account collections (their enum), and
      `jobApplication` is the single conversation it belongs to. */
  datatype Message = Message(
    id: Id,
    sender: Id,
    senderModel: Party,
    recipient: Id,
    recipientModel: Party,
    jobApplication: Id,
    content: string,
    read: bool,
    createdAt: Time,
    updatedAt: Time)

  /** The schema rules on `content`: required, stored trimmed, at most 2000
      characters as JavaScript counts them (UTF-16 code units). */
  predicate ValidContent(c: string) {
    IsTrimmed(c) && 0 < |c| && Utf16Length(c) <= MaxContentLength
  }

  datatype ContentError = ContentRequired | ContentTooLong

  /** `Message.create`: the `trim` setter runs before the `required` and
      `maxlength` validators; `read` defaults to false and both timestamps
      are the creation time. */
  function Create(id: Id, sender: Id, senderModel: Party, recipient: Id, recipientModel: Party,
                  jobApplication: Id, content: string, now: Time): (r: Result<Message, ContentError>)
    ensures r.Ok? <==> 0 < |Trim(content)| && Utf16Length(Trim(content)) <= MaxContentLength
    ensures r.Ok? ==> var m := r.value;
      && ValidContent(m.content) && m.content == Trim(content)
      && !m.read && m.createdAt == now && m.updatedAt == now
      && m.id == id && m.jobApplication == jobApplication
      && m.sender == sender && m.senderModel == senderModel
      && m.recipient == recipient && m.recipientModel == recipientModel
    ensures r.Err? && |Trim(content)| == 0 ==> r.error == ContentRequired
    ensures r.Err? && |Trim(content)| > 0 ==> r.error == ContentTooLong
  {
    var c := Trim(content);
    TrimIdempotent(content);
    if |c| == 0 then Err(ContentRequired)
    else if Utf16Length(c) > MaxContentLength then Err(ContentTooLong)
    else Ok(Message(id, sender, senderModel, recipient, recipientModel, jobApplication, c, false, now, now))
  }
}
