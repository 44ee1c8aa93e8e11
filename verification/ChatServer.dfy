/**
 The chat server with every service call atomic: contact requests, the chats they open, the messages
 posted there and the uploads attached to them. Rows keep their position as id.
 */
module ChatServer {
  import opened Options
  import opened ContactTables

  datatype Kind = Text | Image | Video

  /** A media URL as the checks see it: an attachment's own path, another path below it, or an address. */
  datatype MediaUrl = Internal(id: nat) | BelowAttachments(rest: string) | Http(url: string) | Other(url: string)

  datatype Draft = Draft(content: Option<string>, kind: Kind, media: Option<MediaUrl>, attachment: Option<nat>)

  datatype Message = Message(
    chat: nat, sender: UserId, content: string, kind: Kind, media: Option<MediaUrl>, readAt: Option<nat>)

  datatype Attachment = Attachment(owner: UserId, message: Option<nat>)

  datatype State = State(tables: Tables, messages: seq<Message>, attachments: map<nat, Attachment>, uploads: nat)

  const EMPTY := State(Tables([], []), [], map[], 0)

  datatype Error =
    | SelfNotAllowed | ReceiverNotFound | Duplicate
    | RequestNotFound | NotReceiver | AlreadyResponded
    | ChatNotFound | NotChatParticipant | ContactRelationshipRequired
    | ContentRequired | MediaNotAllowed
    | ImageUrlRequired | ImageUrlInvalid | VideoUrlRequired | VideoUrlInvalid
    | AttachmentNotFound | AttachmentNotOwner | AttachmentAlreadyLinked

  datatype Result<+T> = Ok(value: T) | Err(error: Error)

  // ------------------------------------------------------------------ contacts

  function SendRequest(t: Tables, sender: UserId, receiver: UserId, receiverActive: bool): Result<Tables> {
    if receiver == sender then Err(SelfNotAllowed)
    else if !receiverActive then Err(ReceiverNotFound)
    else
      match FindRequest(t.requests, sender, receiver)
      case Some(id) => if t.requests[id].status != Declined then Err(Duplicate) else Ok(SetStatus(t, id, Pending))
      case None => Ok(t.(requests := t.requests + [Request(sender, receiver, Pending)]))
  }

  function RespondToRequest(t: Tables, user: UserId, id: nat, accept: bool): Result<Tables> {
    if id >= |t.requests| then Err(RequestNotFound)
    else if t.requests[id].receiver != user then Err(NotReceiver)
    else if t.requests[id].status != Pending then Err(AlreadyResponded)
    else Ok(CommitResponse(t, id, if accept then Accepted else Declined))
  }

  /** The two users have an accepted request in one direction or the other. */
  predicate AreContacts(requests: seq<Request>, a: UserId, b: UserId) {
    a != b && (Request(a, b, Accepted) in requests || Request(b, a, Accepted) in requests)
  }

  predicate InvolvedIn(r: Request, user: UserId) {
    r.status == Accepted && (r.sender == user || r.receiver == user)
  }

  function OtherParty(r: Request, user: UserId): UserId {
    if r.sender == user then r.receiver else r.sender
  }

  /** The contact list of a user, as a set. */
  function Contacts(requests: seq<Request>, user: UserId): set<UserId> {
    set r | r in requests && InvolvedIn(r, user) :: OtherParty(r, user)
  }

  predicate IsParticipant(c: Chat, user: UserId) {
    c.userA == user || c.userB == user
  }

  function OtherParticipant(c: Chat, user: UserId): UserId {
    if c.userA == user then c.userB else c.userA
  }

  /** The counterparts shown in the user's conversation list, one for each chat of theirs. */
  function ConversationPartners(chats: seq<Chat>, user: UserId): (partners: seq<UserId>) {
    if chats == [] then [] else
    var last := chats[|chats| - 1];
    ConversationPartners(chats[..|chats| - 1], user)
    + (if IsParticipant(last, user) then [OtherParticipant(last, user)] else [])
  }

  // ------------------------------------------------------------------ messages

  /** The white space that trimming removes. */
  predicate IsWhiteSpace(c: char) {
    || c in {' ', '\t', '\n', '\r', '\U{000B}', '\U{000C}', '\U{00A0}', '\U{1680}', '\U{FEFF}'}
    || '\U{2000}' <= c <= '\U{200A}'
    || c in {'\U{2028}', '\U{2029}', '\U{202F}', '\U{205F}', '\U{3000}'}
  }

  predicate IsBlank(s: string) {
    forall i :: 0 <= i < |s| ==> IsWhiteSpace(s[i])
  }

  function UrlRequired(kind: Kind): Error {
    if kind.Video? then VideoUrlRequired else ImageUrlRequired
  }

  function UrlInvalid(kind: Kind): Error {
    if kind.Video? then VideoUrlInvalid else ImageUrlInvalid
  }

  /** The rules of each message type; an upload and an address are told apart by the attachment id. */
  function DraftError(d: Draft): Option<Error> {
    match d.kind
    case Text =>
      if d.content.None? || IsBlank(d.content.value) then Some(ContentRequired)
      else if d.media.Some? || d.attachment.Some? then Some(MediaNotAllowed)
      else None
    case _ =>
      if d.attachment.None? && d.media.None? then Some(UrlRequired(d.kind))
      else if d.attachment.Some? then
        if d.media.Some? && !d.media.value.Internal? && !d.media.value.BelowAttachments?
        then Some(UrlInvalid(d.kind)) else None
      else if !d.media.value.Http? then Some(UrlInvalid(d.kind))
      else None
  }

  /** The upload must exist, be the sender's, be free, and be the one the URL names. */
  function AttachmentError(attachments: map<nat, Attachment>, sender: UserId, d: Draft): Option<Error> {
    if d.attachment.None? then None
    else if d.attachment.value !in attachments then Some(AttachmentNotFound)
    else if attachments[d.attachment.value].owner != sender then Some(AttachmentNotOwner)
    else if attachments[d.attachment.value].message.Some? then Some(AttachmentAlreadyLinked)
    else if d.media != Some(Internal(d.attachment.value)) then Some(ImageUrlInvalid)
    else None
  }

  function MembershipError(t: Tables, user: UserId, chat: nat): Option<Error> {
    if chat >= |t.chats| then Some(ChatNotFound)
    else if !IsParticipant(t.chats[chat], user) then Some(NotChatParticipant)
    else None
  }

  function SendMessageError(s: State, sender: UserId, chat: nat, d: Draft): Option<Error> {
    if MembershipError(s.tables, sender, chat).Some? then MembershipError(s.tables, sender, chat)
    else if !AreContacts(s.tables.requests, s.tables.chats[chat].userA, s.tables.chats[chat].userB)
    then Some(ContactRelationshipRequired)
    else if DraftError(d).Some? then DraftError(d)
    else AttachmentError(s.attachments, sender, d)
  }

  function Posted(sender: UserId, chat: nat, d: Draft): Message {
    Message(chat, sender, if d.content.Some? then d.content.value else "", d.kind,
            if d.kind.Text? then None else d.media, None)
  }

  /** The transaction of a post: the new row, and the link from its upload. */
  function CommitPost(s: State, sender: UserId, chat: nat, d: Draft): State {
    s.(messages := s.messages + [Posted(sender, chat, d)],
       attachments := if d.attachment.None? || d.attachment.value !in s.attachments then s.attachments
                      else s.attachments[d.attachment.value :=
                             s.attachments[d.attachment.value].(message := Some(|s.messages|))])
  }

  function SendMessage(s: State, sender: UserId, chat: nat, d: Draft): Result<State> {
    var error := SendMessageError(s, sender, chat, d);
    if error.Some? then Err(error.value) else Ok(CommitPost(s, sender, chat, d))
  }

  predicate UnreadFrom(m: Message, chat: nat, sender: UserId) {
    m.chat == chat && m.sender == sender && m.readAt.None?
  }

  /** The ids `markRead` reports: what the counterpart sent to the chat and nobody has read yet. */
  function UnreadIds(messages: seq<Message>, chat: nat, sender: UserId): (ids: seq<nat>)
    ensures forall k :: 0 <= k < |ids| ==> ids[k] < |messages| && UnreadFrom(messages[ids[k]], chat, sender)
  {
    if messages == [] then [] else
    var last := |messages| - 1;
    UnreadIds(messages[..last], chat, sender) + (if UnreadFrom(messages[last], chat, sender) then [last] else [])
  }

  function ReadAll(messages: seq<Message>, chat: nat, sender: UserId, now: nat): (r: seq<Message>)
    ensures |r| == |messages|
    ensures forall i :: 0 <= i < |messages| ==>
              r[i] == if UnreadFrom(messages[i], chat, sender) then messages[i].(readAt := Some(now)) else messages[i]
  {
    seq(|messages|, i requires 0 <= i < |messages| =>
      if UnreadFrom(messages[i], chat, sender) then messages[i].(readAt := Some(now)) else messages[i])
  }

  function MarkRead(s: State, user: UserId, chat: nat, now: nat): Result<State> {
    var error := MembershipError(s.tables, user, chat);
    if error.Some? then Err(error.value) else
    Ok(s.(messages := ReadAll(s.messages, chat, OtherParticipant(s.tables.chats[chat], user), now)))
  }

  /** The messages behind the unread badge of a chat: there, not one's own, not read. */
  ghost function Unread(s: State, user: UserId, chat: nat): set<nat> {
    set i | 0 <= i < |s.messages| && s.messages[i].chat == chat && s.messages[i].sender != user
            && s.messages[i].readAt.None?
  }

  /** Who is served an upload: anybody while it is free, afterwards the two sides of the message's chat. */
  predicate CanFetch(s: State, user: UserId, upload: nat) {
    && upload in s.attachments
    && (s.attachments[upload].message.None?
        || (s.attachments[upload].message.value < |s.messages|
            && var chat := s.messages[s.attachments[upload].message.value].chat;
               chat < |s.tables.chats| && IsParticipant(s.tables.chats[chat], user)))
  }

  // ------------------------------------------------------------------ the service calls as one system

  datatype Op =
    | Invite(sender: UserId, receiver: UserId, receiverActive: bool)
    | Answer(user: UserId, request: nat, accept: bool)
    | Upload(owner: UserId)
    | DiscardUpload(attachment: nat)
    | Post(sender: UserId, chat: nat, draft: Draft)
    | Read(user: UserId, chat: nat, now: nat)

  function WithTables(s: State, r: Result<Tables>): State {
    if r.Ok? then s.(tables := r.value) else s
  }

  function Either(s: State, r: Result<State>): State {
    if r.Ok? then r.value else s
  }

  /** What one call leaves behind; a refused call leaves everything as it was. */
  function Apply(s: State, op: Op): State {
    match op
    case Invite(sender, receiver, active) => WithTables(s, SendRequest(s.tables, sender, receiver, active))
    case Answer(user, request, accept) => WithTables(s, RespondToRequest(s.tables, user, request, accept))
    case Upload(owner) =>
      s.(attachments := s.attachments[s.uploads := Attachment(owner, None)], uploads := s.uploads + 1)
    case DiscardUpload(attachment) => s.(attachments := s.attachments - {attachment})
    case Post(sender, chat, draft) => Either(s, SendMessage(s, sender, chat, draft))
    case Read(user, chat, now) => Either(s, MarkRead(s, user, chat, now))
  }

  function Run(s: State, ops: seq<Op>): State
    decreases |ops|
  {
    if ops == [] then s else Run(Apply(s, ops[0]), ops[1..])
  }
}
