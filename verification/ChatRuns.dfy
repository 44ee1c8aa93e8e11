/**
 What every run of service calls keeps: contacts, chats, messages and uploads stay in step with each
 other, and some facts, once established, are never taken back.
 */
module ChatRuns {
  import opened Common
  import opened Options
  import opened ContactTables
  import opened ChatServer

  // ------------------------------------------------------------------ invariants

  /** Every chat was opened by an acceptance. */
  ghost predicate ChatsAreAccepted(t: Tables) {
    forall c :: c in t.chats ==> AreContacts(t.requests, c.userA, c.userB)
  }

  ghost predicate MessagesInv(chats: seq<Chat>, messages: seq<Message>) {
    forall i :: 0 <= i < |messages| ==>
      messages[i].chat < |chats| && IsParticipant(chats[messages[i].chat], messages[i].sender)
  }

  /** The upload a message shows. */
  function Shown(m: Message): Option<nat> {
    if m.media.Some? && m.media.value.Internal? then Some(m.media.value.id) else None
  }

  /** Links lead from an upload to a message of its owner that shows it. */
  ghost predicate LinksAreShown(attachments: map<nat, Attachment>, messages: seq<Message>) {
    forall a :: a in attachments && attachments[a].message.Some? ==>
      && attachments[a].message.value < |messages|
      && Shown(messages[attachments[a].message.value]) == Some(a)
      && messages[attachments[a].message.value].sender == attachments[a].owner
  }

  /** What a message shows has been uploaded, and is linked to it unless it was discarded. */
  ghost predicate ShownAreLinked(attachments: map<nat, Attachment>, messages: seq<Message>, uploads: nat) {
    forall i :: 0 <= i < |messages| && Shown(messages[i]).Some? ==>
      && Shown(messages[i]).value < uploads
      && (Shown(messages[i]).value in attachments ==> attachments[Shown(messages[i]).value].message == Some(i))
  }

  ghost predicate ShownOnce(messages: seq<Message>) {
    forall i, j :: 0 <= i < j < |messages| && Shown(messages[i]).Some? ==> Shown(messages[j]) != Shown(messages[i])
  }

  /** An upload's link and the message that shows it agree; no two messages ever show the same upload. */
  ghost predicate AttachmentsInv(attachments: map<nat, Attachment>, messages: seq<Message>, uploads: nat) {
    && (forall a :: a in attachments ==> a < uploads)
    && LinksAreShown(attachments, messages) && ShownAreLinked(attachments, messages, uploads) && ShownOnce(messages)
  }

  ghost predicate StateInv(s: State) {
    Inv(s.tables) && ChatsAreAccepted(s.tables) && MessagesInv(s.tables.chats, s.messages)
    && AttachmentsInv(s.attachments, s.messages, s.uploads)
  }

  // ------------------------------------------------------------------ what is never taken back

  /** Requests keep their parties and stay accepted, chats stay. */
  ghost predicate TablesGrow(t: Tables, u: Tables) {
    && t.chats <= u.chats && |t.requests| <= |u.requests|
    && (forall i :: 0 <= i < |t.requests| ==>
          && u.requests[i].sender == t.requests[i].sender && u.requests[i].receiver == t.requests[i].receiver
          && (t.requests[i].status == Accepted ==> u.requests[i].status == Accepted))
  }

  /** Messages keep everything but an open read mark, which may be set once. */
  ghost predicate MessagesGrow(m: seq<Message>, n: seq<Message>) {
    && |m| <= |n|
    && (forall i :: 0 <= i < |m| ==>
          && n[i] == m[i].(readAt := n[i].readAt)
          && (m[i].readAt.Some? ==> n[i].readAt == m[i].readAt))
  }

  /** An upload keeps its owner and its link; a discarded one never returns. */
  ghost predicate UploadsGrow(s: State, t: State) {
    && s.uploads <= t.uploads
    && (forall a :: a in t.attachments && a < s.uploads ==>
          && a in s.attachments && t.attachments[a].owner == s.attachments[a].owner
          && (s.attachments[a].message.Some? ==> t.attachments[a].message == s.attachments[a].message))
  }

  ghost predicate Grows(s: State, t: State) {
    TablesGrow(s.tables, t.tables) && MessagesGrow(s.messages, t.messages) && UploadsGrow(s, t)
  }

  lemma GrowsTransitively(s: State, t: State, u: State)
    requires Grows(s, t) && Grows(t, u)
    ensures Grows(s, u)
  {
  }

  // ------------------------------------------------------------------ one call

  lemma InviteStep(t: Tables, sender: UserId, receiver: UserId, active: bool)
    requires Inv(t) && ChatsAreAccepted(t) && SendRequest(t, sender, receiver, active).Ok?
    ensures var u := SendRequest(t, sender, receiver, active).value;
            Inv(u) && ChatsAreAccepted(u) && TablesGrow(t, u)
  {
    var u := SendRequest(t, sender, receiver, active).value;
    match FindRequest(t.requests, sender, receiver) {
      case Some(id) => SetStatusKeepsInv(t, id, Pending);
      case None => InsertKeepsInv(t, sender, receiver);
    }
    AcceptedSurvive(t, u);
  }

  /** Accepted requests that stay where they are keep the chats they opened justified. */
  lemma AcceptedSurvive(t: Tables, u: Tables)
    requires ChatsAreAccepted(t) && TablesGrow(t, u)
    ensures forall c :: c in t.chats ==> AreContacts(u.requests, c.userA, c.userB)
  {
    forall r | r in t.requests && r.status == Accepted ensures r in u.requests {
      var i :| 0 <= i < |t.requests| && t.requests[i] == r;
      assert u.requests[i] == r;
    }
  }

  lemma AnswerStep(t: Tables, user: UserId, id: nat, accept: bool)
    requires Inv(t) && ChatsAreAccepted(t) && RespondToRequest(t, user, id, accept).Ok?
    ensures var u := RespondToRequest(t, user, id, accept).value;
            Inv(u) && ChatsAreAccepted(u) && TablesGrow(t, u)
  {
    var u := RespondToRequest(t, user, id, accept).value;
    var Request(sender, receiver, _) := t.requests[id];
    CommitKeepsInv(t, id, if accept then Accepted else Declined);
    AcceptedSurvive(t, u);
    if accept {
      assert u.requests[id] == Request(sender, receiver, Accepted);
    }
  }

  /** What the checks establish about a post's upload; the message shows just that upload. */
  lemma PostedUpload(s: State, sender: UserId, chat: nat, d: Draft)
    requires SendMessageError(s, sender, chat, d).None?
    ensures Shown(Posted(sender, chat, d)) == d.attachment && Posted(sender, chat, d).sender == sender
    ensures d.attachment.Some? ==>
              d.attachment.value in s.attachments && s.attachments[d.attachment.value] == Attachment(sender, None)
  {
    hide AreContacts, MembershipError;
  }

  /** A message that shows a free upload of its sender, and the link to it. */
  lemma LinkKeepsAttachmentsInv(attachments: map<nat, Attachment>, messages: seq<Message>, uploads: nat, m: Message,
                                a: nat)
    requires AttachmentsInv(attachments, messages, uploads) && Shown(m) == Some(a)
    requires a in attachments && attachments[a] == Attachment(m.sender, None)
    ensures AttachmentsInv(attachments[a := Attachment(m.sender, Some(|messages|))], messages + [m], uploads)
  {
    hide Shown;
  }

  lemma PlainKeepsAttachmentsInv(attachments: map<nat, Attachment>, messages: seq<Message>, uploads: nat, m: Message)
    requires AttachmentsInv(attachments, messages, uploads) && Shown(m) == None
    ensures AttachmentsInv(attachments, messages + [m], uploads)
  {
    hide Shown;
  }

  lemma PostKeepsAttachmentsInv(s: State, sender: UserId, chat: nat, d: Draft)
    requires AttachmentsInv(s.attachments, s.messages, s.uploads) && SendMessage(s, sender, chat, d).Ok?
    ensures var t := SendMessage(s, sender, chat, d).value;
            AttachmentsInv(t.attachments, t.messages, t.uploads)
  {
    hide AttachmentsInv, SendMessageError, Posted, Shown;
    PostedUpload(s, sender, chat, d);
    var m := Posted(sender, chat, d);
    if d.attachment.Some? {
      LinkKeepsAttachmentsInv(s.attachments, s.messages, s.uploads, m, d.attachment.value);
    } else {
      PlainKeepsAttachmentsInv(s.attachments, s.messages, s.uploads, m);
    }
  }

  lemma PostStep(s: State, sender: UserId, chat: nat, d: Draft)
    requires StateInv(s) && SendMessage(s, sender, chat, d).Ok?
    ensures StateInv(SendMessage(s, sender, chat, d).value) && Grows(s, SendMessage(s, sender, chat, d).value)
  {
    hide Inv, ChatsAreAccepted, AttachmentsInv;
    PostKeepsAttachmentsInv(s, sender, chat, d);
  }

  lemma ReadStep(s: State, user: UserId, chat: nat, now: nat)
    requires StateInv(s) && MarkRead(s, user, chat, now).Ok?
    ensures StateInv(MarkRead(s, user, chat, now).value) && Grows(s, MarkRead(s, user, chat, now).value)
  {
    hide Inv, ChatsAreAccepted;
    var t := MarkRead(s, user, chat, now).value;
    assert forall i :: 0 <= i < |s.messages| ==> Shown(t.messages[i]) == Shown(s.messages[i]);
    assert LinksAreShown(t.attachments, t.messages);
    assert ShownAreLinked(t.attachments, t.messages, t.uploads);
    assert ShownOnce(t.messages);
  }

  /** A step of the contact tables alone. */
  lemma TablesStep(s: State, u: Tables)
    requires StateInv(s) && Inv(u) && ChatsAreAccepted(u) && TablesGrow(s.tables, u)
    ensures StateInv(s.(tables := u)) && Grows(s, s.(tables := u))
  {
    hide Inv, ChatsAreAccepted, AttachmentsInv;
  }

  lemma UploadStep(s: State, owner: UserId)
    requires StateInv(s)
    ensures StateInv(Apply(s, Upload(owner))) && Grows(s, Apply(s, Upload(owner)))
  {
    hide Inv, ChatsAreAccepted, MessagesInv;
  }

  lemma DiscardStep(s: State, attachment: nat)
    requires StateInv(s)
    ensures StateInv(Apply(s, DiscardUpload(attachment))) && Grows(s, Apply(s, DiscardUpload(attachment)))
  {
    hide Inv, ChatsAreAccepted, MessagesInv;
  }

  lemma StepKeepsInv(s: State, op: Op)
    requires StateInv(s)
    ensures StateInv(Apply(s, op)) && Grows(s, Apply(s, op))
  {
    hide Inv, ChatsAreAccepted, MessagesInv, AttachmentsInv, Grows, TablesGrow, SendMessage, MarkRead, SendRequest,
      RespondToRequest;
    GrowsReflexively(s);
    match op
    case Invite(sender, receiver, active) =>
      var r := SendRequest(s.tables, sender, receiver, active);
      if r.Ok? { InviteStep(s.tables, sender, receiver, active); TablesStep(s, r.value); }
    case Answer(user, request, accept) =>
      var r := RespondToRequest(s.tables, user, request, accept);
      if r.Ok? { AnswerStep(s.tables, user, request, accept); TablesStep(s, r.value); }
    case Upload(owner) => UploadStep(s, owner);
    case DiscardUpload(attachment) => DiscardStep(s, attachment);
    case Post(sender, chat, draft) =>
      if SendMessage(s, sender, chat, draft).Ok? { PostStep(s, sender, chat, draft); }
    case Read(user, chat, now) =>
      if MarkRead(s, user, chat, now).Ok? { ReadStep(s, user, chat, now); }
  }

  // ------------------------------------------------------------------ every run

  /** In every run: acceptances are final, read marks are set once, uploads keep their message. */
  lemma {:induction false} RunKeepsInv(s: State, ops: seq<Op>)
    requires StateInv(s)
    ensures StateInv(Run(s, ops)) && Grows(s, Run(s, ops))
    decreases |ops|
  {
    hide StateInv, Grows, Apply;
    if ops == [] {
      GrowsReflexively(s);
    } else {
      StepKeepsInv(s, ops[0]);
      RunKeepsInv(Apply(s, ops[0]), ops[1..]);
      GrowsTransitively(s, Apply(s, ops[0]), Run(s, ops));
    }
  }

  lemma GrowsReflexively(s: State)
    ensures Grows(s, s)
  {
  }

  lemma ReachableStates(ops: seq<Op>)
    ensures StateInv(Run(EMPTY, ops))
  {
    RunKeepsInv(EMPTY, ops);
  }

  /** In every run: what was accepted, sent, read or attached at one point stays so at every later point. */
  lemma NothingIsTakenBack(ops: seq<Op>, more: seq<Op>)
    ensures var s, t := Run(EMPTY, ops), Run(Run(EMPTY, ops), more);
            && (forall i :: 0 <= i < |s.tables.requests| && s.tables.requests[i].status == Accepted ==>
                  i < |t.tables.requests| && t.tables.requests[i] == s.tables.requests[i])
            && (forall c :: c in s.tables.chats ==> c in t.tables.chats)
            && (forall i :: 0 <= i < |s.messages| ==>
                  i < |t.messages| && t.messages[i] == s.messages[i].(readAt := t.messages[i].readAt))
            && (forall i :: 0 <= i < |s.messages| && s.messages[i].readAt.Some? ==> t.messages[i] == s.messages[i])
            && (forall a :: a in s.attachments && a in t.attachments && s.attachments[a].message.Some? ==>
                  t.attachments[a] == s.attachments[a])
  {
    ReachableStates(ops);
    RunKeepsInv(Run(EMPTY, ops), more);
  }

  // ------------------------------------------------------------------ contacts and chats

  /** A chat exists for a pair exactly when one of the two has accepted a request of the other. */
  lemma ChatIffAccepted(ops: seq<Op>, a: UserId, b: UserId)
    requires a != b
    ensures var t := Run(EMPTY, ops).tables;
            Normalize(a, b) in t.chats
            <==> Request(a, b, Accepted) in t.requests || Request(b, a, Accepted) in t.requests
  {
    ReachableStates(ops);
  }

  /** The gate for messages and both users' contact lists agree, and nobody is a contact of themselves. */
  lemma ContactsAreMutual(ops: seq<Op>, a: UserId, b: UserId)
    ensures var requests := Run(EMPTY, ops).tables.requests;
            && (b in Contacts(requests, a) <==> AreContacts(requests, a, b))
            && (a in Contacts(requests, b) <==> AreContacts(requests, a, b))
            && a !in Contacts(requests, a)
  {
    ReachableStates(ops);
    var requests := Run(EMPTY, ops).tables.requests;
    ContactsAreAccepted(requests, a, b);
    ContactsAreAccepted(requests, b, a);
    ContactsAreAccepted(requests, a, a);
  }

  lemma ContactsAreAccepted(requests: seq<Request>, a: UserId, b: UserId)
    requires RequestsInv(requests)
    ensures b in Contacts(requests, a) <==> AreContacts(requests, a, b)
  {
    if AreContacts(requests, a, b) {
      var r := if Request(a, b, Accepted) in requests then Request(a, b, Accepted) else Request(b, a, Accepted);
      assert InvolvedIn(r, a) && OtherParty(r, a) == b;
    }
    if b in Contacts(requests, a) {
      var r :| r in requests && InvolvedIn(r, a) && OtherParty(r, a) == b;
      assert r == Request(a, b, Accepted) || r == Request(b, a, Accepted);
    }
  }

  lemma {:induction false} PartnersShareChats(chats: seq<Chat>, user: UserId)
    requires ChatsInv(chats)
    ensures forall v :: v in ConversationPartners(chats, user) <==> v != user && Normalize(user, v) in chats
    ensures Distinct(ConversationPartners(chats, user))
  {
    if chats != [] {
      var front, last := chats[..|chats| - 1], chats[|chats| - 1];
      PartnersShareChats(front, user);
      assert chats == front + [last];
      assert last !in front;
      if IsParticipant(last, user) {
        assert last == Normalize(user, OtherParticipant(last, user));
      }
    }
  }

  /** The conversation list shows every contact in exactly one conversation, and nobody else. */
  lemma ConversationsShowContacts(ops: seq<Op>, user: UserId)
    ensures var t := Run(EMPTY, ops).tables;
            && (forall v :: v in ConversationPartners(t.chats, user) <==> v in Contacts(t.requests, user))
            && Distinct(ConversationPartners(t.chats, user))
  {
    ReachableStates(ops);
    var t := Run(EMPTY, ops).tables;
    PartnersShareChats(t.chats, user);
    forall v ensures v in ConversationPartners(t.chats, user) <==> v in Contacts(t.requests, user) {
      ContactsAreMutual(ops, user, v);
      if v != user { ChatIffAccepted(ops, user, v); }
    }
  }

  // ------------------------------------------------------------------ messages

  /** Being a participant is enough to be a contact, so a post is refused only for its draft or its upload. */
  lemma PostsAreGatedByMembership(ops: seq<Op>, sender: UserId, chat: nat, d: Draft)
    ensures var s := Run(EMPTY, ops);
            && SendMessageError(s, sender, chat, d) != Some(ContactRelationshipRequired)
            && (SendMessage(s, sender, chat, d).Ok? <==>
                  && chat < |s.tables.chats| && IsParticipant(s.tables.chats[chat], sender)
                  && DraftError(d).None? && AttachmentError(s.attachments, sender, d).None?)
  {
    ReachableStates(ops);
    var t := Run(EMPTY, ops).tables;
    if chat < |t.chats| {
      assert t.chats[chat] in t.chats;
    }
  }

  /** Which drafts pass: a text with something in it, an upload under its own path, or a web address. */
  lemma DraftsThatPass(s: State, sender: UserId, d: Draft)
    ensures DraftError(d).None? && AttachmentError(s.attachments, sender, d).None? <==>
            match d.kind
            case Text =>
              d.media.None? && d.attachment.None?
              && d.content.Some? && exists i :: 0 <= i < |d.content.value| && !IsWhiteSpace(d.content.value[i])
            case _ =>
              if d.attachment.None? then d.media.Some? && d.media.value.Http?
              else
                && d.media == Some(Internal(d.attachment.value))
                && d.attachment.value in s.attachments
                && s.attachments[d.attachment.value] == Attachment(sender, None)
  {
  }

  /** The code points that trimming removes: white space and line terminators of ECMA-262. */
  lemma WhiteSpaceExactly(c: char)
    ensures IsWhiteSpace(c) <==>
            c as int in {0x09, 0x0a, 0x0b, 0x0c, 0x0d, 0x20, 0xa0, 0x1680, 0x2000, 0x2001, 0x2002, 0x2003, 0x2004,
                         0x2005, 0x2006, 0x2007, 0x2008, 0x2009, 0x200a, 0x2028, 0x2029, 0x202f, 0x205f, 0x3000, 0xfeff}
  {
  }

  /** What was posted stays as it was written, whatever calls follow. */
  lemma PostsAreKept(ops: seq<Op>, sender: UserId, chat: nat, d: Draft, more: seq<Op>)
    requires SendMessage(Run(EMPTY, ops), sender, chat, d).Ok?
    ensures var s := Run(EMPTY, ops);
            var t := Run(SendMessage(s, sender, chat, d).value, more);
            && |s.messages| < |t.messages|
            && var m := t.messages[|s.messages|];
               && m.chat == chat && m.sender == sender && m.kind == d.kind
               && m.content == (if d.content.Some? then d.content.value else "")
               && m.media == (if d.kind == Text then None else d.media)
  {
    var s := Run(EMPTY, ops);
    ReachableStates(ops);
    PostStep(s, sender, chat, d);
    RunKeepsInv(SendMessage(s, sender, chat, d).value, more);
  }

  /** A new message is unread. */
  lemma PostsStartUnread(s: State, sender: UserId, chat: nat, d: Draft)
    requires SendMessage(s, sender, chat, d).Ok?
    ensures var t := SendMessage(s, sender, chat, d).value;
            t.messages[..|s.messages|] == s.messages && t.messages[|s.messages|].readAt == None
  {
  }

  /** A post raises the counterpart's badge of that chat by one message and no other badge. */
  lemma PostRaisesOneBadge(s: State, sender: UserId, chat: nat, d: Draft, user: UserId, other: nat)
    requires SendMessage(s, sender, chat, d).Ok?
    ensures var t := SendMessage(s, sender, chat, d).value;
            Unread(t, user, other)
              == Unread(s, user, other) + (if other == chat && user != sender then {|s.messages|} else {})
  {
  }

  lemma {:induction false} UnreadIdsAreTheUnread(messages: seq<Message>, chat: nat, sender: UserId)
    ensures forall i :: 0 <= i < |messages| && UnreadFrom(messages[i], chat, sender)
                        ==> i in UnreadIds(messages, chat, sender)
    ensures forall j, k :: 0 <= j < k < |UnreadIds(messages, chat, sender)| ==>
              UnreadIds(messages, chat, sender)[j] < UnreadIds(messages, chat, sender)[k]
  {
    if messages != [] {
      UnreadIdsAreTheUnread(messages[..|messages| - 1], chat, sender);
    }
  }

  ghost function Elements(ids: seq<nat>): set<nat> {
    set i | i in ids
  }

  lemma {:induction false} AscendingSize(ids: seq<nat>)
    requires forall i, j :: 0 <= i < j < |ids| ==> ids[i] < ids[j]
    ensures |Elements(ids)| == |ids|
  {
    if ids == [] {
      assert Elements(ids) == {};
    } else {
      var front, last := ids[..|ids| - 1], ids[|ids| - 1];
      AscendingSize(front);
      assert ids == front + [last];
      assert Elements(ids) == Elements(front) + {last};
    }
  }

  /** What is not one's own in a chat comes from its other participant. */
  lemma CounterpartSent(s: State, user: UserId, chat: nat)
    requires StateInv(s) && MembershipError(s.tables, user, chat).None?
    ensures forall i :: 0 <= i < |s.messages| && s.messages[i].chat == chat ==>
              (s.messages[i].sender != user <==> s.messages[i].sender == OtherParticipant(s.tables.chats[chat], user))
  {
    hide ChatsAreAccepted, AttachmentsInv;
  }

  /** The query behind the receipt and the query behind the badge differ, and count the same messages. */
  lemma ReportedIsTheBadge(s: State, user: UserId, chat: nat)
    requires StateInv(s) && MembershipError(s.tables, user, chat).None?
    ensures var reported := UnreadIds(s.messages, chat, OtherParticipant(s.tables.chats[chat], user));
            Elements(reported) == Unread(s, user, chat) && |reported| == |Unread(s, user, chat)|
  {
    hide Inv, ChatsAreAccepted, AttachmentsInv, UnreadIds;
    var other := OtherParticipant(s.tables.chats[chat], user);
    var reported := UnreadIds(s.messages, chat, other);
    UnreadIdsAreTheUnread(s.messages, chat, other);
    AscendingSize(reported);
    CounterpartSent(s, user, chat);
  }

  lemma BadgeAfterReading(s: State, user: UserId, chat: nat, now: nat, v: UserId, c: nat)
    requires StateInv(s) && MarkRead(s, user, chat, now).Ok?
    requires c < |s.tables.chats| && IsParticipant(s.tables.chats[c], v)
    ensures Unread(MarkRead(s, user, chat, now).value, v, c)
         == if v == user && c == chat then {} else Unread(s, v, c)
  {
    var t := MarkRead(s, user, chat, now).value;
    var other := OtherParticipant(s.tables.chats[chat], user);
    assert c == chat ==> v == user || v == other;
    CounterpartSent(s, user, chat);
  }

  /**
   Opening a chat reports exactly the messages its badge counts, each once, empties the badge, and
   leaves every other badge of every participant alone.
   */
  lemma MarkReadClearsOneBadge(ops: seq<Op>, user: UserId, chat: nat, now: nat)
    requires MarkRead(Run(EMPTY, ops), user, chat, now).Ok?
    ensures var s := Run(EMPTY, ops);
            var t := MarkRead(s, user, chat, now).value;
            var reported := UnreadIds(s.messages, chat, OtherParticipant(s.tables.chats[chat], user));
            && Elements(reported) == Unread(s, user, chat) && |reported| == |Unread(s, user, chat)|
            && Unread(t, user, chat) == {}
            && (forall v, c: nat {:trigger Unread(t, v, c)} ::
                  c < |s.tables.chats| && IsParticipant(s.tables.chats[c], v) && (v != user || c != chat) ==>
                  Unread(t, v, c) == Unread(s, v, c))
  {
    ReachableStates(ops);
    var s := Run(EMPTY, ops);
    var t := MarkRead(s, user, chat, now).value;
    ReportedIsTheBadge(s, user, chat);
    BadgeAfterReading(s, user, chat, now, user, chat);
    forall v, c: nat {:trigger Unread(t, v, c)}
      | c < |s.tables.chats| && IsParticipant(s.tables.chats[c], v) && (v != user || c != chat)
      ensures Unread(t, v, c) == Unread(s, v, c)
    {
      BadgeAfterReading(s, user, chat, now, v, c);
    }
  }

  /** A read mark is a receipt: it appears only when the counterpart of the message's sender opens its chat. */
  lemma ReadMarksAreReceipts(s: State, op: Op, i: nat)
    requires StateInv(s) && i < |s.messages| && i < |Apply(s, op).messages|
    ensures Apply(s, op).messages[i] != s.messages[i] ==>
              && op.Read? && op.chat == s.messages[i].chat && op.user != s.messages[i].sender
              && IsParticipant(s.tables.chats[op.chat], op.user)
              && s.messages[i].readAt.None? && Apply(s, op).messages[i].readAt == Some(op.now)
  {
  }

  /**
   One upload, one message: a second post of the same upload is refused. That rests on the check and
   the transaction running as one: two posts that both check before either commits show it twice.
   */
  lemma UploadsAreTakenOnce(s: State, sender: UserId, chat: nat, d: Draft)
    requires SendMessage(s, sender, chat, d).Ok? && d.attachment.Some?
    ensures SendMessage(SendMessage(s, sender, chat, d).value, sender, chat, d) == Err(AttachmentAlreadyLinked)
    ensures var t := CommitPost(CommitPost(s, sender, chat, d), sender, chat, d);
            && Shown(t.messages[|s.messages|]) == Shown(t.messages[|s.messages| + 1]) == d.attachment
            && t.attachments[d.attachment.value].message == Some(|s.messages| + 1)
            && !ShownOnce(t.messages)
  {
    var t := CommitPost(CommitPost(s, sender, chat, d), sender, chat, d);
    assert Shown(t.messages[|s.messages|]) == Shown(t.messages[|s.messages| + 1]);
  }

  /** An upload that no message shows yet is served to everybody, one that was discarded to nobody. */
  lemma FreeUploadsAreServedToAll(s: State, upload: nat, user: UserId)
    ensures upload !in s.attachments ==> !CanFetch(s, user, upload)
    ensures upload in s.attachments && s.attachments[upload].message == None ==> CanFetch(s, user, upload)
  {
  }

  /** Discarding an upload takes that one away from everybody, and nothing else. */
  lemma DiscardedIsGone(s: State, upload: nat, user: UserId)
    ensures var t := Apply(s, DiscardUpload(upload));
            && !CanFetch(t, user, upload)
            && t.tables == s.tables && t.messages == s.messages
            && (forall a :: a in t.attachments <==> a in s.attachments && a != upload)
            && (forall a :: a in t.attachments ==> t.attachments[a] == s.attachments[a])
            && (forall a :: a != upload ==> (CanFetch(t, user, a) <==> CanFetch(s, user, a)))
  {
  }

  /** An attached upload is served to its owner and to the one contact it was sent to, and to nobody else. */
  lemma AttachmentsStayBetweenContacts(ops: seq<Op>, upload: nat, user: UserId)
    requires upload in Run(EMPTY, ops).attachments && Run(EMPTY, ops).attachments[upload].message.Some?
    ensures var s := Run(EMPTY, ops);
            var owner, m := s.attachments[upload].owner, s.attachments[upload].message.value;
            && m < |s.messages| && s.messages[m].sender == owner && Shown(s.messages[m]) == Some(upload)
            && s.messages[m].chat < |s.tables.chats|
            && (CanFetch(s, user, upload) <==>
                  user == owner || user == OtherParticipant(s.tables.chats[s.messages[m].chat], owner))
            && (CanFetch(s, user, upload) && user != owner ==> AreContacts(s.tables.requests, user, owner))
  {
    ReachableStates(ops);
  }
}
