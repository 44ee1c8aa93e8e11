/** The service calls as they run: guard by guard, then the writes to the tables. */
module ChatDatabase {
  import opened Common
  import opened Options
  import opened ContactTables
  import opened ChatRuns
  import opened ChatServer

  class Database {
    var requests: seq<Request>
    var chats: seq<Chat>
    var messages: seq<Message>
    var attachments: map<nat, Attachment>
    var uploads: nat

    function Tables(): Tables
      reads this
    {
      ContactTables.Tables(requests, chats)
    }

    function State(): State
      reads this
    {
      ChatServer.State(Tables(), messages, attachments, uploads)
    }

    constructor ()
      ensures State() == EMPTY
    {
      requests, chats, messages, attachments, uploads := [], [], [], map[], 0;
    }

    method SendRequest(sender: UserId, receiver: UserId, receiverActive: bool) returns (r: Result<nat>)
      modifies this`requests
      ensures State() == Apply(old(State()), Invite(sender, receiver, receiverActive))
      ensures r.Err? ==> ChatServer.SendRequest(old(Tables()), sender, receiver, receiverActive) == Err(r.error)
      ensures var rows := old(requests);
              var earlier := exists q :: q in rows && q.sender == sender && q.receiver == receiver;
              if receiver == sender then r == Err(SelfNotAllowed) && requests == rows
              else if !receiverActive then r == Err(ReceiverNotFound) && requests == rows
              else if !earlier then r == Ok(|rows|) && requests == rows + [Request(sender, receiver, Pending)]
              else if r.Err? then r == Err(Duplicate) && requests == rows
                                  && exists q :: q in rows && q.sender == sender && q.receiver == receiver
                                                 && q.status != Declined
              else r.value < |rows| && rows[r.value] == Request(sender, receiver, Declined)
                   && requests == rows[r.value := Request(sender, receiver, Pending)]
    {
      if receiver == sender { return Err(SelfNotAllowed); }
      if !receiverActive { return Err(ReceiverNotFound); }
      var existing := FindRequest(requests, sender, receiver);
      if existing.Some? {
        var id := existing.value;
        assert requests[id] in requests;
        if requests[id].status != Declined { return Err(Duplicate); }
        requests := requests[id := requests[id].(status := Pending)];
        return Ok(id);
      }
      requests := requests + [Request(sender, receiver, Pending)];
      return Ok(|requests| - 1);
    }

    method RespondToRequest(user: UserId, id: nat, accept: bool) returns (r: Result<nat>)
      modifies this`requests, this`chats
      ensures State() == Apply(old(State()), Answer(user, id, accept))
      ensures r.Err? ==> ChatServer.RespondToRequest(old(Tables()), user, id, accept) == Err(r.error)
      ensures r.Err? ==> requests == old(requests) && chats == old(chats)
      ensures var rows := old(requests);
              if id >= |rows| then r == Err(RequestNotFound)
              else if rows[id].receiver != user then r == Err(NotReceiver)
              else if rows[id].status != Pending then r == Err(AlreadyResponded)
              else
                && r == Ok(id)
                && requests == rows[id := Request(rows[id].sender, user, if accept then Accepted else Declined)]
                && (!accept ==> chats == old(chats))
                && (accept ==>
                      var a, b := Min(rows[id].sender, user), Max(rows[id].sender, user);
                      chats == if Chat(a, b) in old(chats) then old(chats) else old(chats) + [Chat(a, b)])
    {
      if id >= |requests| { return Err(RequestNotFound); }
      if requests[id].receiver != user { return Err(NotReceiver); }
      if requests[id].status != Pending { return Err(AlreadyResponded); }
      var Request(sender, receiver, _) := requests[id];
      requests := requests[id := requests[id].(status := if accept then Accepted else Declined)];
      if accept {
        CreateChat(sender, receiver);
      }
      return Ok(id);
    }

    method CreateChat(a: UserId, b: UserId)
      modifies this`chats
      ensures Tables() == CreateChatForPair(old(Tables()), a, b)
      ensures chats == if Chat(Min(a, b), Max(a, b)) in old(chats) then old(chats)
                       else old(chats) + [Chat(Min(a, b), Max(a, b))]
    {
      if Normalize(a, b) in chats { return; }
      chats := chats + [Normalize(a, b)];
    }

    /**
     The contact list: everyone with an accepted request from or to the user, each once, by username.
     `rank` is the place of a user's name in locale order; a missing name ranks as the empty one.
     */
    method GetContacts(user: UserId, rank: UserId -> int) returns (contacts: seq<UserId>)
      ensures forall v :: v in contacts <==> v in Contacts(requests, user)
      ensures Distinct(contacts) && IsRanked(contacts, rank)
    {
      var rows := AcceptedRows(requests, user);
      var seen: set<UserId> := {};
      contacts := [];
      for i := 0 to |rows|
        invariant forall v :: v in contacts <==> v in seen
        invariant forall v :: v in seen <==> exists k :: 0 <= k < i && OtherParty(rows[k], user) == v
        invariant Distinct(contacts)
      {
        var other := OtherParty(rows[i], user);
        if other in seen { continue; }
        seen := seen + {other};
        contacts := contacts + [other];
      }
      SortRanks(contacts, rank);
      contacts := Sort(contacts, rank);
    }

    method SendMessage(sender: UserId, chat: nat, d: Draft) returns (r: Result<nat>)
      modifies this`messages, this`attachments
      ensures State() == Apply(old(State()), Post(sender, chat, d))
      ensures r.Err? ==> ChatServer.SendMessage(old(State()), sender, chat, d) == Err(r.error)
      ensures r.Ok? <==>
              && chat < |chats| && sender in {chats[chat].userA, chats[chat].userB}
              && AreContacts(requests, chats[chat].userA, chats[chat].userB)
              && match d.kind
                 case Text => d.content.Some? && !IsBlank(d.content.value) && d.media.None? && d.attachment.None?
                 case _ =>
                   if d.attachment.None? then d.media.Some? && d.media.value.Http?
                   else
                     && d.attachment.value in old(attachments)
                     && old(attachments)[d.attachment.value] == Attachment(sender, None)
                     && d.media == Some(Internal(d.attachment.value))
      ensures r.Ok? ==>
                && r.value == |old(messages)| && messages[..r.value] == old(messages) && |messages| == r.value + 1
                && var m := messages[r.value];
                   && m.chat == chat && m.sender == sender && m.kind == d.kind && m.readAt == None
                   && m.content == (if d.content.Some? then d.content.value else "")
                   && m.media == (if d.kind == Text then None else d.media)
      ensures r.Ok? ==> attachments == if d.attachment.None? then old(attachments)
                                       else old(attachments)[d.attachment.value := Attachment(sender, Some(r.value))]
      ensures r.Err? ==> messages == old(messages) && attachments == old(attachments)
      ensures r.Err? ==>
                r.error ==
                if chat >= |chats| then ChatNotFound
                else if sender !in {chats[chat].userA, chats[chat].userB} then NotChatParticipant
                else if !AreContacts(requests, chats[chat].userA, chats[chat].userB) then ContactRelationshipRequired
                else if d.kind == Text then
                  if d.content.None? || IsBlank(d.content.value) then ContentRequired else MediaNotAllowed
                else if d.attachment.None? then
                  if d.kind == Image then if d.media.None? then ImageUrlRequired else ImageUrlInvalid
                  else if d.media.None? then VideoUrlRequired else VideoUrlInvalid
                else if d.media.Some? && (d.media.value.Http? || d.media.value.Other?) then
                  if d.kind == Image then ImageUrlInvalid else VideoUrlInvalid
                else if d.attachment.value !in attachments then AttachmentNotFound
                else if attachments[d.attachment.value].owner != sender then AttachmentNotOwner
                else if attachments[d.attachment.value].message.Some? then AttachmentAlreadyLinked
                else ImageUrlInvalid
    {
      if chat >= |chats| { return Err(ChatNotFound); }
      if chats[chat].userA != sender && chats[chat].userB != sender { return Err(NotChatParticipant); }
      if !AreContacts(requests, chats[chat].userA, chats[chat].userB) { return Err(ContactRelationshipRequired); }
      var content: string, media: Option<MediaUrl>;
      if d.kind.Text? {
        if d.content.None? || IsBlank(d.content.value) { return Err(ContentRequired); }
        if d.media.Some? { return Err(MediaNotAllowed); }
        if d.attachment.Some? { return Err(MediaNotAllowed); }
        content, media := d.content.value, None;
      } else {
        if d.attachment.None? && d.media.None? { return Err(UrlRequired(d.kind)); }
        if d.attachment.Some? {
          if d.media.Some? && !d.media.value.Internal? && !d.media.value.BelowAttachments? {
            return Err(UrlInvalid(d.kind));
          }
        } else if !d.media.value.Http? {
          return Err(UrlInvalid(d.kind));
        }
        content, media := if d.content.Some? then d.content.value else "", d.media;
      }
      if d.attachment.Some? {
        var id := d.attachment.value;
        if id !in attachments { return Err(AttachmentNotFound); }
        if attachments[id].owner != sender { return Err(AttachmentNotOwner); }
        if attachments[id].message.Some? { return Err(AttachmentAlreadyLinked); }
        if media != Some(Internal(id)) { return Err(ImageUrlInvalid); }
      }
      messages := messages + [Message(chat, sender, content, d.kind, media, None)];
      if d.attachment.Some? {
        attachments := attachments[d.attachment.value :=
          attachments[d.attachment.value].(message := Some(|messages| - 1))];
      }
      return Ok(|messages| - 1);
    }

    method MarkRead(user: UserId, chat: nat, now: nat) returns (r: Result<seq<nat>>)
      modifies this`messages
      ensures State() == Apply(old(State()), Read(user, chat, now))
      ensures r.Ok? ==> chat < |chats|
                        && r.value == UnreadIds(old(messages), chat, OtherParticipant(chats[chat], user))
      ensures chat >= |chats| ==> r == Err(ChatNotFound)
      ensures chat < |chats| && user !in {chats[chat].userA, chats[chat].userB} ==> r == Err(NotChatParticipant)
      ensures r.Err? ==> messages == old(messages)
      ensures chat < |chats| && user in {chats[chat].userA, chats[chat].userB} ==>
                var other := if user == chats[chat].userA then chats[chat].userB else chats[chat].userA;
                r.Ok? && |messages| == |old(messages)| && forall i :: 0 <= i < |messages| ==>
                  var before := old(messages)[i];
                  var found := before.chat == chat && before.sender == other && before.readAt == None;
                  (i in r.value <==> found)
                  && messages[i] == if found then before.(readAt := Some(now)) else before
    {
      if chat >= |chats| { return Err(ChatNotFound); }
      if chats[chat].userA != user && chats[chat].userB != user { return Err(NotChatParticipant); }
      var other := if chats[chat].userA == user then chats[chat].userB else chats[chat].userA;
      var ids := UnreadIds(messages, chat, other);
      UnreadIdsAreTheUnread(messages, chat, other);
      if ids == [] {
        NothingToRead(messages, chat, other, now);
        return Ok([]);
      }
      messages := ReadAll(messages, chat, other, now);
      return Ok(ids);
    }
  }

  predicate IsRanked(users: seq<UserId>, rank: UserId -> int) {
    forall i, j :: 0 <= i < j < |users| ==> rank(users[i]) <= rank(users[j])
  }

  /** Behind all that rank lower; among equals first, as the sort is stable and takes the front last. */
  function Insert(user: UserId, users: seq<UserId>, rank: UserId -> int): seq<UserId> {
    if users == [] || rank(user) <= rank(users[0]) then [user] + users
    else [users[0]] + Insert(user, users[1..], rank)
  }

  function Sort(users: seq<UserId>, rank: UserId -> int): seq<UserId> {
    if users == [] then [] else Insert(users[0], Sort(users[1..], rank), rank)
  }

  lemma {:induction false} InsertRanks(user: UserId, users: seq<UserId>, rank: UserId -> int)
    requires IsRanked(users, rank) && Distinct(users) && user !in users
    ensures var r := Insert(user, users, rank);
            IsRanked(r, rank) && Distinct(r) && forall v :: v in r <==> v in users || v == user
  {
    if users != [] && rank(user) > rank(users[0]) {
      var rest := Insert(user, users[1..], rank);
      InsertRanks(user, users[1..], rank);
      assert users == [users[0]] + users[1..];
      forall i | 0 <= i < |rest| ensures rank(users[0]) <= rank(rest[i]) && rest[i] != users[0] {
        assert rest[i] in rest;
      }
    }
  }

  lemma {:induction false} SortRanks(users: seq<UserId>, rank: UserId -> int)
    requires Distinct(users)
    ensures var r := Sort(users, rank);
            IsRanked(r, rank) && Distinct(r) && forall v :: v in r <==> v in users
  {
    if users != [] {
      SortRanks(users[1..], rank);
      assert users == [users[0]] + users[1..];
      InsertRanks(users[0], Sort(users[1..], rank), rank);
    }
  }

  /** The contact query: accepted requests from or to the user. */
  function AcceptedRows(requests: seq<Request>, user: UserId): (rows: seq<Request>)
    ensures forall r :: r in rows <==> r in requests && InvolvedIn(r, user)
  {
    if requests == [] then [] else
    var last := requests[|requests| - 1];
    AcceptedRows(requests[..|requests| - 1], user) + (if InvolvedIn(last, user) then [last] else [])
  }

  lemma {:induction false} NothingToRead(messages: seq<Message>, chat: nat, sender: UserId, now: nat)
    requires UnreadIds(messages, chat, sender) == []
    ensures ReadAll(messages, chat, sender, now) == messages
  {
    if messages != [] {
      NothingToRead(messages[..|messages| - 1], chat, sender, now);
    }
  }
}
