/**
 Posting a message cut at its awaits: the chat, the contact relation and the upload are looked up one
 after the other, and the transaction runs later. Any number of posts and of other service calls,
 these atomic, run in between.
 */
module PostProtocol {
  import opened Options
  import opened ContactTables
  import opened ChatServer
  import opened ChatRuns

  type CallId = nat

  /** The await a post is suspended at. */
  datatype Stage = FindChat | CheckContacts | LoadAttachment | Commit

  /** `seen` is history: how many messages there were when the upload was looked up. */
  datatype PendingPost = PendingPost(stage: Stage, sender: UserId, chat: nat, draft: Draft, seen: nat)

  datatype System = System(state: State, posts: map<CallId, PendingPost>)

  const START := System(EMPTY, map[])

  datatype Step =
    | Start(call: CallId, sender: UserId, chat: nat, draft: Draft)
    | Proceed(call: CallId)
    | Service(op: Op)

  predicate Enabled(s: System, step: Step) {
    match step
    case Start(call, _, _, _) => call !in s.posts
    case Proceed(call) => call in s.posts
    case Service(op) => !op.Post?
  }

  function Suspend(s: System, call: CallId, post: PendingPost): System {
    s.(posts := s.posts[call := post])
  }

  function End(s: System, call: CallId): System {
    s.(posts := s.posts - {call})
  }

  /** Both sides of the chat, if it is there, are contacts. */
  predicate ChatIsOpen(t: Tables, chat: nat) {
    chat < |t.chats| && AreContacts(t.requests, t.chats[chat].userA, t.chats[chat].userB)
  }

  /** The stretch of a post after one of its awaits. */
  function Advance(s: System, call: CallId): System
    requires call in s.posts
  {
    var post := s.posts[call];
    match post.stage
    case FindChat =>
      if MembershipError(s.state.tables, post.sender, post.chat).Some? then End(s, call)
      else Suspend(s, call, post.(stage := CheckContacts))
    case CheckContacts =>
      if !ChatIsOpen(s.state.tables, post.chat) || DraftError(post.draft).Some? then End(s, call)
      else Suspend(s, call, post.(stage := if post.draft.attachment.Some? then LoadAttachment else Commit))
    case LoadAttachment =>
      if AttachmentError(s.state.attachments, post.sender, post.draft).Some? then End(s, call)
      else Suspend(s, call, post.(stage := Commit, seen := |s.state.messages|))
    case Commit => End(s, call).(state := CommitPost(s.state, post.sender, post.chat, post.draft))
  }

  function Apply(s: System, step: Step): System
    requires Enabled(s, step)
  {
    match step
    case Start(call, sender, chat, draft) => Suspend(s, call, PendingPost(FindChat, sender, chat, draft, 0))
    case Proceed(call) => Advance(s, call)
    case Service(op) => s.(state := ChatServer.Apply(s.state, op))
  }

  // ------------------------------------------------------------------ what every interleaving keeps

  /** What a message shows has been uploaded, and is linked to some message unless it was discarded. */
  ghost predicate ShownAreTaken(attachments: map<nat, Attachment>, messages: seq<Message>, uploads: nat) {
    forall i :: 0 <= i < |messages| && Shown(messages[i]).Some? ==>
      && Shown(messages[i]).value < uploads
      && (Shown(messages[i]).value in attachments ==> attachments[Shown(messages[i]).value].message.Some?)
  }

  ghost predicate UploadsInv(s: State) {
    && (forall a :: a in s.attachments ==> a < s.uploads)
    && LinksAreShown(s.attachments, s.messages) && ShownAreTaken(s.attachments, s.messages, s.uploads)
  }

  /** A post about to commit: its upload is its sender's, and was shown by nobody when looked up. */
  ghost predicate PostInv(s: State, post: PendingPost) {
    && (post.stage != FindChat ==> MembershipError(s.tables, post.sender, post.chat).None?)
    && (post.stage == LoadAttachment || post.stage == Commit ==> DraftError(post.draft).None?)
    && (post.stage == LoadAttachment ==> post.draft.attachment.Some?)
    && (post.stage == Commit && post.draft.attachment.Some? ==>
          var a := post.draft.attachment.value;
          && post.draft.media == Some(Internal(a)) && a < s.uploads
          && (a in s.attachments ==> s.attachments[a].owner == post.sender)
          && post.seen <= |s.messages|
          && (forall i :: 0 <= i < post.seen ==> Shown(s.messages[i]) != Some(a)))
  }

  ghost predicate SystemInv(s: System) {
    && Inv(s.state.tables) && ChatsAreAccepted(s.state.tables)
    && MessagesInv(s.state.tables.chats, s.state.messages) && UploadsInv(s.state)
    && (forall c :: c in s.posts ==> PostInv(s.state, s.posts[c]))
  }

  /** The step commits a post of an upload. */
  predicate CommitsUpload(s: System, step: Step) {
    && step.Proceed? && step.call in s.posts && s.posts[step.call].stage == Commit
    && s.posts[step.call].draft.attachment.Some?
  }

  predicate ShownSince(messages: seq<Message>, seen: nat, upload: nat) {
    exists i :: seen <= i < |messages| && Shown(messages[i]) == Some(upload)
  }

  /** A commit whose upload another post has committed since this one looked it up. */
  predicate IsStaleCommit(s: System, step: Step) {
    CommitsUpload(s, step)
    && ShownSince(s.state.messages, s.posts[step.call].seen, s.posts[step.call].draft.attachment.value)
  }

  // ------------------------------------------------------------------ one step

  lemma CommitKeepsUploadsInv(s: System, call: CallId)
    requires SystemInv(s) && call in s.posts && s.posts[call].stage == Commit
    ensures UploadsInv(Advance(s, call).state)
  {
    hide Inv, ChatsAreAccepted, MessagesInv, MembershipError, AreContacts;
    var post := s.posts[call];
    var t := Advance(s, call).state;
    assert PostInv(s.state, post);
    assert Shown(Posted(post.sender, post.chat, post.draft)) == post.draft.attachment;
    assert LinksAreShown(t.attachments, t.messages);
  }

  /** The other posts keep what they know: chats stay, earlier messages keep what they show, owners stay. */
  lemma PostsSurvive(s: State, t: State, post: PendingPost)
    requires PostInv(s, post) && s.tables.chats <= t.tables.chats && s.uploads <= t.uploads
    requires |s.messages| <= |t.messages|
    requires forall i :: 0 <= i < |s.messages| ==> Shown(t.messages[i]) == Shown(s.messages[i])
    requires forall a :: a in t.attachments && a < s.uploads ==>
               a in s.attachments && t.attachments[a].owner == s.attachments[a].owner
    ensures PostInv(t, post)
  {
  }

  lemma ProceedKeepsInv(s: System, call: CallId)
    requires SystemInv(s) && call in s.posts
    ensures SystemInv(Advance(s, call))
  {
    hide Inv, ChatsAreAccepted, ChatIsOpen, UploadsInv;
    var post := s.posts[call];
    assert PostInv(s.state, post);
    if post.stage == Commit {
      var t := Advance(s, call);
      CommitKeepsUploadsInv(s, call);
      assert UploadsInv(s.state);
      forall c | c in t.posts ensures PostInv(t.state, t.posts[c]) {
        PostsSurvive(s.state, t.state, s.posts[c]);
      }
    } else if post.stage == LoadAttachment && AttachmentError(s.state.attachments, post.sender, post.draft).None? {
      UncheckedIsUnshown(s.state, post);
    }
  }

  /** An upload that passes the check is free, and shown by nobody. */
  lemma UncheckedIsUnshown(s: State, post: PendingPost)
    requires UploadsInv(s) && AttachmentError(s.attachments, post.sender, post.draft).None?
    requires post.draft.attachment.Some?
    ensures forall i :: 0 <= i < |s.messages| ==> Shown(s.messages[i]) != post.draft.attachment
    ensures post.draft.attachment.value in s.attachments && post.draft.attachment.value < s.uploads
  {
  }

  lemma OtherKeepsInv(s: System, op: Op)
    requires SystemInv(s) && !op.Post?
    ensures SystemInv(s.(state := ChatServer.Apply(s.state, op)))
  {
    hide Inv, ChatsAreAccepted, AreContacts, PostInv;
    var t := ChatServer.Apply(s.state, op);
    match op {
      case Invite(sender, receiver, active) =>
        if SendRequest(s.state.tables, sender, receiver, active).Ok? {
          InviteStep(s.state.tables, sender, receiver, active);
        }
      case Answer(user, request, accept) =>
        if RespondToRequest(s.state.tables, user, request, accept).Ok? {
          AnswerStep(s.state.tables, user, request, accept);
        }
      case Upload(_) =>
      case DiscardUpload(_) =>
      case Read(_, _, _) =>
    }
    OtherKeepsUploadsInv(s.state, op);
    forall c | c in s.posts ensures PostInv(t, s.posts[c]) {
      PostsSurvive(s.state, t, s.posts[c]);
    }
  }

  lemma ReadKeepsUploadsInv(attachments: map<nat, Attachment>, before: seq<Message>, after: seq<Message>, uploads: nat)
    requires LinksAreShown(attachments, before) && ShownAreTaken(attachments, before, uploads)
    requires |after| == |before|
    requires forall i :: 0 <= i < |before| ==>
               Shown(after[i]) == Shown(before[i]) && after[i].sender == before[i].sender
    ensures LinksAreShown(attachments, after) && ShownAreTaken(attachments, after, uploads)
  {
    hide Shown;
  }

  lemma OtherKeepsUploadsInv(s: State, op: Op)
    requires UploadsInv(s) && !op.Post?
    ensures UploadsInv(ChatServer.Apply(s, op))
    ensures forall i :: 0 <= i < |s.messages| ==> Shown(ChatServer.Apply(s, op).messages[i]) == Shown(s.messages[i])
    ensures |ChatServer.Apply(s, op).messages| == |s.messages|
  {
    hide SendRequest, RespondToRequest, MembershipError, LinksAreShown, ShownAreTaken;
    var t := ChatServer.Apply(s, op);
    match op
    case Upload(owner) => UploadKeepsUploadsInv(s, owner);
    case DiscardUpload(attachment) => DiscardKeepsUploadsInv(s, attachment);
    case Read(_, _, _) => ReadKeepsUploadsInv(s.attachments, s.messages, t.messages, s.uploads);
    case _ =>
  }

  lemma UploadKeepsUploadsInv(s: State, owner: UserId)
    requires UploadsInv(s)
    ensures UploadsInv(ChatServer.Apply(s, Upload(owner)))
  {
    hide Shown;
  }

  lemma DiscardKeepsUploadsInv(s: State, attachment: nat)
    requires UploadsInv(s)
    ensures UploadsInv(ChatServer.Apply(s, DiscardUpload(attachment)))
  {
    hide Shown;
  }

  lemma StepKeepsInv(s: System, step: Step)
    requires SystemInv(s) && Enabled(s, step)
    ensures SystemInv(Apply(s, step))
  {
    hide Inv, ChatsAreAccepted, MessagesInv, UploadsInv, Advance;
    match step
    case Start(_, _, _, _) =>
    case Proceed(call) => ProceedKeepsInv(s, call);
    case Service(op) => OtherKeepsInv(s, op);
  }

  // ------------------------------------------------------------------ when an upload is shown twice

  /** Messages show what they showed, a commit of an upload adds one that shows it, and nothing else shows any. */
  lemma StepShows(s: System, step: Step)
    requires SystemInv(s) && Enabled(s, step)
    ensures var before, after := s.state.messages, Apply(s, step).state.messages;
            && |before| <= |after| <= |before| + 1
            && (forall i :: 0 <= i < |before| ==> Shown(after[i]) == Shown(before[i]))
            && (|after| > |before| ==> step.Proceed? && step.call in s.posts && s.posts[step.call].stage == Commit
                                       && Shown(after[|before|]) == s.posts[step.call].draft.attachment)
            && (CommitsUpload(s, step) ==> |after| > |before|)
  {
    hide Inv, ChatsAreAccepted, MessagesInv, UploadsInv;
    match step
    case Start(_, _, _, _) =>
    case Service(op) => hide SendRequest, RespondToRequest;
    case Proceed(call) => assert PostInv(s.state, s.posts[call]);
  }

  /**
   A commit makes its upload shown twice exactly when another post has committed it since this one
   looked it up; and, unless it was discarded, exactly when it is linked already.
   */
  lemma CommitShowsTwiceExactly(s: System, step: Step)
    requires SystemInv(s) && Enabled(s, step) && CommitsUpload(s, step)
    ensures var a, n := s.posts[step.call].draft.attachment.value, |s.state.messages|;
            var t := Apply(s, step).state;
            && |t.messages| == n + 1 && Shown(t.messages[n]) == Some(a)
            && ((exists i :: 0 <= i < n && Shown(t.messages[i]) == Some(a)) <==> IsStaleCommit(s, step))
            && (a in s.state.attachments ==>
                  (IsStaleCommit(s, step) <==> s.state.attachments[a].message.Some?))
  {
    hide Inv, ChatsAreAccepted, MessagesInv, Advance;
    StepShows(s, step);
    var post := s.posts[step.call];
    var a := post.draft.attachment.value;
    assert PostInv(s.state, post);
    var t := Apply(s, step).state;
    if i :| 0 <= i < |s.state.messages| && Shown(t.messages[i]) == Some(a) {
      assert Shown(s.state.messages[i]) == Some(a);
    }
    if IsStaleCommit(s, step) {
      var i :| post.seen <= i < |s.state.messages| && Shown(s.state.messages[i]) == Some(a);
      assert Shown(t.messages[i]) == Some(a);
    }
  }

  /** The commit stores what the draft says, and no stretch of any post touches an earlier message. */
  lemma CommitStoresTheDraft(s: System, step: Step)
    requires SystemInv(s) && Enabled(s, step) && !step.Service?
    ensures var before, after := s.state.messages, Apply(s, step).state.messages;
            if step.Proceed? && s.posts[step.call].stage == Commit then
              var PendingPost(_, sender, chat, d, _) := s.posts[step.call];
              after == before + [Message(chat, sender, if d.content.Some? then d.content.value else "", d.kind,
                                         if d.kind == Text then None else d.media, None)]
            else after == before
  {
    hide SystemInv, ChatIsOpen, MembershipError;
  }

  lemma ShownOnceStep(s: System, step: Step)
    requires SystemInv(s) && Enabled(s, step)
    ensures ShownOnce(Apply(s, step).state.messages) <==> ShownOnce(s.state.messages) && !IsStaleCommit(s, step)
  {
    hide SystemInv, Apply;
    StepShows(s, step);
    var before, after := s.state.messages, Apply(s, step).state.messages;
    if CommitsUpload(s, step) {
      CommitShowsTwiceExactly(s, step);
    }
    if ShownOnce(after) {
      forall i, j | 0 <= i < j < |before| && Shown(before[i]).Some? ensures Shown(before[j]) != Shown(before[i]) {
        assert Shown(after[i]) == Shown(before[i]) && Shown(after[j]) == Shown(before[j]);
      }
    }
  }

  ghost predicate ValidRun(s: System, steps: seq<Step>)
    decreases |steps|
  {
    steps == [] || (Enabled(s, steps[0]) && ValidRun(Apply(s, steps[0]), steps[1..]))
  }

  function After(s: System, steps: seq<Step>): System
    requires ValidRun(s, steps)
    decreases |steps|
  {
    if steps == [] then s else After(Apply(s, steps[0]), steps[1..])
  }

  ghost predicate NoStaleCommit(s: System, steps: seq<Step>)
    requires ValidRun(s, steps)
    decreases |steps|
  {
    steps == [] || (!IsStaleCommit(s, steps[0]) && NoStaleCommit(Apply(s, steps[0]), steps[1..]))
  }

  lemma {:induction false} RunShowsOnceExactly(s: System, steps: seq<Step>)
    requires SystemInv(s) && ValidRun(s, steps)
    ensures SystemInv(After(s, steps))
    ensures ShownOnce(After(s, steps).state.messages) <==> ShownOnce(s.state.messages) && NoStaleCommit(s, steps)
    decreases |steps|
  {
    hide SystemInv, Apply, ShownOnce, IsStaleCommit;
    if steps != [] {
      StepKeepsInv(s, steps[0]);
      ShownOnceStep(s, steps[0]);
      RunShowsOnceExactly(Apply(s, steps[0]), steps[1..]);
    }
  }

  /** In every interleaving each upload is shown by one message at most exactly as long as no commit was stale. */
  lemma UploadsAreShownOnceExactly(steps: seq<Step>)
    requires ValidRun(START, steps)
    ensures ShownOnce(After(START, steps).state.messages) <==> NoStaleCommit(START, steps)
  {
    RunShowsOnceExactly(START, steps);
  }

  // ------------------------------------------------------------------ the link moves

  /**
   A stale commit moves the link: from then on the upload is served to the participants of the new
   chat only. The other side of the first chat, where the message still shows it, is refused.
   */
  lemma StaleCommitMovesTheLink(s: System, step: Step, user: UserId)
    requires SystemInv(s) && Enabled(s, step) && IsStaleCommit(s, step)
    requires s.posts[step.call].draft.attachment.value in s.state.attachments
    ensures var post, t := s.posts[step.call], Apply(s, step).state;
            var a := post.draft.attachment.value;
            var link := s.state.attachments[a].message;
            && link.Some? && link.value < |s.state.messages| && Shown(t.messages[link.value]) == Some(a)
            && var first := s.state.messages[link.value].chat;
               && first < |t.tables.chats| && post.chat < |t.tables.chats|
               && (CanFetch(s.state, user, a) <==> IsParticipant(t.tables.chats[first], user))
               && (CanFetch(t, user, a) <==> IsParticipant(t.tables.chats[post.chat], user))
               && (first != post.chat && user == OtherParticipant(t.tables.chats[first], post.sender) ==>
                     CanFetch(s.state, user, a) && !CanFetch(t, user, a))
  {
    hide ChatsAreAccepted, Advance, ShownSince;
    CommitShowsTwiceExactly(s, step);
    StepShows(s, step);
    var post := s.posts[step.call];
    assert PostInv(s.state, post);
    CommitLinks(s, step.call);
  }

  lemma CommitLinks(s: System, call: CallId)
    requires call in s.posts && s.posts[call].stage == Commit && s.posts[call].draft.attachment.Some?
    requires s.posts[call].draft.attachment.value in s.state.attachments
    ensures var post, t := s.posts[call], Advance(s, call).state;
            && t.attachments[post.draft.attachment.value].message == Some(|s.state.messages|)
            && t.messages == s.state.messages + [Posted(post.sender, post.chat, post.draft)]
            && t.tables == s.state.tables && post.draft.attachment.value in t.attachments
  {
  }

  // ------------------------------------------------------------------ a run

  lemma NoSteps(s: System)
    ensures ValidRun(s, []) && After(s, []) == s
  {
  }

  lemma RunCons(s: System, step: Step, next: System, rest: seq<Step>)
    requires Enabled(s, step) && Apply(s, step) == next && ValidRun(next, rest)
    ensures ValidRun(s, [step] + rest) && After(s, [step] + rest) == After(next, rest)
  {
    assert ([step] + rest)[1..] == rest;
  }

  /** A post up to its transaction. */
  function LookingUp(call: CallId, sender: UserId, chat: nat, d: Draft, rest: seq<Step>): seq<Step> {
    [Start(call, sender, chat, d)] + ([Proceed(call)] + ([Proceed(call)] + ([Proceed(call)] + rest)))
  }

  /** A post of an upload that the atomic call would take reaches its transaction. */
  lemma LookingUpRuns(s: System, call: CallId, sender: UserId, chat: nat, d: Draft, rest: seq<Step>)
    requires call !in s.posts && SendMessageError(s.state, sender, chat, d).None? && d.attachment.Some?
    requires ValidRun(Suspend(s, call, PendingPost(Commit, sender, chat, d, |s.state.messages|)), rest)
    ensures var ready := Suspend(s, call, PendingPost(Commit, sender, chat, d, |s.state.messages|));
            var run := LookingUp(call, sender, chat, d, rest);
            ValidRun(s, run) && After(s, run) == After(ready, rest)
  {
    hide ValidRun, After, AreContacts, DraftError, AttachmentError, MembershipError;
    var post := PendingPost(FindChat, sender, chat, d, 0);
    var s1 := Suspend(s, call, post);
    var s2 := Suspend(s, call, post.(stage := CheckContacts));
    var s3 := Suspend(s, call, post.(stage := LoadAttachment));
    var s4 := Suspend(s, call, post.(stage := Commit, seen := |s.state.messages|));
    ChatOfPost(s.state, sender, chat, d);
    RunCons(s3, Proceed(call), s4, rest);
    RunCons(s2, Proceed(call), s3, [Proceed(call)] + rest);
    RunCons(s1, Proceed(call), s2, [Proceed(call)] + ([Proceed(call)] + rest));
    RunCons(s, Start(call, sender, chat, d), s1, [Proceed(call)] + ([Proceed(call)] + ([Proceed(call)] + rest)));
  }

  lemma ChatOfPost(s: State, sender: UserId, chat: nat, d: Draft)
    requires SendMessageError(s, sender, chat, d).None?
    ensures MembershipError(s.tables, sender, chat).None? && ChatIsOpen(s.tables, chat)
    ensures DraftError(d).None? && AttachmentError(s.attachments, sender, d).None?
  {
  }

  function Racing(x: CallId, y: CallId, sender: UserId, one: nat, other: nat, d: Draft): seq<Step> {
    LookingUp(x, sender, one, d, LookingUp(y, sender, other, d, [Proceed(x)] + ([Proceed(y)] + [])))
  }

  /** Wherever a user may post an upload to two chats, two interleaved posts put it in both. */
  lemma TwoPostsRace(s: System, x: CallId, y: CallId, sender: UserId, one: nat, other: nat, d: Draft)
    requires x !in s.posts && y !in s.posts && x != y && d.attachment.Some?
    requires SendMessageError(s.state, sender, one, d).None? && SendMessageError(s.state, sender, other, d).None?
    ensures var run := Racing(x, y, sender, one, other, d);
            ValidRun(s, run)
            && After(s, run).state == CommitPost(CommitPost(s.state, sender, one, d), sender, other, d)
  {
    hide ValidRun, After, SendMessageError, CommitPost, LookingUp;
    var n := |s.state.messages|;
    var first := PendingPost(Commit, sender, one, d, n);
    var second := PendingPost(Commit, sender, other, d, n);
    var s1 := Suspend(s, x, first);
    var s2 := Suspend(s1, y, second);
    var s3 := End(s2, x).(state := CommitPost(s.state, sender, one, d));
    var s4 := End(s3, y).(state := CommitPost(s3.state, sender, other, d));
    assert s3.posts[y] == second;
    NoSteps(s4);
    RunCons(s3, Proceed(y), s4, []);
    RunCons(s2, Proceed(x), s3, [Proceed(y)] + []);
    LookingUpRuns(s1, y, sender, other, d, [Proceed(x)] + ([Proceed(y)] + []));
    LookingUpRuns(s, x, sender, one, d, LookingUp(y, sender, other, d, [Proceed(x)] + ([Proceed(y)] + [])));
  }

  /** User 1 invites users 2 and 3, who accept, and uploads a file. */
  const INVITED := EMPTY.(tables := Tables([Request(1, 2, Pending)], []))
  const ONE_CONTACT := EMPTY.(tables := Tables([Request(1, 2, Accepted)], [Chat(1, 2)]))
  const INVITED_AGAIN := EMPTY.(tables := Tables([Request(1, 2, Accepted), Request(1, 3, Pending)], [Chat(1, 2)]))
  const TWO_CONTACTS :=
    EMPTY.(tables := Tables([Request(1, 2, Accepted), Request(1, 3, Accepted)], [Chat(1, 2), Chat(1, 3)]))
  const PREPARED := TWO_CONTACTS.(attachments := map[0 := Attachment(1, None)], uploads := 1)

  function Preparing(rest: seq<Step>): seq<Step> {
    [Service(Invite(1, 2, true))] + ([Service(Answer(2, 0, true))] + ([Service(Invite(1, 3, true))]
      + ([Service(Answer(3, 1, true))] + ([Service(Upload(1))] + rest))))
  }

  lemma FirstContact()
    ensures ChatServer.Apply(EMPTY, Invite(1, 2, true)) == INVITED
    ensures ChatServer.Apply(INVITED, Answer(2, 0, true)) == ONE_CONTACT
  {
    assert EMPTY.tables.requests + [Request(1, 2, Pending)] == [Request(1, 2, Pending)];
    assert INVITED.tables.requests[0 := Request(1, 2, Accepted)] == [Request(1, 2, Accepted)];
    assert INVITED.tables.chats + [Chat(1, 2)] == [Chat(1, 2)];
  }

  lemma SecondContact()
    ensures ChatServer.Apply(ONE_CONTACT, Invite(1, 3, true)) == INVITED_AGAIN
    ensures ChatServer.Apply(INVITED_AGAIN, Answer(3, 1, true)) == TWO_CONTACTS
  {
    var requests := INVITED_AGAIN.tables.requests;
    assert ONE_CONTACT.tables.requests + [Request(1, 3, Pending)] == requests;
    assert requests[1 := Request(1, 3, Accepted)] == TWO_CONTACTS.tables.requests;
    assert INVITED_AGAIN.tables.chats + [Chat(1, 3)] == TWO_CONTACTS.tables.chats;
  }

  lemma UploadStores()
    ensures ChatServer.Apply(TWO_CONTACTS, Upload(1)) == PREPARED
  {
  }

  lemma PreparingRuns(rest: seq<Step>)
    requires ValidRun(System(PREPARED, map[]), rest)
    ensures ValidRun(START, Preparing(rest)) && After(START, Preparing(rest)) == After(System(PREPARED, map[]), rest)
  {
    hide ValidRun, After, ChatServer.Apply;
    FirstContact();
    SecondContact();
    var uploading := [Service(Upload(1))] + rest;
    var answering := [Service(Answer(3, 1, true))] + uploading;
    var inviting := [Service(Invite(1, 3, true))] + answering;
    UploadStores();
    RunCons(System(TWO_CONTACTS, map[]), Service(Upload(1)), System(PREPARED, map[]), rest);
    RunCons(System(INVITED_AGAIN, map[]), Service(Answer(3, 1, true)), System(TWO_CONTACTS, map[]), uploading);
    RunCons(System(ONE_CONTACT, map[]), Service(Invite(1, 3, true)), System(INVITED_AGAIN, map[]), answering);
    RunCons(System(INVITED, map[]), Service(Answer(2, 0, true)), System(ONE_CONTACT, map[]), inviting);
    RunCons(START, Service(Invite(1, 2, true)), System(INVITED, map[]), [Service(Answer(2, 0, true))] + inviting);
  }

  const PICTURE := Draft(None, Image, Some(Internal(0)), Some(0))

  /**
   A run: user 1 posts one picture to users 2 and 3 at once. Both chats show it, the upload is linked
   to the second message, and user 2, whose chat still shows it, is not served the picture.
   */
  lemma OneUploadInTwoChats()
    ensures var run := Preparing(Racing(0, 1, 1, 0, 1, PICTURE));
            && ValidRun(START, run)
            && var s := After(START, run).state;
               && |s.messages| == 2 && s.messages[0].chat == 0 && s.messages[1].chat == 1
               && Shown(s.messages[0]) == Shown(s.messages[1]) == Some(0)
               && s.tables.chats == [Chat(1, 2), Chat(1, 3)]
               && CanFetch(s, 1, 0) && CanFetch(s, 3, 0) && !CanFetch(s, 2, 0)
  {
    hide ValidRun, After, Preparing, Racing, AreContacts;
    PictureMayBePosted();
    var racing := Racing(0, 1, 1, 0, 1, PICTURE);
    TwoPostsRace(System(PREPARED, map[]), 0, 1, 1, 0, 1, PICTURE);
    PreparingRuns(racing);
  }

  lemma PictureMayBePosted()
    ensures SendMessageError(PREPARED, 1, 0, PICTURE).None? && SendMessageError(PREPARED, 1, 1, PICTURE).None?
  {
    var requests := PREPARED.tables.requests;
    assert requests[0] == Request(1, 2, Accepted) && requests[1] == Request(1, 3, Accepted);
  }

  // ------------------------------------------------------------------ the atomic call

  /** How many stretches a post has left at most. */
  function Left(s: System, call: CallId): nat {
    if call !in s.posts then 0 else
    match s.posts[call].stage
    case FindChat => 4
    case CheckContacts => 3
    case LoadAttachment => 2
    case Commit => 1
  }

  /** The post runs to its end, one stretch after the other. */
  function Complete(s: System, call: CallId): System
    decreases Left(s, call)
  {
    if call in s.posts then Complete(Advance(s, call), call) else s
  }

  lemma CompleteCommit(s: System, call: CallId, post: PendingPost)
    requires call !in s.posts && post.stage == Commit
    ensures Complete(Suspend(s, call, post), call)
         == s.(state := CommitPost(s.state, post.sender, post.chat, post.draft))
  {
    hide CommitPost;
    assert Advance(Suspend(s, call, post), call).posts == s.posts;
  }

  lemma CompleteLookup(s: System, call: CallId, post: PendingPost)
    requires call !in s.posts && post.stage == LoadAttachment
    ensures Complete(Suspend(s, call, post), call)
         == if AttachmentError(s.state.attachments, post.sender, post.draft).Some? then s
            else s.(state := CommitPost(s.state, post.sender, post.chat, post.draft))
  {
    hide CommitPost, AttachmentError;
    var next := Advance(Suspend(s, call, post), call);
    if AttachmentError(s.state.attachments, post.sender, post.draft).Some? {
      assert next.posts == s.posts;
    } else {
      var ready := post.(stage := Commit, seen := |s.state.messages|);
      assert next == Suspend(s, call, ready);
      CompleteCommit(s, call, ready);
    }
  }

  /** A post that runs without interruption is the atomic service call, in its refusals as well. */
  lemma UninterruptedPost(s: System, call: CallId, sender: UserId, chat: nat, d: Draft)
    requires call !in s.posts
    ensures Complete(Apply(s, Start(call, sender, chat, d)), call)
         == s.(state := ChatServer.Apply(s.state, Post(sender, chat, d)))
  {
    hide CommitPost, AttachmentError, DraftError, AreContacts, MembershipError;
    var post := PendingPost(FindChat, sender, chat, d, 0);
    var s1 := Suspend(s, call, post);
    var s2 := Advance(s1, call);
    assert Complete(s1, call) == Complete(s2, call);
    if MembershipError(s.state.tables, sender, chat).Some? {
      assert s2.posts == s.posts;
    } else {
      MembersOfChats(s.state.tables, sender, chat);
      var s3 := Advance(s2, call);
      assert Complete(s2, call) == Complete(s3, call);
      if !ChatIsOpen(s.state.tables, chat) || DraftError(d).Some? {
        assert s3.posts == s.posts;
      } else if d.attachment.Some? {
        assert s3 == Suspend(s, call, post.(stage := LoadAttachment));
        CompleteLookup(s, call, post.(stage := LoadAttachment));
      } else {
        assert s3 == Suspend(s, call, post.(stage := Commit));
        CompleteCommit(s, call, post.(stage := Commit));
        NoUploadNoError(s.state.attachments, sender, d);
      }
    }
  }

  lemma MembersOfChats(t: Tables, user: UserId, chat: nat)
    requires MembershipError(t, user, chat).None?
    ensures chat < |t.chats|
  {
  }

  lemma NoUploadNoError(attachments: map<nat, Attachment>, sender: UserId, d: Draft)
    requires d.attachment.None?
    ensures AttachmentError(attachments, sender, d).None?
  {
  }
}
