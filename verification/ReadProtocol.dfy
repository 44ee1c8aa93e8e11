/**
 Opening a chat cut at its awaits: the unread messages are looked up first and marked later. Any
 number of such calls, and of other service calls, these atomic, run in between.
 */
module ReadProtocol {
  import opened ContactTables
  import opened ChatServer
  import opened ChatRuns

  type CallId = nat

  /** The await a call is suspended at. */
  datatype Stage = FindChat | FindUnread | Update

  /** `reported` is what the call has found and will return; `seen`, history, are the messages it found it in. */
  datatype Reading = Reading(stage: Stage, user: UserId, chat: nat, reported: seq<nat>, seen: seq<Message>)

  datatype System = System(state: State, readings: map<CallId, Reading>)

  const START := System(EMPTY, map[])

  datatype Step =
    | Open(call: CallId, user: UserId, chat: nat)
    | Proceed(call: CallId, now: nat)
    | Service(op: Op)

  predicate Enabled(s: System, step: Step) {
    match step
    case Open(call, _, _) => call !in s.readings
    case Proceed(call, _) => call in s.readings
    case Service(op) => !op.Read?
  }

  function Suspend(s: System, call: CallId, reading: Reading): System {
    s.(readings := s.readings[call := reading])
  }

  function End(s: System, call: CallId): System {
    s.(readings := s.readings - {call})
  }

  /** The ids a lookup of this call finds. */
  function Found(s: State, r: Reading): seq<nat> {
    if r.chat >= |s.tables.chats| then [] else
    UnreadIds(s.messages, r.chat, OtherParticipant(s.tables.chats[r.chat], r.user))
  }

  /** The stretch of a call after one of its awaits. */
  function Advance(s: System, call: CallId, now: nat): System
    requires call in s.readings
  {
    var r := s.readings[call];
    match r.stage
    case FindChat =>
      if MembershipError(s.state.tables, r.user, r.chat).Some? then End(s, call)
      else Suspend(s, call, r.(stage := FindUnread))
    case FindUnread =>
      if Found(s.state, r) == [] then End(s, call)
      else Suspend(s, call, r.(stage := Update, reported := Found(s.state, r), seen := s.state.messages))
    case Update => End(s, call).(state := ChatServer.Apply(s.state, Read(r.user, r.chat, now)))
  }

  function Apply(s: System, step: Step): System
    requires Enabled(s, step)
  {
    match step
    case Open(call, user, chat) => Suspend(s, call, Reading(FindChat, user, chat, [], []))
    case Proceed(call, now) => Advance(s, call, now)
    case Service(op) => s.(state := ChatServer.Apply(s.state, op))
  }

  // ------------------------------------------------------------------ what every interleaving keeps

  /** A call about to mark knows what was unread when it looked, in messages that have only grown since. */
  ghost predicate ReadingInv(s: State, r: Reading) {
    && (r.stage != FindChat ==> MembershipError(s.tables, r.user, r.chat).None?)
    && (r.stage == Update ==>
          && r.reported == UnreadIds(r.seen, r.chat, OtherParticipant(s.tables.chats[r.chat], r.user))
          && r.reported != [] && MessagesGrow(r.seen, s.messages))
  }

  ghost predicate SystemInv(s: System) {
    StateInv(s.state) && forall c :: c in s.readings ==> ReadingInv(s.state, s.readings[c])
  }

  lemma ReadingSurvives(s: State, t: State, r: Reading)
    requires ReadingInv(s, r) && Grows(s, t)
    ensures ReadingInv(t, r)
  {
  }

  /** A step that makes the tables grow keeps what the suspended calls know. */
  lemma GrowthKeepsInv(s: System, t: System)
    requires SystemInv(s) && StateInv(t.state) && Grows(s.state, t.state)
    requires forall c :: c in t.readings ==> c in s.readings && t.readings[c] == s.readings[c]
    ensures SystemInv(t)
  {
    hide StateInv, Grows, ReadingInv;
    forall c | c in t.readings ensures ReadingInv(t.state, t.readings[c]) {
      ReadingSurvives(s.state, t.state, s.readings[c]);
    }
  }

  lemma StepKeepsInv(s: System, step: Step)
    requires SystemInv(s) && Enabled(s, step)
    ensures SystemInv(Apply(s, step)) && Grows(s.state, Apply(s, step).state)
  {
    hide StateInv, Grows, ChatServer.Apply, MembershipError;
    GrowsReflexively(s.state);
    match step
    case Open(_, _, _) =>
    case Service(op) =>
      ChatRuns.StepKeepsInv(s.state, op);
      GrowthKeepsInv(s, Apply(s, step));
    case Proceed(call, now) =>
      var r := s.readings[call];
      assert ReadingInv(s.state, r);
      if r.stage == Update {
        ChatRuns.StepKeepsInv(s.state, Read(r.user, r.chat, now));
        GrowthKeepsInv(s, Apply(s, step));
      } else if r.stage == FindUnread {
        FoundInTheChat(s.state, r);
      }
  }

  lemma FoundInTheChat(s: State, r: Reading)
    requires MembershipError(s.tables, r.user, r.chat).None?
    ensures r.chat < |s.tables.chats| && MessagesGrow(s.messages, s.messages)
  {
  }

  ghost predicate ValidRun(s: System, steps: seq<Step>)
    decreases |steps|
  {
    steps == [] || (Enabled(s, steps[0]) && ValidRun(Apply(s, steps[0]), steps[1..]))
  }

  function After(s: System, steps: seq<Step>): System
    requires ValidRun(s, steps)
    decreases |steps|
  {
    if steps == [] then s else After(Apply(s, steps[0]), steps[1..])
  }

  lemma {:induction false} RunKeepsInv(s: System, steps: seq<Step>)
    requires SystemInv(s) && ValidRun(s, steps)
    ensures SystemInv(After(s, steps)) && Grows(s.state, After(s, steps).state)
    decreases |steps|
  {
    hide SystemInv, Apply, Grows;
    if steps == [] {
      GrowsReflexively(s.state);
    } else {
      StepKeepsInv(s, steps[0]);
      RunKeepsInv(Apply(s, steps[0]), steps[1..]);
      GrowsTransitively(s.state, Apply(s, steps[0]).state, After(s, steps).state);
    }
  }

  lemma StartInv()
    ensures SystemInv(START)
  {
  }

  // ------------------------------------------------------------------ what is reported and what is marked

  /** The messages a step marks as read. */
  ghost function Marked(s: State, t: State): set<nat> {
    set i | 0 <= i < |s.messages| && i < |t.messages| && s.messages[i].readAt.None? && t.messages[i].readAt.Some?
  }

  /** The call is about to mark what it has found. */
  predicate IsMarking(s: System, call: CallId) {
    call in s.readings && s.readings[call].stage == Update
  }

  /** The counterpart has posted to the chat since the call looked. */
  predicate PostedSince(s: State, r: Reading) {
    exists i :: |r.seen| <= i < |s.messages| && i in Found(s, r)
  }

  /** Another call has marked a message this one has found. */
  predicate ReadSince(s: State, r: Reading) {
    exists i :: i in r.reported && i < |s.messages| && s.messages[i].readAt.Some?
  }

  lemma MarkedAreFound(s: State, r: Reading, now: nat)
    requires MembershipError(s.tables, r.user, r.chat).None?
    ensures Marked(s, ChatServer.Apply(s, Read(r.user, r.chat, now))) == Elements(Found(s, r))
  {
    UnreadIdsAreTheUnread(s.messages, r.chat, OtherParticipant(s.tables.chats[r.chat], r.user));
  }

  /**
   A call returns exactly the messages it marks as read if and only if, since it looked, the counterpart
   has posted nothing to the chat and no other call has marked what it found.
   */
  lemma ReportsWhatItMarksExactly(s: System, call: CallId, now: nat)
    requires SystemInv(s) && IsMarking(s, call)
    ensures var r := s.readings[call];
            Elements(r.reported) == Marked(s.state, Apply(s, Proceed(call, now)).state)
            <==> !PostedSince(s.state, r) && !ReadSince(s.state, r)
  {
    hide StateInv, ChatServer.Apply, MembershipError, UnreadIds, Marked;
    var r := s.readings[call];
    assert ReadingInv(s.state, r);
    FoundInTheChat(s.state, r);
    MarkedAreFound(s.state, r, now);
    var other := OtherParticipant(s.state.tables.chats[r.chat], r.user);
    UnreadIdsAreTheUnread(s.state.messages, r.chat, other);
    UnreadIdsAreTheUnread(r.seen, r.chat, other);
    var found := Found(s.state, r);
    if !PostedSince(s.state, r) && !ReadSince(s.state, r) {
      assert forall i :: i in found ==> i in r.reported;
      assert forall i :: i in r.reported ==> i in found;
    }
    if Elements(r.reported) == Elements(found) {
      assert forall i :: i in found ==> i in Elements(found);
      assert forall i :: i in r.reported ==> i in Elements(r.reported);
    }
  }

  /** What a call returns is read from then on, so no later lookup finds it again. */
  lemma ReportedOnceMarked(s: System, call: CallId, now: nat, more: seq<Step>, later: Reading)
    requires SystemInv(s) && IsMarking(s, call) && ValidRun(Apply(s, Proceed(call, now)), more)
    ensures var t := After(Apply(s, Proceed(call, now)), more).state;
            && (forall i :: i in s.readings[call].reported ==> i < |t.messages| && t.messages[i].readAt.Some?)
            && (forall i :: i in s.readings[call].reported ==> i !in Found(t, later))
  {
    hide StateInv, UnreadIds, ValidRun, After, UploadsGrow, TablesGrow;
    var r := s.readings[call];
    assert ReadingInv(s.state, r);
    StepKeepsInv(s, Proceed(call, now));
    RunKeepsInv(Apply(s, Proceed(call, now)), more);
  }

  // ------------------------------------------------------------------ an uninterrupted call

  lemma NothingToMark(s: State, r: Reading, now: nat)
    requires MembershipError(s.tables, r.user, r.chat).None? && Found(s, r) == []
    ensures ChatServer.Apply(s, Read(r.user, r.chat, now)) == s
  {
    var other := OtherParticipant(s.tables.chats[r.chat], r.user);
    UnreadIdsAreTheUnread(s.messages, r.chat, other);
    assert ReadAll(s.messages, r.chat, other, now) == s.messages;
  }

  lemma EndForgets(s: System, call: CallId, r: Reading)
    requires call !in s.readings
    ensures End(Suspend(s, call, r), call) == s
  {
    assert s.readings[call := r] - {call} == s.readings;
  }

  /** Undisturbed, a call does what the atomic one does: it returns its badge and marks just that. */
  lemma UninterruptedRead(s: System, call: CallId, user: UserId, chat: nat, now: nat)
    requires SystemInv(s) && call !in s.readings
    ensures var begun := Apply(s, Open(call, user, chat));
            var found := Advance(begun, call, now);
            if MembershipError(s.state.tables, user, chat).Some? then found == s
            else
              var looked := Advance(found, call, now);
              if Unread(s.state, user, chat) == {} then
                looked == s && ChatServer.Apply(s.state, Read(user, chat, now)) == s.state
              else
                && IsMarking(looked, call) && Elements(looked.readings[call].reported) == Unread(s.state, user, chat)
                && Advance(looked, call, now) == s.(state := ChatServer.Apply(s.state, Read(user, chat, now)))
                && Marked(s.state, Advance(looked, call, now).state) == Unread(s.state, user, chat)
  {
    hide StateInv, ChatServer.Apply, MembershipError, UnreadIds, Marked;
    EndForgets(s, call, Reading(FindChat, user, chat, [], []));
    if MembershipError(s.state.tables, user, chat).None? {
      var r := Reading(FindUnread, user, chat, [], []);
      EndForgets(s, call, r);
      EndForgets(s, call, Reading(Update, user, chat, Found(s.state, r), s.state.messages));
      FoundInTheChat(s.state, r);
      ReportedIsTheBadge(s.state, user, chat);
      MarkedAreFound(s.state, r, now);
      if Found(s.state, r) == [] {
        NothingToMark(s.state, r, now);
      } else {
        assert Found(s.state, r)[0] in Elements(Found(s.state, r));
      }
    }
  }

  /** A message the counterpart posts in between is marked as read, and the call does not report it. */
  lemma LateMessageIsNotReported(s: System, call: CallId, d: Draft, now: nat)
    requires SystemInv(s) && IsMarking(s, call)
    requires var r := s.readings[call];
             SendMessage(s.state, OtherParticipant(s.state.tables.chats[r.chat], r.user), r.chat, d).Ok?
    ensures var r := s.readings[call];
            var posted := Apply(s, Service(Post(OtherParticipant(s.state.tables.chats[r.chat], r.user), r.chat, d)));
            var late := |s.state.messages|;
            && late < |posted.state.messages| && late !in r.reported
            && late in Marked(posted.state, Apply(posted, Proceed(call, now)).state)
  {
  }
}
