/**
 Contact requests with every service call cut at its awaits: lookups see the tables of the moment,
 writes happen later, and any number of calls run in between. The response transaction is atomic.
 */
module ContactProtocol {
  import opened ContactTables

  type CallId = nat

  /** What a suspended call is about to do. */
  datatype Phase =
    | FindReceiver(sender: UserId, receiver: UserId)
    | FindExisting(sender: UserId, receiver: UserId)
    | Insert(sender: UserId, receiver: UserId)
    | Reactivate(request: nat)
    | LoadRequest(user: UserId, wanted: nat, answer: Status)
    | Commit(request: nat, answer: Status)

  datatype System = System(tables: Tables, calls: map<CallId, Phase>)

  const EMPTY := System(Tables([], []), map[])

  datatype Step =
    | Send(call: CallId, sender: UserId, receiver: UserId)
    | Respond(call: CallId, user: UserId, request: nat, answer: Status)
    | Proceed(call: CallId, receiverActive: bool)

  /** A new call gets an id of its own; the endpoint only passes on `accepted` and `declined`. */
  predicate Enabled(s: System, step: Step) {
    match step
    case Send(call, _, _) => call !in s.calls
    case Respond(call, _, _, answer) => call !in s.calls && answer != Pending
    case Proceed(call, _) => call in s.calls
  }

  function Finish(s: System, call: CallId): System {
    s.(calls := s.calls - {call})
  }

  function Continue(s: System, call: CallId, phase: Phase): System {
    s.(calls := s.calls[call := phase])
  }

  /** The next stretch of a call: one query or write, and the code up to the following await. */
  function Apply(s: System, step: Step): System
    requires Enabled(s, step)
    requires InRange(s)
  {
    match step
    case Send(call, sender, receiver) =>
      if receiver == sender then s else Continue(s, call, FindReceiver(sender, receiver))
    case Respond(call, user, request, answer) => Continue(s, call, LoadRequest(user, request, answer))
    case Proceed(call, receiverActive) =>
      match s.calls[call]
      case FindReceiver(sender, receiver) =>
        if receiverActive then Continue(s, call, FindExisting(sender, receiver)) else Finish(s, call)
      case FindExisting(sender, receiver) =>
        var existing := FindRequest(s.tables.requests, sender, receiver);
        if existing.None? then Continue(s, call, Insert(sender, receiver))
        else if s.tables.requests[existing.value].status == Declined then Continue(s, call, Reactivate(existing.value))
        else Finish(s, call)
      case Insert(sender, receiver) =>
        var inserted := InsertRequest(s.tables, sender, receiver);
        Finish(s, call).(tables := if inserted.Some? then inserted.value else s.tables)
      case Reactivate(request) => Finish(s, call).(tables := SetStatus(s.tables, request, Pending))
      case LoadRequest(user, wanted, answer) =>
        if wanted < |s.tables.requests| && s.tables.requests[wanted].receiver == user
           && s.tables.requests[wanted].status == Pending
        then Continue(s, call, Commit(wanted, answer)) else Finish(s, call)
      case Commit(request, answer) => Finish(s, call).(tables := CommitResponse(s.tables, request, answer))
  }

  /** Rows that suspended calls refer to exist. */
  predicate InRange(s: System) {
    && (forall c :: c in s.calls && s.calls[c].Reactivate? ==> s.calls[c].request < |s.tables.requests|)
    && (forall c :: c in s.calls && s.calls[c].Commit? ==>
          s.calls[c].request < |s.tables.requests| && s.calls[c].answer != Pending)
    && (forall c :: c in s.calls && s.calls[c].LoadRequest? ==> s.calls[c].answer != Pending)
  }

  ghost predicate SystemInv(s: System) {
    InRange(s) && Inv(s.tables)
  }

  lemma StepKeepsInv(s: System, step: Step)
    requires SystemInv(s) && Enabled(s, step)
    ensures SystemInv(Apply(s, step))
    ensures |s.tables.requests| <= |Apply(s, step).tables.requests|
  {
    hide Inv;
    if step.Proceed? {
      match s.calls[step.call]
      case Insert(sender, receiver) =>
        if InsertRequest(s.tables, sender, receiver).Some? {
          InsertKeepsInv(s.tables, sender, receiver);
        }
      case Reactivate(request) => SetStatusKeepsInv(s.tables, request, Pending);
      case Commit(request, answer) => CommitKeepsInv(s.tables, request, answer);
      case _ =>
    }
  }

  ghost predicate ValidRun(s: System, steps: seq<Step>)
    requires SystemInv(s)
    decreases |steps|
  {
    steps == [] || (Enabled(s, steps[0]) && (StepKeepsInv(s, steps[0]); ValidRun(Apply(s, steps[0]), steps[1..])))
  }

  ghost function After(s: System, steps: seq<Step>): (t: System)
    requires SystemInv(s) && ValidRun(s, steps)
    ensures SystemInv(t)
    decreases |steps|
  {
    if steps == [] then s else
    StepKeepsInv(s, steps[0]);
    After(Apply(s, steps[0]), steps[1..])
  }

  /** However the calls interleave: the constraints of both tables, and a chat behind every acceptance. */
  lemma EveryInterleaving(steps: seq<Step>)
    requires ValidRun(EMPTY, steps)
    ensures var t := After(EMPTY, steps).tables;
            && (forall i, j :: 0 <= i < |t.requests| && 0 <= j < |t.requests| && i != j ==>
                  t.requests[i].sender != t.requests[j].sender || t.requests[i].receiver != t.requests[j].receiver)
            && (forall i :: 0 <= i < |t.requests| ==> t.requests[i].sender != t.requests[i].receiver)
            && (forall i :: 0 <= i < |t.chats| ==> t.chats[i].userA < t.chats[i].userB)
            && (forall i, j :: 0 <= i < |t.chats| && 0 <= j < |t.chats| && i != j ==>
                  {t.chats[i].userA, t.chats[i].userB} != {t.chats[j].userA, t.chats[j].userB})
            && (forall i :: 0 <= i < |t.requests| && t.requests[i].status == Accepted ==>
                  exists k :: 0 <= k < |t.chats| &&
                    {t.chats[k].userA, t.chats[k].userB} == {t.requests[i].sender, t.requests[i].receiver})
  {
    var t := After(EMPTY, steps).tables;
    forall i, j | 0 <= i < |t.chats| && 0 <= j < |t.chats| && i != j
      ensures {t.chats[i].userA, t.chats[i].userB} != {t.chats[j].userA, t.chats[j].userB}
    {
      if {t.chats[i].userA, t.chats[i].userB} == {t.chats[j].userA, t.chats[j].userB} {
        SamePair(t.chats[i], t.chats[j]);
      }
    }
    forall i | 0 <= i < |t.requests| && t.requests[i].status == Accepted
      ensures exists k :: 0 <= k < |t.chats| &&
                {t.chats[k].userA, t.chats[k].userB} == {t.requests[i].sender, t.requests[i].receiver}
    {
      var chat := Normalize(t.requests[i].sender, t.requests[i].receiver);
      var k :| 0 <= k < |t.chats| && t.chats[k] == chat;
      assert {chat.userA, chat.userB} == {t.requests[i].sender, t.requests[i].receiver};
    }
  }

  lemma SamePair(x: Chat, y: Chat)
    requires x.userA < x.userB && y.userA < y.userB && {x.userA, x.userB} == {y.userA, y.userB}
    ensures x == y
  {
    assert x.userA in {y.userA, y.userB} && x.userB in {y.userA, y.userB};
  }

  lemma RunCons(s: System, step: Step, next: System, rest: seq<Step>)
    requires SystemInv(s) && Enabled(s, step) && Apply(s, step) == next
    requires SystemInv(next) && ValidRun(next, rest)
    ensures ValidRun(s, [step] + rest) && After(s, [step] + rest) == After(next, rest)
  {
    assert ([step] + rest)[1..] == rest;
  }

  lemma EmptyRun(s: System)
    requires SystemInv(s)
    ensures ValidRun(s, []) && After(s, []) == s
  {
  }

  predicate IsAccepted(s: System, id: nat) {
    id < |s.tables.requests| && s.tables.requests[id].status == Accepted
  }

  /** The writes that can take an acceptance back: a stale re-send, and a stale refusal. */
  predicate Overwrites(phase: Phase, id: nat) {
    phase == Reactivate(id) || phase == Commit(id, Declined)
  }

  /** Some suspended call looked at the request before it was accepted, and is about to write another status. */
  predicate HoldsStaleWrite(s: System, id: nat) {
    exists c :: c in s.calls && Overwrites(s.calls[c], id)
  }

  /** One step undoes an acceptance exactly when it runs such a write, and no step makes a new one. */
  lemma AcceptanceLostOnlyByStaleWrite(s: System, step: Step, id: nat)
    requires SystemInv(s) && Enabled(s, step) && IsAccepted(s, id)
    ensures !IsAccepted(Apply(s, step), id)
            <==> step.Proceed? && step.call in s.calls && Overwrites(s.calls[step.call], id)
    ensures !HoldsStaleWrite(s, id) ==> !HoldsStaleWrite(Apply(s, step), id)
  {
    hide RequestsInv, ChatsInv;
    var t := Apply(s, step);
    assert forall c :: c in t.calls && c != step.call ==> c in s.calls && t.calls[c] == s.calls[c];
  }

  lemma {:induction false} AcceptedStays(s: System, steps: seq<Step>, id: nat)
    requires SystemInv(s) && ValidRun(s, steps) && IsAccepted(s, id) && !HoldsStaleWrite(s, id)
    ensures IsAccepted(After(s, steps), id)
    decreases |steps|
  {
    hide Inv, InRange, HoldsStaleWrite, Overwrites, IsAccepted;
    if steps != [] {
      StepKeepsInv(s, steps[0]);
      AcceptanceLostOnlyByStaleWrite(s, steps[0], id);
      NoStaleStep(s, steps[0], id);
      AcceptedStays(Apply(s, steps[0]), steps[1..], id);
    }
  }

  lemma NoStaleStep(s: System, step: Step, id: nat)
    requires !HoldsStaleWrite(s, id)
    ensures !(step.Proceed? && step.call in s.calls && Overwrites(s.calls[step.call], id))
  {
  }

  /**
   An accepted request stays accepted in every continuation exactly when no suspended call holds a
   write from before the acceptance: afterwards no call can come by one.
   */
  lemma AcceptanceIsFinalExactly(s: System, id: nat)
    requires SystemInv(s) && IsAccepted(s, id)
    ensures !HoldsStaleWrite(s, id) <==> forall steps :: ValidRun(s, steps) ==> IsAccepted(After(s, steps), id)
  {
    if HoldsStaleWrite(s, id) {
      var c :| c in s.calls && Overwrites(s.calls[c], id);
      var step := Proceed(c, true);
      StepKeepsInv(s, step);
      AcceptanceLostOnlyByStaleWrite(s, step, id);
      EmptyRun(Apply(s, step));
      RunCons(s, step, Apply(s, step), []);
      assert !IsAccepted(After(s, [step] + []), id);
    } else {
      forall steps | ValidRun(s, steps) ensures IsAccepted(After(s, steps), id) {
        AcceptedStays(s, steps, id);
      }
    }
  }

  /** A request is sent; then its receiver accepts it in one call and declines it in another. */
  const SENT := System(Tables([Request(1, 2, Pending)], []), map[])
  const BOTH_LOADED := System(SENT.tables, map[1 := Commit(0, Accepted), 2 := Commit(0, Declined)])

  function Sending(rest: seq<Step>): seq<Step> {
    [Send(0, 1, 2)] + ([Proceed(0, true)] + ([Proceed(0, true)] + ([Proceed(0, true)] + rest)))
  }

  const BOTH_CALLED := System(SENT.tables, map[1 := LoadRequest(2, 0, Accepted), 2 := LoadRequest(2, 0, Declined)])

  function Calling(rest: seq<Step>): seq<Step> {
    [Respond(1, 2, 0, Accepted)] + ([Respond(2, 2, 0, Declined)] + rest)
  }

  function Loading(rest: seq<Step>): seq<Step> {
    [Proceed(1, true)] + ([Proceed(2, true)] + rest)
  }

  lemma SendingRuns(rest: seq<Step>)
    requires SystemInv(SENT) && ValidRun(SENT, rest)
    ensures ValidRun(EMPTY, Sending(rest)) && After(EMPTY, Sending(rest)) == After(SENT, rest)
  {
    hide ValidRun, After;
    var s1 := Continue(EMPTY, 0, FindReceiver(1, 2));
    var s2 := Continue(EMPTY, 0, FindExisting(1, 2));
    var s3 := Continue(EMPTY, 0, Insert(1, 2));
    RunCons(s3, Proceed(0, true), SENT, rest);
    RunCons(s2, Proceed(0, true), s3, [Proceed(0, true)] + rest);
    RunCons(s1, Proceed(0, true), s2, [Proceed(0, true)] + ([Proceed(0, true)] + rest));
    RunCons(EMPTY, Send(0, 1, 2), s1, [Proceed(0, true)] + ([Proceed(0, true)] + ([Proceed(0, true)] + rest)));
  }

  lemma CallingRuns(rest: seq<Step>)
    requires SystemInv(BOTH_CALLED) && ValidRun(BOTH_CALLED, rest)
    ensures SystemInv(SENT)
    ensures ValidRun(SENT, Calling(rest)) && After(SENT, Calling(rest)) == After(BOTH_CALLED, rest)
  {
    hide ValidRun, After;
    var s1 := Continue(SENT, 1, LoadRequest(2, 0, Accepted));
    RunCons(s1, Respond(2, 2, 0, Declined), BOTH_CALLED, rest);
    RunCons(SENT, Respond(1, 2, 0, Accepted), s1, [Respond(2, 2, 0, Declined)] + rest);
  }

  lemma LoadingRuns(rest: seq<Step>)
    requires SystemInv(BOTH_LOADED) && ValidRun(BOTH_LOADED, rest)
    ensures SystemInv(BOTH_CALLED)
    ensures ValidRun(BOTH_CALLED, Loading(rest)) && After(BOTH_CALLED, Loading(rest)) == After(BOTH_LOADED, rest)
  {
    hide ValidRun, After;
    var s1 := Continue(BOTH_CALLED, 1, Commit(0, Accepted));
    RunCons(s1, Proceed(2, true), BOTH_LOADED, rest);
    RunCons(BOTH_CALLED, Proceed(1, true), s1, [Proceed(2, true)] + rest);
  }

  const ACCEPTED := System(Tables([Request(1, 2, Accepted)], [Chat(1, 2)]), map[2 := Commit(0, Declined)])
  const DECLINED := System(Tables([Request(1, 2, Declined)], [Chat(1, 2)]), map[])

  lemma DecliningRuns()
    ensures SystemInv(ACCEPTED) && SystemInv(DECLINED)
    ensures ValidRun(ACCEPTED, [Proceed(2, true)] + []) && After(ACCEPTED, [Proceed(2, true)] + []) == DECLINED
  {
    hide ValidRun, After;
    EmptyRun(DECLINED);
    RunCons(ACCEPTED, Proceed(2, true), DECLINED, []);
  }

  lemma AcceptingRuns(rest: seq<Step>)
    requires SystemInv(ACCEPTED) && ValidRun(ACCEPTED, rest)
    ensures SystemInv(BOTH_LOADED)
    ensures ValidRun(BOTH_LOADED, [Proceed(1, true)] + rest)
    ensures After(BOTH_LOADED, [Proceed(1, true)] + rest) == After(ACCEPTED, rest)
  {
    hide ValidRun, After;
    RunCons(BOTH_LOADED, Proceed(1, true), ACCEPTED, rest);
  }

  /** Between awaits accepting is not final: both answers are taken, the second one stays, and so does the chat. */
  lemma AcceptanceCanBeLost()
    ensures var run := Sending(Calling(Loading([Proceed(1, true)] + [])));
            ValidRun(EMPTY, run) && After(EMPTY, run).tables == Tables([Request(1, 2, Accepted)], [Chat(1, 2)])
    ensures var run := Sending(Calling(Loading([Proceed(1, true)] + ([Proceed(2, true)] + []))));
            ValidRun(EMPTY, run) && After(EMPTY, run).tables == Tables([Request(1, 2, Declined)], [Chat(1, 2)])
  {
    hide ValidRun, After, Sending, Calling, Loading;
    DecliningRuns();
    EmptyRun(ACCEPTED);
    AcceptingRuns([]);
    AcceptingRuns([Proceed(2, true)] + []);
    var accepting, both := [Proceed(1, true)] + [], [Proceed(1, true)] + ([Proceed(2, true)] + []);
    LoadingRuns(accepting);
    CallingRuns(Loading(accepting));
    SendingRuns(Calling(Loading(accepting)));
    LoadingRuns(both);
    CallingRuns(Loading(both));
    SendingRuns(Calling(Loading(both)));
  }
}
