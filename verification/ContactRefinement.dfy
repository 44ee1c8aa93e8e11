/**
 The two views of contact requests agree: a call that runs without interruption does to the tables
 what the atomic service call does.
 */
module ContactRefinement {
  import opened ContactTables
  import opened ContactProtocol
  import ChatServer

  /** How many stretches a call has left at most. */
  function Left(s: System, call: CallId): nat {
    if call !in s.calls then 0 else
    match s.calls[call]
    case FindReceiver(_, _) => 3
    case FindExisting(_, _) => 2
    case LoadRequest(_, _, _) => 2
    case _ => 1
  }

  /** The call runs to its end, one stretch after the other. */
  ghost function Complete(s: System, call: CallId, receiverActive: bool): System
    requires SystemInv(s)
    decreases Left(s, call)
  {
    if call !in s.calls then s else
    StepKeepsInv(s, Proceed(call, receiverActive));
    Complete(Apply(s, Proceed(call, receiverActive)), call, receiverActive)
  }

  lemma UninterruptedSend(s: System, call: CallId, sender: UserId, receiver: UserId, active: bool)
    requires SystemInv(s) && call !in s.calls
    ensures SystemInv(Apply(s, Send(call, sender, receiver)))
    ensures var atomic := ChatServer.SendRequest(s.tables, sender, receiver, active);
            Complete(Apply(s, Send(call, sender, receiver)), call, active)
            == s.(tables := if atomic.Ok? then atomic.value else s.tables)
  {
    hide Inv;
    var s1 := Apply(s, Send(call, sender, receiver));
    StepKeepsInv(s, Send(call, sender, receiver));
    if receiver == sender {
    } else if !active {
      StepKeepsInv(s1, Proceed(call, active));
      assert Apply(s1, Proceed(call, active)).calls == s.calls;
      assert Complete(s1, call, active) == Apply(s1, Proceed(call, active));
    } else {
      var s2 := Apply(s1, Proceed(call, active));
      StepKeepsInv(s1, Proceed(call, active));
      var s3 := Apply(s2, Proceed(call, active));
      StepKeepsInv(s2, Proceed(call, active));
      assert Complete(s1, call, active) == Complete(s3, call, active);
      if call !in s3.calls {
        assert s3.calls == s.calls;
      } else {
        StepKeepsInv(s3, Proceed(call, active));
        var s4 := Apply(s3, Proceed(call, active));
        assert Complete(s3, call, active) == s4;
        assert s4.calls == s.calls;
      }
    }
  }

  lemma CompleteCommit(s: System, call: CallId, id: nat, answer: Status)
    requires SystemInv(s) && call !in s.calls && id < |s.tables.requests| && answer != Pending
    ensures SystemInv(Continue(s, call, Commit(id, answer)))
    ensures Complete(Continue(s, call, Commit(id, answer)), call, true)
         == s.(tables := CommitResponse(s.tables, id, answer))
  {
    hide Inv, CommitResponse;
    var s1 := Continue(s, call, Commit(id, answer));
    var s2 := Apply(s1, Proceed(call, true));
    StepKeepsInv(s1, Proceed(call, true));
    assert s2.calls == s.calls;
    assert Complete(s1, call, true) == Complete(s2, call, true);
  }

  lemma UninterruptedRespond(s: System, call: CallId, user: UserId, id: nat, accept: bool)
    requires SystemInv(s) && call !in s.calls
    ensures var step := Respond(call, user, id, if accept then Accepted else Declined);
            SystemInv(Apply(s, step))
    ensures var step := Respond(call, user, id, if accept then Accepted else Declined);
            var atomic := ChatServer.RespondToRequest(s.tables, user, id, accept);
            Complete(Apply(s, step), call, true) == s.(tables := if atomic.Ok? then atomic.value else s.tables)
  {
    hide Inv, CommitResponse;
    var answer := if accept then Accepted else Declined;
    var s1 := Continue(s, call, LoadRequest(user, id, answer));
    StepKeepsInv(s, Respond(call, user, id, answer));
    var s2 := Apply(s1, Proceed(call, true));
    StepKeepsInv(s1, Proceed(call, true));
    assert Complete(s1, call, true) == Complete(s2, call, true);
    if call !in s2.calls {
      assert s2.calls == s.calls;
    } else {
      assert s2 == Continue(s, call, Commit(id, answer));
      CompleteCommit(s, call, id, answer);
    }
  }
}
