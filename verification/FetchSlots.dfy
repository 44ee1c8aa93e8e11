/**
 The slots that bound concurrent attachment fetches: a counter and a queue of waiting calls.

 One step is one stretch of code between two `await`s. A release resolves the promise of the first
 waiter, but that call only counts itself once it resumes, in a later step of its own.
 */
module FetchSlots {
  import opened Common

  /** One call of `acquireSlot`. */
  type Call = nat

  const MAX_CONCURRENT: nat := 4

  /**
   `woken` calls have been taken off the queue and have not resumed yet; `holders` are the calls
   whose release has not run, that is, whose `released` flag is still false.
   */
  datatype Slots = Slots(active: int, waiters: seq<Call>, woken: set<Call>, holders: set<Call>)

  const EMPTY := Slots(0, [], {}, {})

  datatype Step = Acquire(call: Call) | Resume(call: Call) | Release(call: Call)

  function Apply(s: Slots, step: Step): Slots {
    match step
    case Acquire(call) =>
      if s.active >= MAX_CONCURRENT then s.(waiters := s.waiters + [call])
      else s.(active := s.active + 1, holders := s.holders + {call})
    case Resume(call) =>
      s.(woken := s.woken - {call}, active := s.active + 1, holders := s.holders + {call})
    case Release(call) =>
      if call !in s.holders then s else
      var freed := s.(active := s.active - 1, holders := s.holders - {call});
      if s.waiters == [] then freed
      else freed.(waiters := s.waiters[1..], woken := s.woken + {s.waiters[0]})
  }

  /** Every acquisition is a call of its own, and only a woken call can resume. */
  predicate Enabled(s: Slots, step: Step) {
    match step
    case Acquire(call) => call !in s.waiters && call !in s.woken && call !in s.holders
    case Resume(call) => call in s.woken
    case Release(call) => true
  }

  /** The module state, and the methods that change it. */
  class Semaphore {
    var activeFetches: int
    var waiters: seq<Call>
    var woken: set<Call>
    var holders: set<Call>

    ghost function State(): Slots
      reads this
    {
      Slots(activeFetches, waiters, woken, holders)
    }

    constructor ()
      ensures State() == EMPTY
    {
      activeFetches, waiters, woken, holders := 0, [], {}, {};
    }

    /** The call up to its `await`; `granted` when there is none to wait for. */
    method AcquireSlot(call: Call) returns (granted: bool)
      requires Enabled(State(), Acquire(call))
      modifies this
      ensures State() == Apply(old(State()), Acquire(call))
      ensures granted <==> call in holders
      ensures granted <==> old(activeFetches) < 4
      ensures activeFetches == old(activeFetches) + if granted then 1 else 0
      ensures waiters == old(waiters) + if granted then [] else [call]
    {
      if activeFetches >= MAX_CONCURRENT {
        waiters := waiters + [call];
        return false;
      }
      activeFetches := activeFetches + 1;
      holders := holders + {call};
      return true;
    }

    /** The rest of the call after its promise was resolved. */
    method ResumeAcquire(call: Call)
      requires Enabled(State(), Resume(call))
      modifies this
      ensures State() == Apply(old(State()), Resume(call))
      ensures activeFetches == old(activeFetches) + 1 && woken == old(woken) - {call} && call in holders
    {
      woken := woken - {call};
      activeFetches := activeFetches + 1;
      holders := holders + {call};
    }

    method ReleaseSlot(call: Call)
      modifies this
      ensures State() == Apply(old(State()), Release(call))
      ensures call !in old(holders) ==> State() == old(State())
      ensures call in old(holders) ==>
                && activeFetches == old(activeFetches) - 1 && holders == old(holders) - {call}
                && if old(waiters) == [] then waiters == [] && woken == old(woken)
                   else old(waiters) == [old(waiters)[0]] + waiters && woken == old(woken) + {old(waiters)[0]}
    {
      if call !in holders {
        return;
      }
      holders := holders - {call};
      activeFetches := activeFetches - 1;
      if |waiters| > 0 {
        var next := waiters[0];
        waiters := waiters[1..];
        woken := woken + {next};
      }
    }
  }

  // ------------------------------------------------------------------ what every run keeps

  /** No slot leaks, no call is in two places, and nobody waits while a slot is free for good. */
  ghost predicate Inv(s: Slots) {
    && s.active == |s.holders|
    && Distinct(s.waiters)
    && (forall call :: call in s.waiters ==> call !in s.woken && call !in s.holders)
    && s.woken !! s.holders
    && (s.waiters != [] ==> s.active + |s.woken| >= MAX_CONCURRENT)
  }

  ghost predicate ValidRun(s: Slots, steps: seq<Step>)
    decreases |steps|
  {
    steps == [] || (Enabled(s, steps[0]) && ValidRun(Apply(s, steps[0]), steps[1..]))
  }

  function After(s: Slots, steps: seq<Step>): Slots
    decreases |steps|
  {
    if steps == [] then s else After(Apply(s, steps[0]), steps[1..])
  }

  lemma DistinctQueue(calls: seq<Call>, call: Call)
    requires Distinct(calls)
    ensures call !in calls ==> Distinct(calls + [call])
    ensures calls != [] ==> Distinct(calls[1..]) && calls[0] !in calls[1..]
    ensures calls != [] ==> calls[0] in calls && forall c :: c in calls[1..] ==> c in calls
  {
  }

  lemma StepKeepsInv(s: Slots, step: Step)
    requires Inv(s) && Enabled(s, step)
    ensures Inv(Apply(s, step))
  {
    hide Distinct;
    DistinctQueue(s.waiters, step.call);
  }

  lemma {:induction false} RunKeepsInv(s: Slots, steps: seq<Step>)
    requires Inv(s) && ValidRun(s, steps)
    ensures Inv(After(s, steps))
    decreases |steps|
  {
    if steps != [] {
      StepKeepsInv(s, steps[0]);
      RunKeepsInv(Apply(s, steps[0]), steps[1..]);
    }
  }

  /** In every reachable state the counter is exact, and a waiter can count on somebody to wake it. */
  lemma ReachableStates(steps: seq<Step>)
    requires ValidRun(EMPTY, steps)
    ensures var s := After(EMPTY, steps);
            && s.active == |s.holders|
            && (s.waiters != [] ==> s.active + |s.woken| >= MAX_CONCURRENT)
            && (s.holders == {} && s.woken == {} ==> s.waiters == [] && s.active == 0)
  {
    RunKeepsInv(EMPTY, steps);
  }

  // ------------------------------------------------------------------ wakeups, in order

  /** The calls that had to queue, in order of arrival. */
  function Queued(s: Slots, steps: seq<Step>): seq<Call>
    decreases |steps|
  {
    if steps == [] then [] else
    (if steps[0].Acquire? && s.active >= MAX_CONCURRENT then [steps[0].call] else [])
    + Queued(Apply(s, steps[0]), steps[1..])
  }

  /** The calls that were woken, in order of their wakeups. */
  function Woken(s: Slots, steps: seq<Step>): seq<Call>
    decreases |steps|
  {
    if steps == [] then [] else
    (if steps[0].Release? && steps[0].call in s.holders then s.waiters[..if s.waiters == [] then 0 else 1] else [])
    + Woken(Apply(s, steps[0]), steps[1..])
  }

  lemma QueueStep(s: Slots, step: Step)
    ensures s.waiters + Queued(s, [step]) == Woken(s, [step]) + Apply(s, step).waiters
    ensures forall rest :: Queued(s, [step] + rest) == Queued(s, [step]) + Queued(Apply(s, step), rest)
    ensures forall rest :: Woken(s, [step] + rest) == Woken(s, [step]) + Woken(Apply(s, step), rest)
  {
    assert Queued(Apply(s, step), [step][1..]) == [] && Woken(Apply(s, step), [step][1..]) == [];
    assert forall rest: seq<Step> :: ([step] + rest)[1..] == rest;
  }

  /** No wakeup is lost, repeated or out of turn: those woken and those still waiting are those who queued. */
  lemma {:induction false} WokenInOrder(s: Slots, steps: seq<Step>)
    ensures s.waiters + Queued(s, steps) == Woken(s, steps) + After(s, steps).waiters
    decreases |steps|
  {
    hide Apply;
    if steps != [] {
      var t, rest := Apply(s, steps[0]), steps[1..];
      assert steps == [steps[0]] + rest;
      QueueStep(s, steps[0]);
      WokenInOrder(t, rest);
      calc {
        s.waiters + Queued(s, steps);
        (s.waiters + Queued(s, [steps[0]])) + Queued(t, rest);
        Woken(s, [steps[0]]) + (t.waiters + Queued(t, rest));
        Woken(s, steps) + After(s, steps).waiters;
      }
    }
  }

  /** Steps still owed to the calls in the system: a resume and a release, or only the release. */
  function Owed(s: Slots): nat {
    2 * |s.waiters| + 2 * |s.woken| + |s.holders|
  }

  /** A resume, or a release by a call that does hold a slot. */
  predicate Progress(s: Slots, step: Step) {
    (step.Resume? && step.call in s.woken) || (step.Release? && step.call in s.holders)
  }

  lemma ProgressPaysOff(s: Slots, step: Step)
    requires Inv(s) && Progress(s, step)
    ensures Owed(Apply(s, step)) == Owed(s) - 1
  {
    if step.Release? && s.waiters != [] {
      assert s.waiters[0] in s.waiters;
    }
  }

  ghost predicate AllProgress(s: Slots, steps: seq<Step>)
    decreases |steps|
  {
    steps == [] || (Progress(s, steps[0]) && AllProgress(Apply(s, steps[0]), steps[1..]))
  }

  /**
   Without new arrivals every schedule serves everybody: it cannot go on for longer than what is
   owed, and it cannot stop while a call is still waiting, woken or holding.
   */
  lemma {:induction false} EverybodyIsServed(s: Slots, steps: seq<Step>)
    requires Inv(s) && AllProgress(s, steps)
    ensures |steps| + Owed(After(s, steps)) == Owed(s)
    ensures var end := After(s, steps);
            (forall step :: !Progress(end, step)) <==> end == EMPTY
    decreases |steps|
  {
    if steps != [] {
      ProgressPaysOff(s, steps[0]);
      StepKeepsInv(s, steps[0]);
      EverybodyIsServed(Apply(s, steps[0]), steps[1..]);
    } else if s.holders != {} {
      var call :| call in s.holders;
      assert Progress(s, Release(call));
    } else if s.woken != {} {
      var call :| call in s.woken;
      assert Progress(s, Resume(call));
    }
  }

  // ------------------------------------------------------------------ the cap

  /** Fetches running or about to run. */
  function Committed(s: Slots): int {
    s.active + |s.woken|
  }

  /** An acquisition that takes a slot already promised to a woken call. */
  predicate Overtakes(s: Slots, step: Step) {
    step.Acquire? && s.active < MAX_CONCURRENT <= Committed(s)
  }

  ghost predicate NoneOvertakes(s: Slots, steps: seq<Step>)
    decreases |steps|
  {
    steps == [] || (!Overtakes(s, steps[0]) && NoneOvertakes(Apply(s, steps[0]), steps[1..]))
  }

  /** Only an overtaking acquisition commits more fetches than the cap. */
  lemma CommitStep(s: Slots, step: Step)
    requires Inv(s) && Enabled(s, step)
    ensures Overtakes(s, step) ==> Committed(Apply(s, step)) == Committed(s) + 1 > MAX_CONCURRENT
    ensures !Overtakes(s, step) && Committed(s) <= MAX_CONCURRENT ==> Committed(Apply(s, step)) <= MAX_CONCURRENT
  {
    if step.Release? && s.waiters != [] {
      assert s.waiters[0] in s.waiters;
    }
  }

  /** A run in which no acquisition overtakes a woken call keeps to the cap throughout. */
  lemma {:induction false} CapHoldsWithoutOvertaking(s: Slots, steps: seq<Step>)
    requires Inv(s) && ValidRun(s, steps) && NoneOvertakes(s, steps)
    requires Committed(s) <= MAX_CONCURRENT
    ensures After(s, steps).active <= Committed(After(s, steps)) <= MAX_CONCURRENT
    decreases |steps|
  {
    if steps != [] {
      CommitStep(s, steps[0]);
      StepKeepsInv(s, steps[0]);
      CapHoldsWithoutOvertaking(Apply(s, steps[0]), steps[1..]);
    }
  }

  ghost predicate AllResumes(steps: seq<Step>) {
    forall step :: step in steps ==> step.Resume?
  }

  /** Resuming the woken calls, in any order, turns every committed fetch into a running one. */
  lemma {:induction false} ResumeWoken(s: Slots) returns (steps: seq<Step>)
    requires Inv(s)
    ensures AllResumes(steps) && ValidRun(s, steps)
    ensures After(s, steps).active == Committed(s)
    decreases |s.woken|
  {
    if s.woken == {} {
      steps := [];
    } else {
      var call :| call in s.woken;
      StepKeepsInv(s, Resume(call));
      var rest := ResumeWoken(Apply(s, Resume(call)));
      steps := [Resume(call)] + rest;
      assert steps[1..] == rest;
    }
  }

  /**
   The cap fails exactly by overtaking: from a state within the cap, a step makes it possible that
   mere resumptions run more than four fetches if and only if that step is an overtaking acquisition.
   */
  lemma CapFailsOnlyByOvertaking(s: Slots, step: Step)
    requires Inv(s) && Enabled(s, step) && Committed(s) <= MAX_CONCURRENT
    ensures Overtakes(s, step) <==>
            exists resumes :: AllResumes(resumes) && ValidRun(Apply(s, step), resumes)
                              && After(Apply(s, step), resumes).active > MAX_CONCURRENT
  {
    var t := Apply(s, step);
    StepKeepsInv(s, step);
    CommitStep(s, step);
    if Overtakes(s, step) {
      var resumes := ResumeWoken(t);
      assert After(t, resumes).active > MAX_CONCURRENT;
    } else {
      forall resumes | AllResumes(resumes) && ValidRun(t, resumes)
        ensures After(t, resumes).active <= MAX_CONCURRENT
      {
        ResumesDoNotOvertake(t, resumes);
        CapHoldsWithoutOvertaking(t, resumes);
      }
    }
  }

  lemma {:induction false} ResumesDoNotOvertake(s: Slots, steps: seq<Step>)
    requires AllResumes(steps)
    ensures NoneOvertakes(s, steps)
    decreases |steps|
  {
    if steps != [] {
      assert steps[0] in steps;
      ResumesDoNotOvertake(Apply(s, steps[0]), steps[1..]);
    }
  }

  lemma RunCons(s: Slots, step: Step, rest: seq<Step>)
    requires Enabled(s, step) && ValidRun(Apply(s, step), rest)
    ensures ValidRun(s, [step] + rest) && After(s, [step] + rest) == After(Apply(s, step), rest)
  {
    assert ([step] + rest)[1..] == rest;
  }

  /** Five fetches at once: four run and one waits, one ends, a newcomer overtakes, the waiter resumes. */
  lemma FiveAtOnce()
    ensures var steps := [Acquire(1), Acquire(2), Acquire(3), Acquire(4), Acquire(5),
                          Release(1), Acquire(6), Resume(5)];
            ValidRun(EMPTY, steps) && After(EMPTY, steps).active == 5
  {
    var three := Slots(3, [], {}, {1, 2, 3});
    var queued := Slots(4, [5], {}, {1, 2, 3, 4});
    var overtaken := Slots(4, [], {5}, {2, 3, 4, 6});
    assert Apply(Apply(Apply(EMPTY, Acquire(1)), Acquire(2)), Acquire(3)) == three;
    assert Apply(Apply(three, Acquire(4)), Acquire(5)) == queued;
    assert Apply(Apply(queued, Release(1)), Acquire(6)) == overtaken;
    RunCons(overtaken, Resume(5), []);
    RunCons(Apply(queued, Release(1)), Acquire(6), [Resume(5)]);
    RunCons(queued, Release(1), [Acquire(6), Resume(5)]);
    RunCons(Apply(three, Acquire(4)), Acquire(5), [Release(1), Acquire(6), Resume(5)]);
    RunCons(three, Acquire(4), [Acquire(5), Release(1), Acquire(6), Resume(5)]);
    RunCons(Apply(Apply(EMPTY, Acquire(1)), Acquire(2)), Acquire(3),
            [Acquire(4), Acquire(5), Release(1), Acquire(6), Resume(5)]);
    RunCons(Apply(EMPTY, Acquire(1)), Acquire(2),
            [Acquire(3), Acquire(4), Acquire(5), Release(1), Acquire(6), Resume(5)]);
    RunCons(EMPTY, Acquire(1),
            [Acquire(2), Acquire(3), Acquire(4), Acquire(5), Release(1), Acquire(6), Resume(5)]);
  }
}
