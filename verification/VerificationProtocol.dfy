/**
 Registration, resend and verification cut at their awaits. A call loads a row, changes its copy and
 saves the copy as a whole, so a save may overwrite what others saved since the copy was loaded.
 */
module VerificationProtocol {
  import opened Options
  import opened Verification

  type CallId = nat

  /** The await a call is suspended at; `row` is the copy it holds. */
  datatype Phase =
    | CheckEmail(email: Email)
    | HashPassword(email: Email)
    | Insert(row: User)
    | FindAccount(email: Email)
    | FindToken(token: Token)
    | Save(id: nat, row: User, mail: bool)
    | Deliver(id: nat, row: User)

  datatype System = System(users: seq<User>, generated: nat, calls: map<CallId, Phase>)

  const START := System([], 0, map[])

  /** `active` is what the account's flags say, `delivered` the answer of the mail transport. */
  datatype Step =
    | StartRegister(call: CallId, email: Email)
    | StartResend(call: CallId, email: Email)
    | StartVerify(call: CallId, token: Token)
    | Proceed(call: CallId, now: Time, active: bool, delivered: bool)

  predicate Enabled(s: System, step: Step) {
    step.Proceed? <==> step.call in s.calls
  }

  function End(s: System, call: CallId): System {
    s.(calls := s.calls - {call})
  }

  function Suspend(s: System, call: CallId, phase: Phase): System {
    s.(calls := s.calls[call := phase])
  }

  function Issue(row: User, token: Token, now: Time): User {
    row.(tokenHash := Some(Hash(token)), tokenExpiresAt := Some(now + LIFETIME))
  }

  function Withdraw(row: User): User {
    row.(tokenHash := None, tokenExpiresAt := None)
  }

  /** Writes every column of the copy. */
  function Write(users: seq<User>, id: nat, row: User): seq<User> {
    if id < |users| then users[id := row] else users
  }

  function Apply(s: System, step: Step): System
    requires Enabled(s, step)
  {
    match step
    case StartRegister(call, email) => Suspend(s, call, CheckEmail(email))
    case StartResend(call, email) => Suspend(s, call, FindAccount(email))
    case StartVerify(call, token) => Suspend(s, call, FindToken(token))
    case Proceed(call, now, active, delivered) =>
      match s.calls[call]
      case CheckEmail(email) =>
        if FindByEmail(s.users, email).Some? then End(s, call) else Suspend(s, call, HashPassword(email))
      case HashPassword(email) =>
        Suspend(s, call, Insert(Issue(User(email, false, None, None, None), s.generated, now)))
          .(generated := s.generated + 1)
      case Insert(row) =>
        if FindByEmail(s.users, row.email).Some? then End(s, call)
        else Suspend(s, call, Deliver(|s.users|, row)).(users := s.users + [row])
      case FindAccount(email) =>
        var id := FindByEmail(s.users, email);
        if id.None? || !active || s.users[id.value].isVerified then End(s, call)
        else Suspend(s, call, Save(id.value, Issue(s.users[id.value], s.generated, now), true))
          .(generated := s.generated + 1)
      case FindToken(token) =>
        var id := FindByHash(s.users, Hash(token));
        if id.None? || s.users[id.value].tokenExpiresAt.None? || s.users[id.value].tokenExpiresAt.value <= now
        then End(s, call)
        else Suspend(s, call, Save(id.value, User(s.users[id.value].email, true, Some(now), None, None), false))
      case Save(id, row, mail) =>
        var saved := s.(users := Write(s.users, id, row));
        if mail then Suspend(saved, call, Deliver(id, row)) else End(saved, call)
      case Deliver(id, row) =>
        if delivered then End(s, call) else Suspend(s, call, Save(id, Withdraw(row), false))
  }

  // ------------------------------------------------------------------ every interleaving

  /** A copy is of an existing row and keeps its address. */
  predicate CopyInv(users: seq<User>, phase: Phase) {
    phase.Save? || phase.Deliver? ==> phase.id < |users| && phase.row.email == users[phase.id].email
  }

  predicate AddressesDiffer(users: seq<User>) {
    forall i, j :: 0 <= i < j < |users| ==> users[i].email != users[j].email
  }

  ghost predicate Inv(s: System) {
    AddressesDiffer(s.users) && forall c :: c in s.calls ==> CopyInv(s.users, s.calls[c])
  }

  /** Rows are added and rewritten, and keep their address. */
  predicate KeepsAddresses(before: seq<User>, after: seq<User>) {
    |before| <= |after| && forall i :: 0 <= i < |before| ==> after[i].email == before[i].email
  }

  lemma StretchKeepsRows(s: System, step: Step)
    requires Inv(s) && Enabled(s, step)
    ensures AddressesDiffer(Apply(s, step).users) && KeepsAddresses(s.users, Apply(s, step).users)
  {
    hide FindByHash;
    if step.Proceed? {
      assert CopyInv(s.users, s.calls[step.call]);
    }
  }

  lemma StretchKeepsCopy(s: System, step: Step)
    requires Inv(s) && Enabled(s, step) && step.call in Apply(s, step).calls
    ensures CopyInv(Apply(s, step).users, Apply(s, step).calls[step.call])
  {
    hide AddressesDiffer;
    if step.Proceed? {
      assert CopyInv(s.users, s.calls[step.call]);
    }
  }

  lemma OthersUntouched(s: System, step: Step, c: CallId)
    requires Enabled(s, step) && c != step.call && c in Apply(s, step).calls
    ensures c in s.calls && Apply(s, step).calls[c] == s.calls[c]
  {
    hide FindByEmail, FindByHash, Issue, Withdraw, Write;
  }

  lemma StepKeepsInv(s: System, step: Step)
    requires Inv(s) && Enabled(s, step)
    ensures Inv(Apply(s, step)) && KeepsAddresses(s.users, Apply(s, step).users)
  {
    hide Apply, AddressesDiffer;
    StretchKeepsRows(s, step);
    forall c | c in Apply(s, step).calls ensures CopyInv(Apply(s, step).users, Apply(s, step).calls[c]) {
      if c == step.call { StretchKeepsCopy(s, step); } else { OthersUntouched(s, step, c); }
    }
  }

  ghost predicate ValidRun(s: System, steps: seq<Step>)
    decreases |steps|
  {
    steps == [] || (Enabled(s, steps[0]) && ValidRun(Apply(s, steps[0]), steps[1..]))
  }

  function After(s: System, steps: seq<Step>): System
    requires ValidRun(s, steps)
    decreases |steps|
  {
    if steps == [] then s else After(Apply(s, steps[0]), steps[1..])
  }

  lemma NoSteps(s: System)
    ensures ValidRun(s, []) && After(s, []) == s
  {
  }

  lemma RunCons(s: System, step: Step, next: System, rest: seq<Step>)
    requires Enabled(s, step) && Apply(s, step) == next && ValidRun(next, rest)
    ensures ValidRun(s, [step] + rest) && After(s, [step] + rest) == After(next, rest)
  {
    assert ([step] + rest)[1..] == rest;
  }

  /** In every interleaving no address has two accounts. */
  lemma {:induction false} AddressesStayUnique(s: System, steps: seq<Step>)
    requires Inv(s) && ValidRun(s, steps)
    ensures Inv(After(s, steps))
    decreases |steps|
  {
    hide Inv, Apply;
    if steps != [] {
      StepKeepsInv(s, steps[0]);
      AddressesStayUnique(Apply(s, steps[0]), steps[1..]);
    }
  }

  // ------------------------------------------------------------------ verified accounts

  predicate IsVerified(s: System, id: nat) {
    id < |s.users| && s.users[id].isVerified
  }

  /** A copy from before the verification that will, or after a failed delivery would, be saved. */
  predicate IsStaleCopy(phase: Phase, id: nat) {
    (phase.Save? || phase.Deliver?) && phase.id == id && !phase.row.isVerified
  }

  predicate HoldsStaleCopy(s: System, id: nat) {
    exists c :: c in s.calls && IsStaleCopy(s.calls[c], id)
  }

  /** A step without a stale copy keeps the account verified, and none comes by one. */
  lemma VerifiedStep(s: System, step: Step, id: nat)
    requires Inv(s) && Enabled(s, step) && IsVerified(s, id) && !HoldsStaleCopy(s, id)
    ensures IsVerified(Apply(s, step), id) && !HoldsStaleCopy(Apply(s, step), id)
  {
    assert step.Proceed? ==> !IsStaleCopy(s.calls[step.call], id);
    var t := Apply(s, step);
    forall c | c in t.calls ensures !IsStaleCopy(t.calls[c], id) {
      if c != step.call { OthersUntouched(s, step, c); }
    }
  }

  lemma {:induction false} VerifiedStays(s: System, steps: seq<Step>, id: nat)
    requires Inv(s) && ValidRun(s, steps) && IsVerified(s, id) && !HoldsStaleCopy(s, id)
    ensures IsVerified(After(s, steps), id)
    decreases |steps|
  {
    hide Inv, Apply, IsVerified, HoldsStaleCopy;
    if steps != [] {
      StepKeepsInv(s, steps[0]);
      VerifiedStep(s, steps[0], id);
      VerifiedStays(Apply(s, steps[0]), steps[1..], id);
    }
  }

  /** Saving a stale copy, after a failed delivery if one is under way, takes the verification back. */
  lemma StaleCopyUnverifies(s: System, id: nat) returns (steps: seq<Step>)
    requires Inv(s) && IsVerified(s, id) && HoldsStaleCopy(s, id)
    ensures ValidRun(s, steps) && !IsVerified(After(s, steps), id)
  {
    var c :| c in s.calls && IsStaleCopy(s.calls[c], id);
    var step := Proceed(c, 0, true, false);
    var t := Apply(s, step);
    NoSteps(t);
    if s.calls[c].Save? {
      RunCons(s, step, t, []);
      steps := [step] + [];
    } else {
      var u := Apply(t, step);
      NoSteps(u);
      RunCons(t, step, u, []);
      RunCons(s, step, t, [step] + []);
      steps := [step] + ([step] + []);
    }
  }

  /**
   A verified account stays verified in every continuation exactly when no suspended call holds a copy
   of its row from before: once it is verified, no call loads such a copy any more.
   */
  lemma VerificationIsFinalExactly(s: System, id: nat)
    requires Inv(s) && IsVerified(s, id)
    ensures !HoldsStaleCopy(s, id) <==> forall steps :: ValidRun(s, steps) ==> IsVerified(After(s, steps), id)
  {
    if HoldsStaleCopy(s, id) {
      var steps := StaleCopyUnverifies(s, id);
      assert ValidRun(s, steps) && !IsVerified(After(s, steps), id);
    } else {
      forall steps | ValidRun(s, steps) ensures IsVerified(After(s, steps), id) {
        VerifiedStays(s, steps, id);
      }
    }
  }

  // ------------------------------------------------------------------ tokens

  predicate Carries(row: User, token: Token) {
    row.tokenHash == Some(Hash(token))
  }

  /** Some account stores the token, so a lookup finds it. */
  predicate IsStored(s: System, token: Token) {
    exists i :: 0 <= i < |s.users| && Carries(s.users[i], token)
  }

  /** The call will write the token: it saves a copy with it, or inserts one whose address is free. */
  predicate WillStore(users: seq<User>, phase: Phase, token: Token) {
    || (phase.Save? && Carries(phase.row, token))
    || (phase.Insert? && Carries(phase.row, token) && FindByEmail(users, phase.row.email).None?)
  }

  predicate IsHeld(s: System, token: Token) {
    exists c :: c in s.calls && WillStore(s.users, s.calls[c], token)
  }

  /** A lookup of the token at this step succeeds. */
  predicate Accepts(s: System, step: Step, token: Token) {
    && step.Proceed? && step.call in s.calls && s.calls[step.call] == FindToken(token)
    && var id := FindByHash(s.users, Hash(token));
       id.Some? && s.users[id.value].tokenExpiresAt.Some? && s.users[id.value].tokenExpiresAt.value > step.now
  }

  lemma AcceptedIsStored(s: System, step: Step, token: Token)
    requires Accepts(s, step, token)
    ensures IsStored(s, token)
  {
    assert Carries(s.users[FindByHash(s.users, Hash(token)).value], token);
  }

  /** Every row with the token had it before. */
  ghost predicate NoneGained(before: seq<User>, after: seq<User>, token: Token) {
    forall i :: 0 <= i < |after| && Carries(after[i], token) ==> i < |before| && Carries(before[i], token)
  }

  /** The stretch of a call that will not write the token gives it to no row, and its call does not come to hold it. */
  lemma UnheldStretch(s: System, step: Step, token: Token)
    requires Enabled(s, step) && token < s.generated && !IsHeld(s, token)
    ensures NoneGained(s.users, Apply(s, step).users, token) && token < Apply(s, step).generated
    ensures step.call in Apply(s, step).calls ==>
              !WillStore(Apply(s, step).users, Apply(s, step).calls[step.call], token)
  {
    assert step.Proceed? ==> !WillStore(s.users, s.calls[step.call], token);
  }

  lemma UnheldStep(s: System, step: Step, token: Token)
    requires Inv(s) && Enabled(s, step) && token < s.generated && !IsHeld(s, token)
    ensures var t := Apply(s, step);
            token < t.generated && !IsHeld(t, token) && NoneGained(s.users, t.users, token)
  {
    hide Inv, Apply, FindByHash, Carries, Enabled, NoneGained;
    var t := Apply(s, step);
    UnheldStretch(s, step, token);
    StepKeepsInv(s, step);
    forall c | c in t.calls ensures !WillStore(t.users, t.calls[c], token) {
      if c != step.call {
        OthersUntouched(s, step, c);
        if t.calls[c].Insert? { TakenStaysTaken(s.users, t.users, t.calls[c]); }
      }
    }
  }

  /** An address that has an account keeps it. */
  lemma TakenStaysTaken(users: seq<User>, after: seq<User>, phase: Phase)
    requires KeepsAddresses(users, after) && phase.Insert?
    ensures FindByEmail(users, phase.row.email).Some? ==> FindByEmail(after, phase.row.email).Some?
  {
  }

  /** A token that no call is going to write reaches no further row. */
  lemma {:induction false} UnheldRun(s: System, steps: seq<Step>, token: Token)
    requires Inv(s) && ValidRun(s, steps) && token < s.generated && !IsHeld(s, token)
    ensures var t := After(s, steps);
            token < t.generated && !IsHeld(t, token) && NoneGained(s.users, t.users, token)
    decreases |steps|
  {
    hide Inv, Apply, IsHeld, Carries;
    if steps != [] {
      StepKeepsInv(s, steps[0]);
      UnheldStep(s, steps[0], token);
      UnheldRun(Apply(s, steps[0]), steps[1..], token);
    }
  }

  lemma NotGained(s: System, t: System, token: Token)
    requires !IsStored(s, token) && NoneGained(s.users, t.users, token)
    ensures !IsStored(t, token)
  {
  }

  lemma HeldGetsStored(s: System, token: Token) returns (steps: seq<Step>)
    requires Inv(s) && IsHeld(s, token)
    ensures ValidRun(s, steps) && IsStored(After(s, steps), token)
  {
    var c :| c in s.calls && WillStore(s.users, s.calls[c], token);
    assert CopyInv(s.users, s.calls[c]);
    var step := Proceed(c, 0, true, true);
    var t := Apply(s, step);
    assert Carries(t.users[if s.calls[c].Save? then s.calls[c].id else |s.users|], token);
    NoSteps(t);
    RunCons(s, step, t, []);
    steps := [step] + [];
  }

  /**
   A token that was generated is found by no lookup any more, in any continuation, exactly when no
   account stores it and no suspended call will write it: neither a save that has loaded its row nor an
   insertion at a free address.
   */
  lemma TokenIsDeadExactly(s: System, token: Token)
    requires Inv(s) && token < s.generated
    ensures !IsStored(s, token) && !IsHeld(s, token)
            <==> forall steps :: ValidRun(s, steps) ==> !IsStored(After(s, steps), token)
  {
    hide Inv, Apply, IsStored, IsHeld;
    NoSteps(s);
    if IsHeld(s, token) {
      var steps := HeldGetsStored(s, token);
      assert ValidRun(s, steps) && IsStored(After(s, steps), token);
    } else if IsStored(s, token) {
      assert ValidRun(s, []) && IsStored(After(s, []), token);
    } else {
      forall steps | ValidRun(s, steps) ensures !IsStored(After(s, steps), token) {
        UnheldRun(s, steps, token);
        NotGained(s, After(s, steps), token);
      }
    }
  }

  /** A lookup takes nothing away: until the first of two calls saves, the second is accepted as well. */
  lemma LookupsDoNotExclude(s: System, first: Step, second: Step, token: Token)
    requires Enabled(s, first) && Enabled(s, second) && first.call != second.call
    requires Accepts(s, first, token)
    ensures Enabled(Apply(s, first), second)
    ensures Accepts(s, second, token) <==> Accepts(Apply(s, first), second, token)
  {
    hide FindByHash;
  }

  // ------------------------------------------------------------------ a token is written once

  /** The hash a suspended call is going to write. */
  function Unwritten(phase: Phase): Option<Hash> {
    if phase.Save? || phase.Insert? then phase.row.tokenHash else None
  }

  predicate Generated(hash: Option<Hash>, generated: nat) {
    hash.Some? ==> hash.value.token < generated
  }

  ghost predicate RowsInv(users: seq<User>, generated: nat) {
    && (forall i :: 0 <= i < |users| ==> Generated(users[i].tokenHash, generated))
    && (forall i, j :: 0 <= i < j < |users| && users[i].tokenHash.Some? ==> users[j].tokenHash != users[i].tokenHash)
  }

  predicate IsUnstored(users: seq<User>, hash: Option<Hash>) {
    hash.Some? ==> forall i :: 0 <= i < |users| ==> users[i].tokenHash != hash
  }

  ghost predicate CopiesInv(s: System) {
    && (forall c :: c in s.calls ==>
          Generated(Unwritten(s.calls[c]), s.generated) && IsUnstored(s.users, Unwritten(s.calls[c])))
    && (forall c, d :: c in s.calls && d in s.calls && c != d && Unwritten(s.calls[c]).Some? ==>
          Unwritten(s.calls[d]) != Unwritten(s.calls[c]))
  }

  /** Every token is in one place: one row, or one copy that is going to be written. */
  ghost predicate TokensInv(s: System) {
    RowsInv(s.users, s.generated) && CopiesInv(s)
  }

  /** A call that comes to hold nothing, or a fresh token. */
  lemma FreshCopy(s: System, call: CallId, phase: Phase)
    requires TokensInv(s) && (Unwritten(phase).None? || Unwritten(phase) == Some(Hash(s.generated)))
    ensures TokensInv(Suspend(s, call, phase).(generated := s.generated + 1))
    ensures Unwritten(phase).None? ==> TokensInv(Suspend(s, call, phase)) && TokensInv(End(s, call))
  {
  }

  /** A call writes its copy into one row, or as a new one, and goes on without it. */
  lemma CopyIsWritten(s: System, call: CallId, users: seq<User>, i: nat, t: System)
    requires TokensInv(s) && call in s.calls && i < |users| && |s.users| <= |users| <= |s.users| + 1
    requires users[i].tokenHash == Unwritten(s.calls[call])
    requires forall j :: 0 <= j < |users| && j != i ==> j < |s.users| && users[j] == s.users[j]
    requires t.users == users && t.generated == s.generated
    requires forall c :: c in t.calls && c != call ==> c in s.calls && t.calls[c] == s.calls[c]
    requires call in t.calls ==> Unwritten(t.calls[call]).None?
    ensures TokensInv(t)
  {
  }

  lemma TokensStep(s: System, step: Step)
    requires Inv(s) && TokensInv(s) && Enabled(s, step)
    ensures TokensInv(Apply(s, step))
  {
    hide TokensInv, FindByEmail, FindByHash, AddressesDiffer;
    var t := Apply(s, step);
    match step
    case StartRegister(call, email) => FreshCopy(s, call, CheckEmail(email));
    case StartResend(call, email) => FreshCopy(s, call, FindAccount(email));
    case StartVerify(call, token) => FreshCopy(s, call, FindToken(token));
    case Proceed(call, now, active, delivered) =>
      var phase := s.calls[call];
      assert CopyInv(s.users, phase);
      match phase {
        case Save(id, row, mail) => CopyIsWritten(s, call, t.users, id, t);
        case Insert(row) =>
          if FindByEmail(s.users, row.email).Some? { FreshCopy(s, call, CheckEmail(row.email)); }
          else { CopyIsWritten(s, call, t.users, |s.users|, t); }
        case _ => FreshCopy(s, call, if call in t.calls then t.calls[call] else phase);
      }
  }

  lemma {:induction false} RunKeepsTokens(s: System, steps: seq<Step>)
    requires Inv(s) && TokensInv(s) && ValidRun(s, steps)
    ensures Inv(After(s, steps)) && TokensInv(After(s, steps))
    decreases |steps|
  {
    hide Inv, TokensInv, Apply;
    if steps != [] {
      StepKeepsInv(s, steps[0]);
      TokensStep(s, steps[0]);
      RunKeepsTokens(Apply(s, steps[0]), steps[1..]);
    }
  }

  lemma StartInv()
    ensures Inv(START) && TokensInv(START)
  {
  }

  lemma StoredIsNotHeld(s: System, token: Token)
    requires TokensInv(s) && IsStored(s, token)
    ensures token < s.generated && !IsHeld(s, token)
  {
    var i :| 0 <= i < |s.users| && Carries(s.users[i], token);
    forall c | c in s.calls ensures !WillStore(s.users, s.calls[c], token) {
      assert IsUnstored(s.users, Unwritten(s.calls[c]));
    }
  }

  /**
   A token is stored for one stretch of time only: once it has gone from the accounts, because it was
   used, superseded or withdrawn, no continuation brings it back, whatever calls were suspended then.
   */
  lemma GoneIsGone(s: System, steps: seq<Step>, more: seq<Step>, token: Token)
    requires Inv(s) && TokensInv(s) && ValidRun(s, steps) && ValidRun(After(s, steps), more)
    requires IsStored(s, token) && !IsStored(After(s, steps), token)
    ensures !IsStored(After(After(s, steps), more), token)
  {
    hide Inv, TokensInv, IsStored, IsHeld, NoneGained;
    StoredIsNotHeld(s, token);
    UnheldRun(s, steps, token);
    RunKeepsTokens(s, steps);
    UnheldRun(After(s, steps), more, token);
    NotGained(After(s, steps), After(After(s, steps), more), token);
  }

  /** From a lookup that accepts a token, the token is in that account or nowhere. */
  lemma AcceptedIsOnlyThere(s: System, step: Step, token: Token)
    requires TokensInv(s) && Accepts(s, step, token)
    ensures var id := FindByHash(s.users, Hash(token)).value;
            && token < s.generated && !IsHeld(s, token)
            && (forall i :: 0 <= i < |s.users| && i != id ==> !Carries(s.users[i], token))
            && Apply(s, step).users == s.users && step.call in Apply(s, step).calls
            && Apply(s, step).calls[step.call].Save? && Apply(s, step).calls[step.call].id == id
            && !Carries(Apply(s, step).calls[step.call].row, token)
  {
    hide CopiesInv, FindByHash;
    AcceptedIsStored(s, step, token);
    assert IsStored(s, token) && TokensInv(s);
    StoredIsNotHeld(s, token);
  }

  /** A token is accepted by nobody any more once the first call that was accepted with it has saved. */
  lemma UsedIsDead(s: System, step: Step, token: Token, steps: seq<Step>, save: Step, more: seq<Step>)
    requires Inv(s) && TokensInv(s) && Enabled(s, step) && Accepts(s, step, token)
    requires ValidRun(Apply(s, step), steps) && save.Proceed? && save.call == step.call
    requires var u := After(Apply(s, step), steps);
             && save.call in u.calls && u.calls[save.call] == Apply(s, step).calls[step.call]
             && ValidRun(Apply(u, save), more)
    ensures !IsStored(After(Apply(After(Apply(s, step), steps), save), more), token)
  {
    hide Inv, TokensInv, IsHeld, FindByHash, Carries, ValidRun, After;
    var t := Apply(s, step);
    StepKeepsInv(s, step);
    TokensStep(s, step);
    AcceptedIsOnlyThere(s, step, token);
    UnheldStep(s, step, token);
    RunKeepsTokens(t, steps);
    UnheldRun(t, steps, token);
    var u := After(t, steps);
    UnheldStep(u, save, token);
    StepKeepsInv(u, save);
    var w := Apply(u, save);
    assert !IsStored(w, token);
    UnheldRun(w, more, token);
    NotGained(w, After(w, more), token);
  }

  // ------------------------------------------------------------------ runs

  const PENDING := Issue(User("a", false, None, None, None), 0, 0)
  const VERIFIED := User("a", true, Some(1), None, None)
  const DELIVERING := System([PENDING], 1, map[0 := Deliver(0, PENDING)])
  const CONFIRMED := System([VERIFIED], 1, map[0 := Deliver(0, PENDING)])

  function Registering(rest: seq<Step>): seq<Step> {
    [StartRegister(0, "a")] + ([Proceed(0, 0, true, true)]
      + ([Proceed(0, 0, true, true)] + ([Proceed(0, 0, true, true)] + rest)))
  }

  function Confirming(rest: seq<Step>): seq<Step> {
    [StartVerify(1, 0)] + ([Proceed(1, 1, true, true)] + ([Proceed(1, 1, true, true)] + rest))
  }

  lemma RegisteringRuns(rest: seq<Step>)
    requires ValidRun(DELIVERING, rest)
    ensures ValidRun(START, Registering(rest)) && After(START, Registering(rest)) == After(DELIVERING, rest)
  {
    hide ValidRun, After;
    var s1 := START.(calls := map[0 := CheckEmail("a")]);
    var s2 := START.(calls := map[0 := HashPassword("a")]);
    var s3 := System([], 1, map[0 := Insert(PENDING)]);
    RunCons(s3, Proceed(0, 0, true, true), DELIVERING, rest);
    RunCons(s2, Proceed(0, 0, true, true), s3, [Proceed(0, 0, true, true)] + rest);
    RunCons(s1, Proceed(0, 0, true, true), s2, [Proceed(0, 0, true, true)] + ([Proceed(0, 0, true, true)] + rest));
    RunCons(START, StartRegister(0, "a"), s1,
            [Proceed(0, 0, true, true)] + ([Proceed(0, 0, true, true)] + ([Proceed(0, 0, true, true)] + rest)));
  }

  lemma ConfirmingRuns(rest: seq<Step>)
    requires ValidRun(CONFIRMED, rest)
    ensures ValidRun(DELIVERING, Confirming(rest)) && After(DELIVERING, Confirming(rest)) == After(CONFIRMED, rest)
  {
    hide ValidRun, After;
    var s1 := DELIVERING.(calls := DELIVERING.calls[1 := FindToken(0)]);
    var s2 := DELIVERING.(calls := DELIVERING.calls[1 := Save(0, VERIFIED, false)]);
    RunCons(s2, Proceed(1, 1, true, true), CONFIRMED, rest);
    RunCons(s1, Proceed(1, 1, true, true), s2, [Proceed(1, 1, true, true)] + rest);
    RunCons(DELIVERING, StartVerify(1, 0), s1, [Proceed(1, 1, true, true)] + ([Proceed(1, 1, true, true)] + rest));
  }

  /** The link in a registration mail is used, then the transport reports a failure: the account is unverified again. */
  lemma VerificationCanBeLost()
    ensures var run := Registering(Confirming([]));
            ValidRun(START, run) && IsVerified(After(START, run), 0)
    ensures exists more :: ValidRun(CONFIRMED, more)
                           && ValidRun(START, Registering(Confirming(more)))
                           && !IsVerified(After(START, Registering(Confirming(more))), 0)
  {
    hide ValidRun, After, Registering, Confirming;
    NoSteps(CONFIRMED);
    ConfirmingRuns([]);
    RegisteringRuns(Confirming([]));
    assert IsStaleCopy(CONFIRMED.calls[0], 0);
    var more := StaleCopyUnverifies(CONFIRMED, 0);
    ConfirmingRuns(more);
    RegisteringRuns(Confirming(more));
  }

  /** One registration token is accepted by two calls. */
  lemma TokenIsAcceptedTwice()
    ensures var both := System([PENDING], 1, map[0 := Deliver(0, PENDING), 1 := FindToken(0), 2 := FindToken(0)]);
            var run := Registering([StartVerify(1, 0)] + ([StartVerify(2, 0)] + []));
            && ValidRun(START, run) && After(START, run) == both
            && Accepts(both, Proceed(1, 1, true, true), 0)
            && Accepts(Apply(both, Proceed(1, 1, true, true)), Proceed(2, 1, true, true), 0)
  {
    hide ValidRun, After, Registering;
    var one := DELIVERING.(calls := DELIVERING.calls[1 := FindToken(0)]);
    var both := System([PENDING], 1, map[0 := Deliver(0, PENDING), 1 := FindToken(0), 2 := FindToken(0)]);
    NoSteps(both);
    assert Apply(one, StartVerify(2, 0)) == both;
    RunCons(one, StartVerify(2, 0), both, []);
    RunCons(DELIVERING, StartVerify(1, 0), one, [StartVerify(2, 0)] + []);
    RegisteringRuns([StartVerify(1, 0)] + ([StartVerify(2, 0)] + []));
    LookupsDoNotExclude(both, Proceed(1, 1, true, true), Proceed(2, 1, true, true), 0);
  }

  // ------------------------------------------------------------------ the atomic calls

  /** How many stretches a call has left at most. */
  function Left(s: System, call: CallId): nat {
    if call !in s.calls then 0 else
    match s.calls[call]
    case CheckEmail(_) => 5
    case HashPassword(_) => 4
    case Insert(_) => 3
    case FindAccount(_) => 4
    case FindToken(_) => 2
    case Save(_, _, mail) => if mail then 3 else 1
    case Deliver(_, _) => 2
  }

  /** The call runs to its end, one stretch after the other. */
  function Complete(s: System, call: CallId, now: Time, active: bool, delivered: bool): System
    decreases Left(s, call)
  {
    if call !in s.calls then s
    else Complete(Apply(s, Proceed(call, now, active, delivered)), call, now, active, delivered)
  }

  lemma UninterruptedSave(s: System, call: CallId, id: nat, row: User, now: Time, active: bool, delivered: bool)
    requires call !in s.calls
    ensures Complete(Suspend(s, call, Save(id, row, false)), call, now, active, delivered)
         == s.(users := Write(s.users, id, row))
  {
    var s1 := Suspend(s, call, Save(id, row, false));
    var s2 := Apply(s1, Proceed(call, now, active, delivered));
    assert s2.calls == s.calls;
    assert Complete(s1, call, now, active, delivered) == Complete(s2, call, now, active, delivered);
  }

  lemma UninterruptedDelivery(s: System, call: CallId, id: nat, row: User, now: Time, active: bool, delivered: bool)
    requires call !in s.calls && id < |s.users| && s.users[id] == row
    ensures Complete(Suspend(s, call, Deliver(id, row)), call, now, active, delivered)
         == if delivered then s else s.(users := s.users[id := Withdraw(row)])
  {
    var s1 := Suspend(s, call, Deliver(id, row));
    var s2 := Apply(s1, Proceed(call, now, active, delivered));
    assert Complete(s1, call, now, active, delivered) == Complete(s2, call, now, active, delivered);
    if delivered {
      assert s2.calls == s.calls;
    } else {
      assert s2 == Suspend(s, call, Save(id, Withdraw(row), false));
      UninterruptedSave(s, call, id, Withdraw(row), now, active, delivered);
    }
  }

  function Atomic(s: System): State {
    State(s.users, s.generated, [])
  }

  /** A call that runs without interruption does to the accounts what the atomic service call does. */
  lemma UninterruptedResend(s: System, call: CallId, email: Email, now: Time, active: bool, delivered: bool)
    requires call !in s.calls
    ensures var atomic := ResendToken(Atomic(s), email, active, now, delivered).0;
            Complete(Apply(s, StartResend(call, email)), call, now, active, delivered)
            == System(atomic.users, atomic.generated, s.calls)
  {
    var step := Proceed(call, now, active, delivered);
    var s1 := Apply(s, StartResend(call, email));
    var s2 := Apply(s1, step);
    assert Complete(s1, call, now, active, delivered) == Complete(s2, call, now, active, delivered);
    var id := FindByEmail(s.users, email);
    if id.None? || !active || s.users[id.value].isVerified {
      assert s2.calls == s.calls;
    } else {
      var row := Issue(s.users[id.value], s.generated, now);
      var saved := System(s.users[id.value := row], s.generated + 1, s.calls);
      assert Apply(s2, step) == Suspend(saved, call, Deliver(id.value, row));
      assert Complete(s2, call, now, active, delivered)
          == Complete(Suspend(saved, call, Deliver(id.value, row)), call, now, active, delivered);
      hide Complete, FindByEmail;
      UninterruptedDelivery(saved, call, id.value, row, now, active, delivered);
    }
  }

  lemma UninterruptedRegister(s: System, call: CallId, email: Email, now: Time, active: bool, delivered: bool)
    requires call !in s.calls
    ensures var atomic := RegisterAccount(Atomic(s), email, now, delivered).0;
            Complete(Apply(s, StartRegister(call, email)), call, now, active, delivered)
            == System(atomic.users, atomic.generated, s.calls)
  {
    var step := Proceed(call, now, active, delivered);
    var s1 := Apply(s, StartRegister(call, email));
    var s2 := Apply(s1, step);
    assert Complete(s1, call, now, active, delivered) == Complete(s2, call, now, active, delivered);
    if FindByEmail(s.users, email).Some? {
      assert s2.calls == s.calls;
    } else {
      var row := Issue(User(email, false, None, None, None), s.generated, now);
      var s3 := Apply(s2, step);
      var saved := System(s.users + [row], s.generated + 1, s.calls);
      assert Apply(s3, step) == Suspend(saved, call, Deliver(|s.users|, row));
      assert Complete(s2, call, now, active, delivered) == Complete(s3, call, now, active, delivered);
      assert Complete(s3, call, now, active, delivered)
          == Complete(Suspend(saved, call, Deliver(|s.users|, row)), call, now, active, delivered);
      hide Complete, FindByEmail;
      UninterruptedDelivery(saved, call, |s.users|, row, now, active, delivered);
    }
  }

  lemma UninterruptedVerify(s: System, call: CallId, token: Token, now: Time, active: bool, delivered: bool)
    requires call !in s.calls
    ensures var atomic := VerifyToken(Atomic(s), token, now).0;
            Complete(Apply(s, StartVerify(call, token)), call, now, active, delivered)
            == System(atomic.users, s.generated, s.calls)
  {
    var step := Proceed(call, now, active, delivered);
    var s1 := Apply(s, StartVerify(call, token));
    var s2 := Apply(s1, step);
    assert Complete(s1, call, now, active, delivered) == Complete(s2, call, now, active, delivered);
    if call in s2.calls {
      var id := FindByHash(s.users, Hash(token)).value;
      var row := User(s.users[id].email, true, Some(now), None, None);
      assert s2 == Suspend(s, call, Save(id, row, false));
      UninterruptedSave(s, call, id, row, now, active, delivered);
    } else {
      assert s2.calls == s.calls;
    }
  }
}
