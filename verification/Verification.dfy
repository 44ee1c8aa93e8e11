/**
 The life of email-verification tokens: issued by registration and resend, delivered or withdrawn,
 accepted once. Every service call is atomic; tokens are fresh and their hash is injective.
 */
module Verification {
  import opened Options

  type Email = string
  type Time = nat   // milliseconds
  type Token = nat  // the n-th token generated

  /** VERIFICATION_TOKEN_EXPIRATION_HOURS, in milliseconds. */
  const LIFETIME: nat := 24 * 60 * 60 * 1000

  datatype Hash = Hash(token: Token)

  datatype User = User(
    email: Email, isVerified: bool, verifiedAt: Option<Time>, tokenHash: Option<Hash>, tokenExpiresAt: Option<Time>)

  /** History: what was issued to whom, and what was accepted. */
  datatype Event =
    | Issued(email: Email, token: Token, at: Time, delivered: bool)
    | Accepted(email: Email, token: Token, at: Time)

  datatype State = State(users: seq<User>, generated: nat, log: seq<Event>)

  const EMPTY := State([], 0, [])

  datatype Error = EmailAlreadyRegistered | EmailSendFailed | TokenInvalid

  datatype Outcome = Done | Failed(error: Error)

  function FindByEmail(users: seq<User>, email: Email): (r: Option<nat>)
    ensures r.Some? ==> r.value < |users| && users[r.value].email == email
    ensures r.None? ==> forall i :: 0 <= i < |users| ==> users[i].email != email
  {
    if users == [] then None
    else if users[|users| - 1].email == email then Some(|users| - 1)
    else FindByEmail(users[..|users| - 1], email)
  }

  function FindByHash(users: seq<User>, hash: Hash): (r: Option<nat>)
    ensures r.Some? ==> r.value < |users| && users[r.value].tokenHash == Some(hash)
    ensures r.None? ==> forall i :: 0 <= i < |users| ==> users[i].tokenHash != Some(hash)
  {
    if users == [] then None
    else if users[|users| - 1].tokenHash == Some(hash) then Some(|users| - 1)
    else FindByHash(users[..|users| - 1], hash)
  }

  /** What is stored for a token once its email is on the way, or could not be sent. */
  function WithToken(user: User, token: Token, now: Time, delivered: bool): User {
    if delivered then user.(tokenHash := Some(Hash(token)), tokenExpiresAt := Some(now + LIFETIME))
    else user.(tokenHash := None, tokenExpiresAt := None)
  }

  function SendOutcome(delivered: bool): Outcome {
    if delivered then Done else Failed(EmailSendFailed)
  }

  function RegisterAccount(s: State, email: Email, now: Time, delivered: bool): (State, Outcome) {
    if FindByEmail(s.users, email).Some? then (s, Failed(EmailAlreadyRegistered)) else
    var user := WithToken(User(email, false, None, None, None), s.generated, now, delivered);
    (State(s.users + [user], s.generated + 1, s.log + [Issued(email, s.generated, now, delivered)]),
     SendOutcome(delivered))
  }

  function ResendToken(s: State, email: Email, active: bool, now: Time, delivered: bool): (State, Outcome) {
    var id := FindByEmail(s.users, email);
    if id.None? || !active || s.users[id.value].isVerified then (s, Done) else
    var user := WithToken(s.users[id.value], s.generated, now, delivered);
    (State(s.users[id.value := user], s.generated + 1, s.log + [Issued(email, s.generated, now, delivered)]),
     SendOutcome(delivered))
  }

  function VerifyToken(s: State, token: Token, now: Time): (State, Outcome) {
    var id := FindByHash(s.users, Hash(token));
    if id.None? then (s, Failed(TokenInvalid)) else
    var user := s.users[id.value];
    if user.tokenExpiresAt.None? || user.tokenExpiresAt.value <= now then (s, Failed(TokenInvalid)) else
    (s.(users := s.users[id.value := User(user.email, true, Some(now), None, None)],
        log := s.log + [Accepted(user.email, token, now)]),
     Done)
  }

  // ------------------------------------------------------------------ the service

  class AuthService {
    var users: seq<User>
    var generated: nat
    ghost var log: seq<Event>

    ghost function Model(): State
      reads this
    {
      State(users, generated, log)
    }

    constructor ()
      ensures Model() == EMPTY
    {
      users, generated, log := [], 0, [];
    }

    method GenerateToken() returns (token: Token)
      modifies this`generated
      ensures token == old(generated) && generated == old(generated) + 1
    {
      token := generated;
      generated := generated + 1;
    }

    method Register(email: Email, now: Time, delivered: bool) returns (r: Outcome)
      modifies this
      ensures (Model(), r) == RegisterAccount(old(Model()), email, now, delivered)
      ensures (exists u :: u in old(users) && u.email == email) ==>
                r == Failed(EmailAlreadyRegistered) && Model() == old(Model())
      ensures (forall u :: u in old(users) ==> u.email != email) ==>
                && r == (if delivered then Done else Failed(EmailSendFailed))
                && users == old(users) + [User(email, false, None,
                                               if delivered then Some(Hash(old(generated))) else None,
                                               if delivered then Some(now + 86_400_000) else None)]
                && generated == old(generated) + 1
                && log == old(log) + [Issued(email, old(generated), now, delivered)]
    {
      var existing := FindByEmail(users, email);
      if existing.Some? { return Failed(EmailAlreadyRegistered); }
      var token := GenerateToken();
      users := users + [User(email, false, None, Some(Hash(token)), Some(now + LIFETIME))];
      log := log + [Issued(email, token, now, delivered)];
      r := SendVerificationEmail(|users| - 1, delivered);
      assert users == old(users) + [WithToken(User(email, false, None, None, None), token, now, delivered)];
    }

    /** On a delivery failure the stored token is withdrawn; the account stays. */
    method SendVerificationEmail(id: nat, delivered: bool) returns (r: Outcome)
      requires id < |users|
      modifies this`users
      ensures r == SendOutcome(delivered)
      ensures users == if delivered then old(users)
                       else old(users)[id := old(users)[id].(tokenHash := None, tokenExpiresAt := None)]
    {
      if delivered { return Done; }
      users := users[id := users[id].(tokenHash := None)];
      users := users[id := users[id].(tokenExpiresAt := None)];
      return Failed(EmailSendFailed);
    }

    method ResendVerification(email: Email, active: bool, now: Time, delivered: bool) returns (r: Outcome)
      modifies this
      ensures (Model(), r) == ResendToken(old(Model()), email, active, now, delivered)
      ensures generated == old(generated) ==>
                && r == Done && Model() == old(Model())
                && (active ==> forall u :: u in old(users) && u.email == email ==>
                      exists v :: v in old(users) && v.email == email && v.isVerified)
      ensures generated != old(generated) ==>
                && active && generated == old(generated) + 1
                && r == (if delivered then Done else Failed(EmailSendFailed))
                && log == old(log) + [Issued(email, old(generated), now, delivered)]
                && exists i :: 0 <= i < |old(users)| && old(users)[i].email == email && !old(users)[i].isVerified
                     && users == old(users)[i := old(users)[i].(
                          tokenHash := if delivered then Some(Hash(old(generated))) else None,
                          tokenExpiresAt := if delivered then Some(now + 86_400_000) else None)]
    {
      var id := FindByEmail(users, email);
      assert id.Some? ==> users[id.value] in users;
      if id.None? || !active || users[id.value].isVerified { return Done; }
      var token := GenerateToken();
      users := users[id.value := users[id.value].(tokenHash := Some(Hash(token)))];
      users := users[id.value := users[id.value].(tokenExpiresAt := Some(now + LIFETIME))];
      log := log + [Issued(email, token, now, delivered)];
      r := SendVerificationEmail(id.value, delivered);
      assert users == old(users)[id.value := WithToken(old(users)[id.value], token, now, delivered)];
    }

    method VerifyEmail(token: Token, now: Time) returns (r: Outcome)
      modifies this
      ensures (Model(), r) == VerifyToken(old(Model()), token, now)
      ensures r == Done || (r == Failed(TokenInvalid) && Model() == old(Model()))
      ensures r == Done ==>
                exists i :: 0 <= i < |old(users)| && old(users)[i].tokenHash == Some(Hash(token))
                  && old(users)[i].tokenExpiresAt.Some? && now < old(users)[i].tokenExpiresAt.value
                  && users == old(users)[i := User(old(users)[i].email, true, Some(now), None, None)]
                  && log == old(log) + [Accepted(old(users)[i].email, token, now)]
      ensures r != Done ==>
                forall u :: u in old(users) && u.tokenHash == Some(Hash(token)) ==>
                  exists v :: v in old(users) && v.tokenHash == Some(Hash(token))
                              && (v.tokenExpiresAt.None? || v.tokenExpiresAt.value <= now)
    {
      var id := FindByHash(users, Hash(token));
      if id.None? { return Failed(TokenInvalid); }
      var user := users[id.value];
      assert user in users;
      if user.tokenExpiresAt.None? || user.tokenExpiresAt.value <= now { return Failed(TokenInvalid); }
      user := user.(isVerified := true, verifiedAt := Some(now));
      user := user.(tokenHash := None, tokenExpiresAt := None);
      users := users[id.value := user];
      log := log + [Accepted(user.email, token, now)];
      return Done;
    }
  }

  // ------------------------------------------------------------------ runs

  datatype Op =
    | Register(email: Email, now: Time, delivered: bool)
    | Resend(email: Email, active: bool, now: Time, delivered: bool)
    | Verify(token: Token, now: Time)

  function Apply(s: State, op: Op): State {
    match op
    case Register(email, now, delivered) => RegisterAccount(s, email, now, delivered).0
    case Resend(email, active, now, delivered) => ResendToken(s, email, active, now, delivered).0
    case Verify(token, now) => VerifyToken(s, token, now).0
  }

  function Run(s: State, ops: seq<Op>): State
    decreases |ops|
  {
    if ops == [] then s else Run(Apply(s, ops[0]), ops[1..])
  }

  /** The token an account can be verified with: the last one issued to it, if delivered and not used. */
  function Live(log: seq<Event>, email: Email): (r: Option<Event>)
    ensures r.Some? ==> r.value.Issued? && r.value.delivered && r.value.email == email && r.value in log
  {
    if log == [] then None else
    var last := log[|log| - 1];
    if last.email != email then Live(log[..|log| - 1], email)
    else if last.Issued? && last.delivered then Some(last) else None
  }

  predicate WasAccepted(log: seq<Event>, email: Email) {
    exists k :: 0 <= k < |log| && log[k].Accepted? && log[k].email == email
  }

  /** What the row of an account says about its token. */
  ghost predicate UserInv(user: User, log: seq<Event>) {
    var live := Live(log, user.email);
    && user.tokenHash == (if live.None? then None else Some(Hash(live.value.token)))
    && user.tokenExpiresAt == (if live.None? then None else Some(live.value.at + LIFETIME))
    && (user.isVerified <==> WasAccepted(log, user.email))
    && (user.isVerified ==> live.None?)
  }

  ghost predicate UsersInv(users: seq<User>, log: seq<Event>) {
    && (forall i, j :: 0 <= i < j < |users| ==> users[i].email != users[j].email)
    && (forall i :: 0 <= i < |users| ==> UserInv(users[i], log))
    && (forall k :: 0 <= k < |log| ==> exists i :: 0 <= i < |users| && users[i].email == log[k].email)
  }

  /** An event as it may follow a log: a fresh token, or the first acceptance of an account's live token in time. */
  predicate MayFollow(log: seq<Event>, generated: nat, e: Event) {
    match e
    case Issued(_, token, _, _) => token == generated
    case Accepted(email, token, at) =>
      var live := Live(log, email);
      live.Some? && live.value.token == token && at < live.value.at + LIFETIME && !WasAccepted(log, email)
  }

  /** Tokens are numbered in order of issue, and each acceptance was allowed when it came. */
  ghost predicate LogInv(log: seq<Event>, generated: nat) {
    && (forall k :: 0 <= k < |log| ==> log[k].token < generated)
    && (forall j, k :: 0 <= j < k < |log| && log[j].Issued? && log[k].Issued? ==> log[j].token < log[k].token)
    && (forall k :: 0 <= k < |log| && log[k].Accepted? ==> MayFollow(log[..k], generated, log[k]))
  }

  ghost predicate Inv(s: State) {
    UsersInv(s.users, s.log) && LogInv(s.log, s.generated)
  }

  lemma LiveSnoc(log: seq<Event>, e: Event, email: Email)
    ensures Live(log + [e], email)
         == if e.email != email then Live(log, email) else if e.Issued? && e.delivered then Some(e) else None
    ensures WasAccepted(log + [e], email) <==> WasAccepted(log, email) || (e.Accepted? && e.email == email)
  {
    assert (log + [e])[..|log|] == log;
    if WasAccepted(log, email) {
      var k :| 0 <= k < |log| && log[k].Accepted? && log[k].email == email;
      assert (log + [e])[k] == log[k];
    }
    if e.Accepted? && e.email == email {
      assert (log + [e])[|log|] == e;
    }
  }

  lemma SnocKeepsLogInv(log: seq<Event>, generated: nat, e: Event)
    requires LogInv(log, generated) && MayFollow(log, generated, e)
    ensures LogInv(log + [e], generated + if e.Issued? then 1 else 0)
  {
    var longer := log + [e];
    forall k | 0 <= k < |longer| && longer[k].Accepted?
      ensures MayFollow(longer[..k], generated + if e.Issued? then 1 else 0, longer[k])
    {
      assert longer[..k] == log[..k];
    }
  }

  /** The row of an account, replaced or added. */
  function Put(users: seq<User>, id: nat, user: User): seq<User>
    requires id <= |users|
  {
    if id < |users| then users[id := user] else users + [user]
  }

  /** An event about one account: its row moves with it, the others are unaffected. */
  lemma UserStep(users: seq<User>, log: seq<Event>, id: nat, user: User, e: Event)
    requires UsersInv(users, log) && id <= |users|
    requires if id < |users| then users[id].email == e.email
             else forall i :: 0 <= i < |users| ==> users[i].email != e.email
    requires user.email == e.email && UserInv(user, log + [e])
    ensures UsersInv(Put(users, id, user), log + [e])
  {
    hide UserInv;
    var after := Put(users, id, user);
    assert forall i :: 0 <= i < |users| ==> after[i].email == users[i].email;
    assert forall i, j :: 0 <= i < j < |after| ==> after[i].email != after[j].email;
    forall i | 0 <= i < |after| ensures UserInv(after[i], log + [e]) {
      if i != id {
        assert after[i] == users[i] && users[i].email != e.email;
        OthersUnaffected(users[i], log, e);
      }
    }
    forall k | 0 <= k < |log + [e]| ensures exists i :: 0 <= i < |after| && after[i].email == (log + [e])[k].email {
      if k < |log| {
        var i :| 0 <= i < |users| && users[i].email == log[k].email;
        assert after[i].email == users[i].email;
      } else {
        assert after[id].email == e.email;
      }
    }
  }

  lemma OthersUnaffected(user: User, log: seq<Event>, e: Event)
    requires UserInv(user, log) && user.email != e.email
    ensures UserInv(user, log + [e])
  {
    LiveSnoc(log, e, user.email);
  }

  /** An account nobody knew has no history. */
  lemma NoHistory(users: seq<User>, log: seq<Event>, email: Email)
    requires UsersInv(users, log) && forall i :: 0 <= i < |users| ==> users[i].email != email
    ensures !WasAccepted(log, email)
  {
    hide UserInv;
  }

  /** Addresses keep their account, and verified stays verified. */
  ghost predicate UsersGrow(before: seq<User>, after: seq<User>) {
    |before| <= |after|
    && forall i :: 0 <= i < |before| ==>
         after[i].email == before[i].email && (before[i].isVerified ==> after[i] == before[i])
  }

  lemma IssueStep(s: State, id: nat, before: User, now: Time, delivered: bool)
    requires Inv(s) && id <= |s.users| && !before.isVerified
    requires if id < |s.users| then s.users[id] == before
             else forall i :: 0 <= i < |s.users| ==> s.users[i].email != before.email
    ensures Inv(State(Put(s.users, id, WithToken(before, s.generated, now, delivered)), s.generated + 1,
                      s.log + [Issued(before.email, s.generated, now, delivered)]))
  {
    var e := Issued(before.email, s.generated, now, delivered);
    var user := WithToken(before, s.generated, now, delivered);
    LiveSnoc(s.log, e, before.email);
    if id == |s.users| { NoHistory(s.users, s.log, before.email); }
    assert UserInv(user, s.log + [e]);
    hide UserInv, UsersInv, LogInv;
    UserStep(s.users, s.log, id, user, e);
    SnocKeepsLogInv(s.log, s.generated, e);
  }

  lemma VerifyStep(s: State, token: Token, now: Time)
    requires Inv(s)
    ensures Inv(VerifyToken(s, token, now).0)
  {
    var id := FindByHash(s.users, Hash(token));
    if VerifyToken(s, token, now).1 == Done {
      var user := s.users[id.value];
      var e := Accepted(user.email, token, now);
      assert UserInv(user, s.log);
      assert MayFollow(s.log, s.generated, e);
      LiveSnoc(s.log, e, user.email);
      var verified := User(user.email, true, Some(now), None, None);
      assert UserInv(verified, s.log + [e]);
      hide UserInv, UsersInv, LogInv;
      UserStep(s.users, s.log, id.value, verified, e);
      SnocKeepsLogInv(s.log, s.generated, e);
    }
  }

  lemma StepKeepsInv(s: State, op: Op)
    requires Inv(s)
    ensures Inv(Apply(s, op)) && UsersGrow(s.users, Apply(s, op).users)
  {
    hide Inv;
    match op
    case Register(email, now, delivered) =>
      if FindByEmail(s.users, email).None? {
        IssueStep(s, |s.users|, User(email, false, None, None, None), now, delivered);
      }
    case Resend(email, active, now, delivered) =>
      var id := FindByEmail(s.users, email);
      if id.Some? && !s.users[id.value].isVerified { IssueStep(s, id.value, s.users[id.value], now, delivered); }
    case Verify(token, now) =>
      VerifyStep(s, token, now);
      VerifyKeepsVerified(s, token, now);
  }

  lemma VerifyKeepsVerified(s: State, token: Token, now: Time)
    requires Inv(s)
    ensures UsersGrow(s.users, VerifyToken(s, token, now).0.users)
  {
    var id := FindByHash(s.users, Hash(token));
    if id.Some? {
      assert UserInv(s.users[id.value], s.log);
    }
  }

  // ------------------------------------------------------------------ every run

  lemma {:induction false} RunKeepsInv(s: State, ops: seq<Op>)
    requires Inv(s)
    ensures Inv(Run(s, ops)) && UsersGrow(s.users, Run(s, ops).users)
    decreases |ops|
  {
    hide Inv, Apply;
    if ops != [] {
      StepKeepsInv(s, ops[0]);
      RunKeepsInv(Apply(s, ops[0]), ops[1..]);
    }
  }

  lemma ReachableStates(ops: seq<Op>)
    ensures Inv(Run(EMPTY, ops))
  {
    RunKeepsInv(EMPTY, ops);
  }

  /** A verified account keeps its row unchanged at every later point: it never becomes unverified again. */
  lemma VerifiedForGood(ops: seq<Op>, more: seq<Op>, i: nat)
    requires i < |Run(EMPTY, ops).users| && Run(EMPTY, ops).users[i].isVerified
    ensures var later := Run(Run(EMPTY, ops), more).users;
            i < |later| && later[i] == Run(EMPTY, ops).users[i]
  {
    ReachableStates(ops);
    RunKeepsInv(Run(EMPTY, ops), more);
  }

  /** The token came with the last event about the account. */
  predicate IsLastIssue(log: seq<Event>, j: nat, email: Email) {
    j < |log| && log[j].email == email && log[j].Issued? && log[j].delivered
    && forall i :: j < i < |log| ==> log[i].email != email
  }

  lemma {:induction false} LiveIsTheLast(log: seq<Event>, email: Email)
    requires Live(log, email).Some?
    ensures exists j: nat :: IsLastIssue(log, j, email) && log[j] == Live(log, email).value
  {
    var front := log[..|log| - 1];
    if log[|log| - 1].email == email {
      assert IsLastIssue(log, |log| - 1, email);
    } else {
      LiveIsTheLast(front, email);
      var j: nat :| IsLastIssue(front, j, email) && front[j] == Live(front, email).value;
      assert IsLastIssue(log, j, email);
    }
  }

  /**
   Whenever a token was accepted: it had been issued to that account and delivered, less than
   24 hours before, and nothing was issued to or accepted for the account in between.
   */
  lemma AcceptedWereLive(ops: seq<Op>, k: nat)
    requires k < |Run(EMPTY, ops).log| && Run(EMPTY, ops).log[k].Accepted?
    ensures var log := Run(EMPTY, ops).log;
            exists j: nat :: IsLastIssue(log[..k], j, log[k].email)
                             && log[j].token == log[k].token && log[k].at < log[j].at + 86_400_000
  {
    hide Live, UsersInv;
    ReachableStates(ops);
    var log := Run(EMPTY, ops).log;
    var email := log[k].email;
    assert MayFollow(log[..k], Run(EMPTY, ops).generated, log[k]);
    LiveIsTheLast(log[..k], email);
    var j: nat :| IsLastIssue(log[..k], j, email) && log[..k][j] == Live(log[..k], email).value;
    assert log[j] == log[..k][j];
  }

  /** An account accepted once has no acceptance later. */
  lemma AccountAcceptedOnce(log: seq<Event>, generated: nat, j: nat, k: nat)
    requires LogInv(log, generated) && j < k < |log| && log[j].Accepted? && log[k].Accepted?
    ensures log[j].email != log[k].email
  {
    hide Live;
    assert MayFollow(log[..k], generated, log[k]);
    assert log[..k][j] == log[j];
  }

  /** The issue behind an acceptance. */
  lemma IssueOfAccepted(ops: seq<Op>, k: nat) returns (i: nat)
    requires k < |Run(EMPTY, ops).log| && Run(EMPTY, ops).log[k].Accepted?
    ensures var log := Run(EMPTY, ops).log;
            i < k && log[i].Issued? && log[i].email == log[k].email && log[i].token == log[k].token
  {
    hide Run;
    AcceptedWereLive(ops, k);
    var log := Run(EMPTY, ops).log;
    i :| IsLastIssue(log[..k], i, log[k].email) && log[i].token == log[k].token;
    assert log[..k][i] == log[i];
  }

  lemma TokenIssuedOnce(log: seq<Event>, generated: nat, i: nat, j: nat)
    requires LogInv(log, generated) && i < |log| && j < |log| && log[i].Issued? && log[j].Issued?
    requires log[i].token == log[j].token
    ensures i == j
  {
    hide MayFollow;
  }

  /** No token is accepted twice, and no account is verified twice. */
  lemma AcceptedOnce(ops: seq<Op>, j: nat, k: nat)
    requires j < k < |Run(EMPTY, ops).log|
    requires Run(EMPTY, ops).log[j].Accepted? && Run(EMPTY, ops).log[k].Accepted?
    ensures Run(EMPTY, ops).log[j].token != Run(EMPTY, ops).log[k].token
    ensures Run(EMPTY, ops).log[j].email != Run(EMPTY, ops).log[k].email
  {
    hide Run, LogInv, UsersInv;
    ReachableStates(ops);
    var s := Run(EMPTY, ops);
    AccountAcceptedOnce(s.log, s.generated, j, k);
    var a := IssueOfAccepted(ops, j);
    var b := IssueOfAccepted(ops, k);
    if s.log[j].token == s.log[k].token {
      TokenIssuedOnce(s.log, s.generated, a, b);
    }
  }

  /** At any point a token is accepted exactly when some account's last issue delivered it, less than 24 hours ago. */
  lemma AcceptsExactlyTheLive(ops: seq<Op>, token: Token, now: Time)
    ensures var s := Run(EMPTY, ops);
            VerifyToken(s, token, now).1 == Done
            <==> exists email :: Live(s.log, email).Some? && Live(s.log, email).value.token == token
                                 && now < Live(s.log, email).value.at + 86_400_000
  {
    RunKeepsInv(EMPTY, ops);
    var s := Run(EMPTY, ops);
    if VerifyToken(s, token, now).1 == Done {
      var user := s.users[FindByHash(s.users, Hash(token)).value];
      assert UserInv(user, s.log);
    }
    if email: Email :| Live(s.log, email).Some? && Live(s.log, email).value.token == token
                       && now < Live(s.log, email).value.at + 86_400_000 {
      LiveIsStored(s, email);
      LiveTokensDiffer(s, token, FindByHash(s.users, Hash(token)).value, email);
    }
  }

  lemma LiveIsStored(s: State, email: Email)
    requires Inv(s) && Live(s.log, email).Some?
    ensures exists i :: 0 <= i < |s.users| && s.users[i].email == email && UserInv(s.users[i], s.log)
    ensures FindByHash(s.users, Hash(Live(s.log, email).value.token)).Some?
  {
    var k :| 0 <= k < |s.log| && s.log[k] == Live(s.log, email).value;
    var i :| 0 <= i < |s.users| && s.users[i].email == s.log[k].email;
    assert UserInv(s.users[i], s.log);
  }

  lemma LiveTokensDiffer(s: State, token: Token, i: nat, email: Email)
    requires Inv(s) && i < |s.users| && s.users[i].tokenHash == Some(Hash(token))
    requires Live(s.log, email).Some? && Live(s.log, email).value.token == token
    ensures s.users[i].email == email
  {
    assert UserInv(s.users[i], s.log);
    var j :| 0 <= j < |s.log| && s.log[j] == Live(s.log, email).value;
    var k :| 0 <= k < |s.log| && s.log[k] == Live(s.log, s.users[i].email).value;
    assert j == k;
  }

  /** A token that was generated and is stored nowhere: superseded, withdrawn or used. */
  predicate IsDead(s: State, token: Token) {
    token < s.generated && forall i :: 0 <= i < |s.users| ==> s.users[i].tokenHash != Some(Hash(token))
  }

  /** Replacing a token ends it, whether or not the new one is delivered. */
  lemma ResendEndsTheOld(s: State, email: Email, now: Time, delivered: bool, token: Token)
    requires Inv(s) && FindByEmail(s.users, email).Some?
    requires s.users[FindByEmail(s.users, email).value].tokenHash == Some(Hash(token))
    ensures IsDead(ResendToken(s, email, true, now, delivered).0, token)
  {
    var id := FindByEmail(s.users, email).value;
    assert UserInv(s.users[id], s.log);
    forall i | 0 <= i < |s.users| ensures i != id ==> s.users[i].tokenHash != Some(Hash(token)) {
      StoredTokensDiffer(s, id, i);
    }
    StoredTokensDiffer(s, id, id);
  }

  /** Using a token ends it. */
  lemma UseEndsIt(s: State, token: Token, now: Time)
    requires Inv(s) && VerifyToken(s, token, now).1 == Done
    ensures IsDead(VerifyToken(s, token, now).0, token)
  {
    var id := FindByHash(s.users, Hash(token)).value;
    forall i | 0 <= i < |s.users| ensures i != id ==> s.users[i].tokenHash != Some(Hash(token)) {
      StoredTokensDiffer(s, id, i);
    }
    StoredTokensDiffer(s, id, id);
  }

  /** A token whose email could not be sent is dead from the start. */
  lemma UndeliveredIsDead(s: State, email: Email, now: Time)
    requires Inv(s)
    ensures var t := RegisterAccount(s, email, now, false).0;
            t.generated > s.generated ==> IsDead(t, s.generated)
    ensures var t := ResendToken(s, email, true, now, false).0;
            t.generated > s.generated ==> IsDead(t, s.generated)
  {
    forall i | 0 <= i < |s.users| ensures s.users[i].tokenHash != Some(Hash(s.generated)) {
      if s.users[i].tokenHash.Some? { StoredTokensDiffer(s, i, i); }
    }
  }

  lemma StoredTokensDiffer(s: State, i: nat, j: nat)
    requires Inv(s) && i < |s.users| && j < |s.users| && s.users[i].tokenHash.Some?
    ensures s.users[i].tokenHash.value.token < s.generated
    ensures i != j ==> s.users[i].tokenHash != s.users[j].tokenHash
  {
    assert UserInv(s.users[i], s.log) && UserInv(s.users[j], s.log);
    var live := Live(s.log, s.users[i].email).value;
    var k :| 0 <= k < |s.log| && s.log[k] == live;
    if s.users[i].tokenHash == s.users[j].tokenHash {
      LiveTokensDiffer(s, live.token, j, s.users[i].email);
    }
  }

  /** Once dead, a token is refused at every later point of every run. */
  lemma {:induction false} TheDeadStayDead(s: State, ops: seq<Op>, token: Token, now: Time)
    requires IsDead(s, token)
    ensures IsDead(Run(s, ops), token) && VerifyToken(Run(s, ops), token, now).1 == Failed(TokenInvalid)
    decreases |ops|
  {
    if ops != [] {
      assert IsDead(Apply(s, ops[0]), token);
      TheDeadStayDead(Apply(s, ops[0]), ops[1..], token, now);
    }
  }
}
