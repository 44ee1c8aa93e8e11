/**
 Whose request a cached blob answers. A fetch waits for its slot, and may be repeated after a refusal;
 it carries the token the auth store holds when it is sent, not the user the cache was called for.
 */
module FetchIdentity {
  import opened Options
  import opened AttachmentCache
  import StrandedUrls

  /** The cache, the user whose token is stored, and for each flight the user it was last sent for. */
  datatype Client = Client(cache: Cache, token: Option<User>, sent: map<FlightId, Option<User>>)

  datatype Move =
    | Cached(step: Step)
    | SignIn(token: Option<User>)
    | Send(flight: FlightId)

  const LOADED := Client(EMPTY, None, map[])

  ghost predicate CanMove(c: Client, move: Move) {
    match move
    case Cached(step) => Enabled(c.cache, step) && (step.Settle? ==> step.flight in c.sent)
    case SignIn(_) => true
    case Send(flight) => flight < |c.cache.flights| && flight !in c.cache.outcomes
  }

  ghost function Next(c: Client, move: Move): Client
    requires InRange(c.cache) && CanMove(c, move)
  {
    match move
    case Cached(step) => c.(cache := Apply(c.cache, step))
    case SignIn(token) => c.(token := token)
    case Send(flight) => c.(sent := c.sent[flight := c.token])
  }

  /** Flights of the current session are its user's. */
  ghost predicate FlightsInv(s: Cache) {
    forall f :: 0 <= f < |s.flights| ==>
      s.flights[f].epoch <= s.epoch && (s.flights[f].epoch == s.epoch ==> s.user == Some(s.flights[f].user))
  }

  ghost predicate ClientInv(c: Client) {
    Inv(c.cache) && FlightsInv(c.cache) && forall f :: f in c.sent ==> f < |c.cache.flights|
  }

  /** A flight was started in this session and sent with a token that is not its user's. */
  predicate IsForeign(c: Client, f: FlightId) {
    f in c.sent && f < |c.cache.flights| && c.cache.flights[f].epoch == c.cache.epoch && c.sent[f] != c.cache.user
  }

  ghost predicate NoneForeign(c: Client) {
    forall f :: f in c.sent ==> !IsForeign(c, f)
  }

  /** The request of a flight of this session goes out while the token is not the session's user's. */
  predicate SendsForeign(c: Client, move: Move) {
    && move.Send? && move.flight < |c.cache.flights|
    && c.cache.flights[move.flight].epoch == c.cache.epoch && c.token != c.cache.user
  }

  // ------------------------------------------------------------------ every move

  /** A step leaves flights and session as they are, starts a flight for the user, or begins a session. */
  ghost predicate SessionMoves(s: Cache, t: Cache) {
    || (t.epoch == s.epoch && t.user == s.user && t.flights == s.flights)
    || (t.epoch == s.epoch && t.user == s.user && |t.flights| == |s.flights| + 1 && s.flights <= t.flights
        && t.flights[|s.flights|].epoch == s.epoch && s.user == Some(t.flights[|s.flights|].user))
    || (t.epoch == s.epoch + 1 && t.flights == s.flights)
  }

  lemma WithMapStays(s: Cache, u: User)
    requires InRange(s)
    ensures var t := WithMap(s, u);
            && t.epoch == s.epoch && t.user == s.user && t.flights == s.flights
            && u in t.byUser && t.byUser[u] < |t.maps|
  {
  }

  lemma JoinMoves(t: Cache, call: CallId, u: User, a: AttachmentId, m: MapId)
    requires t.user == Some(u)
    ensures SessionMoves(t, JoinOrStart(t, call, u, a, m))
  {
    hide Pending;
  }

  lemma FetchMoves(s: Cache, call: CallId, attachment: Option<AttachmentId>)
    requires InRange(s)
    ensures SessionMoves(s, StartFetch(s, call, attachment))
  {
    hide WithMap, JoinOrStart;
    if s.user.Some? && attachment.Some? {
      var t := WithMap(s, s.user.value);
      WithMapStays(s, s.user.value);
      JoinMoves(t, call, s.user.value, attachment.value, t.byUser[s.user.value]);
    }
  }

  lemma ResumeMoves(s: Cache, call: CallId)
    requires InRange(s) && Enabled(s, Resume(call))
    ensures SessionMoves(s, ResumeCall(s, call))
  {
    hide Trim;
  }

  lemma StepMoves(s: Cache, step: Step)
    requires InRange(s) && Enabled(s, step)
    ensures SessionMoves(s, Apply(s, step))
  {
    hide StartFetch, ResumeCall, InRange;
    match step
    case Fetch(call, attachment) => FetchMoves(s, call, attachment);
    case Resume(call) => ResumeMoves(s, call);
    case _ =>
  }

  lemma MoveKeepsInv(c: Client, move: Move)
    requires ClientInv(c) && CanMove(c, move)
    ensures InRange(c.cache) && ClientInv(Next(c, move))
  {
    hide Inv, Apply, Enabled;
    InvMeansInRange(c.cache);
    if move.Cached? {
      StepKeepsInv(c.cache, move.step);
      StepMoves(c.cache, move.step);
    }
  }

  /**
   While no flight of the session was sent with another user's token, a move keeps it so exactly when
   it does not send one with another user's token; ending the session forgets them all.
   */
  lemma NoneForeignExactly(c: Client, move: Move)
    requires ClientInv(c) && CanMove(c, move) && NoneForeign(c)
    ensures InRange(c.cache) && (NoneForeign(Next(c, move)) <==> !SendsForeign(c, move))
  {
    hide Inv, Apply, Enabled;
    InvMeansInRange(c.cache);
    var d := Next(c, move);
    match move {
      case Cached(step) =>
        StepMoves(c.cache, step);
        forall f | f in d.sent ensures !IsForeign(d, f) {
          assert f in c.sent && !IsForeign(c, f);
        }
      case SignIn(_) =>
        forall f | f in d.sent ensures !IsForeign(d, f) {
          assert f in c.sent && !IsForeign(c, f);
        }
      case Send(flight) =>
        assert SendsForeign(c, move) ==> IsForeign(d, flight);
        forall f | f in d.sent && f != flight ensures !IsForeign(d, f) {
          assert f in c.sent && !IsForeign(c, f);
        }
    }
  }

  ghost predicate ValidMoves(c: Client, moves: seq<Move>)
    requires ClientInv(c)
    decreases |moves|
  {
    moves == []
    || (CanMove(c, moves[0]) && (MoveKeepsInv(c, moves[0]); ValidMoves(Next(c, moves[0]), moves[1..])))
  }

  ghost function Moved(c: Client, moves: seq<Move>): (d: Client)
    requires ClientInv(c) && ValidMoves(c, moves)
    ensures ClientInv(d)
    decreases |moves|
  {
    if moves == [] then c else
    MoveKeepsInv(c, moves[0]);
    Moved(Next(c, moves[0]), moves[1..])
  }

  /** No move of the run sends a request of the session in another user's name. */
  ghost predicate SendsOwn(c: Client, moves: seq<Move>)
    requires ClientInv(c) && ValidMoves(c, moves)
    decreases |moves|
  {
    moves == []
    || (!SendsForeign(c, moves[0]) && (MoveKeepsInv(c, moves[0]); SendsOwn(Next(c, moves[0]), moves[1..])))
  }

  lemma {:induction false} OwnRunHasNoneForeign(c: Client, moves: seq<Move>)
    requires ClientInv(c) && ValidMoves(c, moves) && NoneForeign(c) && SendsOwn(c, moves)
    ensures NoneForeign(Moved(c, moves))
    decreases |moves|
  {
    hide ClientInv, NoneForeign, SendsForeign, CanMove, Next;
    if moves != [] {
      MoveKeepsInv(c, moves[0]);
      NoneForeignExactly(c, moves[0]);
      OwnRunHasNoneForeign(Next(c, moves[0]), moves[1..]);
    }
  }

  // ------------------------------------------------------------------ what callers get

  /** What lookups see was requested as the user who is signed in, unless a flight of the session was not. */
  lemma VisibleAreRequestedAsTheUser(c: Client)
    requires ClientInv(c) && NoneForeign(c)
    ensures forall a :: a in Visible(c.cache) && Visible(c.cache)[a].flight in c.sent ==>
              c.sent[Visible(c.cache)[a].flight] == c.cache.user
  {
    hide Inv;
    forall a | a in Visible(c.cache) && Visible(c.cache)[a].flight in c.sent
      ensures c.sent[Visible(c.cache)[a].flight] == c.cache.user
    {
      VisibleEntry(c.cache, a);
      assert !IsForeign(c, Visible(c.cache)[a].flight);
    }
  }

  /** The call started the flight in an earlier session of the same user, and inserts its blob now. */
  ghost predicate ReturnsLate(s: Cache, step: Step) {
    && step.Resume? && step.call in s.calls && s.calls[step.call].Fetching?
    && s.calls[step.call].flight < |s.flights| && s.flights[s.calls[step.call].flight].epoch != s.epoch
  }

  /**
   A call answers with a blob that was requested as the signed-in user, unless it started that fetch
   itself in an earlier session: what is found in the cache never was requested for somebody else.
   */
  lemma OnlyLateAnswersAreForeign(c: Client, step: Step)
    requires ClientInv(c) && NoneForeign(c) && Enabled(c.cache, step)
    requires Answer(c.cache, step).Some? && Answer(c.cache, step).value.flight.Some?
    requires Answer(c.cache, step).value.flight.value in c.sent
    ensures var f := Answer(c.cache, step).value.flight.value;
            if ReturnsLate(c.cache, step) then f == c.cache.calls[step.call].flight else c.sent[f] == c.cache.user
  {
    hide AllMapsInv, UrlsInv, SessionInv;
    var f := Answer(c.cache, step).value.flight.value;
    assert !IsForeign(c, f);
    AnswersAreSafe(c.cache, step);
    match step {
      case Fetch(_, a) => VisibleEntry(c.cache, a.value);
      case Resume(call) =>
        assert PhaseInv(c.cache, c.cache.calls[call]);
        if c.cache.calls[call].Joining? { VisibleEntry(c.cache, c.cache.calls[call].attachment); }
    }
  }

  // ------------------------------------------------------------------ a run

  ghost predicate MoveLeads(c: Client, move: Move, d: Client) {
    && ClientInv(c) && CanMove(c, move) && Next(c, move) == d && !SendsForeign(c, move)
  }

  lemma MoveCons(c: Client, move: Move, d: Client, rest: seq<Move>)
    requires MoveLeads(c, move, d) && ClientInv(d) && ValidMoves(d, rest) && SendsOwn(d, rest)
    ensures ValidMoves(c, [move] + rest) && SendsOwn(c, [move] + rest)
    ensures Moved(c, [move] + rest) == Moved(d, rest)
  {
    hide ClientInv, CanMove, Next;
    assert ([move] + rest)[1..] == rest;
  }

  lemma NoMoves(c: Client)
    requires ClientInv(c)
    ensures ValidMoves(c, []) && SendsOwn(c, []) && Moved(c, []) == c
  {
  }

  lemma CachedLeads(c: Client, step: Step, next: Cache)
    requires ClientInv(c) && Leads(c.cache, step, next) && (step.Settle? ==> step.flight in c.sent)
    ensures MoveLeads(c, Cached(step), c.(cache := next)) && ClientInv(c.(cache := next))
  {
    hide Inv, Apply, FlightsInv;
    MoveKeepsInv(c, Cached(step));
  }

  lemma SignInLeads(c: Client, token: Option<User>)
    requires ClientInv(c)
    ensures MoveLeads(c, SignIn(token), c.(token := token)) && ClientInv(c.(token := token))
  {
    hide Inv;
    InvMeansInRange(c.cache);
  }

  lemma LateSend(c: Client)
    requires ClientInv(c) && c.cache == StrandedUrls.OTHER_USER
    ensures MoveLeads(c, Send(0), c.(sent := c.sent[0 := c.token])) && ClientInv(c.(sent := c.sent[0 := c.token]))
  {
    hide Inv;
    InvMeansInRange(c.cache);
  }

  lemma LoadedInv()
    ensures ClientInv(LOADED)
  {
  }

  /** Signed in as the first user, the page asks for an attachment. */
  function Asking(rest: seq<Move>): seq<Move> {
    [SignIn(Some(1))] + ([Cached(SetSession(Some(1)))] + ([Cached(Fetch(0, Some(7)))] + rest))
  }

  /** A second user signs in, and the request gets its slot. */
  function Switching(rest: seq<Move>): seq<Move> {
    [SignIn(Some(2))] + ([Cached(SetSession(Some(2)))] + ([Send(0)] + rest))
  }

  /** The first user is back when the answer comes. */
  function Returning(rest: seq<Move>): seq<Move> {
    [SignIn(Some(1))] + ([Cached(SetSession(Some(1)))] + ([Cached(Settle(0, true))] + rest))
  }

  const ASKED := Client(FETCHING, Some(1), map[])
  const SWITCHED := Client(StrandedUrls.OTHER_USER, Some(2), map[0 := Some(2)])
  const RETURNED := Client(StrandedUrls.ANSWERED, Some(1), map[0 := Some(2)])

  lemma AskingLeads(rest: seq<Move>)
    requires ClientInv(ASKED) ==> ValidMoves(ASKED, rest) && SendsOwn(ASKED, rest)
    ensures ClientInv(LOADED) && ClientInv(ASKED)
    ensures ValidMoves(LOADED, Asking(rest)) && SendsOwn(LOADED, Asking(rest))
    ensures Moved(LOADED, Asking(rest)) == Moved(ASKED, rest)
  {
    hide ClientInv, ValidMoves, SendsOwn, Moved, MoveLeads, Leads;
    LoadedInv();
    SignInLeads(LOADED, Some(1));
    var c := LOADED.(token := Some(1));
    UserSignsIn();
    CachedLeads(c, SetSession(Some(1)), SIGNED_IN);
    var d := c.(cache := SIGNED_IN);
    CacheInv(d);
    FirstCallFetches();
    CachedLeads(d, Fetch(0, Some(7)), FETCHING);
    MoveCons(d, Cached(Fetch(0, Some(7))), ASKED, rest);
    MoveCons(c, Cached(SetSession(Some(1))), d, [Cached(Fetch(0, Some(7)))] + rest);
    MoveCons(LOADED, SignIn(Some(1)), c, [Cached(SetSession(Some(1)))] + ([Cached(Fetch(0, Some(7)))] + rest));
  }

  lemma CacheInv(c: Client)
    requires ClientInv(c)
    ensures Inv(c.cache)
  {
  }

  lemma SwitchingLeads(rest: seq<Move>)
    requires ClientInv(ASKED) && (ClientInv(SWITCHED) ==> ValidMoves(SWITCHED, rest) && SendsOwn(SWITCHED, rest))
    ensures ClientInv(SWITCHED) && ValidMoves(ASKED, Switching(rest)) && SendsOwn(ASKED, Switching(rest))
    ensures Moved(ASKED, Switching(rest)) == Moved(SWITCHED, rest)
  {
    hide ClientInv, ValidMoves, SendsOwn, Moved, MoveLeads, Leads;
    SignInLeads(ASKED, Some(2));
    var c := ASKED.(token := Some(2));
    CacheInv(c);
    StrandedUrls.SecondUserSignsIn();
    CachedLeads(c, SetSession(Some(2)), StrandedUrls.OTHER_USER);
    var d := c.(cache := StrandedUrls.OTHER_USER);
    LateSend(d);
    assert d.(sent := d.sent[0 := d.token]) == SWITCHED;
    MoveCons(d, Send(0), SWITCHED, rest);
    MoveCons(c, Cached(SetSession(Some(2))), d, [Send(0)] + rest);
    MoveCons(ASKED, SignIn(Some(2)), c, [Cached(SetSession(Some(2)))] + ([Send(0)] + rest));
  }

  lemma ReturningLeads()
    requires ClientInv(SWITCHED)
    ensures ClientInv(RETURNED) && ValidMoves(SWITCHED, Returning([])) && SendsOwn(SWITCHED, Returning([]))
    ensures Moved(SWITCHED, Returning([])) == RETURNED
  {
    hide ClientInv, ValidMoves, SendsOwn, Moved, MoveLeads, Leads;
    SignInLeads(SWITCHED, Some(1));
    var c := SWITCHED.(token := Some(1));
    CacheInv(c);
    StrandedUrls.FirstUserIsBack();
    CachedLeads(c, SetSession(Some(1)), StrandedUrls.BACK);
    var d := c.(cache := StrandedUrls.BACK);
    CacheInv(d);
    StrandedUrls.LateFlightSettles();
    CachedLeads(d, Settle(0, true), StrandedUrls.ANSWERED);
    NoMoves(RETURNED);
    MoveCons(d, Cached(Settle(0, true)), RETURNED, []);
    MoveCons(c, Cached(SetSession(Some(1))), d, [Cached(Settle(0, true))] + []);
    MoveCons(SWITCHED, SignIn(Some(1)), c, [Cached(SetSession(Some(1)))] + ([Cached(Settle(0, true))] + []));
  }

  /** Token and session change together, and still the first user's call returns what was requested as the second. */
  lemma ForeignAnswerIsReached()
    ensures var moves := Asking(Switching(Returning([])));
            && ClientInv(LOADED) && ValidMoves(LOADED, moves) && SendsOwn(LOADED, moves)
            && var c := Moved(LOADED, moves);
               && Enabled(c.cache, Resume(0)) && Answer(c.cache, Resume(0)) == Some(Reply(0, Some(0)))
               && c.cache.user == Some(1) && 0 in c.sent && c.sent[0] == Some(2)
  {
    hide ClientInv, ValidMoves, SendsOwn, Moved, Asking, Switching, Returning;
    if ClientInv(ASKED) {
      if ClientInv(SWITCHED) { ReturningLeads(); }
      SwitchingLeads(Returning([]));
    }
    AskingLeads(Switching(Returning([])));
    CacheInv(RETURNED);
    InvMeansInRange(RETURNED.cache);
  }
}
