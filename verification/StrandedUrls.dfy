/**
 Object URLs nobody can reach and nobody will revoke: those a second fetch of the same attachment has
 replaced in their map, and those inserted into a map the session had dropped.
 */
module StrandedUrls {
  import opened Options
  import opened AttachmentCache

  /** The map and the key the URL was inserted under still hold it. */
  predicate IsHeld(s: Cache, url: Url) {
    && url in s.homes && s.homes[url].0 < |s.maps|
    && s.homes[url].1 in s.maps[s.homes[url].0].entries
    && s.maps[s.homes[url].0].entries[s.homes[url].1].url == url
  }

  /** The map is the one a signed-in user looks things up in. */
  predicate IsCurrent(s: Cache, m: MapId) {
    exists u :: u in s.byUser && s.byUser[u] == m
  }

  /** A suspended call started with this map and will insert into it. */
  predicate IsAwaited(s: Cache, m: MapId) {
    exists c :: c in s.calls && s.calls[c].Fetching? && s.calls[c].entries == m
  }

  /** Inserted, not revoked, and in no map, or in one that is neither current nor awaited. */
  predicate IsStranded(s: Cache, url: Url) {
    && url in s.homes && url !in s.revoked
    && (!IsHeld(s, url) || (!IsCurrent(s, s.homes[url].0) && !IsAwaited(s, s.homes[url].0)))
  }

  /** Held URLs are found at their home only. */
  lemma HeldAtHome(s: Cache, m: MapId, url: Url)
    requires Inv(s) && m < |s.maps| && url in Urls(s.maps[m].entries)
    ensures IsHeld(s, url) && s.homes[url].0 == m
  {
    MapsInvAt(s, m);
    var a :| a in s.maps[m].entries && s.maps[m].entries[a].url == url;
    assert EntryInv(s.maps[m].entries[a], s.maps[m], m, a, s.flights, s.homes, s.sequence);
  }

  lemma StrandedIsInvisible(s: Cache, url: Url)
    requires Inv(s) && IsStranded(s, url)
    ensures url !in Urls(Visible(s))
  {
    hide Inv;
    InvMeansInRange(s);
    if url in Urls(Visible(s)) {
      HeldAtHome(s, s.byUser[s.user.value], url);
    }
  }

  /** No step revokes a stranded URL. */
  lemma StrandedIsNotRevoked(s: Cache, step: Step, url: Url)
    requires Inv(s) && Enabled(s, step) && IsStranded(s, url)
    ensures url !in Apply(s, step).revoked
  {
    hide Inv, Apply;
    InvMeansInRange(s);
    RevokedExactly(s, step);
    StrandedIsInvisible(s, url);
    if url in Revokes(s, step) {
      assert step.Resume?;
      HeldAtHome(s, s.calls[step.call].entries, url);
    }
  }

  /**
   What a step does to a map: entries keep their URL unless a new one takes their place, a map that is
   not current never becomes so, and only calls of the current map come to insert into it.
   */
  ghost predicate Kept(s: Cache, t: Cache, m: MapId, a: AttachmentId)
    requires m < |s.maps|
  {
    && m < |t.maps|
    && (a in t.maps[m].entries && t.maps[m].entries[a].url < s.urls ==>
          a in s.maps[m].entries && t.maps[m].entries[a].url == s.maps[m].entries[a].url)
    && (forall url :: url in s.homes ==> url in t.homes && t.homes[url] == s.homes[url])
    && (IsCurrent(t, m) ==> IsCurrent(s, m))
    && (IsAwaited(t, m) ==> IsAwaited(s, m) || IsCurrent(s, m))
  }

  lemma WithMapKeeps(s: Cache, u: User, m: MapId, a: AttachmentId)
    requires InRange(s) && m < |s.maps|
    ensures Kept(s, WithMap(s, u), m, a)
  {
    var t := WithMap(s, u);
    if IsCurrent(t, m) {
      var v :| v in t.byUser && t.byUser[v] == m;
      assert v in s.byUser && s.byUser[v] == m;
    }
  }

  lemma ClaimKeeps(s: Cache, into: MapId, b: AttachmentId, m: MapId, a: AttachmentId)
    requires into < |s.maps| && b in s.maps[into].entries && m < |s.maps|
    ensures Kept(s, Claim(s, into, b), m, a)
  {
  }

  lemma JoinKeeps(s: Cache, call: CallId, u: User, b: AttachmentId, m: MapId, a: AttachmentId)
    requires m < |s.maps| && u in s.byUser
    ensures Kept(s, JoinOrStart(s, call, u, b, s.byUser[u]), m, a)
  {
    hide Pending;
    var t := JoinOrStart(s, call, u, b, s.byUser[u]);
    assert forall c :: c in t.calls && c != call ==> c in s.calls && t.calls[c] == s.calls[c];
  }

  lemma KeptTransitively(s: Cache, t: Cache, u: Cache, m: MapId, a: AttachmentId)
    requires m < |s.maps| && Kept(s, t, m, a) && Kept(t, u, m, a) && s.urls == t.urls
    ensures Kept(s, u, m, a)
  {
    hide IsCurrent, IsAwaited;
  }

  lemma FetchKeeps(s: Cache, call: CallId, attachment: Option<AttachmentId>, m: MapId, a: AttachmentId)
    requires InRange(s) && m < |s.maps|
    ensures Kept(s, StartFetch(s, call, attachment), m, a)
  {
    hide Kept, WithMap, Claim, JoinOrStart;
    if s.user.None? || attachment.None? {
      DirectKeeps(s, call, m, a);
    } else {
      var u, b := s.user.value, attachment.value;
      var t := WithMap(s, u);
      WithMapKeeps(s, u, m, a);
      WithMapFacts(s, u);
      if b in t.maps[t.byUser[u]].entries {
        ClaimKeeps(t, t.byUser[u], b, m, a);
      } else {
        JoinKeeps(t, call, u, b, m, a);
      }
      KeptTransitively(s, t, StartFetch(s, call, attachment), m, a);
    }
  }

  lemma DirectKeeps(s: Cache, call: CallId, m: MapId, a: AttachmentId)
    requires m < |s.maps|
    ensures Kept(s, s.(calls := s.calls[call := Direct]), m, a)
  {
  }

  lemma InsertKeeps(s: Cache, call: CallId, b: AttachmentId, into: MapId, flight: FlightId, m: MapId, a: AttachmentId)
    requires Inv(s) && into < |s.maps| && m < |s.maps|
    ensures Kept(s, Insert(s, call, b, into, flight), m, a)
  {
    hide Trim, MapInv, SessionInv, CallsInv;
    MapsInvAt(s, into);
    TrimKeepsMapInv(s.maps[into], into, s.flights, s.homes, s.sequence);
  }

  lemma ResumeKeeps(s: Cache, call: CallId, m: MapId, a: AttachmentId)
    requires Inv(s) && Enabled(s, Resume(call)) && m < |s.maps|
    ensures Kept(s, ResumeCall(s, call), m, a)
  {
    hide Insert, MapsInv, SessionInv, UrlsInv;
    var phase := s.calls[call];
    assert PhaseInv(s, phase);
    if phase.Fetching? {
      InsertKeeps(s, call, phase.attachment, phase.entries, phase.flight, m, a);
    }
  }

  /** Forgetting whose map is whose changes no map. */
  lemma ForgettingKeeps(s: Cache, t: Cache, m: MapId, a: AttachmentId)
    requires m < |s.maps| && t.maps == s.maps && t.homes == s.homes && t.calls == s.calls
    requires forall u :: u in t.byUser ==> u in s.byUser && t.byUser[u] == s.byUser[u]
    ensures Kept(s, t, m, a)
  {
    if IsCurrent(t, m) {
      var u :| u in t.byUser && t.byUser[u] == m;
      assert u in s.byUser && s.byUser[u] == m;
    }
  }

  lemma SessionKeeps(s: Cache, user: Option<User>, m: MapId, a: AttachmentId)
    requires InRange(s) && m < |s.maps|
    ensures Kept(s, SetSessionUser(s, user), m, a)
  {
    hide Kept, InRange, Urls;
    ForgettingKeeps(s, SetSessionUser(s, user), m, a);
  }

  lemma SettleKeeps(s: Cache, flight: FlightId, ok: bool, m: MapId, a: AttachmentId)
    requires flight < |s.flights| && m < |s.maps|
    ensures Kept(s, SettleFlight(s, flight, ok), m, a)
  {
  }

  lemma ReleaseKeeps(s: Cache, attachment: Option<AttachmentId>, m: MapId, a: AttachmentId)
    requires InRange(s) && m < |s.maps|
    ensures Kept(s, ReleaseAttachment(s, attachment), m, a)
  {
  }

  lemma DirectDoneKeeps(s: Cache, call: CallId, urls: nat, m: MapId, a: AttachmentId)
    requires m < |s.maps|
    ensures Kept(s, s.(calls := s.calls - {call}, urls := urls), m, a)
  {
  }

  lemma StepKeeps(s: Cache, step: Step, m: MapId, a: AttachmentId)
    requires Inv(s) && Enabled(s, step) && m < |s.maps|
    ensures Kept(s, Apply(s, step), m, a)
  {
    hide Inv, Kept, SetSessionUser, StartFetch, SettleFlight, ResumeCall, ReleaseAttachment;
    InvMeansInRange(s);
    match step
    case SetSession(user) => SessionKeeps(s, user, m, a);
    case Fetch(call, attachment) => FetchKeeps(s, call, attachment, m, a);
    case Settle(flight, ok) => SettleKeeps(s, flight, ok, m, a);
    case Resume(call) => ResumeKeeps(s, call, m, a);
    case DirectDone(call, ok) => DirectDoneKeeps(s, call, if ok then s.urls + 1 else s.urls, m, a);
    case Release(attachment) => ReleaseKeeps(s, attachment, m, a);
  }

  lemma StrandedStep(s: Cache, step: Step, url: Url)
    requires Inv(s) && Enabled(s, step) && IsStranded(s, url)
    ensures IsStranded(Apply(s, step), url)
  {
    hide Inv, Apply;
    InvMeansInRange(s);
    StrandedIsNotRevoked(s, step, url);
    HomesInRange(s, url);
    var (m, a) := s.homes[url];
    StepKeeps(s, step, m, a);
  }

  lemma HomesInRange(s: Cache, url: Url)
    requires Inv(s) && url in s.homes
    ensures url < s.urls
    ensures s.homes[url].0 < |s.maps|
  {
  }

  /** A stranded URL is never revoked and never found again, in any continuation. */
  lemma {:induction false} StrandedForGood(s: Cache, steps: seq<Step>, url: Url)
    requires Inv(s) && ValidRun(s, steps) && IsStranded(s, url)
    ensures IsStranded(After(s, steps), url) && url !in After(s, steps).revoked
    ensures url !in Urls(Visible(After(s, steps)))
    decreases |steps|
  {
    hide Inv, Apply, IsStranded;
    if steps == [] {
      StrandedIsInvisible(s, url);
      StrandedMeansUnrevoked(s, url);
    } else {
      InvMeansInRange(s);
      StepKeepsInv(s, steps[0]);
      StrandedStep(s, steps[0], url);
      StrandedForGood(Apply(s, steps[0]), steps[1..], url);
    }
  }

  lemma StrandedMeansUnrevoked(s: Cache, url: Url)
    requires IsStranded(s, url)
    ensures url !in s.revoked
  {
  }

  /**
   Exactly the stranded URLs are never revoked, of all that were inserted into a map which is current
   or into which no suspended call will insert: a URL held by the current map goes with the session.
   */
  lemma NeverRevokedExactly(s: Cache, url: Url)
    requires Inv(s) && url in s.homes && url !in s.revoked
    requires IsCurrent(s, s.homes[url].0) || !IsAwaited(s, s.homes[url].0)
    ensures IsStranded(s, url) <==> forall steps :: ValidRun(s, steps) ==> url !in After(s, steps).revoked
  {
    hide Inv, Apply;
    if IsStranded(s, url) {
      forall steps | ValidRun(s, steps) ensures url !in After(s, steps).revoked {
        StrandedForGood(s, steps, url);
      }
    } else {
      SignOutRevokes(s, url);
    }
  }

  lemma SignOutRevokes(s: Cache, url: Url)
    requires Inv(s) && IsHeld(s, url) && IsCurrent(s, s.homes[url].0)
    ensures var steps := [SetSession(None)] + [];
            ValidRun(s, steps) && url in After(s, steps).revoked
  {
    hide AllMapsInv, Apply;
    var t := Apply(s, SetSession(None));
    RevokedExactly(s, SetSession(None));
    assert Visible(s)[s.homes[url].1].url == url;
    StepKeepsInv(s, SetSession(None));
    NoSteps(t);
    RunCons(s, SetSession(None), t, []);
  }

  /** The call is about to insert the blob of its flight. */
  predicate Inserts(s: Cache, call: CallId) {
    && call in s.calls && s.calls[call].Fetching? && s.calls[call].flight in s.outcomes
    && s.outcomes[s.calls[call].flight] && s.user == Some(s.calls[call].user)
  }

  /** A second flight of the same attachment strands the URL it replaces. */
  lemma ReplacedIsStranded(s: Cache, call: CallId)
    requires Inv(s) && Inserts(s, call)
    requires s.calls[call].entries < |s.maps|
    requires s.calls[call].attachment in Trim(s.maps[s.calls[call].entries]).entries
    ensures var url := Trim(s.maps[s.calls[call].entries]).entries[s.calls[call].attachment].url;
            url !in s.revoked ==> IsStranded(Apply(s, Resume(call)), url)
  {
    hide Trim, MapInv, SessionInv, OrderInv;
    var Fetching(_, a, m, flight) := s.calls[call];
    assert PhaseInv(s, s.calls[call]);
    MapsInvAt(s, m);
    TrimKeepsMapInv(s.maps[m], m, s.flights, s.homes, s.sequence);
    var url := Trim(s.maps[m]).entries[a].url;
    HeldAtHome(s, m, url);
    EntryHome(s, m, a);
    UrlsHaveHomes(s, m);
    assert url in Urls(Trim(s.maps[m]).entries);
  }

  lemma EntryHome(s: Cache, m: MapId, a: AttachmentId)
    requires Inv(s) && m < |s.maps| && a in s.maps[m].entries
    ensures s.maps[m].entries[a].url in s.homes && s.homes[s.maps[m].entries[a].url] == (m, a)
  {
    MapsInvAt(s, m);
    assert EntryInv(s.maps[m].entries[a], s.maps[m], m, a, s.flights, s.homes, s.sequence);
  }

  /** A URL inserted into a dropped map is stranded at once, unless another call will insert there as well. */
  lemma LateInsertIsStranded(s: Cache, call: CallId)
    requires Inv(s) && Inserts(s, call)
    requires s.calls[call].entries < |s.maps| && !IsCurrent(s, s.calls[call].entries)
    requires forall c :: c in s.calls && c != call && s.calls[c].Fetching? ==>
               s.calls[c].entries != s.calls[call].entries
    ensures IsStranded(Apply(s, Resume(call)), s.urls)
  {
    hide Trim, MapInv, SessionInv, OrderInv;
    UrlsHaveHomes(s, s.calls[call].entries);
  }

  // ------------------------------------------------------------------ two runs

  const OTHER_USER := FETCHING.(user := Some(2), epoch := 2, byUser := map[], inFlight := map[])
  const BACK := OTHER_USER.(user := Some(1), epoch := 3)
  const ANSWERED := BACK.(outcomes := map[0 := true])

  lemma SecondUserSignsIn()
    requires Inv(FETCHING)
    ensures Leads(FETCHING, SetSession(Some(2)), OTHER_USER)
  {
    hide MapsInv, CallsInv, SessionInv, UrlsInv;
    assert Urls(FETCHING.maps[0].entries) == {};
    assert FETCHING.byUser - {1} == map[] && FETCHING.inFlight - {1} == map[];
  }

  lemma FirstUserIsBack()
    requires Inv(OTHER_USER)
    ensures Leads(OTHER_USER, SetSession(Some(1)), BACK)
  {
    hide MapsInv, CallsInv, SessionInv, UrlsInv;
    assert OTHER_USER.byUser - {2} == map[] && OTHER_USER.inFlight - {2} == map[];
    assert DropUser(OTHER_USER, 2) == OTHER_USER;
  }

  lemma LateFlightSettles()
    requires Inv(BACK)
    ensures Leads(BACK, Settle(0, true), ANSWERED)
  {
    hide MapsInv, CallsInv, SessionInv, UrlsInv;
  }

  lemma LateInsertIsEnabled()
    requires Inv(ANSWERED)
    ensures Leads(ANSWERED, Resume(0), Apply(ANSWERED, Resume(0))) && Inserts(ANSWERED, 0)
    ensures !IsCurrent(ANSWERED, 0) && ANSWERED.urls == 0
  {
    hide MapsInv, CallsInv, SessionInv, UrlsInv, Apply;
  }

  /** A user asks for an attachment, signs out and in again while it is fetched, and gets a URL nobody revokes. */
  lemma UrlGetsStranded()
    ensures var late := [SetSession(Some(2))] + ([SetSession(Some(1))] + ([Settle(0, true)] + ([Resume(0)] + [])));
            var steps := [SetSession(Some(1))] + ([Fetch(0, Some(7))] + late);
            Run(steps) && IsStranded(Reached(steps), 0)
  {
    hide Inv, ValidRun, After, Apply, Leads, Inserts, IsStranded;
    UserSignsIn();
    LeadsKeepsInv(EMPTY, SetSession(Some(1)), SIGNED_IN);
    FirstCallFetches();
    LeadsKeepsInv(SIGNED_IN, Fetch(0, Some(7)), FETCHING);
    SecondUserSignsIn();
    LeadsKeepsInv(FETCHING, SetSession(Some(2)), OTHER_USER);
    FirstUserIsBack();
    LeadsKeepsInv(OTHER_USER, SetSession(Some(1)), BACK);
    LateFlightSettles();
    LeadsKeepsInv(BACK, Settle(0, true), ANSWERED);
    LateInsertIsEnabled();
    InvMeansInRange(ANSWERED);
    var last := Apply(ANSWERED, Resume(0));
    LeadsKeepsInv(ANSWERED, Resume(0), last);
    LateInsertIsStranded(ANSWERED, 0);
    EmptyInv();
    NoSteps(last);
    var rest := [Resume(0)] + [];
    RunCons(ANSWERED, Resume(0), last, []);
    RunCons(BACK, Settle(0, true), ANSWERED, rest);
    RunCons(OTHER_USER, SetSession(Some(1)), BACK, [Settle(0, true)] + rest);
    RunCons(FETCHING, SetSession(Some(2)), OTHER_USER, [SetSession(Some(1))] + ([Settle(0, true)] + rest));
    var late := [SetSession(Some(2))] + ([SetSession(Some(1))] + ([Settle(0, true)] + rest));
    RunCons(SIGNED_IN, Fetch(0, Some(7)), FETCHING, late);
    RunCons(EMPTY, SetSession(Some(1)), SIGNED_IN, [Fetch(0, Some(7))] + late);
  }

  const FETCHED := FETCHING.(outcomes := map[0 := true], inFlight := map[1 := map[]])
  const SHOWN := FETCHED.(
    maps := [EntryMap(1, 1, map[7 := Entry(0, 1, 0, 0)], {})], sequence := 1, urls := 1, homes := map[0 := (0, 7)],
    calls := map[])

  lemma FlightSucceeds()
    requires Inv(FETCHING)
    ensures Leads(FETCHING, Settle(0, true), FETCHED)
  {
    hide MapsInv, CallsInv, SessionInv, UrlsInv;
  }

  lemma CallInserts()
    requires Inv(FETCHED)
    ensures Leads(FETCHED, Resume(0), SHOWN)
  {
    hide MapsInv, CallsInv, SessionInv, UrlsInv;
    assert Trim(FETCHED.maps[0]) == FETCHED.maps[0];
  }

  /** A URL with one consumer that has not released it is revoked when the user signs out. */
  lemma UsedUrlIsRevoked()
    ensures var steps := [SetSession(Some(1))] + ([Fetch(0, Some(7))] + ([Settle(0, true)] + ([Resume(0)] + [])));
            && Run(steps) && 7 in Visible(Reached(steps)) && Visible(Reached(steps))[7].url == 0
            && Visible(Reached(steps))[7].refCount == 1
            && 0 in Apply(Reached(steps), SetSession(None)).revoked
  {
    hide Inv, ValidRun, After, Apply, Leads;
    UserSignsIn();
    LeadsKeepsInv(EMPTY, SetSession(Some(1)), SIGNED_IN);
    FirstCallFetches();
    LeadsKeepsInv(SIGNED_IN, Fetch(0, Some(7)), FETCHING);
    FlightSucceeds();
    LeadsKeepsInv(FETCHING, Settle(0, true), FETCHED);
    CallInserts();
    LeadsKeepsInv(FETCHED, Resume(0), SHOWN);
    EmptyInv();
    NoSteps(SHOWN);
    RunCons(FETCHED, Resume(0), SHOWN, []);
    RunCons(FETCHING, Settle(0, true), FETCHED, [Resume(0)] + []);
    RunCons(SIGNED_IN, Fetch(0, Some(7)), FETCHING, [Settle(0, true)] + ([Resume(0)] + []));
    RunCons(EMPTY, SetSession(Some(1)), SIGNED_IN, [Fetch(0, Some(7))] + ([Settle(0, true)] + ([Resume(0)] + [])));
    InvMeansInRange(SHOWN);
    RevokedExactly(SHOWN, SetSession(None));
    assert Visible(SHOWN)[7].url in Urls(Visible(SHOWN));
  }
}
