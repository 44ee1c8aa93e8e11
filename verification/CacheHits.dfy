/**
 What a fetch of a cached attachment returns: the URL it was inserted under, for as long as the session
 lasts and the entry is neither evicted nor replaced; and how the consumers of an entry are counted.
 */
module CacheHits {
  import opened Options
  import opened AttachmentCache

  /** The call is about to insert the blob it has fetched, into the map lookups use. */
  ghost predicate InsertsVisibly(s: Cache, step: Step) {
    && step.Resume? && step.call in s.calls && s.calls[step.call].Fetching?
    && s.calls[step.call].flight in s.outcomes && s.outcomes[s.calls[step.call].flight]
    && s.user == Some(s.calls[step.call].user)
    && s.user.value in s.byUser && s.byUser[s.user.value] == s.calls[step.call].entries
  }

  /** The session ends, or an insertion replaces the entry or finds a hundred of which it is the oldest. */
  ghost predicate Displaces(s: Cache, step: Step, a: AttachmentId) {
    || (step.SetSession? && step.user != s.user)
    || (InsertsVisibly(s, step)
        && (s.calls[step.call].attachment == a || (|Visible(s)| >= 100 && IsOldest(Visible(s), a))))
  }

  /** What an insertion leaves in the map lookups use. */
  lemma InsertedIsVisible(s: Cache, step: Step)
    requires Inv(s) && Enabled(s, step) && InsertsVisibly(s, step)
    ensures var t, a := Apply(s, step), s.calls[step.call].attachment;
            && a in Visible(t) && Visible(t)[a] == Entry(s.urls, 1, s.sequence, s.calls[step.call].flight)
            && Answer(s, step) == Some(Reply(s.urls, Some(s.calls[step.call].flight)))
            && step.call !in t.calls
            && (forall b :: b in Visible(t) && b != a ==> b in Visible(s) && Visible(t)[b] == Visible(s)[b])
            && (forall b :: b in Visible(s) && b != a ==>
                  (b in Visible(t) <==> |Visible(s)| < 100 || !IsOldest(Visible(s), b)))
  {
    hide MapInv, AllMapsInv, SessionInv, UrlsInv, Trim, CallsInv;
    var m := s.calls[step.call].entries;
    MapsInvAt(s, m);
    TrimIsOneEviction(s.maps[m], m, s.flights, s.homes, s.sequence);
  }

  /** Trimming a map of at most a hundred entries removes its oldest one, or nothing. */
  lemma TrimIsOneEviction(m: EntryMap, i: MapId, flights: seq<Flight>,
                          homes: map<Url, (MapId, AttachmentId)>, sequence: nat)
    requires MapInv(m, i, flights, homes, sequence)
    ensures forall b :: b in Trim(m).entries ==> b in m.entries && Trim(m).entries[b] == m.entries[b]
    ensures forall b :: b in m.entries ==>
              (b in Trim(m).entries <==> |m.entries| < 100 || !IsOldest(m.entries, b))
  {
    hide EntryInv;
    if |m.entries| >= MAX_ENTRIES {
      var a := Oldest(m.entries);
      assert |m.entries - {a}| == MAX_ENTRIES - 1;
      assert Trim(m).entries == m.entries - {a};
      assert forall b :: b in m.entries && IsOldest(m.entries, b) ==> b == a;
    }
  }

  // ------------------------------------------------------------------ how long a URL is found

  /** A cached entry is found under its URL after a step exactly when the step does not displace it. */
  lemma FoundUntilDisplaced(s: Cache, step: Step, a: AttachmentId)
    requires Inv(s) && Enabled(s, step) && a in Visible(s)
    ensures var t := Apply(s, step);
            a in Visible(t) && Visible(t)[a].url == Visible(s)[a].url <==> !Displaces(s, step, a)
  {
    hide Inv, Apply, IsOldest;
    match step
    case SetSession(user) => SessionDisplaces(s, user, a);
    case Fetch(call, attachment) => FetchKeepsEntries(s, call, attachment, a);
    case Settle(flight, ok) => SettleKeepsEntries(s, flight, ok, a);
    case Resume(call) => ResumeDisplaces(s, call, a);
    case DirectDone(call, ok) => DirectKeepsEntries(s, call, ok, a);
    case Release(attachment) => ReleaseKeepsEntries(s, attachment, a);
  }

  lemma SessionDisplaces(s: Cache, user: Option<User>, a: AttachmentId)
    requires Inv(s) && a in Visible(s)
    ensures var t := Apply(s, SetSession(user));
            if user == s.user then t == s else Visible(t) == map[]
  {
    hide AllMapsInv, CallsInv, UrlsInv;
  }

  /** A call that misses is suspended, and leaves maps and session alone. */
  lemma MissLeavesMaps(t: Cache, call: CallId, u: User, a: AttachmentId, m: MapId)
    ensures var r := JoinOrStart(t, call, u, a, m);
            r.maps == t.maps && r.byUser == t.byUser && r.user == t.user && call in r.calls
  {
    hide Pending;
  }

  /** Up to the lookup a call only makes sure that the user has a map. */
  lemma LookupMap(s: Cache, u: User)
    requires Inv(s) && s.user == Some(u)
    ensures var t := WithMap(s, u);
            && t.user == s.user && t.calls == s.calls && t.flights == s.flights && t.inFlight == s.inFlight
            && t.epoch == s.epoch && t.revoked == s.revoked
            && u in t.byUser && t.byUser[u] < |t.maps| && t.maps[t.byUser[u]].entries == Visible(s) == Visible(t)
  {
    hide AllMapsInv, CallsInv, UrlsInv;
  }

  lemma SameMapsSameView(s: Cache, t: Cache)
    requires t.maps == s.maps && t.byUser == s.byUser && t.user == s.user
    ensures Visible(t) == Visible(s)
  {
  }

  lemma FetchKeepsEntries(s: Cache, call: CallId, attachment: Option<AttachmentId>, a: AttachmentId)
    requires Inv(s) && Enabled(s, Fetch(call, attachment)) && a in Visible(s)
    ensures var t := Apply(s, Fetch(call, attachment));
            a in Visible(t) && Visible(t)[a] == Visible(s)[a].(refCount := Visible(t)[a].refCount)
    ensures var t := Apply(s, Fetch(call, attachment));
            Visible(t)[a].refCount == Visible(s)[a].refCount + if attachment == Some(a) then 1 else 0
  {
    hide Inv, WithMap, JoinOrStart;
    InvMeansInRange(s);
    if s.user.Some? && attachment.Some? {
      var u, b := s.user.value, attachment.value;
      LookupMap(s, u);
      MissLeavesMaps(WithMap(s, u), call, u, b, WithMap(s, u).byUser[u]);
    }
  }

  lemma SettleKeepsEntries(s: Cache, flight: FlightId, ok: bool, a: AttachmentId)
    requires Inv(s) && Enabled(s, Settle(flight, ok)) && a in Visible(s)
    ensures Visible(Apply(s, Settle(flight, ok))) == Visible(s)
  {
  }

  lemma DirectKeepsEntries(s: Cache, call: CallId, ok: bool, a: AttachmentId)
    requires Inv(s) && Enabled(s, DirectDone(call, ok)) && a in Visible(s)
    ensures Visible(Apply(s, DirectDone(call, ok))) == Visible(s)
  {
  }

  lemma ReleaseKeepsEntries(s: Cache, attachment: Option<AttachmentId>, a: AttachmentId)
    requires Inv(s) && a in Visible(s)
    ensures var e, t := Visible(s)[a], Apply(s, Release(attachment));
            a in Visible(t) && Visible(t)[a] == e.(refCount :=
              if attachment == Some(a) && e.refCount > 0 then e.refCount - 1 else e.refCount)
  {
    hide AllMapsInv, CallsInv, UrlsInv, SessionInv;
  }

  lemma ResumeDisplaces(s: Cache, call: CallId, a: AttachmentId)
    requires Inv(s) && Enabled(s, Resume(call)) && a in Visible(s)
    ensures var t := Apply(s, Resume(call));
            a in Visible(t) && Visible(t)[a].url == Visible(s)[a].url <==> !Displaces(s, Resume(call), a)
    ensures InsertsVisibly(s, Resume(call)) || (
              var t, phase := Apply(s, Resume(call)), s.calls[call];
              a in Visible(t) && Visible(t)[a] == Visible(s)[a].(refCount := Visible(s)[a].refCount
                + if phase.Joining? && phase.attachment == a && s.outcomes[phase.flight] && s.user == Some(phase.user)
                  then 1 else 0))
  {
    hide AllMapsInv, MapInv, CallsInv, SessionInv, Trim, IsOldest;
    if InsertsVisibly(s, Resume(call)) {
      InsertedIsVisible(s, Resume(call));
      VisibleEntry(s, a);
    }
  }

  /** An entry that stays gains a consumer with each answer of its URL and loses one with each release. */
  lemma ConsumersAreCounted(s: Cache, step: Step, a: AttachmentId)
    requires Inv(s) && Enabled(s, step) && a in Visible(s) && !Displaces(s, step, a)
    ensures var before, after := Visible(s)[a], Apply(s, step);
            && a in Visible(after)
            && var joins := step.Resume? && s.calls[step.call].Joining? && s.calls[step.call].attachment == a
                            && s.outcomes[s.calls[step.call].flight] && s.user == Some(s.calls[step.call].user);
               Visible(after)[a] == before.(refCount :=
                 if (step.Fetch? && step.attachment == Some(a)) || joins then before.refCount + 1
                 else if step == Release(Some(a)) && before.refCount > 0 then before.refCount - 1
                 else before.refCount)
  {
    hide Inv, Apply, IsOldest;
    match step
    case SetSession(user) => SessionDisplaces(s, user, a);
    case Fetch(call, attachment) => FetchKeepsEntries(s, call, attachment, a);
    case Settle(flight, ok) => SettleKeepsEntries(s, flight, ok, a);
    case Resume(call) =>
      ResumeDisplaces(s, call, a);
      if InsertsVisibly(s, step) { InsertedIsVisible(s, step); }
    case DirectDone(call, ok) => DirectKeepsEntries(s, call, ok, a);
    case Release(attachment) => ReleaseKeepsEntries(s, attachment, a);
  }

  // ------------------------------------------------------------------ what a fetch returns

  lemma FetchIsAnswered(s: Cache, call: CallId, attachment: Option<AttachmentId>)
    requires InRange(s) && Enabled(s, Fetch(call, attachment))
    ensures Answer(s, Fetch(call, attachment)) ==
            if attachment.Some? && attachment.value in Visible(s)
            then Some(Reply(Visible(s)[attachment.value].url, Some(Visible(s)[attachment.value].flight))) else None
    ensures s.user.None? ==> Visible(s) == map[]
    ensures Apply(s, Fetch(call, attachment)) == StartFetch(s, call, attachment)
  {
  }

  /** A fetch outside the cache is answered with a URL of its own, or not at all, and leaves the cache alone. */
  lemma DirectIsAnswered(s: Cache, call: CallId, ok: bool)
    requires Inv(s) && Enabled(s, DirectDone(call, ok))
    ensures var t := Apply(s, DirectDone(call, ok));
            && Answer(s, DirectDone(call, ok)) == (if ok then Some(Reply(s.urls, None)) else None)
            && t.calls == s.calls - {call} && t.urls == s.urls + (if ok then 1 else 0)
            && t.maps == s.maps && t.revoked == s.revoked && t.homes == s.homes
  {
  }

  /** A hit is answered at once with the entry's URL, and opens and suspends nothing; a miss is not answered. */
  lemma HitsAreAnswered(s: Cache, call: CallId, a: AttachmentId)
    requires Inv(s) && Enabled(s, Fetch(call, Some(a)))
    ensures var t, answer := Apply(s, Fetch(call, Some(a))), Answer(s, Fetch(call, Some(a)));
            if a in Visible(s) then
              answer == Some(Reply(Visible(s)[a].url, Some(Visible(s)[a].flight)))
              && t.flights == s.flights && t.calls == s.calls
            else answer == None && call in t.calls
  {
    hide Inv, WithMap, JoinOrStart;
    InvMeansInRange(s);
    if s.user.Some? {
      var u := s.user.value;
      LookupMap(s, u);
      MissLeavesMaps(WithMap(s, u), call, u, a, WithMap(s, u).byUser[u]);
    }
  }

  lemma JoinsOrStarts(t: Cache, call: CallId, u: User, a: AttachmentId, m: MapId)
    requires call !in t.calls
    ensures var r := JoinOrStart(t, call, u, a, m);
            var pending := if u in t.inFlight then t.inFlight[u] else map[];
            && call in r.calls && r.calls - {call} == t.calls && r.revoked == t.revoked && r.byUser == t.byUser
            && if a in pending then r.calls[call] == Joining(u, a, pending[a]) && r.flights == t.flights
               else
                 && r.flights == t.flights + [Flight(u, a, t.epoch)]
                 && u in r.inFlight && r.inFlight[u] == pending[a := |t.flights|]
                 && r.calls[call] == Fetching(u, a, m, |t.flights|)
  {
  }

  /** A miss waits: for a fetch of its own outside the cache, for the flight under way, or for a new one. */
  lemma MissesWait(s: Cache, call: CallId, attachment: Option<AttachmentId>)
    requires Inv(s) && Enabled(s, Fetch(call, attachment))
    requires attachment.None? || attachment.value !in Visible(s)
    ensures var t := Apply(s, Fetch(call, attachment));
            call in t.calls && t.calls - {call} == s.calls && t.revoked == s.revoked && Visible(t) == Visible(s)
            && if s.user.None? || attachment.None? then t == s.(calls := s.calls[call := Direct])
               else
                 var u, a := s.user.value, attachment.value;
                 var pending := if u in s.inFlight then s.inFlight[u] else map[];
                 if a in pending then t.calls[call] == Joining(u, a, pending[a]) && t.flights == s.flights
                 else
                   && t.flights == s.flights + [Flight(u, a, s.epoch)]
                   && u in t.inFlight && t.inFlight[u] == pending[a := |s.flights|]
                   && u in t.byUser && t.calls[call] == Fetching(u, a, t.byUser[u], |s.flights|)
  {
    hide Inv, InRange, WithMap, JoinOrStart, Visible, Pending;
    InvMeansInRange(s);
    if s.user.None? || attachment.None? {
      SameMapsSameView(s, s.(calls := s.calls[call := Direct]));
    } else {
      var u, a := s.user.value, attachment.value;
      var t := WithMap(s, u);
      LookupMap(s, u);
      JoinsOrStarts(t, call, u, a, t.byUser[u]);
      MissLeavesMaps(t, call, u, a, t.byUser[u]);
      SameMapsSameView(t, JoinOrStart(t, call, u, a, t.byUser[u]));
    }
  }

  ghost predicate Undisturbed(s: Cache, steps: seq<Step>, a: AttachmentId)
    requires Inv(s) && ValidRun(s, steps)
    decreases |steps|
  {
    steps == []
    || (!Displaces(s, steps[0], a) && (StepKeepsInv(s, steps[0]); Undisturbed(Apply(s, steps[0]), steps[1..], a)))
  }

  lemma {:induction false} FoundWhileUndisturbed(s: Cache, steps: seq<Step>, a: AttachmentId)
    requires Inv(s) && ValidRun(s, steps) && a in Visible(s) && Undisturbed(s, steps, a)
    ensures var t := After(s, steps);
            a in Visible(t) && Visible(t)[a].url == Visible(s)[a].url
    decreases |steps|
  {
    hide Inv, Apply, Displaces, Visible, Enabled;
    if steps != [] {
      InvMeansInRange(s);
      StepKeepsInv(s, steps[0]);
      FoundUntilDisplaced(s, steps[0], a);
      FoundWhileUndisturbed(Apply(s, steps[0]), steps[1..], a);
    }
  }

  /**
   From its insertion on every fetch of the attachment is answered with the inserted URL, until the
   session changes or the entry is evicted or replaced.
   */
  lemma InsertedIsReturned(s: Cache, step: Step, steps: seq<Step>, call: CallId)
    requires Inv(s) && Enabled(s, step) && InsertsVisibly(s, step)
    requires Inv(Apply(s, step)) && ValidRun(Apply(s, step), steps)
    requires Undisturbed(Apply(s, step), steps, s.calls[step.call].attachment)
    requires call !in After(Apply(s, step), steps).calls
    ensures var t, a := After(Apply(s, step), steps), s.calls[step.call].attachment;
            && Answer(s, step).Some? && Answer(s, step).value.url == s.urls
            && Answer(t, Fetch(call, Some(a))).Some? && Answer(t, Fetch(call, Some(a))).value.url == s.urls
            && call !in Apply(t, Fetch(call, Some(a))).calls
  {
    hide Inv, Apply, Displaces, Visible, ValidRun, After, Undisturbed, Answer;
    var a := s.calls[step.call].attachment;
    InvMeansInRange(s);
    InsertedIsVisible(s, step);
    FoundWhileUndisturbed(Apply(s, step), steps, a);
    HitsAreAnswered(After(Apply(s, step), steps), call, a);
  }
}
