/**
 The attachment object-URL cache: per-user maps of entries, shared in-flight fetches, eviction, and
 session changes that may fall between the start of a fetch and its completion.

 One step is one stretch of code between two `await`s, so every interleaving of calls, completions
 and session changes is a run. `Map` objects are numbered: a call keeps the map it started with,
 also when the session has dropped it since.
 */
module AttachmentCache {
  import opened Options

  type User = nat
  type AttachmentId = nat
  type Url = nat
  type MapId = nat
  type FlightId = nat
  type CallId = nat

  const MAX_ENTRIES: nat := 100

  /** A cached object URL; the blob behind it is the one `flight` fetched. */
  datatype Entry = Entry(url: Url, refCount: nat, sequence: nat, flight: FlightId)

  /**
   A map from attachments to entries, made for `owner` during session `epoch`. `evicted` records
   the sequence numbers evicted from it; the code keeps no such record.
   */
  datatype EntryMap = EntryMap(owner: User, epoch: nat, entries: map<AttachmentId, Entry>, evicted: set<nat>)

  /** One fetch, started for `user` in session `epoch`. */
  datatype Flight = Flight(user: User, attachment: AttachmentId, epoch: nat)

  /** What a suspended `fetchAttachmentBlob` waits for. */
  datatype Phase =
    | Fetching(user: User, attachment: AttachmentId, entries: MapId, flight: FlightId)
    | Joining(user: User, attachment: AttachmentId, flight: FlightId)
    | Direct

  /**
   The module state. Maps and flights are never forgotten, so that suspended calls can refer to
   them; `outcomes` says which flights have settled, and how; `epoch` counts session changes, `urls`
   the object URLs created so far, and `homes` records the map and attachment a URL was inserted for.
   */
  datatype Cache = Cache(
    user: Option<User>, epoch: nat, maps: seq<EntryMap>, byUser: map<User, MapId>,
    inFlight: map<User, map<AttachmentId, FlightId>>, flights: seq<Flight>, outcomes: map<FlightId, bool>,
    sequence: nat, urls: nat, homes: map<Url, (MapId, AttachmentId)>, revoked: set<Url>, calls: map<CallId, Phase>)

  const EMPTY := Cache(None, 0, [], map[], map[], [], map[], 0, 0, map[], {}, map[])

  datatype Step =
    | SetSession(user: Option<User>)
    | Fetch(call: CallId, attachment: Option<AttachmentId>)
    | Settle(flight: FlightId, ok: bool)
    | Resume(call: CallId)
    | DirectDone(call: CallId, ok: bool)
    | Release(released: Option<AttachmentId>)

  /** What a call returns: a URL and, unless it was fetched for this call alone, the flight behind it. */
  datatype Reply = Reply(url: Url, flight: Option<FlightId>)

  // ------------------------------------------------------------------ the steps

  function Urls(entries: map<AttachmentId, Entry>): set<Url> {
    set a | a in entries :: entries[a].url
  }

  ghost predicate IsOldest(entries: map<AttachmentId, Entry>, a: AttachmentId) {
    a in entries && forall other :: other in entries ==> entries[a].sequence <= entries[other].sequence
  }

  lemma {:induction false} OldestExists(entries: map<AttachmentId, Entry>)
    requires entries != map[]
    ensures exists a :: IsOldest(entries, a)
    decreases |entries|
  {
    var a :| a in entries;
    var rest := entries - {a};
    assert forall other :: other in entries ==> other == a || (other in rest && rest[other] == entries[other]);
    if rest == map[] {
      assert IsOldest(entries, a);
    } else {
      OldestExists(rest);
      var b :| IsOldest(rest, b);
      assert IsOldest(entries, if entries[a].sequence <= entries[b].sequence then a else b);
    }
  }

  ghost function Oldest(entries: map<AttachmentId, Entry>): (a: AttachmentId)
    requires entries != map[]
    ensures IsOldest(entries, a)
  {
    OldestExists(entries);
    var a :| IsOldest(entries, a);
    a
  }

  /** The map after evicting from it until another entry fits. */
  ghost function Trim(m: EntryMap): (t: EntryMap)
    ensures |t.entries| < MAX_ENTRIES
    decreases |m.entries|
  {
    if |m.entries| < MAX_ENTRIES then m else
    var a := Oldest(m.entries);
    Trim(m.(entries := m.entries - {a}, evicted := m.evicted + {m.entries[a].sequence}))
  }

  /** References into the tables are in range: what the code gets from object identity. */
  ghost predicate InRange(s: Cache) {
    && (forall u :: u in s.byUser ==> s.byUser[u] < |s.maps|)
    && (forall u, a :: u in s.inFlight && a in s.inFlight[u] ==> s.inFlight[u][a] < |s.flights|)
    && (forall c :: c in s.calls && s.calls[c].Fetching? ==>
          s.calls[c].entries < |s.maps| && s.calls[c].flight < |s.flights|)
    && (forall c :: c in s.calls && s.calls[c].Joining? ==> s.calls[c].flight < |s.flights|)
  }

  /** The entries a lookup under the current session sees. */
  function Visible(s: Cache): map<AttachmentId, Entry> {
    if s.user.Some? && s.user.value in s.byUser && s.byUser[s.user.value] < |s.maps|
    then s.maps[s.byUser[s.user.value]].entries else map[]
  }

  ghost predicate Enabled(s: Cache, step: Step) {
    match step
    case SetSession(_) => true
    case Fetch(call, _) => call !in s.calls
    case Settle(flight, _) => flight < |s.flights| && flight !in s.outcomes
    case Resume(call) =>
      call in s.calls && !s.calls[call].Direct? && s.calls[call].flight in s.outcomes
    case DirectDone(call, _) => call in s.calls && s.calls[call].Direct?
    case Release(_) => true
  }

  function DropUser(s: Cache, user: User): Cache
    requires user in s.byUser ==> s.byUser[user] < |s.maps|
  {
    var dropped := if user in s.byUser then Urls(s.maps[s.byUser[user]].entries) else {};
    s.(revoked := s.revoked + dropped, byUser := s.byUser - {user}, inFlight := s.inFlight - {user})
  }

  function SetSessionUser(s: Cache, user: Option<User>): Cache
    requires InRange(s)
  {
    if user == s.user then s else
    var cleared := if s.user.Some? then DropUser(s, s.user.value) else s;
    cleared.(user := user, epoch := cleared.epoch + 1)
  }

  /** The current user's map, made on the first fetch of a session. */
  function WithMap(s: Cache, user: User): Cache {
    if user in s.byUser then s
    else s.(maps := s.maps + [EntryMap(user, s.epoch, map[], {})], byUser := s.byUser[user := |s.maps|])
  }

  function Claim(s: Cache, m: MapId, a: AttachmentId): Cache
    requires m < |s.maps| && a in s.maps[m].entries
  {
    var e := s.maps[m].entries[a];
    s.(maps := s.maps[m := s.maps[m].(entries := s.maps[m].entries[a := e.(refCount := e.refCount + 1)])])
  }

  function Pending(s: Cache, user: User): map<AttachmentId, FlightId> {
    if user in s.inFlight then s.inFlight[user] else map[]
  }

  function StartFetch(s: Cache, call: CallId, attachment: Option<AttachmentId>): Cache
    requires InRange(s)
  {
    if s.user.None? || attachment.None? then s.(calls := s.calls[call := Direct]) else
    var u, a := s.user.value, attachment.value;
    var t := WithMap(s, u);
    var m := t.byUser[u];
    if a in t.maps[m].entries then Claim(t, m, a) else JoinOrStart(t, call, u, a, m)
  }

  /** A call for an attachment that is not cached waits for the flight under way, or starts one. */
  function JoinOrStart(t: Cache, call: CallId, u: User, a: AttachmentId, m: MapId): Cache {
    var pending := Pending(t, u);
    if a in pending then t.(inFlight := t.inFlight[u := pending], calls := t.calls[call := Joining(u, a, pending[a])])
    else WithFlight(t, call, u, a, m)
  }

  /** A fetch that starts, its tracker, and the call that waits for it. */
  function WithFlight(t: Cache, call: CallId, u: User, a: AttachmentId, m: MapId): Cache {
    t.(flights := t.flights + [Flight(u, a, t.epoch)],
       inFlight := t.inFlight[u := Pending(t, u)[a := |t.flights|]],
       calls := t.calls[call := Fetching(u, a, m, |t.flights|)])
  }

  /** The completion of a fetch, up to the `finally` that forgets it by user and attachment. */
  function SettleFlight(s: Cache, flight: FlightId, ok: bool): Cache
    requires flight < |s.flights|
  {
    var Flight(u, a, _) := s.flights[flight];
    s.(outcomes := s.outcomes[flight := ok],
       inFlight := if u in s.inFlight then s.inFlight[u := s.inFlight[u] - {a}] else s.inFlight)
  }

  /** The initiator's insertion into the map it started with. */
  ghost function Insert(s: Cache, call: CallId, a: AttachmentId, m: MapId, flight: FlightId): Cache
    requires m < |s.maps|
  {
    var trimmed := Trim(s.maps[m]);
    s.(maps := s.maps[m := trimmed.(entries := trimmed.entries[a := Entry(s.urls, 1, s.sequence, flight)])],
       sequence := s.sequence + 1, urls := s.urls + 1, homes := s.homes[s.urls := (m, a)],
       revoked := s.revoked + (Urls(s.maps[m].entries) - Urls(trimmed.entries)),
       calls := s.calls - {call})
  }

  ghost function ResumeCall(s: Cache, call: CallId): Cache
    requires InRange(s) && Enabled(s, Resume(call))
  {
    var phase := s.calls[call];
    if !s.outcomes[phase.flight] then s.(calls := s.calls - {call})
    else if s.user != Some(phase.user) then s.(calls := s.calls[call := Direct])
    else if phase.Fetching? then Insert(s, call, phase.attachment, phase.entries, phase.flight)
    else if phase.attachment in Visible(s) then
      Claim(s, s.byUser[phase.user], phase.attachment).(calls := s.calls - {call})
    else s.(calls := s.calls[call := Direct])
  }

  function ReleaseAttachment(s: Cache, attachment: Option<AttachmentId>): Cache
    requires InRange(s)
  {
    if attachment.None? || attachment.value !in Visible(s) then s else
    var m, a := s.byUser[s.user.value], attachment.value;
    var e := s.maps[m].entries[a];
    var refCount := if e.refCount == 0 then 0 else e.refCount - 1;
    s.(maps := s.maps[m := s.maps[m].(entries := s.maps[m].entries[a := e.(refCount := refCount)])])
  }

  ghost function Apply(s: Cache, step: Step): Cache
    requires InRange(s) && Enabled(s, step)
  {
    match step
    case SetSession(user) => SetSessionUser(s, user)
    case Fetch(call, attachment) => StartFetch(s, call, attachment)
    case Settle(flight, ok) => SettleFlight(s, flight, ok)
    case Resume(call) => ResumeCall(s, call)
    case DirectDone(call, ok) => s.(calls := s.calls - {call}, urls := if ok then s.urls + 1 else s.urls)
    case Release(attachment) => ReleaseAttachment(s, attachment)
  }

  /** What the call that takes this step returns, if it returns a URL. */
  ghost function Answer(s: Cache, step: Step): Option<Reply>
    requires InRange(s) && Enabled(s, step)
  {
    match step
    case Fetch(_, Some(a)) =>
      if a in Visible(s) then Some(Reply(Visible(s)[a].url, Some(Visible(s)[a].flight))) else None
    case Resume(call) =>
      var phase := s.calls[call];
      if !s.outcomes[phase.flight] || s.user != Some(phase.user) then None
      else if phase.Fetching? then Some(Reply(s.urls, Some(phase.flight)))
      else if phase.attachment in Visible(s) then
        Some(Reply(Visible(s)[phase.attachment].url, Some(Visible(s)[phase.attachment].flight)))
      else None
    case DirectDone(_, true) => Some(Reply(s.urls, None))
    case _ => None
  }

  // ------------------------------------------------------------------ what every run keeps

  /** An entry is at the home of its URL, fetched for the map's owner in the map's session. */
  ghost predicate EntryInv(e: Entry, m: EntryMap, i: MapId, a: AttachmentId, flights: seq<Flight>,
                           homes: map<Url, (MapId, AttachmentId)>, sequence: nat)
  {
    && e.sequence < sequence
    && e.url in homes && homes[e.url] == (i, a)
    && e.flight < |flights| && flights[e.flight] == Flight(m.owner, a, m.epoch)
  }

  /** Sequence numbers tell the entries of a map apart, and every survivor is newer than every evicted entry. */
  ghost predicate OrderInv(entries: map<AttachmentId, Entry>, evicted: set<nat>, sequence: nat) {
    && (forall a, b :: a in entries && b in entries && a != b ==> entries[a].sequence != entries[b].sequence)
    && (forall n :: n in evicted ==> n < sequence)
    && (forall n, a :: n in evicted && a in entries ==> n < entries[a].sequence)
  }

  /** Map `i` is bounded, and none of its entries is as old as one evicted before. */
  ghost predicate MapInv(m: EntryMap, i: MapId, flights: seq<Flight>,
                         homes: map<Url, (MapId, AttachmentId)>, sequence: nat)
  {
    && |m.entries| <= MAX_ENTRIES
    && (forall a :: a in m.entries ==> EntryInv(m.entries[a], m, i, a, flights, homes, sequence))
    && OrderInv(m.entries, m.evicted, sequence)
  }

  /** Only the current user has a map, and it belongs to the current session. */
  ghost predicate SessionInv(s: Cache)
    requires InRange(s)
  {
    forall u :: u in s.byUser ==>
      s.user == Some(u) && s.maps[s.byUser[u]].owner == u && s.maps[s.byUser[u]].epoch == s.epoch
  }

  /** Suspended calls and tracked flights belong together: same user, same attachment, same session. */
  ghost predicate CallsInv(s: Cache)
    requires InRange(s)
  {
    && (forall u, a :: u in s.inFlight && a in s.inFlight[u] ==>
          s.flights[s.inFlight[u][a]].user == u && s.flights[s.inFlight[u][a]].attachment == a)
    && (forall c :: c in s.calls ==> PhaseInv(s, s.calls[c]))
  }

  ghost predicate PhaseInv(s: Cache, phase: Phase) {
    match phase
    case Direct => true
    case Joining(u, a, f) => f < |s.flights| && s.flights[f].user == u && s.flights[f].attachment == a
    case Fetching(u, a, m, f) =>
      f < |s.flights| && m < |s.maps| && s.maps[m].owner == u && s.flights[f] == Flight(u, a, s.maps[m].epoch)
  }

  ghost predicate MapsInv(s: Cache) {
    AllMapsInv(s.maps, s.flights, s.homes, s.sequence)
  }

  ghost predicate AllMapsInv(maps: seq<EntryMap>, flights: seq<Flight>,
                             homes: map<Url, (MapId, AttachmentId)>, sequence: nat)
  {
    forall i :: 0 <= i < |maps| ==> MapInv(maps[i], i, flights, homes, sequence)
  }

  /** Object URLs are created once, and those that can still be looked up work. */
  ghost predicate UrlsInv(s: Cache) {
    && (forall url :: url in s.revoked ==> url < s.urls)
    && (forall url :: url in s.homes ==> url < s.urls && s.homes[url].0 < |s.maps|)
    && (forall a :: a in Visible(s) ==> Visible(s)[a].url !in s.revoked)
  }

  ghost predicate Inv(s: Cache) {
    InRange(s) && SessionInv(s) && CallsInv(s) && MapsInv(s) && UrlsInv(s)
  }

  lemma DropKeepsUrlsInv(s: Cache, user: User)
    requires Inv(s) && s.user == Some(user)
    ensures UrlsInv(DropUser(s, user))
  {
    hide MapInv, AllMapsInv, CallsInv;
    if user in s.byUser {
      UrlsHaveHomes(s, s.byUser[user]);
    }
  }

  lemma DropKeepsCallsInv(s: Cache, user: User)
    requires InRange(s) && CallsInv(s)
    ensures InRange(DropUser(s, user)) && CallsInv(DropUser(s, user))
  {
  }

  lemma InvalidateKeepsInv(s: Cache, user: User)
    requires Inv(s) && s.user == Some(user)
    ensures Inv(DropUser(s, user)) && DropUser(s, user).byUser == map[]
  {
    hide AllMapsInv, CallsInv, UrlsInv;
    assert s.byUser - {user} == map[];
    DropKeepsUrlsInv(s, user);
    DropKeepsCallsInv(s, user);
  }

  lemma SetSessionKeepsInv(s: Cache, user: Option<User>)
    requires Inv(s)
    ensures Inv(SetSessionUser(s, user))
  {
    hide MapInv, PhaseInv, DropUser;
    if user != s.user && s.user.Some? {
      InvalidateKeepsInv(s, s.user.value);
      ChangeUserKeepsInv(DropUser(s, s.user.value), user);
    } else if user != s.user {
      assert s.byUser == map[];
      ChangeUserKeepsInv(s, user);
    }
  }

  lemma ChangeUserKeepsInv(s: Cache, user: Option<User>)
    requires Inv(s) && s.byUser == map[]
    ensures Inv(s.(user := user, epoch := s.epoch + 1))
  {
    hide MapInv;
  }

  lemma UrlsHaveHomes(s: Cache, i: MapId)
    requires MapsInv(s) && UrlsInv(s) && i < |s.maps|
    ensures forall url :: url in Urls(s.maps[i].entries) ==> url < s.urls && url in s.homes && s.homes[url].0 == i
  {
    assert MapInv(s.maps[i], i, s.flights, s.homes, s.sequence);
  }

  lemma AppendMap(maps: seq<EntryMap>, now: EntryMap, flights: seq<Flight>,
                  homes: map<Url, (MapId, AttachmentId)>, sequence: nat)
    requires AllMapsInv(maps, flights, homes, sequence) && now.entries == map[] && now.evicted == {}
    ensures AllMapsInv(maps + [now], flights, homes, sequence)
  {
    EmptyMapInv(now, |maps|, flights, homes, sequence);
    hide MapInv;
  }

  lemma WithMapKeepsInv(s: Cache, user: User)
    requires Inv(s) && s.user == Some(user)
    ensures Inv(WithMap(s, user))
  {
    hide AllMapsInv;
    AppendMap(s.maps, EntryMap(user, s.epoch, map[], {}), s.flights, s.homes, s.sequence);
  }

  lemma EmptyMapInv(m: EntryMap, i: MapId, flights: seq<Flight>,
                    homes: map<Url, (MapId, AttachmentId)>, sequence: nat)
    requires m.entries == map[] && m.evicted == {}
    ensures MapInv(m, i, flights, homes, sequence)
  {
  }

  lemma RecountKeepsMapInv(m: EntryMap, i: MapId, a: AttachmentId, refCount: nat, flights: seq<Flight>,
                           homes: map<Url, (MapId, AttachmentId)>, sequence: nat)
    requires a in m.entries && MapInv(m, i, flights, homes, sequence)
    ensures MapInv(m.(entries := m.entries[a := m.entries[a].(refCount := refCount)]), i, flights, homes, sequence)
  {
    hide EntryInv, OrderInv;
    RecountKeepsOrder(m.entries, m.evicted, a, refCount, sequence);
    var entries := m.entries[a := m.entries[a].(refCount := refCount)];
    assert entries.Keys == m.entries.Keys;
    assert |entries| == |m.entries|;
    var t := m.(entries := entries);
    forall b | b in entries ensures EntryInv(entries[b], t, i, b, flights, homes, sequence) {
      RecountedEntry(m, t, i, b, refCount, flights, homes, sequence);
    }
  }

  lemma RecountKeepsOrder(entries: map<AttachmentId, Entry>, evicted: set<nat>, a: AttachmentId, refCount: nat,
                          sequence: nat)
    requires a in entries && OrderInv(entries, evicted, sequence)
    ensures OrderInv(entries[a := entries[a].(refCount := refCount)], evicted, sequence)
  {
  }

  lemma RecountedEntry(m: EntryMap, t: EntryMap, i: MapId, b: AttachmentId, refCount: nat, flights: seq<Flight>,
                       homes: map<Url, (MapId, AttachmentId)>, sequence: nat)
    requires b in m.entries && EntryInv(m.entries[b], m, i, b, flights, homes, sequence)
    requires t.owner == m.owner && t.epoch == m.epoch
    ensures EntryInv(m.entries[b], t, i, b, flights, homes, sequence)
    ensures EntryInv(m.entries[b].(refCount := refCount), t, i, b, flights, homes, sequence)
  {
  }

  /** Counting consumers up or down leaves the map's entries where they are. */
  lemma RecountKeepsInv(s: Cache, m: MapId, a: AttachmentId, refCount: nat)
    requires Inv(s) && m < |s.maps| && a in s.maps[m].entries
    ensures var entries := s.maps[m].entries[a := s.maps[m].entries[a].(refCount := refCount)];
            Inv(s.(maps := s.maps[m := s.maps[m].(entries := entries)]))
  {
    hide MapInv;
    RecountKeepsMapInv(s.maps[m], m, a, refCount, s.flights, s.homes, s.sequence);
    var entries := s.maps[m].entries[a := s.maps[m].entries[a].(refCount := refCount)];
    var t := s.(maps := s.maps[m := s.maps[m].(entries := entries)]);
    assert forall b :: b in Visible(t) ==> b in Visible(s) && Visible(t)[b].url == Visible(s)[b].url;
  }

  /** What lookups see, and what is revoked, depends on the maps and the session alone. */
  lemma UrlsStay(s: Cache, t: Cache)
    requires UrlsInv(s) && t.user == s.user && t.byUser == s.byUser && t.maps == s.maps
    requires t.homes == s.homes && t.revoked == s.revoked && s.urls <= t.urls
    ensures UrlsInv(t) && Visible(t) == Visible(s)
  {
    assert Visible(t) == Visible(s);
  }

  lemma SettleKeepsInv(s: Cache, flight: FlightId, ok: bool)
    requires Inv(s) && flight < |s.flights|
    ensures Inv(SettleFlight(s, flight, ok))
  {
    hide AllMapsInv, UrlsInv, Visible;
    UrlsStay(s, SettleFlight(s, flight, ok));
  }

  lemma ReleaseKeepsInv(s: Cache, attachment: Option<AttachmentId>)
    requires Inv(s)
    ensures Inv(ReleaseAttachment(s, attachment))
  {
    hide Inv;
    if attachment.Some? && attachment.value in Visible(s) {
      var e := Visible(s)[attachment.value];
      RecountKeepsInv(s, s.byUser[s.user.value], attachment.value, if e.refCount == 0 then 0 else e.refCount - 1);
    }
  }

  lemma NewFlightKeepsMapInv(m: EntryMap, i: MapId, flights: seq<Flight>, flight: Flight,
                             homes: map<Url, (MapId, AttachmentId)>, sequence: nat)
    requires MapInv(m, i, flights, homes, sequence)
    ensures MapInv(m, i, flights + [flight], homes, sequence)
  {
  }

  lemma NewFlightKeepsMaps(maps: seq<EntryMap>, flights: seq<Flight>, flight: Flight,
                           homes: map<Url, (MapId, AttachmentId)>, sequence: nat)
    requires AllMapsInv(maps, flights, homes, sequence)
    ensures AllMapsInv(maps, flights + [flight], homes, sequence)
  {
    hide MapInv;
    forall i | 0 <= i < |maps|
      ensures MapInv(maps[i], i, flights + [flight], homes, sequence)
    {
      NewFlightKeepsMapInv(maps[i], i, flights, flight, homes, sequence);
    }
  }

  lemma NewFlightKeepsCallsInv(s: Cache, call: CallId, u: User, a: AttachmentId, m: MapId)
    requires InRange(s) && SessionInv(s) && CallsInv(s) && u in s.byUser && s.byUser[u] == m
    ensures InRange(WithFlight(s, call, u, a, m)) && SessionInv(WithFlight(s, call, u, a, m))
    ensures CallsInv(WithFlight(s, call, u, a, m))
  {
  }

  /** A new flight with its tracker and the call that started it. */
  lemma NewFlightKeepsInv(s: Cache, call: CallId, u: User, a: AttachmentId, m: MapId)
    requires Inv(s) && u in s.byUser && s.byUser[u] == m
    ensures Inv(WithFlight(s, call, u, a, m))
  {
    hide AllMapsInv, CallsInv, SessionInv, InRange, UrlsInv, Visible;
    NewFlightKeepsCallsInv(s, call, u, a, m);
    UrlsStay(s, WithFlight(s, call, u, a, m));
    NewFlightKeepsMaps(s.maps, s.flights, Flight(u, a, s.epoch), s.homes, s.sequence);
  }

  /** A call that waits for a tracked flight, or for a fetch of its own. */
  lemma NewPhaseKeepsInv(s: Cache, call: CallId, phase: Phase)
    requires Inv(s) && PhaseInv(s, phase)
    ensures Inv(s.(calls := s.calls[call := phase]))
  {
    hide AllMapsInv, UrlsInv, Visible;
    UrlsStay(s, s.(calls := s.calls[call := phase]));
  }

  lemma CallEndsKeepsInv(s: Cache, call: CallId)
    requires Inv(s)
    ensures Inv(s.(calls := s.calls - {call}))
  {
    hide AllMapsInv, UrlsInv, Visible;
    UrlsStay(s, s.(calls := s.calls - {call}));
  }

  lemma TouchTrackersKeepsInv(s: Cache, u: User)
    requires Inv(s)
    ensures Inv(s.(inFlight := s.inFlight[u := Pending(s, u)]))
  {
    hide AllMapsInv, UrlsInv, Visible;
    UrlsStay(s, s.(inFlight := s.inFlight[u := Pending(s, u)]));
  }

  lemma StartFetchKeepsInv(s: Cache, call: CallId, attachment: Option<AttachmentId>)
    requires Inv(s)
    ensures Inv(StartFetch(s, call, attachment))
  {
    hide Inv, Claim, PhaseInv;
    assert InRange(s) by { InvMeansInRange(s); }
    if s.user.None? || attachment.None? {
      NewPhaseKeepsInv(s, call, Direct) by { DirectPhase(s); }
    } else {
      var u, a := s.user.value, attachment.value;
      WithMapKeepsInv(s, u);
      var t := WithMap(s, u);
      InvMeansInRange(t);
      var m, pending := t.byUser[u], Pending(t, u);
      if a in t.maps[m].entries {
        ClaimIsRecount(t, m, a);
      } else if a in pending {
        TouchTrackersKeepsInv(t, u);
        var t' := t.(inFlight := t.inFlight[u := pending]);
        assert PhaseInv(t', Joining(u, a, pending[a])) by { TrackedFlight(t, u, a); }
        NewPhaseKeepsInv(t', call, Joining(u, a, pending[a]));
      } else {
        NewFlightKeepsInv(t, call, u, a, m);
      }
    }
  }

  lemma InvMeansInRange(s: Cache)
    requires Inv(s)
    ensures InRange(s)
  {
  }

  lemma DirectPhase(s: Cache)
    ensures PhaseInv(s, Direct)
  {
  }

  lemma TrackedFlight(s: Cache, u: User, a: AttachmentId)
    requires Inv(s)
    ensures a in Pending(s, u) ==>
              Pending(s, u)[a] < |s.flights| && s.flights[Pending(s, u)[a]].user == u
              && s.flights[Pending(s, u)[a]].attachment == a
    ensures a in Pending(s, u) ==>
              PhaseInv(s.(inFlight := s.inFlight[u := Pending(s, u)]), Joining(u, a, Pending(s, u)[a]))
  {
  }

  lemma ClaimIsRecount(s: Cache, m: MapId, a: AttachmentId)
    requires Inv(s) && m < |s.maps| && a in s.maps[m].entries
    ensures Inv(Claim(s, m, a))
  {
    hide Inv;
    RecountKeepsInv(s, m, a, s.maps[m].entries[a].refCount + 1);
  }

  // ------------------------------------------------------------------ insertion and eviction

  /** What trimming a map does: survivors unchanged, and each of them newer than everything evicted. */
  lemma {:induction false} TrimKeepsMapInv(m: EntryMap, i: MapId, flights: seq<Flight>,
                                           homes: map<Url, (MapId, AttachmentId)>, sequence: nat)
    requires MapInv(m, i, flights, homes, sequence)
    ensures MapInv(Trim(m), i, flights, homes, sequence)
    ensures Trim(m).owner == m.owner && Trim(m).epoch == m.epoch
    ensures forall a :: a in Trim(m).entries ==> a in m.entries && Trim(m).entries[a] == m.entries[a]
    decreases |m.entries|
  {
    hide OrderInv;
    if |m.entries| >= MAX_ENTRIES {
      var a := Oldest(m.entries);
      var next := m.(entries := m.entries - {a}, evicted := m.evicted + {m.entries[a].sequence});
      assert EntryInv(m.entries[a], m, i, a, flights, homes, sequence);
      EvictOldestKeepsOrder(m.entries, m.evicted, a, sequence);
      assert MapInv(next, i, flights, homes, sequence);
      TrimKeepsMapInv(next, i, flights, homes, sequence);
    }
  }

  /** Adding the newest entry of all, at a fresh URL, to a map with room for it. */
  lemma NewEntryKeepsMapInv(m: EntryMap, i: MapId, a: AttachmentId, e: Entry, flights: seq<Flight>,
                            homes: map<Url, (MapId, AttachmentId)>, sequence: nat)
    requires MapInv(m, i, flights, homes, sequence) && |m.entries| < MAX_ENTRIES
    requires e.url !in homes && e.sequence == sequence
    requires e.flight < |flights| && flights[e.flight] == Flight(m.owner, a, m.epoch)
    ensures MapInv(m.(entries := m.entries[a := e]), i, flights, homes[e.url := (i, a)], sequence + 1)
  {
    hide OrderInv, EntryInv;
    var t := m.(entries := m.entries[a := e]);
    assert t.entries.Keys == m.entries.Keys + {a};
    assert |t.entries| <= |m.entries| + 1;
    SequencesBelow(m, i, flights, homes, sequence);
    NewEntryKeepsOrder(m.entries, m.evicted, a, e, sequence);
    var after := homes[e.url := (i, a)];
    forall b | b in t.entries ensures EntryInv(t.entries[b], t, i, b, flights, after, sequence + 1) {
      if b == a { InsertedEntry(t, i, a, e, flights, after, sequence); }
      else { OlderEntry(m, t, i, b, e.url, (i, a), flights, homes, sequence); }
    }
  }

  lemma InsertedEntry(t: EntryMap, i: MapId, a: AttachmentId, e: Entry, flights: seq<Flight>,
                      homes: map<Url, (MapId, AttachmentId)>, sequence: nat)
    requires e.sequence == sequence && e.url in homes && homes[e.url] == (i, a)
    requires e.flight < |flights| && flights[e.flight] == Flight(t.owner, a, t.epoch)
    ensures EntryInv(e, t, i, a, flights, homes, sequence + 1)
  {
  }

  lemma OlderEntry(m: EntryMap, t: EntryMap, i: MapId, b: AttachmentId, url: Url, home: (MapId, AttachmentId),
                   flights: seq<Flight>, homes: map<Url, (MapId, AttachmentId)>, sequence: nat)
    requires b in m.entries && EntryInv(m.entries[b], m, i, b, flights, homes, sequence)
    requires url !in homes && t.owner == m.owner && t.epoch == m.epoch
    ensures EntryInv(m.entries[b], t, i, b, flights, homes[url := home], sequence + 1)
  {
  }

  lemma SequencesBelow(m: EntryMap, i: MapId, flights: seq<Flight>,
                       homes: map<Url, (MapId, AttachmentId)>, sequence: nat)
    requires MapInv(m, i, flights, homes, sequence)
    ensures forall b :: b in m.entries ==> m.entries[b].sequence < sequence
  {
    assert forall b :: b in m.entries ==> EntryInv(m.entries[b], m, i, b, flights, homes, sequence);
  }

  lemma NewEntryKeepsOrder(entries: map<AttachmentId, Entry>, evicted: set<nat>, a: AttachmentId, e: Entry,
                           sequence: nat)
    requires OrderInv(entries, evicted, sequence) && e.sequence == sequence
    requires forall b :: b in entries ==> entries[b].sequence < sequence
    ensures OrderInv(entries[a := e], evicted, sequence + 1)
  {
  }

  lemma EvictOldestKeepsOrder(entries: map<AttachmentId, Entry>, evicted: set<nat>, a: AttachmentId, sequence: nat)
    requires OrderInv(entries, evicted, sequence) && IsOldest(entries, a) && entries[a].sequence < sequence
    ensures OrderInv(entries - {a}, evicted + {entries[a].sequence}, sequence)
  {
  }

  lemma NewUrlKeepsMapInv(m: EntryMap, i: MapId, url: Url, home: (MapId, AttachmentId), flights: seq<Flight>,
                          homes: map<Url, (MapId, AttachmentId)>, sequence: nat)
    requires MapInv(m, i, flights, homes, sequence) && url !in homes
    ensures MapInv(m, i, flights, homes[url := home], sequence + 1)
  {
  }

  lemma ReplaceMap(maps: seq<EntryMap>, m: MapId, now: EntryMap, a: AttachmentId, url: Url, flights: seq<Flight>,
                   homes: map<Url, (MapId, AttachmentId)>, sequence: nat)
    requires AllMapsInv(maps, flights, homes, sequence) && m < |maps| && url !in homes
    requires MapInv(now, m, flights, homes[url := (m, a)], sequence + 1)
    ensures AllMapsInv(maps[m := now], flights, homes[url := (m, a)], sequence + 1)
  {
    hide MapInv;
    forall i | 0 <= i < |maps| && i != m
      ensures MapInv(maps[i], i, flights, homes[url := (m, a)], sequence + 1)
    {
      NewUrlKeepsMapInv(maps[i], i, url, (m, a), flights, homes, sequence);
    }
  }

  lemma InsertKeepsMapsInv(s: Cache, call: CallId, a: AttachmentId, m: MapId, flight: FlightId)
    requires MapsInv(s) && UrlsInv(s) && m < |s.maps| && flight < |s.flights|
    requires s.flights[flight] == Flight(s.maps[m].owner, a, s.maps[m].epoch)
    ensures MapsInv(Insert(s, call, a, m, flight))
  {
    hide MapInv, Trim, AllMapsInv;
    var trimmed, e := Trim(s.maps[m]), Entry(s.urls, 1, s.sequence, flight);
    MapsInvAt(s, m);
    TrimKeepsMapInv(s.maps[m], m, s.flights, s.homes, s.sequence);
    NewEntryKeepsMapInv(trimmed, m, a, e, s.flights, s.homes, s.sequence);
    ReplaceMap(s.maps, m, trimmed.(entries := trimmed.entries[a := e]), a, s.urls, s.flights, s.homes, s.sequence);
  }

  /** After an insertion every visible entry either was visible before, or is the inserted one. */
  lemma InsertKeepsUrlsInv(s: Cache, call: CallId, a: AttachmentId, m: MapId, flight: FlightId)
    requires Inv(s) && m < |s.maps|
    ensures UrlsInv(Insert(s, call, a, m, flight))
  {
    hide Trim, EntryInv;
    var t := Insert(s, call, a, m, flight);
    TrimKeepsMapInv(s.maps[m], m, s.flights, s.homes, s.sequence);
    UrlsHaveHomes(s, m);
    forall b | b in Visible(t)
      ensures Visible(t)[b].url !in t.revoked
    {
      var i := s.byUser[s.user.value];
      UrlsHaveHomes(s, i);
      if i == m && b != a {
        assert b in Trim(s.maps[m]).entries;
        assert Visible(t)[b].url in Urls(Trim(s.maps[m]).entries);
        assert Visible(s)[b] == Visible(t)[b];
      } else if i != m {
        assert Visible(t)[b] == Visible(s)[b];
        assert Visible(s)[b].url in Urls(s.maps[i].entries);
      }
    }
  }

  lemma InsertKeepsCallsInv(s: Cache, call: CallId, a: AttachmentId, m: MapId, flight: FlightId)
    requires InRange(s) && SessionInv(s) && CallsInv(s) && MapsInv(s) && m < |s.maps|
    ensures InRange(Insert(s, call, a, m, flight))
    ensures SessionInv(Insert(s, call, a, m, flight)) && CallsInv(Insert(s, call, a, m, flight))
  {
    hide MapInv, Trim, AllMapsInv;
    MapsInvAt(s, m);
    TrimKeepsMapInv(s.maps[m], m, s.flights, s.homes, s.sequence);
  }

  lemma InsertKeepsInv(s: Cache, call: CallId, a: AttachmentId, m: MapId, flight: FlightId)
    requires Inv(s) && m < |s.maps| && flight < |s.flights|
    requires s.flights[flight] == Flight(s.maps[m].owner, a, s.maps[m].epoch)
    ensures Inv(Insert(s, call, a, m, flight))
  {
    hide UrlsInv, MapsInv, SessionInv, CallsInv, InRange, Insert;
    InsertKeepsCallsInv(s, call, a, m, flight);
    InsertKeepsMapsInv(s, call, a, m, flight);
    InsertKeepsUrlsInv(s, call, a, m, flight);
  }

  lemma MapsInvAt(s: Cache, m: MapId)
    requires MapsInv(s) && m < |s.maps|
    ensures MapInv(s.maps[m], m, s.flights, s.homes, s.sequence)
  {
  }

  lemma ResumeKeepsInv(s: Cache, call: CallId)
    requires Inv(s) && Enabled(s, Resume(call))
    ensures Inv(ResumeCall(s, call))
  {
    hide MapsInv, UrlsInv, Insert, Claim;
    var phase := s.calls[call];
    assert PhaseInv(s, phase);
    if !s.outcomes[phase.flight] {
      CallEndsKeepsInv(s, call);
    } else if s.user != Some(phase.user) {
      NewPhaseKeepsInv(s, call, Direct);
    } else if phase.Fetching? {
      InsertKeepsInv(s, call, phase.attachment, phase.entries, phase.flight);
    } else if phase.attachment in Visible(s) {
      ClaimIsRecount(s, s.byUser[phase.user], phase.attachment);
      CallEndsKeepsInv(Claim(s, s.byUser[phase.user], phase.attachment), call);
      ClaimKeepsCalls(s, s.byUser[phase.user], phase.attachment);
    } else {
      NewPhaseKeepsInv(s, call, Direct);
    }
  }

  lemma ClaimKeepsCalls(s: Cache, m: MapId, a: AttachmentId)
    requires m < |s.maps| && a in s.maps[m].entries
    ensures Claim(s, m, a).calls == s.calls
  {
  }

  lemma DirectDoneKeepsInv(s: Cache, call: CallId, urls: nat)
    requires Inv(s) && urls >= s.urls
    ensures Inv(s.(calls := s.calls - {call}, urls := urls))
  {
    hide AllMapsInv, UrlsInv, Visible;
    UrlsStay(s, s.(calls := s.calls - {call}, urls := urls));
  }

  lemma StepKeepsInv(s: Cache, step: Step)
    requires Inv(s) && Enabled(s, step)
    ensures Inv(Apply(s, step))
  {
    hide Inv, SetSessionUser, StartFetch, SettleFlight, ResumeCall, ReleaseAttachment;
    InvMeansInRange(s);
    match step
    case SetSession(user) => SetSessionKeepsInv(s, user);
    case Fetch(call, attachment) => StartFetchKeepsInv(s, call, attachment);
    case Settle(flight, ok) => SettleKeepsInv(s, flight, ok);
    case Resume(call) => ResumeKeepsInv(s, call);
    case DirectDone(call, ok) => DirectDoneKeepsInv(s, call, if ok then s.urls + 1 else s.urls);
    case Release(attachment) => ReleaseKeepsInv(s, attachment);
  }

  // ------------------------------------------------------------------ every run

  ghost predicate ValidRun(s: Cache, steps: seq<Step>)
    requires Inv(s)
    decreases |steps|
  {
    steps == [] || (Enabled(s, steps[0]) && (StepKeepsInv(s, steps[0]); ValidRun(Apply(s, steps[0]), steps[1..])))
  }

  ghost function After(s: Cache, steps: seq<Step>): (t: Cache)
    requires Inv(s) && ValidRun(s, steps)
    ensures Inv(t)
    decreases |steps|
  {
    if steps == [] then s else
    StepKeepsInv(s, steps[0]);
    After(Apply(s, steps[0]), steps[1..])
  }

  lemma EmptyInv()
    ensures Inv(EMPTY)
  {
  }

  /** A run from the freshly loaded module. */
  ghost predicate Run(steps: seq<Step>) {
    EmptyInv();
    ValidRun(EMPTY, steps)
  }

  ghost function Reached(steps: seq<Step>): (s: Cache)
    requires Run(steps)
    ensures Inv(s)
  {
    After(EMPTY, steps)
  }

  /**
   In every reachable state: only the current user has cached entries, at most a hundred a map; each
   entry a lookup can see has a working URL, and its blob was fetched for this user, for this
   attachment and in this session; and what survives in a map is newer than all that was evicted from it.
   */
  lemma ReachableCache(steps: seq<Step>)
    requires Run(steps)
    ensures var s := Reached(steps);
            && (forall u :: u in s.byUser ==> s.user == Some(u))
            && (forall i :: 0 <= i < |s.maps| ==> |s.maps[i].entries| <= MAX_ENTRIES)
            && (forall a :: a in Visible(s) ==>
                  && Visible(s)[a].url !in s.revoked
                  && Visible(s)[a].flight < |s.flights|
                  && s.flights[Visible(s)[a].flight] == Flight(s.user.value, a, s.epoch))
            && (forall i, n, a :: 0 <= i < |s.maps| && n in s.maps[i].evicted && a in s.maps[i].entries ==>
                  n < s.maps[i].entries[a].sequence)
  {
    var s := Reached(steps);
    assert forall i :: 0 <= i < |s.maps| ==> MapInv(s.maps[i], i, s.flights, s.homes, s.sequence);
    if s.user.Some? && s.user.value in s.byUser {
      var i := s.byUser[s.user.value];
      assert forall a :: a in s.maps[i].entries ==>
        EntryInv(s.maps[i].entries[a], s.maps[i], i, a, s.flights, s.homes, s.sequence);
    }
  }

  /** The attachment a step's call asks for. */
  function Requested(s: Cache, step: Step): Option<AttachmentId> {
    match step
    case Fetch(_, attachment) => attachment
    case Resume(call) =>
      if call in s.calls && !s.calls[call].Direct? then Some(s.calls[call].attachment) else None
    case _ => None
  }

  /**
   No call returns a revoked URL, and a URL that does not come from a fetch of the call's own shows
   the requested attachment as fetched for the user who is still, or again, signed in.
   */
  lemma AnswersAreSafe(s: Cache, step: Step)
    requires Inv(s) && Enabled(s, step) && Answer(s, step).Some?
    ensures var reply := Answer(s, step).value;
            && reply.url !in Apply(s, step).revoked
            && (reply.flight.Some? ==>
                  && s.user.Some? && Requested(s, step).Some? && reply.flight.value < |s.flights|
                  && var f := s.flights[reply.flight.value];
                     f.user == s.user.value && f.attachment == Requested(s, step).value)
  {
    hide MapInv, AllMapsInv, MapsInv;
    var wanted := Requested(s, step);
    if step.Resume? {
      assert PhaseInv(s, s.calls[step.call]);
    }
    if wanted.Some? && wanted.value in Visible(s) {
      var i := s.byUser[s.user.value];
      VisibleEntry(s, wanted.value);
    }
    RevokedExactly(s, step);
    StepKeepsInv(s, step);
    assert step.Resume? && s.calls[step.call].Fetching? && Answer(s, step).value.url == s.urls ==>
      s.urls !in s.revoked;
    if step.Resume? && s.calls[step.call].Fetching? {
      UrlsHaveHomes(s, s.calls[step.call].entries);
    }
  }

  lemma VisibleEntry(s: Cache, a: AttachmentId)
    requires Inv(s) && a in Visible(s)
    ensures var e := Visible(s)[a];
            && e.url !in s.revoked && e.url < s.urls && e.flight < |s.flights|
            && s.flights[e.flight] == Flight(s.user.value, a, s.epoch)
  {
    var i := s.byUser[s.user.value];
    MapsInvAt(s, i);
    assert EntryInv(s.maps[i].entries[a], s.maps[i], i, a, s.flights, s.homes, s.sequence);
  }

  /** The URLs a step revokes: those of a session that ends, or the oldest of a full map it inserts into. */
  ghost function Revokes(s: Cache, step: Step): set<Url>
    requires InRange(s) && Enabled(s, step)
  {
    match step
    case SetSession(user) => if user == s.user then {} else Urls(Visible(s))
    case Resume(call) =>
      var phase := s.calls[call];
      if phase.Fetching? && phase.entries < |s.maps| && s.outcomes[phase.flight] && s.user == Some(phase.user)
         && |s.maps[phase.entries].entries| >= MAX_ENTRIES
      then {s.maps[phase.entries].entries[Oldest(s.maps[phase.entries].entries)].url} else {}
    case _ => {}
  }

  /** Consumers have no say in it: claims are not consulted, and releasing one never revokes. */
  lemma RevokedExactly(s: Cache, step: Step)
    requires Inv(s) && Enabled(s, step)
    ensures Apply(s, step).revoked == s.revoked + Revokes(s, step)
  {
    hide AllMapsInv, MapInv, StartFetch, ReleaseAttachment, ResumeCall;
    match step
    case Fetch(call, attachment) => FetchRevokesNothing(s, call, attachment);
    case Release(attachment) => ReleaseRevokesNothing(s, attachment);
    case Resume(call) => ResumeRevokes(s, call);
    case _ =>
  }

  /** Making the user's map touches nothing else. */
  lemma WithMapFacts(s: Cache, u: User)
    requires InRange(s)
    ensures var t := WithMap(s, u);
            && t.revoked == s.revoked && t.urls == s.urls && t.flights == s.flights && t.epoch == s.epoch
            && Pending(t, u) == Pending(s, u)
            && u in t.byUser && t.byUser[u] < |t.maps| && |s.maps| <= |t.maps|
            && t.maps[t.byUser[u]].entries == (if u in s.byUser then s.maps[s.byUser[u]].entries else map[])
  {
  }

  lemma JoinRevokesNothing(t: Cache, call: CallId, u: User, a: AttachmentId, m: MapId)
    ensures JoinOrStart(t, call, u, a, m).revoked == t.revoked
  {
    hide Pending;
  }

  lemma FetchRevokesNothing(s: Cache, call: CallId, attachment: Option<AttachmentId>)
    requires InRange(s)
    ensures StartFetch(s, call, attachment).revoked == s.revoked
  {
    hide WithMap, JoinOrStart, InRange;
    if s.user.Some? && attachment.Some? {
      var t := WithMap(s, s.user.value);
      WithMapFacts(s, s.user.value);
      JoinRevokesNothing(t, call, s.user.value, attachment.value, t.byUser[s.user.value]);
    }
  }

  lemma ReleaseRevokesNothing(s: Cache, attachment: Option<AttachmentId>)
    requires Inv(s)
    ensures ReleaseAttachment(s, attachment).revoked == s.revoked
  {
    hide AllMapsInv;
  }

  lemma ResumeRevokes(s: Cache, call: CallId)
    requires Inv(s) && Enabled(s, Resume(call))
    ensures ResumeCall(s, call).revoked == s.revoked + Revokes(s, Resume(call))
  {
    hide AllMapsInv, MapInv, Trim;
    if s.calls[call].Fetching? {
      assert PhaseInv(s, s.calls[call]);
      TrimRevokesOldest(s, s.calls[call].entries);
    }
  }

  lemma TrimRevokesOldest(s: Cache, m: MapId)
    requires MapsInv(s) && m < |s.maps|
    ensures var entries := s.maps[m].entries;
            Urls(entries) - Urls(Trim(s.maps[m]).entries) ==
            if |entries| >= MAX_ENTRIES then {entries[Oldest(entries)].url} else {}
  {
    hide AllMapsInv, OrderInv;
    MapsInvAt(s, m);
    var entries := s.maps[m].entries;
    if |entries| >= MAX_ENTRIES {
      var a := Oldest(entries);
      assert |entries - {a}| == MAX_ENTRIES - 1;
      assert Trim(s.maps[m]).entries == entries - {a};
      forall b | b in entries && b != a
        ensures entries[b].url != entries[a].url
      {
        assert EntryInv(entries[a], s.maps[m], m, a, s.flights, s.homes, s.sequence);
        assert EntryInv(entries[b], s.maps[m], m, b, s.flights, s.homes, s.sequence);
      }
      assert forall b :: b in entries && b != a ==> b in entries - {a} && entries[b].url in Urls(entries - {a});
    }
  }

  /** A blob whose session ended while it was fetched never shows in the cache, even for the same user. */
  lemma StaleFetchStaysOutside(s: Cache, call: CallId)
    requires Inv(s) && Enabled(s, Resume(call)) && s.calls[call].Fetching?
    requires s.flights[s.calls[call].flight].epoch != s.epoch
    ensures Visible(ResumeCall(s, call)) == Visible(s)
  {
    hide AllMapsInv, MapInv, Trim;
    assert PhaseInv(s, s.calls[call]);
  }

  /** A second request for an attachment already being fetched opens no connection of its own. */
  lemma RequestsShareFlights(s: Cache, call: CallId, a: AttachmentId)
    requires Inv(s) && s.user.Some? && a !in Visible(s)
    ensures var t := StartFetch(s, call, Some(a));
            var pending := Pending(s, s.user.value);
            if a in pending then
              t.flights == s.flights && t.calls[call] == Joining(s.user.value, a, pending[a]) &&
              s.flights[pending[a]].user == s.user.value && s.flights[pending[a]].attachment == a
            else
              t.flights == s.flights + [Flight(s.user.value, a, s.epoch)] &&
              Pending(t, s.user.value) == pending[a := |s.flights|]
  {
    hide WithMap, JoinOrStart, Pending, MapsInv, SessionInv, UrlsInv;
    var u := s.user.value;
    var t := WithMap(s, u);
    WithMapFacts(s, u);
    JoinOrStartShares(t, call, u, a, t.byUser[u]);
    TrackedFlight(s, u, a);
  }

  lemma JoinOrStartShares(t: Cache, call: CallId, u: User, a: AttachmentId, m: MapId)
    ensures var r := JoinOrStart(t, call, u, a, m);
            var pending := Pending(t, u);
            if a in pending then r.flights == t.flights && r.calls[call] == Joining(u, a, pending[a])
            else r.flights == t.flights + [Flight(u, a, t.epoch)] && Pending(r, u) == pending[a := |t.flights|]
  {
  }

  /** A call that joined a flight ends without a URL exactly when that flight failed; it never falls back then. */
  lemma JoinersFailWithTheFlight(s: Cache, call: CallId)
    requires Inv(s) && Enabled(s, Resume(call)) && s.calls[call].Joining?
    ensures call !in Apply(s, Resume(call)).calls && Answer(s, Resume(call)).None?
            <==> !s.outcomes[s.calls[call].flight]
  {
    hide AllMapsInv, MapInv;
  }

  /** The step may be taken from `s`, and leads to `next`. */
  ghost predicate Leads(s: Cache, step: Step, next: Cache) {
    Inv(s) && Enabled(s, step) && Apply(s, step) == next
  }

  lemma RunCons(s: Cache, step: Step, next: Cache, rest: seq<Step>)
    requires Leads(s, step, next) && Inv(next) && ValidRun(next, rest)
    ensures ValidRun(s, [step] + rest) && After(s, [step] + rest) == After(next, rest)
  {
    hide Inv, Enabled;
    assert ([step] + rest)[1..] == rest;
  }

  const SIGNED_IN := EMPTY.(user := Some(1), epoch := 1)
  const FETCHING := SIGNED_IN.(
    maps := [EntryMap(1, 1, map[], {})], byUser := map[1 := 0], flights := [Flight(1, 7, 1)],
    inFlight := map[1 := map[7 := 0]], calls := map[0 := Fetching(1, 7, 0, 0)])
  const JOINED := FETCHING.(calls := map[0 := Fetching(1, 7, 0, 0), 1 := Joining(1, 7, 0)])
  const FAILED := JOINED.(outcomes := map[0 := false], inFlight := map[1 := map[]])

  lemma UserSignsIn()
    ensures Leads(EMPTY, SetSession(Some(1)), SIGNED_IN)
  {
  }

  lemma FirstCallFetches()
    requires Inv(SIGNED_IN)
    ensures Leads(SIGNED_IN, Fetch(0, Some(7)), FETCHING)
  {
    hide MapsInv, CallsInv, SessionInv, UrlsInv;
  }

  lemma SecondCallJoins()
    requires Inv(FETCHING)
    ensures Leads(FETCHING, Fetch(1, Some(7)), JOINED)
  {
    hide MapsInv, CallsInv, SessionInv, UrlsInv;
  }

  lemma FlightFails()
    requires Inv(JOINED)
    ensures Leads(JOINED, Settle(0, false), FAILED)
  {
    hide MapsInv, CallsInv, SessionInv, UrlsInv;
  }

  lemma LeadsKeepsInv(s: Cache, step: Step, next: Cache)
    requires Leads(s, step, next)
    ensures Inv(next)
  {
    StepKeepsInv(s, step);
  }

  /** One user asks for an attachment twice; the fetch fails, and the second call ends with nothing as well. */
  lemma JoinerFailsWithoutFallback()
    ensures var joining := [Fetch(1, Some(7))] + ([Settle(0, false)] + []);
            var steps := [SetSession(Some(1))] + ([Fetch(0, Some(7))] + joining);
            && Run(steps) && Enabled(Reached(steps), Resume(1)) && Reached(steps).calls[1].Joining?
            && Answer(Reached(steps), Resume(1)).None? && 1 !in Apply(Reached(steps), Resume(1)).calls
  {
    hide Inv, ValidRun, After, Apply, Leads;
    UserSignsIn();
    LeadsKeepsInv(EMPTY, SetSession(Some(1)), SIGNED_IN);
    FirstCallFetches();
    LeadsKeepsInv(SIGNED_IN, Fetch(0, Some(7)), FETCHING);
    SecondCallJoins();
    LeadsKeepsInv(FETCHING, Fetch(1, Some(7)), JOINED);
    FlightFails();
    LeadsKeepsInv(JOINED, Settle(0, false), FAILED);
    EmptyInv();
    NoSteps(FAILED);
    RunCons(JOINED, Settle(0, false), FAILED, []);
    RunCons(FETCHING, Fetch(1, Some(7)), JOINED, [Settle(0, false)] + []);
    RunCons(SIGNED_IN, Fetch(0, Some(7)), FETCHING, [Fetch(1, Some(7))] + ([Settle(0, false)] + []));
    RunCons(EMPTY, SetSession(Some(1)), SIGNED_IN,
            [Fetch(0, Some(7))] + ([Fetch(1, Some(7))] + ([Settle(0, false)] + [])));
    JoinersFailWithTheFlight(FAILED, 1);
  }

  lemma NoSteps(s: Cache)
    requires Inv(s)
    ensures ValidRun(s, []) && After(s, []) == s
  {
  }
}
