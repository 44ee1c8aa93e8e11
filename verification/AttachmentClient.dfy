/** The attachment module as it runs: its variables and the stretches of its exported functions. */
module AttachmentClient {
  import opened Options
  import opened AttachmentCache
  import opened CacheHits

  /** The module's variables and exported functions; each method is one stretch between two awaits. */
  class AttachmentModule {
    var currentUserId: Option<User>
    var epoch: nat
    var maps: seq<EntryMap>
    var byUser: map<User, MapId>
    var inFlight: map<User, map<AttachmentId, FlightId>>
    var flights: seq<Flight>
    var outcomes: map<FlightId, bool>
    var sequence: nat
    var urls: nat
    var homes: map<Url, (MapId, AttachmentId)>
    var revoked: set<Url>
    var calls: map<CallId, Phase>

    ghost function State(): Cache
      reads this
    {
      Cache(currentUserId, epoch, maps, byUser, inFlight, flights, outcomes, sequence, urls, homes, revoked, calls)
    }

    constructor ()
      ensures State() == EMPTY && Inv(State())
    {
      currentUserId, epoch, maps, byUser, inFlight := None, 0, [], map[], map[];
      flights, outcomes, sequence, urls, homes, revoked, calls := [], map[], 0, 0, map[], {}, map[];
      new;
      EmptyInv();
    }

    /** Revokes the object URLs of a dropped map one by one. */
    method RevokeAll(entries: map<AttachmentId, Entry>)
      modifies this`revoked
      ensures revoked == old(revoked) + Urls(entries)
    {
      var left := entries.Keys;
      assert entries - left == map[];
      while left != {}
        invariant left <= entries.Keys
        invariant revoked == old(revoked) + Urls(entries - left)
        decreases |left|
      {
        var a :| a in left;
        RestoreOne(entries, left, a);
        revoked := revoked + {entries[a].url};
        left := left - {a};
      }
      assert entries - {} == entries;
    }

    /** Drops the user's map and trackers. */
    method InvalidateUser(userId: User)
      requires InRange(State())
      modifies this`revoked, this`byUser, this`inFlight
      ensures State() == DropUser(old(State()), userId)
      ensures byUser == old(byUser) - {userId} && inFlight == old(inFlight) - {userId}
      ensures revoked == old(revoked) + if userId in old(byUser) then Urls(maps[old(byUser)[userId]].entries) else {}
    {
      if userId in byUser {
        RevokeAll(maps[byUser[userId]].entries);
      }
      byUser := byUser - {userId};
      inFlight := inFlight - {userId};
    }

    method SetSessionUser(userId: Option<User>)
      requires Inv(State())
      modifies this
      ensures Inv(State()) && State() == Apply(old(State()), SetSession(userId))
      ensures currentUserId == userId && maps == old(maps) && calls == old(calls)
      ensures userId == old(currentUserId) ==> State() == old(State())
      ensures userId != old(currentUserId) ==>
                && epoch == old(epoch) + 1 && revoked == old(revoked) + Urls(Visible(old(State())))
                && (old(currentUserId).Some? ==>
                      byUser == old(byUser) - {old(currentUserId).value}
                      && inFlight == old(inFlight) - {old(currentUserId).value})
    {
      hide Inv, DropUser;
      InvMeansInRange(State());
      StepKeepsInv(State(), SetSession(userId));
      if userId == currentUserId {
        return;
      }
      if currentUserId.Some? {
        InvalidateUser(currentUserId.value);
      }
      currentUserId := userId;
      epoch := epoch + 1;
    }

    /** The user's map of entries, made when there is none. */
    method EntriesOf(u: User) returns (m: MapId)
      modifies this`maps, this`byUser
      ensures State() == WithMap(old(State()), u) && u in byUser && m == byUser[u]
    {
      if u !in byUser {
        maps, byUser := maps + [EntryMap(u, epoch, map[], {})], byUser[u := |maps|];
      }
      return byUser[u];
    }

    /** Counts one more consumer of an entry. */
    method AddConsumer(m: MapId, a: AttachmentId) returns (url: Url)
      requires m < |maps| && a in maps[m].entries
      modifies this`maps
      ensures State() == Claim(old(State()), m, a) && url == old(maps)[m].entries[a].url
    {
      var entry := maps[m].entries[a];
      maps := maps[m := maps[m].(entries := maps[m].entries[a := entry.(refCount := entry.refCount + 1)])];
      return entry.url;
    }

    /** `fetchAttachmentBlob` up to its first await, or to its end when the URL is cached. */
    method FetchAttachmentBlob(call: CallId, attachment: Option<AttachmentId>) returns (url: Option<Url>)
      requires Inv(State()) && Enabled(State(), Fetch(call, attachment))
      modifies this
      ensures Inv(State()) && State() == Apply(old(State()), Fetch(call, attachment))
      ensures var answer := Answer(old(State()), Fetch(call, attachment));
              url == if answer.Some? then Some(answer.value.url) else None
      ensures var cached := Visible(old(State()));
              if attachment.Some? && attachment.value in cached then
                url == Some(cached[attachment.value].url)
                && flights == old(flights) && calls == old(calls) && inFlight == old(inFlight)
              else url.None? && call in calls && calls - {call} == old(calls)
    {
      hide Inv, InRange, Visible, Answer, JoinOrStart, Pending, Claim, WithMap, Apply;
      InvMeansInRange(State());
      StepKeepsInv(State(), Fetch(call, attachment));
      FetchIsAnswered(State(), call, attachment);
      if currentUserId.Some? {
        LookupMap(State(), currentUserId.value);
      }
      if currentUserId.None? || attachment.None? {
        calls := calls[call := Direct];
        return None;
      }
      var u, a := currentUserId.value, attachment.value;
      WithMapFacts(State(), u);
      var m := EntriesOf(u);
      if a in maps[m].entries {
        var existing := AddConsumer(m, a);
        return Some(existing);
      }
      JoinOrStartFlight(call, u, a, m);
      return None;
    }

    method JoinOrStartFlight(call: CallId, u: User, a: AttachmentId, m: MapId)
      modifies this`inFlight, this`flights, this`calls
      ensures State() == JoinOrStart(old(State()), call, u, a, m)
      ensures call in calls && calls - {call} == old(calls) - {call} && u in inFlight
      ensures var pending := if u in old(inFlight) then old(inFlight)[u] else map[];
              if a in pending then calls[call] == Joining(u, a, pending[a]) && flights == old(flights)
              else
                && calls[call] == Fetching(u, a, m, |old(flights)|) && inFlight[u] == pending[a := |old(flights)|]
                && flights == old(flights) + [Flight(u, a, epoch)]
    {
      var pending: map<AttachmentId, FlightId> := if u in inFlight then inFlight[u] else map[];
      if a in pending {
        inFlight := inFlight[u := pending];
        calls := calls[call := Joining(u, a, pending[a])];
        return;
      }
      var flight := |flights|;
      flights := flights + [Flight(u, a, epoch)];
      inFlight := inFlight[u := pending[a := flight]];
      calls := calls[call := Fetching(u, a, m, flight)];
    }

    /** The scan for the oldest entry. */
    method FindOldest(entries: map<AttachmentId, Entry>) returns (oldestKey: AttachmentId)
      requires entries != map[]
      ensures IsOldest(entries, oldestKey)
    {
      var left := entries.Keys;
      oldestKey :| oldestKey in left;
      while left != {}
        invariant left <= entries.Keys && oldestKey in entries
        invariant forall a :: a in entries && a !in left ==> entries[oldestKey].sequence <= entries[a].sequence
        decreases |left|
      {
        var key :| key in left;
        if entries[key].sequence < entries[oldestKey].sequence {
          oldestKey := key;
        }
        left := left - {key};
      }
    }

    /** What follows the await of a flight, for the call that started it and for those that joined it. */
    method ResumeFetch(call: CallId) returns (url: Option<Url>)
      requires Inv(State()) && Enabled(State(), Resume(call))
      modifies this
      ensures Inv(State()) && State() == Apply(old(State()), Resume(call))
      ensures var answer := Answer(old(State()), Resume(call));
              url == if answer.Some? then Some(answer.value.url) else None
      ensures var phase := old(calls)[call];
              var goesOn := currentUserId == Some(phase.user);
              if !old(outcomes)[phase.flight] then url.None? && calls == old(calls) - {call} && maps == old(maps)
              else if goesOn && phase.Fetching? then
                && url == Some(old(urls)) && urls == old(urls) + 1 && calls == old(calls) - {call}
                && phase.entries < |maps| && phase.attachment in maps[phase.entries].entries
                && maps[phase.entries].entries[phase.attachment] == Entry(old(urls), 1, old(sequence), phase.flight)
              else if goesOn && phase.attachment in Visible(old(State())) then
                url == Some(Visible(old(State()))[phase.attachment].url) && calls == old(calls) - {call}
              else url.None? && calls == old(calls)[call := Direct] && maps == old(maps)
    {
      hide AllMapsInv, Inv, MapInv;
      InvMeansInRange(State());
      StepKeepsInv(State(), Resume(call));
      var phase := calls[call];
      if !outcomes[phase.flight] {
        calls := calls - {call};
        return None;
      }
      if currentUserId != Some(phase.user) {
        calls := calls[call := Direct];
        return None;
      }
      if phase.Joining? {
        url := AcquireAfterFlight(call, phase.user, phase.attachment);
        return;
      }
      PhaseOfCall(State(), call);
      InsertBlob(call, phase.attachment, phase.entries, phase.flight);
      url := Some(urls - 1);
    }

    /** Revokes and removes the oldest entry of a map, if it has any. */
    method EvictOldest(m: MapId)
      requires m < |maps| && MapInv(maps[m], m, flights, homes, sequence)
      modifies this`maps, this`revoked
      ensures var before := old(maps)[m];
              if before.entries == map[] then maps == old(maps) && revoked == old(revoked)
              else
                && maps == old(maps)[m := Evicted(before)]
                && revoked == old(revoked) + {before.entries[Oldest(before.entries)].url}
    {
      hide MapInv;
      if maps[m].entries == map[] {
        return;
      }
      var now := maps[m];
      var oldest := FindOldest(now.entries);
      OldestIsUnique(now, m, oldest, flights, homes, sequence);
      revoked := revoked + {now.entries[oldest].url};
      maps := maps[m := now.(entries := now.entries - {oldest},
                             evicted := now.evicted + {now.entries[oldest].sequence})];
    }

    /** Evicts from a map until another entry fits. */
    method MakeRoom(m: MapId)
      requires m < |maps| && MapInv(maps[m], m, flights, homes, sequence)
      modifies this`maps, this`revoked
      ensures maps == old(maps)[m := Trim(old(maps)[m])]
      ensures revoked == old(revoked) + (Urls(old(maps)[m].entries) - Urls(Trim(old(maps)[m]).entries))
    {
      hide MapInv, Trim;
      ghost var whole := maps[m];
      while |maps[m].entries| >= MAX_ENTRIES
        invariant |maps| == |old(maps)| && maps == old(maps)[m := maps[m]]
        invariant MapInv(maps[m], m, flights, homes, sequence) && Trim(maps[m]) == Trim(whole)
        invariant revoked == old(revoked) + (Urls(whole.entries) - Urls(maps[m].entries))
        invariant Urls(maps[m].entries) <= Urls(whole.entries)
        decreases |maps[m].entries|
      {
        ghost var now := maps[m];
        OldestIsUnique(now, m, Oldest(now.entries), flights, homes, sequence);
        TrimStep(now);
        EvictOldest(m);
      }
      TrimDone(maps[m]);
    }

    /** Makes room in a map, then inserts the fetched blob under a new URL. */
    method InsertBlob(call: CallId, attachment: AttachmentId, m: MapId, flight: FlightId)
      requires m < |maps| && MapInv(maps[m], m, flights, homes, sequence)
      modifies this
      ensures State() == Insert(old(State()), call, attachment, m, flight)
    {
      hide MapInv, Trim;
      MakeRoom(m);
      maps := maps[m := maps[m].(entries := maps[m].entries[attachment := Entry(urls, 1, sequence, flight)])];
      homes := homes[urls := (m, attachment)];
      sequence := sequence + 1;
      urls := urls + 1;
      calls := calls - {call};
    }

    method AcquireAfterFlight(call: CallId, userId: User, attachment: AttachmentId) returns (url: Option<Url>)
      requires InRange(State()) && currentUserId == Some(userId) && call in calls
      modifies this
      ensures var s := old(State());
              State() ==
              if attachment in Visible(s) then
                Claim(s, s.byUser[userId], attachment).(calls := s.calls - {call})
              else s.(calls := s.calls[call := Direct])
      ensures url == if attachment in Visible(old(State())) then Some(Visible(old(State()))[attachment].url) else None
    {
      if userId in byUser && attachment in maps[byUser[userId]].entries {
        var claimed := AddConsumer(byUser[userId], attachment);
        calls := calls - {call};
        return Some(claimed);
      }
      calls := calls[call := Direct];
      return None;
    }

    method SettleFlight(flight: FlightId, ok: bool)
      requires Inv(State()) && Enabled(State(), Settle(flight, ok))
      modifies this
      ensures Inv(State()) && State() == Apply(old(State()), Settle(flight, ok))
      ensures outcomes == old(outcomes)[flight := ok] && maps == old(maps) && calls == old(calls)
      ensures var Flight(u, a, _) := flights[flight];
              && inFlight.Keys == old(inFlight).Keys
              && forall v :: v in inFlight ==>
                   inFlight[v] == if v == u then old(inFlight)[v] - {a} else old(inFlight)[v]
    {
      hide Inv;
      InvMeansInRange(State());
      StepKeepsInv(State(), Settle(flight, ok));
      outcomes := outcomes[flight := ok];
      var Flight(u, a, _) := flights[flight];
      if u in inFlight {
        inFlight := inFlight[u := inFlight[u] - {a}];
      }
    }

    method ReleaseAttachment(attachment: Option<AttachmentId>)
      requires Inv(State())
      modifies this
      ensures Inv(State()) && State() == Apply(old(State()), Release(attachment))
      ensures revoked == old(revoked) && calls == old(calls) && flights == old(flights)
      ensures var before, after := Visible(old(State())), Visible(State());
              && after.Keys == before.Keys
              && forall a :: a in after ==>
                   after[a] == if attachment == Some(a) && before[a].refCount > 0
                               then before[a].(refCount := before[a].refCount - 1) else before[a]
    {
      hide AllMapsInv, Inv;
      InvMeansInRange(State());
      StepKeepsInv(State(), Release(attachment));
      if attachment.Some? && attachment.value in Visible(State()) {
        ReleaseKeepsEntries(State(), attachment, attachment.value);
      }
      if currentUserId.None? || attachment.None? || currentUserId.value !in byUser {
        return;
      }
      var m, a := byUser[currentUserId.value], attachment.value;
      if a !in maps[m].entries {
        return;
      }
      var entry := maps[m].entries[a];
      var refCount := if entry.refCount == 0 then 0 else entry.refCount - 1;
      maps := maps[m := maps[m].(entries := maps[m].entries[a := entry.(refCount := refCount)])];
    }

    /** A lookup that claims nothing: the URL it returns works, and shows this user's own attachment. */
    method GetCachedObjectUrl(attachment: Option<AttachmentId>) returns (url: Option<Url>)
      requires Inv(State())
      ensures url.Some? <==> attachment.Some? && attachment.value in Visible(State())
      ensures url.Some? ==>
                && url.value !in revoked
                && var e := Visible(State())[attachment.value];
                   e.url == url.value && e.flight < |flights|
                   && flights[e.flight] == Flight(currentUserId.value, attachment.value, epoch)
    {
      if currentUserId.None? || attachment.None? {
        return None;
      }
      if currentUserId.value in byUser && attachment.value in maps[byUser[currentUserId.value]].entries {
        VisibleEntry(State(), attachment.value);
        return Some(maps[byUser[currentUserId.value]].entries[attachment.value].url);
      }
      return None;
    }
  }

  lemma RestoreOne(entries: map<AttachmentId, Entry>, left: set<AttachmentId>, a: AttachmentId)
    requires a in left && left <= entries.Keys
    ensures Urls(entries - (left - {a})) == Urls(entries - left) + {entries[a].url}
  {
    var more, fewer := entries - (left - {a}), entries - left;
    assert forall b :: b in more <==> b in fewer || b == a;
    assert forall b :: b in fewer ==> more[b] == fewer[b];
    assert more[a].url in Urls(more);
    assert forall b :: b in fewer ==> more[b].url in Urls(more);
  }

  lemma PhaseOfCall(s: Cache, call: CallId)
    requires Inv(s) && call in s.calls
    ensures PhaseInv(s, s.calls[call])
    ensures forall m :: 0 <= m < |s.maps| ==> MapInv(s.maps[m], m, s.flights, s.homes, s.sequence)
  {
  }

  /** A map without its oldest entry. */
  ghost function Evicted(m: EntryMap): EntryMap
    requires m.entries != map[]
  {
    var a := Oldest(m.entries);
    m.(entries := m.entries - {a}, evicted := m.evicted + {m.entries[a].sequence})
  }

  lemma TrimStep(m: EntryMap)
    requires |m.entries| >= MAX_ENTRIES
    ensures Trim(Evicted(m)) == Trim(m) && |Evicted(m).entries| < |m.entries|
  {
  }

  lemma TrimDone(m: EntryMap)
    requires |m.entries| < MAX_ENTRIES
    ensures Trim(m) == m
  {
  }

  /** Distinct sequence numbers leave no choice of what to evict. */
  lemma OldestIsUnique(m: EntryMap, i: MapId, a: AttachmentId, flights: seq<Flight>,
                       homes: map<Url, (MapId, AttachmentId)>, sequence: nat)
    requires MapInv(m, i, flights, homes, sequence) && m.entries != map[] && IsOldest(m.entries, a)
    ensures a == Oldest(m.entries)
    ensures MapInv(m.(entries := m.entries - {a}, evicted := m.evicted + {m.entries[a].sequence}),
                   i, flights, homes, sequence)
    ensures Urls(m.entries) == Urls(m.entries - {a}) + {m.entries[a].url}
    ensures m.entries[a].url !in Urls(m.entries - {a})
  {
    var b := Oldest(m.entries);
    assert m.entries[a].sequence == m.entries[b].sequence;
    assert EntryInv(m.entries[a], m, i, a, flights, homes, sequence);
    EvictOldestKeepsOrder(m.entries, m.evicted, a, sequence);
    hide OrderInv, IsOldest;
    UrlsWithout(m, i, a, flights, homes, sequence);
  }

  lemma UrlsWithout(m: EntryMap, i: MapId, a: AttachmentId, flights: seq<Flight>,
                    homes: map<Url, (MapId, AttachmentId)>, sequence: nat)
    requires MapInv(m, i, flights, homes, sequence) && a in m.entries
    ensures Urls(m.entries) == Urls(m.entries - {a}) + {m.entries[a].url}
    ensures m.entries[a].url !in Urls(m.entries - {a})
  {
    hide OrderInv;
    var rest := m.entries - {a};
    assert EntryInv(m.entries[a], m, i, a, flights, homes, sequence);
    forall c | c in rest
      ensures m.entries[c].url != m.entries[a].url && m.entries[c].url in Urls(rest)
    {
      assert EntryInv(m.entries[c], m, i, c, flights, homes, sequence);
      assert rest[c] == m.entries[c];
    }
  }
}
