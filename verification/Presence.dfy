/**
 Who is online: the socket sets of the presence service, driven by the gateway's connection events.
 One step is one stretch between awaits; the log records each online or offline decision.
 */
module Presence {
  import opened Common

  type User = nat
  type Socket = nat

  type Online = map<User, set<Socket>>

  datatype Decision = Decision(user: User, online: bool)

  /** The handshake's own database lookup. */
  datatype Lookup = Pending | Refused | Done

  /** A socket may close while that lookup still runs. */
  datatype Closing = Open | ClosedDuringLookup | ClosedAfterLookup

  datatype Client = Client(user: User, lookup: Lookup, closing: Closing)

  datatype System = System(
    online: Online,                  // onlineSockets
    connected: map<Socket, User>,    // connectedUsers
    clients: map<Socket, Client>,    // history: every socket seen so far
    log: seq<Decision>)              // history: every transition decided so far

  const EMPTY := System(map[], map[], map[], [])

  // ------------------------------------------------------------------ the presence service

  predicate IsOnline(online: Online, user: User) {
    user in online && online[user] != {}
  }

  function Register(online: Online, user: User, socket: Socket): Online {
    online[user := (if user in online then online[user] else {}) + {socket}]
  }

  function Unregister(online: Online, user: User, socket: Socket): Online {
    if user !in online then online
    else if online[user] - {socket} != {} then online[user := online[user] - {socket}]
    else online - {user}
  }

  class WebSocketService {
    var onlineSockets: Online

    constructor ()
      ensures onlineSockets == map[]
    {
      onlineSockets := map[];
    }

    method RegisterOnline(user: User, socket: Socket) returns (becameOnline: bool)
      modifies this
      ensures onlineSockets == Register(old(onlineSockets), user, socket)
      ensures onlineSockets.Keys == old(onlineSockets).Keys + {user}
      ensures forall u :: u in onlineSockets ==>
                onlineSockets[u] == (if u in old(onlineSockets) then old(onlineSockets)[u] else {})
                                    + (if u == user then {socket} else {})
      ensures becameOnline <==> user !in old(onlineSockets) || old(onlineSockets)[user] == {}
    {
      becameOnline := user !in onlineSockets || onlineSockets[user] == {};
      if user !in onlineSockets {
        onlineSockets := onlineSockets[user := {}];
      }
      onlineSockets := onlineSockets[user := onlineSockets[user] + {socket}];
    }

    method UnregisterOnline(user: User, socket: Socket) returns (wentOffline: bool)
      modifies this
      ensures onlineSockets == Unregister(old(onlineSockets), user, socket)
      ensures user in onlineSockets <==> user in old(onlineSockets) && old(onlineSockets)[user] - {socket} != {}
      ensures user in onlineSockets ==> onlineSockets[user] == old(onlineSockets)[user] - {socket}
      ensures onlineSockets - {user} == old(onlineSockets) - {user}
      ensures wentOffline <==> user in old(onlineSockets) && user !in onlineSockets
    {
      if user !in onlineSockets { return false; }
      onlineSockets := onlineSockets[user := onlineSockets[user] - {socket}];
      if onlineSockets[user] != {} { return false; }
      onlineSockets := onlineSockets - {user};
      return true;
    }

    /** The sockets a presence event goes to: every socket of every contact who is online. */
    method EmitToContacts(contacts: seq<User>) returns (sent: seq<Socket>)
      ensures forall s :: s in sent <==> exists c :: c in contacts && c in onlineSockets && s in onlineSockets[c]
      ensures Distinct(contacts) && OneUserPerSocket(onlineSockets) ==> Distinct(sent)
    {
      sent := [];
      for i := 0 to |contacts|
        invariant forall s :: s in sent <==>
                    exists c :: c in contacts[..i] && c in onlineSockets && s in onlineSockets[c]
        invariant Distinct(contacts) && OneUserPerSocket(onlineSockets) ==> Distinct(sent)
      {
        var contact := contacts[i];
        assert contacts[..i + 1] == contacts[..i] + [contact];
        if contact !in onlineSockets { continue; }
        ghost var before := sent;
        var left := onlineSockets[contact];
        while left != {}
          invariant left <= onlineSockets[contact]
          invariant forall s :: s in sent <==> s in before || (s in onlineSockets[contact] && s !in left)
          invariant Distinct(contacts) && OneUserPerSocket(onlineSockets) ==> Distinct(sent)
          decreases |left|
        {
          var socket :| socket in left;
          assert Distinct(contacts) && OneUserPerSocket(onlineSockets) ==> socket !in before;
          left := left - {socket};
          sent := sent + [socket];
        }
      }
    }

    /** What a new socket is told: the contacts who are online, each where the contact list has it. */
    method SendCurrentPresence(contacts: seq<User>) returns (told: seq<User>)
      ensures forall v :: v in told <==> v in contacts && v in onlineSockets && onlineSockets[v] != {}
      ensures exists places :: IsSelection(onlineSockets, contacts, places, told)
      ensures Distinct(contacts) ==> Distinct(told)
    {
      told := [];
      ghost var places: seq<nat> := [];
      for i := 0 to |contacts|
        invariant IsSelection(onlineSockets, contacts[..i], places, told)
      {
        assert contacts[..i + 1] == contacts[..i] + [contacts[i]];
        if contacts[i] !in onlineSockets || onlineSockets[contacts[i]] == {} { continue; }
        told := told + [contacts[i]];
        places := places + [i];
      }
      assert contacts[..|contacts|] == contacts;
      SelectionFacts(onlineSockets, contacts, places, told);
    }
  }

  /** `told` are the contacts at these places, in order, and the places are those of online contacts. */
  ghost predicate IsSelection(online: Online, contacts: seq<User>, places: seq<nat>, told: seq<User>) {
    && |places| == |told|
    && (forall k :: 0 <= k < |places| ==> places[k] < |contacts| && told[k] == contacts[places[k]])
    && (forall j, k :: 0 <= j < k < |places| ==> places[j] < places[k])
    && (forall i :: 0 <= i < |contacts| ==> (i in places <==> contacts[i] in online && online[contacts[i]] != {}))
  }

  lemma SelectionFacts(online: Online, contacts: seq<User>, places: seq<nat>, told: seq<User>)
    requires IsSelection(online, contacts, places, told)
    ensures forall v :: v in told <==> v in contacts && v in online && online[v] != {}
    ensures Distinct(contacts) ==> Distinct(told)
  {
    forall v | v in told ensures v in contacts && v in online && online[v] != {} {
      var k :| 0 <= k < |told| && told[k] == v;
      assert places[k] in places;
    }
    forall v | v in contacts && v in online && online[v] != {} ensures v in told {
      var i :| 0 <= i < |contacts| && contacts[i] == v;
      var k :| 0 <= k < |places| && places[k] == i;
      assert told[k] == v;
    }
  }

  predicate OneUserPerSocket(online: Online) {
    forall u, v :: u in online && v in online && u != v ==> online[u] !! online[v]
  }

  // ------------------------------------------------------------------ the gateway

  class ChatGateway {
    const webSocketService: WebSocketService
    var connectedUsers: map<Socket, User>

    constructor (service: WebSocketService)
      ensures webSocketService == service && connectedUsers == map[]
    {
      webSocketService := service;
      connectedUsers := map[];
    }

    /** The rest of `handleConnection` once the lookup has answered. */
    method LookupFinished(client: Socket, user: User, active: bool) returns (becameOnline: bool)
      modifies this, webSocketService
      ensures connectedUsers == if active then old(connectedUsers)[client := user] else old(connectedUsers)
      ensures webSocketService.onlineSockets
           == if active then Register(old(webSocketService.onlineSockets), user, client)
              else old(webSocketService.onlineSockets)
      ensures becameOnline <==> active && !IsOnline(old(webSocketService.onlineSockets), user)
    {
      if !active { return false; }
      connectedUsers := connectedUsers[client := user];
      becameOnline := webSocketService.RegisterOnline(user, client);
    }

    method HandleDisconnect(client: Socket) returns (wentOffline: bool)
      modifies this, webSocketService
      ensures connectedUsers == old(connectedUsers) - {client}
      ensures webSocketService.onlineSockets
           == if client in old(connectedUsers)
              then Unregister(old(webSocketService.onlineSockets), old(connectedUsers)[client], client)
              else old(webSocketService.onlineSockets)
      ensures wentOffline <==> && client in old(connectedUsers)
                               && old(connectedUsers)[client] in old(webSocketService.onlineSockets)
                               && !IsOnline(webSocketService.onlineSockets, old(connectedUsers)[client])
    {
      if client !in connectedUsers {
        return false;
      }
      var user := connectedUsers[client];
      connectedUsers := connectedUsers - {client};
      wentOffline := webSocketService.UnregisterOnline(user, client);
    }
  }

  datatype Step =
    | Connect(socket: Socket, user: User)
    | LookupAnswers(socket: Socket, active: bool)
    | JoinLookupAnswers(socket: Socket, active: bool)
    | Disconnect(socket: Socket)

  predicate Enabled(s: System, step: Step) {
    match step
    case Connect(socket, _) => socket !in s.clients
    case LookupAnswers(socket, _) => socket in s.clients && s.clients[socket].lookup == Pending
    case JoinLookupAnswers(socket, _) => socket in s.clients
    case Disconnect(socket) => socket in s.clients && s.clients[socket].closing == Open
  }

  function Note(log: seq<Decision>, decided: bool, user: User, online: bool): seq<Decision> {
    if decided then log + [Decision(user, online)] else log
  }

  /** What an event does: a valid token starts a lookup, its answer registers the socket, closing unregisters it. */
  function Apply(s: System, step: Step): System
    requires Enabled(s, step)
  {
    match step
    case Connect(socket, user) => s.(clients := s.clients[socket := Client(user, Pending, Open)])
    case LookupAnswers(socket, active) =>
      var client := s.clients[socket];
      if !active then s.(clients := s.clients[socket := client.(lookup := Refused)]) else
      System(Register(s.online, client.user, socket),
             s.connected[socket := client.user],
             s.clients[socket := client.(lookup := Done)],
             Note(s.log, !IsOnline(s.online, client.user), client.user, true))
    case JoinLookupAnswers(socket, active) =>
      if active then s.(connected := s.connected[socket := s.clients[socket].user]) else s
    case Disconnect(socket) =>
      var client := s.clients[socket];
      var clients := s.clients[socket := client.(closing :=
        if client.lookup == Pending then ClosedDuringLookup else ClosedAfterLookup)];
      if socket !in s.connected then s.(clients := clients) else
      var user := s.connected[socket];
      var online := Unregister(s.online, user, socket);
      System(online, s.connected - {socket}, clients,
             Note(s.log, user in s.online && !IsOnline(online, user), user, false))
  }

  function Run(s: System, steps: seq<Step>): System
    requires ValidRun(s, steps)
    decreases |steps|
  {
    if steps == [] then s else Run(Apply(s, steps[0]), steps[1..])
  }

  predicate ValidRun(s: System, steps: seq<Step>)
    decreases |steps|
  {
    steps == [] || (Enabled(s, steps[0]) && ValidRun(Apply(s, steps[0]), steps[1..]))
  }

  // ------------------------------------------------------------------ invariants

  /** A socket counts for its user: the lookup let it in, and it did not close afterwards. */
  predicate Counts(c: Client) {
    c.lookup == Done && c.closing != ClosedAfterLookup
  }

  /** The last thing decided about a user. */
  predicate Believed(log: seq<Decision>, user: User) {
    log != [] && if log[|log| - 1].user == user then log[|log| - 1].online else Believed(log[..|log| - 1], user)
  }

  /** Every decision contradicts the one before it about the same user; the first says online. */
  predicate Alternates(log: seq<Decision>) {
    log == [] ||
    (Alternates(log[..|log| - 1])
     && log[|log| - 1].online != Believed(log[..|log| - 1], log[|log| - 1].user))
  }

  ghost predicate OnlineInv(online: Online, clients: map<Socket, Client>) {
    && (forall u :: u in online ==> online[u] != {})
    && (forall u, k :: u in online && k in online[u] ==> k in clients && clients[k].user == u && Counts(clients[k]))
    && (forall k :: k in clients && Counts(clients[k]) ==>
          clients[k].user in online && k in online[clients[k].user])
  }

  ghost predicate ConnectedInv(connected: map<Socket, User>, clients: map<Socket, Client>) {
    && (forall k :: k in connected ==> k in clients && connected[k] == clients[k].user)
    && (forall k :: k in clients && clients[k].lookup == Done && clients[k].closing == Open ==> k in connected)
    && (forall k :: k in clients ==> (clients[k].closing == ClosedAfterLookup ==> clients[k].lookup != Pending))
  }

  ghost predicate LogInv(online: Online, log: seq<Decision>) {
    Alternates(log) && forall u :: Believed(log, u) <==> u in online
  }

  ghost predicate Inv(s: System) {
    OnlineInv(s.online, s.clients) && ConnectedInv(s.connected, s.clients) && LogInv(s.online, s.log)
  }

  lemma DecisionKeepsLogInv(before: Online, after: Online, log: seq<Decision>, user: User, online: bool)
    requires LogInv(before, log) && (user in before) != online && (user in after) == online
    requires forall u :: u != user ==> (u in after <==> u in before)
    ensures LogInv(after, log + [Decision(user, online)])
  {
    assert (log + [Decision(user, online)])[..|log|] == log;
  }

  /** Unregistering a socket that is not registered changes nothing, and announces nothing. */
  lemma UnregisteringAStranger(online: Online, user: User, socket: Socket)
    requires forall u :: u in online ==> online[u] != {}
    requires user in online ==> socket !in online[user]
    ensures Unregister(online, user, socket) == online
    ensures user in online ==> IsOnline(Unregister(online, user, socket), user)
  {
    if user in online {
      assert online[user] - {socket} == online[user];
    }
  }

  lemma LookupKeepsOnlineInv(s: System, socket: Socket, active: bool)
    requires OnlineInv(s.online, s.clients) && ConnectedInv(s.connected, s.clients)
    requires Enabled(s, LookupAnswers(socket, active))
    ensures OnlineInv(Apply(s, LookupAnswers(socket, active)).online, Apply(s, LookupAnswers(socket, active)).clients)
  {
  }

  lemma LookupKeepsConnectedInv(s: System, socket: Socket, active: bool)
    requires ConnectedInv(s.connected, s.clients) && Enabled(s, LookupAnswers(socket, active))
    ensures var t := Apply(s, LookupAnswers(socket, active));
            ConnectedInv(t.connected, t.clients)
  {
    hide Register, Note;
  }

  lemma LookupKeepsInv(s: System, socket: Socket, active: bool)
    requires Inv(s) && Enabled(s, LookupAnswers(socket, active))
    ensures Inv(Apply(s, LookupAnswers(socket, active)))
  {
    hide Alternates, Believed, ConnectedInv;
    LookupKeepsOnlineInv(s, socket, active);
    LookupKeepsConnectedInv(s, socket, active);
    if active && s.clients[socket].user !in s.online {
      var user, online := s.clients[socket].user, Apply(s, LookupAnswers(socket, active)).online;
      DecisionKeepsLogInv(s.online, online, s.log, user, true);
    }
  }

  lemma DisconnectKeepsOnlineInv(s: System, socket: Socket)
    requires OnlineInv(s.online, s.clients) && ConnectedInv(s.connected, s.clients)
    requires Enabled(s, Disconnect(socket))
    ensures OnlineInv(Apply(s, Disconnect(socket)).online, Apply(s, Disconnect(socket)).clients)
  {
    hide Note;
    if socket in s.connected {
      var user := s.connected[socket];
      if user !in s.online || socket !in s.online[user] {
        UnregisteringAStranger(s.online, user, socket);
      } else if s.online[user] - {socket} == {} {
        assert forall k :: k in s.online[user] ==> k in s.online[user] - {socket} || k == socket;
      }
    }
  }

  lemma DisconnectKeepsConnectedInv(s: System, socket: Socket)
    requires ConnectedInv(s.connected, s.clients) && Enabled(s, Disconnect(socket))
    ensures var t := Apply(s, Disconnect(socket));
            ConnectedInv(t.connected, t.clients)
  {
    hide Unregister, Note;
  }

  lemma DisconnectKeepsInv(s: System, socket: Socket)
    requires Inv(s) && Enabled(s, Disconnect(socket))
    ensures Inv(Apply(s, Disconnect(socket)))
  {
    hide Alternates, Believed, ConnectedInv;
    DisconnectKeepsOnlineInv(s, socket);
    DisconnectKeepsConnectedInv(s, socket);
    if socket in s.connected {
      var user, online := s.connected[socket], Apply(s, Disconnect(socket)).online;
      if user in s.online && user !in online {
        DecisionKeepsLogInv(s.online, online, s.log, user, false);
      }
    }
  }

  lemma StepKeepsInv(s: System, step: Step)
    requires Inv(s) && Enabled(s, step)
    ensures Inv(Apply(s, step))
  {
    hide Alternates, Believed;
    match step
    case LookupAnswers(socket, active) => LookupKeepsInv(s, socket, active);
    case Disconnect(socket) => DisconnectKeepsInv(s, socket);
    case _ =>
  }

  lemma {:induction false} RunKeepsInv(s: System, steps: seq<Step>)
    requires Inv(s) && ValidRun(s, steps)
    ensures Inv(Run(s, steps))
    decreases |steps|
  {
    hide Inv, Apply;
    if steps != [] {
      StepKeepsInv(s, steps[0]);
      RunKeepsInv(Apply(s, steps[0]), steps[1..]);
    }
  }

  // ------------------------------------------------------------------ every run

  /** How often a user was announced online, or offline. */
  function Count(log: seq<Decision>, user: User, online: bool): nat {
    if log == [] then 0 else
    Count(log[..|log| - 1], user, online) + (if log[|log| - 1] == Decision(user, online) then 1 else 0)
  }

  lemma {:induction false} AlternationCounts(log: seq<Decision>, user: User)
    requires Alternates(log)
    ensures Count(log, user, true) - Count(log, user, false) == if Believed(log, user) then 1 else 0
  {
    if log != [] {
      AlternationCounts(log[..|log| - 1], user);
    }
  }

  lemma {:induction false} BelievedIsTheLast(log: seq<Decision>, user: User, i: nat)
    requires i < |log| && log[i].user == user && forall k :: i < k < |log| ==> log[k].user != user
    ensures Believed(log, user) == log[i].online
  {
    if i < |log| - 1 {
      BelievedIsTheLast(log[..|log| - 1], user, i);
    }
  }

  lemma {:induction false} NeighboursDiffer(log: seq<Decision>, i: nat, j: nat)
    requires Alternates(log) && i < j < |log| && log[i].user == log[j].user
    requires forall k :: i < k < j ==> log[k].user != log[i].user
    ensures log[i].online != log[j].online
  {
    var front := log[..|log| - 1];
    if j < |log| - 1 {
      NeighboursDiffer(front, i, j);
    } else {
      BelievedIsTheLast(front, log[i].user, i);
    }
  }

  /**
   In every run no empty set is ever stored; each user's announcements strictly alternate, starting
   with online; and there is one more online than offline exactly while the user is online.
   */
  lemma TransitionsAlternate(steps: seq<Step>, user: User)
    requires ValidRun(EMPTY, steps)
    ensures var s := Run(EMPTY, steps);
            && (forall u :: u in s.online ==> s.online[u] != {})
            && (forall i, j :: 0 <= i < j < |s.log| && s.log[i].user == s.log[j].user
                               && (forall k :: i < k < j ==> s.log[k].user != s.log[i].user) ==>
                  s.log[i].online != s.log[j].online)
            && Count(s.log, user, true) - Count(s.log, user, false) == if IsOnline(s.online, user) then 1 else 0
  {
    RunKeepsInv(EMPTY, steps);
    var s := Run(EMPTY, steps);
    AlternationCounts(s.log, user);
    forall i, j | 0 <= i < j < |s.log| && s.log[i].user == s.log[j].user
                  && (forall k :: i < k < j ==> s.log[k].user != s.log[i].user)
      ensures s.log[i].online != s.log[j].online
    {
      NeighboursDiffer(s.log, i, j);
    }
  }

  /** Online means exactly: some socket of the user was let in and did not close after that. */
  lemma OnlineExactly(steps: seq<Step>, user: User)
    requires ValidRun(EMPTY, steps)
    ensures var s := Run(EMPTY, steps);
            IsOnline(s.online, user)
            <==> exists k :: k in s.clients && s.clients[k].user == user && Counts(s.clients[k])
  {
    RunKeepsInv(EMPTY, steps);
    var s := Run(EMPTY, steps);
    if IsOnline(s.online, user) {
      var k :| k in s.online[user];
      assert k in s.clients && s.clients[k].user == user && Counts(s.clients[k]);
    }
  }

  /** In every run a new socket is told exactly the contacts with a socket that was let in and did not close later. */
  lemma ToldAreCounted(steps: seq<Step>, contacts: seq<User>, places: seq<nat>, told: seq<User>)
    requires ValidRun(EMPTY, steps) && IsSelection(Run(EMPTY, steps).online, contacts, places, told)
    ensures var clients := Run(EMPTY, steps).clients;
            forall v :: v in told <==>
              v in contacts && exists k :: k in clients && clients[k].user == v && Counts(clients[k])
  {
    hide Run, Counts, IsSelection;
    var s := Run(EMPTY, steps);
    SelectionFacts(s.online, contacts, places, told);
    forall v
      ensures v in told <==>
                v in contacts && exists k :: k in s.clients && s.clients[k].user == v && Counts(s.clients[k])
    {
      OnlineExactly(steps, v);
    }
  }

  /** As long as no socket closes during its own lookup, online means: a fully connected socket is open. */
  lemma OnlineMeansConnected(steps: seq<Step>, user: User)
    requires ValidRun(EMPTY, steps)
    requires forall k :: k in Run(EMPTY, steps).clients ==> Run(EMPTY, steps).clients[k].closing != ClosedDuringLookup
    ensures var s := Run(EMPTY, steps);
            IsOnline(s.online, user)
            <==> exists k :: k in s.clients
                             && s.clients[k] == Client(user, Done, Open)
  {
    OnlineExactly(steps, user);
    var s := Run(EMPTY, steps);
    if IsOnline(s.online, user) {
      var k :| k in s.clients && s.clients[k].user == user && Counts(s.clients[k]);
      assert s.clients[k] == Client(user, Done, Open);
    }
  }

  predicate IsRefused(s: System, socket: Socket) {
    socket in s.clients && s.clients[socket].lookup == Refused
  }

  /** A socket whose lookup was refused never counts for its user, whatever follows. */
  lemma {:induction false} RefusedNeverCounts(s: System, steps: seq<Step>, socket: Socket)
    requires ValidRun(s, steps) && IsRefused(s, socket)
    ensures IsRefused(Run(s, steps), socket) && !Counts(Run(s, steps).clients[socket])
    decreases |steps|
  {
    hide Register, Unregister, Note;
    if steps != [] {
      RefusedNeverCounts(Apply(s, steps[0]), steps[1..], socket);
    }
  }

  /** A refused lookup leaves everything but the socket's own state; a join records whose socket it is. */
  lemma OtherAnswers(s: System, socket: Socket, active: bool)
    requires socket in s.clients
    ensures Enabled(s, LookupAnswers(socket, false)) ==>
              var t := Apply(s, LookupAnswers(socket, false));
              IsRefused(t, socket) && t.online == s.online && t.connected == s.connected && t.log == s.log
              && t.clients - {socket} == s.clients - {socket}
    ensures var t := Apply(s, JoinLookupAnswers(socket, active));
            && t.online == s.online && t.clients == s.clients && t.log == s.log
            && t.connected - {socket} == s.connected - {socket}
            && (active ==> socket in t.connected && t.connected[socket] == s.clients[socket].user)
            && (!active ==> t.connected == s.connected)
  {
  }

  predicate IsGhost(s: System, socket: Socket, user: User) {
    socket in s.clients && s.clients[socket] == Client(user, Done, ClosedDuringLookup)
  }

  lemma {:induction false} GhostsStay(s: System, steps: seq<Step>, socket: Socket, user: User)
    requires Inv(s) && ValidRun(s, steps) && IsGhost(s, socket, user)
    ensures Inv(Run(s, steps)) && IsGhost(Run(s, steps), socket, user) && IsOnline(Run(s, steps).online, user)
    decreases |steps|
  {
    if steps != [] {
      var t := Apply(s, steps[0]);
      StepKeepsInv(s, steps[0]);
      assert IsGhost(t, socket, user);
      GhostsStay(t, steps[1..], socket, user);
    }
  }

  /** A socket that closes while its lookup runs is registered by the answer, and its user stays online for good. */
  lemma ClosingDuringLookupHauntsForever(s: System, socket: Socket, user: User, more: seq<Step>)
    requires Inv(s) && socket !in s.clients
    ensures var connecting := Apply(s, Connect(socket, user));
            Enabled(connecting, Disconnect(socket))
            && Enabled(Apply(connecting, Disconnect(socket)), LookupAnswers(socket, true))
    ensures var closed := Apply(Apply(s, Connect(socket, user)), Disconnect(socket));
            var answered := Apply(closed, LookupAnswers(socket, true));
            ValidRun(answered, more) ==> IsOnline(Run(answered, more).online, user)
  {
    var connecting := Apply(s, Connect(socket, user));
    StepKeepsInv(s, Connect(socket, user));
    var closed := Apply(connecting, Disconnect(socket));
    StepKeepsInv(connecting, Disconnect(socket));
    var answered := Apply(closed, LookupAnswers(socket, true));
    StepKeepsInv(closed, LookupAnswers(socket, true));
    if ValidRun(answered, more) {
      GhostsStay(answered, more, socket, user);
    }
  }

  /** The socket sets of two users never overlap, so an event reaches no socket twice. */
  lemma SocketsBelongToOneUser(steps: seq<Step>)
    requires ValidRun(EMPTY, steps)
    ensures OneUserPerSocket(Run(EMPTY, steps).online)
  {
    RunKeepsInv(EMPTY, steps);
    var s := Run(EMPTY, steps);
    forall u, v | u in s.online && v in s.online && u != v ensures s.online[u] !! s.online[v] {
      assert forall k :: k in s.online[u] ==> s.clients[k].user == u;
    }
  }
}
