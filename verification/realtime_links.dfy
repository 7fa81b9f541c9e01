/** One node's live sockets, its sessions and its room indexes. The specification is a state machine whose
    steps are the pieces of the handlers between two awaits; any interleaving of the handlers is a sequence
    of such steps. */
module RealtimeLinks {
  import opened SetIndex

  /** A socket object. */
  type Client = int

  /** "" stands for a session id or key that is not set. */
  datatype ClientState = ClientState(authPending: bool, authenticated: bool, publicKey: string, sessionId: string,
                                     socketId: string)

  datatype Connections = Connections(clientStates: map<Client, ClientState>, sessionClients: map<string, set<Client>>)

  datatype Rooms = Rooms(roomSessions: map<string, set<string>>, sessionRooms: map<string, set<string>>)

  datatype Node = Node(connections: Connections, rooms: Rooms)

  const EMPTY: Node := Node(Connections(map[], map[]), Rooms(map[], map[]))

  // ----- the connection service -----

  function Register(c: Connections, client: Client, socketId: string): Connections {
    c.(clientStates := c.clientStates[client := ClientState(true, false, "", "", socketId)])
  }

  function MarkAuthenticated(c: Connections, client: Client, sessionId: string, publicKey: string): Connections {
    if client !in c.clientStates then c
    else Connections(
      c.clientStates[client := ClientState(false, true, publicKey, sessionId, c.clientStates[client].socketId)],
      Put(c.sessionClients, sessionId, client))
  }

  predicate HasLocalSession(c: Connections, sessionId: string) { Lookup(c.sessionClients, sessionId) != {} }

  function RemoveClient(c: Connections, client: Client): Connections {
    if client !in c.clientStates then c
    else
      var state := c.clientStates[client];
      Connections(c.clientStates - {client},
        if state.sessionId == "" then c.sessionClients else Take(c.sessionClients, state.sessionId, client))
  }

  /** `session_clients` is the exact inverse of the authenticated `client_states`. */
  ghost predicate ConnectionsExact(c: Connections) {
    && NoEmpty(c.sessionClients)
    && (forall s, x :: Linked(c.sessionClients, s, x) <==>
         x in c.clientStates && c.clientStates[x].authenticated && c.clientStates[x].sessionId == s)
    && (forall x :: x in c.clientStates ==> (c.clientStates[x].authenticated <==> c.clientStates[x].sessionId != ""))
  }

  // ----- the room service -----

  function AddMembership(r: Rooms, live: bool, sessionId: string, room: string): Rooms {
    if !live then r else Rooms(Put(r.roomSessions, room, sessionId), Put(r.sessionRooms, sessionId, room))
  }

  function RemoveMembership(r: Rooms, sessionId: string, room: string): Rooms {
    Rooms(Take(r.roomSessions, room, sessionId), Take(r.sessionRooms, sessionId, room))
  }

  /** Take the session out of each of the given rooms. */
  function LeaveAll(roomSessions: map<string, set<string>>, rooms: set<string>, sessionId: string)
    : map<string, set<string>>
  {
    map k | k in roomSessions && (k in rooms ==> roomSessions[k] - {sessionId} != {}) ::
      if k in rooms then roomSessions[k] - {sessionId} else roomSessions[k]
  }

  function ClearMemberships(r: Rooms, sessionId: string): Rooms {
    if sessionId !in r.sessionRooms then r
    else Rooms(LeaveAll(r.roomSessions, r.sessionRooms[sessionId], sessionId), r.sessionRooms - {sessionId})
  }

  function AddAll(r: Rooms, live: bool, sessionId: string, rooms: seq<string>): Rooms {
    if rooms == [] then r
    else AddMembership(AddAll(r, live, sessionId, rooms[..|rooms| - 1]), live, sessionId, rooms[|rooms| - 1])
  }

  function SyncRooms(r: Rooms, live: bool, sessionId: string, rooms: seq<string>): Rooms {
    AddAll(ClearMemberships(r, sessionId), live, sessionId, rooms)
  }

  /** The two membership maps are exact inverses and hold no empty set. */
  ghost predicate RoomsExact(r: Rooms) {
    && NoEmpty(r.roomSessions) && NoEmpty(r.sessionRooms)
    && forall k, s :: Linked(r.roomSessions, k, s) <==> Linked(r.sessionRooms, s, k)
  }

  // ----- the node -----

  datatype Event =
    | Connected(client: Client, socketId: string)
    | Authenticated(client: Client, sessionId: string, publicKey: string)
    | RoomsStored(sessionId: string, rooms: seq<string>)
    | RoomJoined(sessionId: string, room: string)
    | RoomLeft(sessionId: string, room: string)
    | ControlReplace(sessionId: string, rooms: seq<string>)
    | ControlJoin(sessionId: string, room: string)
    | ControlLeave(sessionId: string, room: string)
    | Disconnected(client: Client)

  function Disconnect(n: Node, client: Client): Node {
    if client !in n.connections.clientStates then n
    else
      var sessionId := n.connections.clientStates[client].sessionId;
      var connections := RemoveClient(n.connections, client);
      if sessionId == "" || HasLocalSession(connections, sessionId) then Node(connections, n.rooms)
      else Node(connections, ClearMemberships(n.rooms, sessionId))
  }

  function Step(n: Node, e: Event): Node {
    match e
    case Connected(client, socketId) => n.(connections := Register(n.connections, client, socketId))
    case Authenticated(client, sessionId, publicKey) =>
      n.(connections := MarkAuthenticated(n.connections, client, sessionId, publicKey))
    case RoomsStored(sessionId, rooms) =>
      n.(rooms := SyncRooms(n.rooms, HasLocalSession(n.connections, sessionId), sessionId, rooms))
    case RoomJoined(sessionId, room) =>
      n.(rooms := AddMembership(n.rooms, HasLocalSession(n.connections, sessionId), sessionId, room))
    case RoomLeft(sessionId, room) => n.(rooms := RemoveMembership(n.rooms, sessionId, room))
    case ControlReplace(sessionId, rooms) =>
      if HasLocalSession(n.connections, sessionId) then n.(rooms := SyncRooms(n.rooms, true, sessionId, rooms)) else n
    case ControlJoin(sessionId, room) =>
      if HasLocalSession(n.connections, sessionId) && room != ""
        then n.(rooms := AddMembership(n.rooms, true, sessionId, room)) else n
    case ControlLeave(sessionId, room) =>
      if HasLocalSession(n.connections, sessionId) && room != ""
        then n.(rooms := RemoveMembership(n.rooms, sessionId, room)) else n
    case Disconnected(client) => Disconnect(n, client)
  }

  /** A new socket is a new object; session ids are not empty; no socket is authenticated twice. */
  ghost predicate Enabled(n: Node, e: Event) {
    match e
    case Connected(client, _) => client !in n.connections.clientStates
    case Authenticated(client, sessionId, _) =>
      sessionId != "" && (client in n.connections.clientStates ==> !n.connections.clientStates[client].authenticated)
    case _ => true
  }

  function Run(events: seq<Event>): Node {
    if events == [] then EMPTY else Step(Run(events[..|events| - 1]), events[|events| - 1])
  }

  ghost predicate AllEnabled(events: seq<Event>) {
    events == [] || (AllEnabled(events[..|events| - 1]) && Enabled(Run(events[..|events| - 1]), events[|events| - 1]))
  }

  /** Every session with local rooms has a live local client. */
  ghost predicate RoomsAreLive(n: Node) {
    forall s :: s in n.rooms.sessionRooms ==> HasLocalSession(n.connections, s)
  }

  ghost predicate Inv(n: Node) {
    ConnectionsExact(n.connections) && RoomsExact(n.rooms) && RoomsAreLive(n)
  }

  // ----- proofs -----

  lemma LeaveAllLinks(m: map<string, set<string>>, rooms: set<string>, sessionId: string)
    requires NoEmpty(m)
    ensures NoEmpty(LeaveAll(m, rooms, sessionId))
    ensures forall k, s :: Linked(LeaveAll(m, rooms, sessionId), k, s) <==>
      Linked(m, k, s) && !(k in rooms && s == sessionId)
  {}

  /** Marking keeps the index exact exactly when the socket is not yet authenticated for another session. */
  lemma MarkKeepsExactIff(c: Connections, client: Client, sessionId: string, publicKey: string)
    requires ConnectionsExact(c) && sessionId != ""
    ensures ConnectionsExact(MarkAuthenticated(c, client, sessionId, publicKey)) <==>
      client !in c.clientStates || !c.clientStates[client].authenticated ||
        c.clientStates[client].sessionId == sessionId
  {
    if client in c.clientStates {
      PutLinks(c.sessionClients, sessionId, client);
      var after := MarkAuthenticated(c, client, sessionId, publicKey);
      var was := c.clientStates[client];
      if was.authenticated && was.sessionId != sessionId {
        assert Linked(c.sessionClients, was.sessionId, client);
        assert Linked(after.sessionClients, was.sessionId, client);
      }
    }
  }

  /** Authenticating one socket for two sessions leaves a dead client behind. */
  lemma SecondAuthenticationLeaks(a: string, b: string)
    requires a != "" && b != "" && a != b
    ensures var once := Step(Step(EMPTY, Connected(1, "s")), Authenticated(1, a, "k"));
      var n := Step(Step(once, Authenticated(1, b, "k")), Disconnected(1));
      n.connections.clientStates == map[] && HasLocalSession(n.connections, a)
  {
    var n := Step(Step(Step(EMPTY, Connected(1, "s")), Authenticated(1, a, "k")), Authenticated(1, b, "k"));
    assert n.connections.clientStates.Keys == {1};
    assert 1 in Lookup(n.connections.sessionClients, a);
    assert Step(n, Disconnected(1)).connections.clientStates == map[];
    assert 1 in Lookup(Step(n, Disconnected(1)).connections.sessionClients, a);
  }

  lemma RemoveKeepsExact(c: Connections, client: Client)
    requires ConnectionsExact(c)
    ensures ConnectionsExact(RemoveClient(c, client))
    ensures forall s :: HasLocalSession(c, s) && !HasLocalSession(RemoveClient(c, client), s) ==>
      client in c.clientStates && c.clientStates[client].sessionId == s
  {
    if client in c.clientStates {
      TakeLinks(c.sessionClients, c.clientStates[client].sessionId, client);
    }
  }

  lemma AddKeepsExact(r: Rooms, live: bool, sessionId: string, room: string)
    requires RoomsExact(r)
    ensures RoomsExact(AddMembership(r, live, sessionId, room))
    ensures forall s :: s in AddMembership(r, live, sessionId, room).sessionRooms ==>
      s in r.sessionRooms || (live && s == sessionId)
    ensures forall s, k :: Linked(AddMembership(r, live, sessionId, room).sessionRooms, s, k) <==>
      Linked(r.sessionRooms, s, k) || (live && s == sessionId && k == room)
  {
    PutLinks(r.roomSessions, room, sessionId);
    PutLinks(r.sessionRooms, sessionId, room);
  }

  lemma RemoveMembershipKeepsExact(r: Rooms, sessionId: string, room: string)
    requires RoomsExact(r)
    ensures RoomsExact(RemoveMembership(r, sessionId, room))
    ensures forall s :: s in RemoveMembership(r, sessionId, room).sessionRooms ==> s in r.sessionRooms
  {
    TakeLinks(r.roomSessions, room, sessionId);
    TakeLinks(r.sessionRooms, sessionId, room);
  }

  lemma ClearKeepsExact(r: Rooms, sessionId: string)
    requires RoomsExact(r)
    ensures RoomsExact(ClearMemberships(r, sessionId))
    ensures ClearMemberships(r, sessionId).sessionRooms == r.sessionRooms - {sessionId}
    ensures forall k :: !Linked(ClearMemberships(r, sessionId).roomSessions, k, sessionId)
  {
    if sessionId in r.sessionRooms {
      LeaveAllLinks(r.roomSessions, r.sessionRooms[sessionId], sessionId);
    }
    var after := ClearMemberships(r, sessionId);
    forall k ensures !Linked(after.roomSessions, k, sessionId) {
      assert Linked(r.roomSessions, k, sessionId) <==> Linked(r.sessionRooms, sessionId, k);
    }
  }

  lemma {:induction false} AddAllKeepsExact(r: Rooms, live: bool, sessionId: string, rooms: seq<string>)
    requires RoomsExact(r)
    ensures RoomsExact(AddAll(r, live, sessionId, rooms))
    ensures forall s :: s in AddAll(r, live, sessionId, rooms).sessionRooms ==>
      s in r.sessionRooms || (live && s == sessionId)
    ensures forall k :: live && k in rooms ==> Linked(AddAll(r, live, sessionId, rooms).sessionRooms, sessionId, k)
    ensures forall k :: Linked(AddAll(r, live, sessionId, rooms).sessionRooms, sessionId, k) ==>
      Linked(r.sessionRooms, sessionId, k) || k in rooms
  {
    if rooms != [] {
      assert rooms == rooms[..|rooms| - 1] + [rooms[|rooms| - 1]];
      AddAllKeepsExact(r, live, sessionId, rooms[..|rooms| - 1]);
      AddKeepsExact(AddAll(r, live, sessionId, rooms[..|rooms| - 1]), live, sessionId, rooms[|rooms| - 1]);
    }
  }

  /** After a sync a live session is in exactly the given rooms; a session without a client is in none. */
  lemma SyncSetsExactly(r: Rooms, live: bool, sessionId: string, rooms: seq<string>)
    requires RoomsExact(r)
    ensures RoomsExact(SyncRooms(r, live, sessionId, rooms))
    ensures live ==> forall k :: Linked(SyncRooms(r, live, sessionId, rooms).sessionRooms, sessionId, k) <==> k in rooms
    ensures !live ==> sessionId !in SyncRooms(r, live, sessionId, rooms).sessionRooms
    ensures forall s :: s in SyncRooms(r, live, sessionId, rooms).sessionRooms ==>
      s in r.sessionRooms || (live && s == sessionId)
  {
    ClearKeepsExact(r, sessionId);
    AddAllKeepsExact(ClearMemberships(r, sessionId), live, sessionId, rooms);
  }

  lemma DisconnectKeepsInv(n: Node, client: Client)
    requires Inv(n)
    ensures Inv(Disconnect(n, client))
  {
    if client in n.connections.clientStates {
      var sessionId := n.connections.clientStates[client].sessionId;
      RemoveKeepsExact(n.connections, client);
      ClearKeepsExact(n.rooms, sessionId);
    }
  }

  lemma StepKeepsInv(n: Node, e: Event)
    requires Inv(n) && Enabled(n, e)
    ensures Inv(Step(n, e))
  {
    match e
    case Connected(client, socketId) =>
    case Authenticated(client, sessionId, publicKey) =>
      MarkKeepsExactIff(n.connections, client, sessionId, publicKey);
      PutLinks(n.connections.sessionClients, sessionId, client);
    case RoomsStored(sessionId, rooms) =>
      SyncSetsExactly(n.rooms, HasLocalSession(n.connections, sessionId), sessionId, rooms);
    case RoomJoined(sessionId, room) =>
      AddKeepsExact(n.rooms, HasLocalSession(n.connections, sessionId), sessionId, room);
    case RoomLeft(sessionId, room) => RemoveMembershipKeepsExact(n.rooms, sessionId, room);
    case ControlReplace(sessionId, rooms) => SyncSetsExactly(n.rooms, true, sessionId, rooms);
    case ControlJoin(sessionId, room) => AddKeepsExact(n.rooms, true, sessionId, room);
    case ControlLeave(sessionId, room) => RemoveMembershipKeepsExact(n.rooms, sessionId, room);
    case Disconnected(client) => DisconnectKeepsInv(n, client);
  }

  // ----- what each event does -----

  /** Some socket of this node is authenticated for the session. */
  predicate IsLive(c: Connections, sessionId: string) {
    sessionId in c.sessionClients && c.sessionClients[sessionId] != {}
  }

  function RoomsOf(r: Rooms, sessionId: string): set<string> {
    if sessionId in r.sessionRooms then r.sessionRooms[sessionId] else {}
  }

  /** The session is in exactly these rooms, and every other session in the same ones as before; both maps say so. */
  ghost predicate RoomsBecome(before: Rooms, after: Rooms, sessionId: string, rooms: set<string>) {
    && RoomsExact(after)
    && forall s, k :: Linked(after.sessionRooms, s, k) <==>
         if s == sessionId then k in rooms else Linked(before.sessionRooms, s, k)
  }

  /** The session has this socket more. */
  ghost predicate SocketAdded(before: Connections, after: Connections, sessionId: string, client: Client) {
    forall s, x :: Linked(after.sessionClients, s, x) <==>
      Linked(before.sessionClients, s, x) || (s == sessionId && x == client)
  }

  /** The session has this socket less. */
  ghost predicate SocketRemoved(before: Connections, after: Connections, sessionId: string, client: Client) {
    forall s, x :: Linked(after.sessionClients, s, x) <==>
      Linked(before.sessionClients, s, x) && !(s == sessionId && x == client)
  }

  /** The socket is authenticated for the session and listed under it; nothing else changed. */
  ghost predicate IsMarked(before: Connections, after: Connections, client: Client, sessionId: string,
                           publicKey: string)
    requires client in before.clientStates
  {
    && after.clientStates - {client} == before.clientStates - {client} && client in after.clientStates
    && after.clientStates[client].authenticated && !after.clientStates[client].authPending
    && after.clientStates[client].sessionId == sessionId && after.clientStates[client].publicKey == publicKey
    && after.clientStates[client].socketId == before.clientStates[client].socketId
    && SocketAdded(before, after, sessionId, client)
  }

  /** The socket is known, waits for its authentication and has no session; nothing else changed. */
  ghost predicate IsRegistered(before: Connections, after: Connections, client: Client, socketId: string) {
    && after.clientStates - {client} == before.clientStates - {client} && client in after.clientStates
    && after.clientStates[client] == ClientState(true, false, "", "", socketId)
    && after.sessionClients == before.sessionClients
  }

  /** The socket is gone from both maps; nothing else changed. */
  ghost predicate IsRemoved(before: Connections, after: Connections, client: Client)
    requires client in before.clientStates
  {
    && after.clientStates == before.clientStates - {client}
    && var sessionId := before.clientStates[client].sessionId;
      if sessionId == "" then after.sessionClients == before.sessionClients
      else SocketRemoved(before, after, sessionId, client)
  }

  /** What an event has to do to a node whose indexes agree. */
  ghost predicate Does(n: Node, e: Event, m: Node) {
    match e
    case Connected(client, socketId) =>
      m.rooms == n.rooms && IsRegistered(n.connections, m.connections, client, socketId)
    case Authenticated(client, sessionId, publicKey) =>
      && m.rooms == n.rooms
      && if client in n.connections.clientStates
         then IsMarked(n.connections, m.connections, client, sessionId, publicKey) else m == n
    case RoomsStored(sessionId, rooms) =>
      && m.connections == n.connections
      && RoomsBecome(n.rooms, m.rooms, sessionId, if IsLive(n.connections, sessionId) then set k | k in rooms else {})
    case RoomJoined(sessionId, room) =>
      && m.connections == n.connections
      && RoomsBecome(n.rooms, m.rooms, sessionId,
          RoomsOf(n.rooms, sessionId) + if IsLive(n.connections, sessionId) then {room} else {})
    case RoomLeft(sessionId, room) =>
      && m.connections == n.connections
      && RoomsBecome(n.rooms, m.rooms, sessionId, RoomsOf(n.rooms, sessionId) - {room})
    case ControlReplace(sessionId, rooms) =>
      if !IsLive(n.connections, sessionId) then m == n
      else m.connections == n.connections && RoomsBecome(n.rooms, m.rooms, sessionId, set k | k in rooms)
    case ControlJoin(sessionId, room) =>
      if !IsLive(n.connections, sessionId) || room == "" then m == n
      else
        && m.connections == n.connections
        && RoomsBecome(n.rooms, m.rooms, sessionId, RoomsOf(n.rooms, sessionId) + {room})
    case ControlLeave(sessionId, room) =>
      if !IsLive(n.connections, sessionId) || room == "" then m == n
      else
        && m.connections == n.connections
        && RoomsBecome(n.rooms, m.rooms, sessionId, RoomsOf(n.rooms, sessionId) - {room})
    case Disconnected(client) =>
      if client !in n.connections.clientStates then m == n
      else IsRemoved(n.connections, m.connections, client) && LeavesIfLast(n, client, m)
  }

  /** A session that loses its last socket leaves all its rooms; otherwise nobody's rooms change. */
  ghost predicate LeavesIfLast(n: Node, client: Client, m: Node)
    requires client in n.connections.clientStates
  {
    var sessionId := n.connections.clientStates[client].sessionId;
    if sessionId != "" && (forall x :: Linked(n.connections.sessionClients, sessionId, x) ==> x == client)
      then RoomsBecome(n.rooms, m.rooms, sessionId, {}) else m.rooms == n.rooms
  }

  lemma AddBecomes(r: Rooms, live: bool, sessionId: string, room: string)
    requires RoomsExact(r)
    ensures RoomsBecome(r, AddMembership(r, live, sessionId, room), sessionId,
      RoomsOf(r, sessionId) + if live then {room} else {})
  {
    AddKeepsExact(r, live, sessionId, room);
  }

  lemma RemoveBecomes(r: Rooms, sessionId: string, room: string)
    requires RoomsExact(r)
    ensures RoomsBecome(r, RemoveMembership(r, sessionId, room), sessionId, RoomsOf(r, sessionId) - {room})
  {
    RemoveMembershipKeepsExact(r, sessionId, room);
    TakeLinks(r.sessionRooms, sessionId, room);
  }

  lemma ClearBecomes(r: Rooms, sessionId: string)
    requires RoomsExact(r)
    ensures RoomsBecome(r, ClearMemberships(r, sessionId), sessionId, {})
  {
    ClearKeepsExact(r, sessionId);
  }

  lemma {:induction false} AddAllBecomes(r: Rooms, live: bool, sessionId: string, rooms: seq<string>)
    requires RoomsExact(r)
    ensures RoomsBecome(r, AddAll(r, live, sessionId, rooms), sessionId,
      RoomsOf(r, sessionId) + if live then set k | k in rooms else {})
  {
    if rooms != [] {
      var before, last := rooms[..|rooms| - 1], rooms[|rooms| - 1];
      assert rooms == before + [last];
      AddAllBecomes(r, live, sessionId, before);
      AddKeepsExact(AddAll(r, live, sessionId, before), live, sessionId, last);
    }
  }

  lemma SyncBecomes(r: Rooms, live: bool, sessionId: string, rooms: seq<string>)
    requires RoomsExact(r)
    ensures RoomsBecome(r, SyncRooms(r, live, sessionId, rooms), sessionId, if live then set k | k in rooms else {})
  {
    ClearBecomes(r, sessionId);
    ClearKeepsExact(r, sessionId);
    AddAllBecomes(ClearMemberships(r, sessionId), live, sessionId, rooms);
  }

  lemma RemoveRemoves(c: Connections, client: Client)
    requires client in c.clientStates && NoEmpty(c.sessionClients)
    ensures IsRemoved(c, RemoveClient(c, client), client)
  {
    TakeLinks(c.sessionClients, c.clientStates[client].sessionId, client);
  }

  lemma DisconnectDoes(n: Node, client: Client)
    requires client in n.connections.clientStates && NoEmpty(n.connections.sessionClients) && RoomsExact(n.rooms)
    ensures LeavesIfLast(n, client, Disconnect(n, client))
  {
    var c, sessionId := n.connections, n.connections.clientStates[client].sessionId;
    RemoveRemoves(c, client);
    ClearBecomes(n.rooms, sessionId);
    var after := RemoveClient(c, client);
    if sessionId != "" {
      forall x | Linked(c.sessionClients, sessionId, x) && x != client ensures HasLocalSession(after, sessionId) {
        assert Linked(after.sessionClients, sessionId, x);
      }
      if HasLocalSession(after, sessionId) {
        var x := SomeElement(Lookup(after.sessionClients, sessionId));
        assert Linked(after.sessionClients, sessionId, x);
      }
    }
  }

  /** At every node of every run each event does exactly this. */
  lemma StepDoes(n: Node, e: Event)
    requires Inv(n)
    ensures Does(n, e, Step(n, e))
  {
    match e
    case Connected(client, socketId) =>
    case Authenticated(client, sessionId, publicKey) => PutLinks(n.connections.sessionClients, sessionId, client);
    case RoomsStored(sessionId, rooms) => SyncBecomes(n.rooms, IsLive(n.connections, sessionId), sessionId, rooms);
    case RoomJoined(sessionId, room) => AddBecomes(n.rooms, IsLive(n.connections, sessionId), sessionId, room);
    case RoomLeft(sessionId, room) => RemoveBecomes(n.rooms, sessionId, room);
    case ControlReplace(sessionId, rooms) => SyncBecomes(n.rooms, true, sessionId, rooms);
    case ControlJoin(sessionId, room) => AddBecomes(n.rooms, true, sessionId, room);
    case ControlLeave(sessionId, room) => RemoveBecomes(n.rooms, sessionId, room);
    case Disconnected(client) =>
      if client in n.connections.clientStates {
        RemoveRemoves(n.connections, client);
        DisconnectDoes(n, client);
      }
  }

  /** In every interleaving the indexes agree and only sessions with a live client are in rooms. */
  lemma {:induction false} RoomsAndConnectionsAgree(events: seq<Event>)
    requires AllEnabled(events)
    ensures Inv(Run(events))
  {
    if events != [] {
      RoomsAndConnectionsAgree(events[..|events| - 1]);
      StepKeepsInv(Run(events[..|events| - 1]), events[|events| - 1]);
    }
  }
}
