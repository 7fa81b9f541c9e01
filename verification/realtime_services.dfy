/** The connection and room services of one node, with their maps as fields, and the gateway handlers that
    change both. Every method is tied to the state machine of RealtimeLinks. */
module RealtimeServices {
  import opened RealtimeLinks
  import opened SetIndex

  class RealtimeConnectionService {
    var clientStates: map<Client, ClientState>
    var sessionClients: map<string, set<Client>>

    ghost function View(): Connections
      reads this
    {
      Connections(clientStates, sessionClients)
    }

    constructor ()
      ensures View() == EMPTY.connections
    {
      clientStates, sessionClients := map[], map[];
    }

    method RegisterClient(client: Client, socketId: string)
      modifies this
      ensures View() == Register(old(View()), client, socketId)
      ensures IsRegistered(old(View()), View(), client, socketId)
    {
      clientStates := clientStates[client := ClientState(true, false, "", "", socketId)];
    }

    method MarkAuthenticated(client: Client, sessionId: string, publicKey: string)
      modifies this
      ensures View() == RealtimeLinks.MarkAuthenticated(old(View()), client, sessionId, publicKey)
      ensures if client in old(clientStates) then IsMarked(old(View()), View(), client, sessionId, publicKey)
        else View() == old(View())
    {
      if client !in clientStates {
        return;
      }
      var state := clientStates[client];
      clientStates := clientStates[client := state.(authPending := false, authenticated := true,
                                                    publicKey := publicKey, sessionId := sessionId)];
      var clients := if sessionId in sessionClients then sessionClients[sessionId] else {};
      sessionClients := sessionClients[sessionId := clients + {client}];
    }

    method HasLocalSession(sessionId: string) returns (has: bool)
      ensures has == RealtimeLinks.HasLocalSession(View(), sessionId) == IsLive(View(), sessionId)
    {
      has := sessionId in sessionClients && |sessionClients[sessionId]| > 0;
    }

    /** The removed state, if the socket was known. */
    method RemoveClient(client: Client) returns (known: bool, sessionId: string)
      modifies this
      ensures View() == RealtimeLinks.RemoveClient(old(View()), client)
      ensures known == (client in old(clientStates))
      ensures known ==> sessionId == old(clientStates)[client].sessionId
      ensures NoEmpty(old(sessionClients)) ==>
        if known then IsRemoved(old(View()), View(), client) else View() == old(View())
    {
      assert client in clientStates && NoEmpty(sessionClients) ==>
        IsRemoved(View(), RealtimeLinks.RemoveClient(View(), client), client) by {
        if client in clientStates && NoEmpty(sessionClients) { RemoveRemoves(View(), client); }
      }
      if client !in clientStates {
        return false, "";
      }
      known, sessionId := true, clientStates[client].sessionId;
      if sessionId != "" && sessionId in sessionClients {
        var clients := sessionClients[sessionId] - {client};
        if |clients| == 0 {
          sessionClients := sessionClients - {sessionId};
        } else {
          sessionClients := sessionClients[sessionId := clients];
        }
      }
      clientStates := clientStates - {client};
    }
  }

  class RealtimeRoomService {
    const connection: RealtimeConnectionService
    var localRoomSessions: map<string, set<string>>
    var localSessionRooms: map<string, set<string>>

    ghost function View(): Rooms
      reads this
    {
      Rooms(localRoomSessions, localSessionRooms)
    }

    constructor (connection: RealtimeConnectionService)
      ensures this.connection == connection && View() == EMPTY.rooms
    {
      this.connection := connection;
      localRoomSessions, localSessionRooms := map[], map[];
    }

    method AddLocalRoomMembership(sessionId: string, room: string)
      modifies this
      ensures View() == AddMembership(old(View()), HasLocalSession(connection.View(), sessionId), sessionId, room)
      ensures RoomsExact(old(View())) ==>
        RoomsBecome(old(View()), View(), sessionId,
          RoomsOf(old(View()), sessionId) + if IsLive(connection.View(), sessionId) then {room} else {})
    {
      if RoomsExact(View()) { AddBecomes(View(), IsLive(connection.View(), sessionId), sessionId, room); }
      var live := connection.HasLocalSession(sessionId);
      if !live {
        return;
      }
      var roomSessions := if room in localRoomSessions then localRoomSessions[room] else {};
      var sessionRooms := if sessionId in localSessionRooms then localSessionRooms[sessionId] else {};
      localRoomSessions := localRoomSessions[room := roomSessions + {sessionId}];
      localSessionRooms := localSessionRooms[sessionId := sessionRooms + {room}];
    }

    /** The room's half of leaving: an emptied room is dropped. */
    method LeaveRoom(sessionId: string, room: string)
      modifies this`localRoomSessions
      ensures localRoomSessions == Take(old(localRoomSessions), room, sessionId)
    {
      if room !in localRoomSessions {
        return;
      }
      var sessions := localRoomSessions[room] - {sessionId};
      if |sessions| == 0 {
        localRoomSessions := localRoomSessions - {room};
      } else {
        localRoomSessions := localRoomSessions[room := sessions];
      }
    }

    method RemoveLocalRoomMembership(sessionId: string, room: string)
      modifies this
      ensures View() == RemoveMembership(old(View()), sessionId, room)
      ensures RoomsExact(old(View())) ==>
        RoomsBecome(old(View()), View(), sessionId, RoomsOf(old(View()), sessionId) - {room})
    {
      if RoomsExact(View()) { RemoveBecomes(View(), sessionId, room); }
      LeaveRoom(sessionId, room);
      if sessionId !in localSessionRooms {
        return;
      }
      var rooms := localSessionRooms[sessionId] - {room};
      if |rooms| == 0 {
        localSessionRooms := localSessionRooms - {sessionId};
      } else {
        localSessionRooms := localSessionRooms[sessionId := rooms];
      }
    }

    method ClearLocalMemberships(sessionId: string)
      modifies this
      ensures View() == ClearMemberships(old(View()), sessionId)
      ensures RoomsExact(old(View())) ==>
        RoomsBecome(old(View()), View(), sessionId, {})
    {
      if RoomsExact(View()) { ClearBecomes(View(), sessionId); }
      if sessionId !in localSessionRooms {
        return;
      }
      ghost var before := localRoomSessions;
      var rooms := localSessionRooms[sessionId];
      var remaining := rooms;
      LeaveNone(before, sessionId);
      while remaining != {}
        invariant remaining <= rooms
        invariant localRoomSessions == LeaveAll(before, rooms - remaining, sessionId)
        invariant localSessionRooms == old(localSessionRooms)
        decreases remaining
      {
        var room :| room in remaining;
        LeaveOneMore(before, rooms - remaining, sessionId, room);
        remaining := remaining - {room};
        assert rooms - remaining == (rooms - (remaining + {room})) + {room};
        LeaveRoom(sessionId, room);
      }
      assert rooms - {} == rooms;
      localSessionRooms := localSessionRooms - {sessionId};
    }

    method SyncLocalRooms(sessionId: string, rooms: seq<string>)
      modifies this
      ensures View() == SyncRooms(old(View()), HasLocalSession(connection.View(), sessionId), sessionId, rooms)
      ensures RoomsExact(old(View())) ==>
        RoomsBecome(old(View()), View(), sessionId,
          if IsLive(connection.View(), sessionId) then set k | k in rooms else {})
    {
      if RoomsExact(View()) { SyncBecomes(View(), IsLive(connection.View(), sessionId), sessionId, rooms); }
      ClearLocalMemberships(sessionId);
      ghost var live := HasLocalSession(connection.View(), sessionId);
      ghost var cleared := View();
      for i := 0 to |rooms|
        invariant View() == AddAll(cleared, live, sessionId, rooms[..i])
      {
        assert rooms[..i + 1][..i] == rooms[..i];
        AddLocalRoomMembership(sessionId, rooms[i]);
      }
      assert rooms[..|rooms|] == rooms;
    }

    method HandleRoomControlReplace(sessionId: string, rooms: seq<string>)
      modifies this
      ensures Node(connection.View(), View()) ==
        Step(Node(connection.View(), old(View())), ControlReplace(sessionId, rooms))
      ensures !IsLive(connection.View(), sessionId) ==> View() == old(View())
      ensures IsLive(connection.View(), sessionId) && RoomsExact(old(View())) ==>
        RoomsBecome(old(View()), View(), sessionId, set k | k in rooms)
    {
      var live := connection.HasLocalSession(sessionId);
      if !live {
        return;
      }
      SyncLocalRooms(sessionId, rooms);
    }

    method HandleRoomControlJoin(sessionId: string, room: string)
      modifies this
      ensures Node(connection.View(), View()) ==
        Step(Node(connection.View(), old(View())), ControlJoin(sessionId, room))
      ensures !IsLive(connection.View(), sessionId) || room == "" ==> View() == old(View())
      ensures IsLive(connection.View(), sessionId) && room != "" && RoomsExact(old(View())) ==>
        RoomsBecome(old(View()), View(), sessionId, RoomsOf(old(View()), sessionId) + {room})
    {
      var live := connection.HasLocalSession(sessionId);
      if !live {
        return;
      }
      if room == "" {
        return;
      }
      AddLocalRoomMembership(sessionId, room);
    }

    method HandleRoomControlLeave(sessionId: string, room: string)
      modifies this
      ensures Node(connection.View(), View()) ==
        Step(Node(connection.View(), old(View())), ControlLeave(sessionId, room))
      ensures !IsLive(connection.View(), sessionId) || room == "" ==> View() == old(View())
      ensures IsLive(connection.View(), sessionId) && room != "" && RoomsExact(old(View())) ==>
        RoomsBecome(old(View()), View(), sessionId, RoomsOf(old(View()), sessionId) - {room})
    {
      var live := connection.HasLocalSession(sessionId);
      if !live {
        return;
      }
      if room == "" {
        return;
      }
      RemoveLocalRoomMembership(sessionId, room);
    }
  }

  lemma LeaveNone(m: map<string, set<string>>, sessionId: string)
    ensures LeaveAll(m, {}, sessionId) == m
  {}

  lemma LeaveOneMore(m: map<string, set<string>>, rooms: set<string>, sessionId: string, room: string)
    requires room !in rooms
    ensures LeaveAll(m, rooms + {room}, sessionId) == Take(LeaveAll(m, rooms, sessionId), room, sessionId)
  {}

  class RealtimeGateway {
    const connection: RealtimeConnectionService
    const room: RealtimeRoomService

    ghost function View(): Node
      reads this, connection, room
    {
      Node(connection.View(), room.View())
    }

    ghost predicate Valid()
      reads this
    {
      room.connection == connection
    }

    constructor ()
      ensures Valid() && View() == EMPTY && fresh(connection) && fresh(room)
    {
      var c := new RealtimeConnectionService();
      var r := new RealtimeRoomService(c);
      connection, room := c, r;
    }

    method HandleConnection(client: Client, socketId: string)
      requires Valid()
      modifies connection
      ensures View() == Step(old(View()), Connected(client, socketId))
      ensures Inv(old(View())) ==> Does(old(View()), Connected(client, socketId), View())
    {
      if Inv(View()) { StepDoes(View(), Connected(client, socketId)); }
      connection.RegisterClient(client, socketId);
    }

    /** `handle_auth_connect` after its session has been created or restored, up to the next await. */
    method AuthConnectSession(client: Client, sessionId: string, publicKey: string)
      requires Valid()
      modifies connection
      ensures View() == Step(old(View()), Authenticated(client, sessionId, publicKey))
      ensures Inv(old(View())) ==> Does(old(View()), Authenticated(client, sessionId, publicKey), View())
    {
      if Inv(View()) { StepDoes(View(), Authenticated(client, sessionId, publicKey)); }
      connection.MarkAuthenticated(client, sessionId, publicKey);
    }

    /** The continuation of `restore_session_rooms` and `replace_session_rooms` once Redis has answered. */
    method AuthConnectRooms(sessionId: string, rooms: seq<string>)
      requires Valid()
      modifies room
      ensures View() == Step(old(View()), RoomsStored(sessionId, rooms))
      ensures Inv(old(View())) ==> Does(old(View()), RoomsStored(sessionId, rooms), View())
    {
      if Inv(View()) { StepDoes(View(), RoomsStored(sessionId, rooms)); }
      room.SyncLocalRooms(sessionId, rooms);
    }

    /** `handleDisconnect`, up to its await. */
    method HandleDisconnect(client: Client)
      requires Valid()
      modifies connection, room
      ensures View() == Step(old(View()), Disconnected(client))
      ensures Inv(old(View())) ==> Does(old(View()), Disconnected(client), View())
    {
      if Inv(View()) { StepDoes(View(), Disconnected(client)); }
      var known, sessionId := connection.RemoveClient(client);
      if !known || sessionId == "" {
        return;
      }
      var live := connection.HasLocalSession(sessionId);
      if live {
        return;
      }
      room.ClearLocalMemberships(sessionId);
    }
  }
}
