/**
 * The room-scoped signaling relay: a process-wide registry of rooms, the
 * per-connection message and close handlers, fan-out to a room, and the
 * periodic sweep of old empty rooms. Frames are already parsed: a frame is
 * an `Inbound` value and every `send` appends one `Outbound` value to the
 * server's output log.
 */
module Signaling {
  import opened Wrappers
  import opened ParticipantTable

  /** A field of a parsed frame; `None` when the field is absent (JavaScript `undefined`). */
  type Id = Option<string>

  /** The identity of one accepted WebSocket connection. */
  type ConnId = nat

  /** JavaScript truthiness of a field that is a string or absent. */
  predicate Truthy(x: Id)
  {
    x.Some? && x.value != ""
  }

  datatype SignalKind = Offer | Answer | IceCandidate

  /** A frame as the client sent it, after `JSON.parse`. */
  datatype Inbound =
    | JoinRoom(roomId: Id, clientId: Id)
      /** `offer`, `answer` and `ice-candidate`; `payload` stands for every other field, relayed untouched. */
    | Signal(kind: SignalKind, roomId: Id, targetId: Id, senderId: Id, payload: string)
      /** `extra` stands for any fields besides the four the relay copies. */
    | ChatMessage(roomId: Id, message: Id, messageId: Id, senderId: Id, timestamp: Id, extra: string)
    | Unknown(tag: Id)
      /** The frame could not be parsed, or handling it threw. */
    | Malformed

  /** A frame the server sends. */
  datatype Outbound =
    | RoomJoined(roomId: Id, participantCount: nat)
    | ParticipantJoined(clientId: Id, participantCount: nat)
    | ParticipantLeft(clientId: Id, participantCount: nat)
    | Relay(signal: Inbound)
    | ChatOut(message: Id, messageId: Id, senderId: Id, timestamp: Id)
    | Error(errorMessage: string)

  const InvalidMessageFormat := "Invalid message format"

  /** Milliseconds an empty room must have existed before the sweep deletes it. */
  const EmptyRoomMaxAge := 60000

  /** A room: participant table (client id to connection) and creation time in milliseconds. */
  datatype Room = Room(participants: Table<Id, ConnId>, createdAt: int)

  type Rooms = map<Id, Room>

  /** The `let clientId` and `let roomId` that one connection's handlers share. */
  datatype Session = Session(clientId: Id, roomId: Id)

  /** The participant table of `roomId`, empty when there is no such room. */
  function Members(rooms: Rooms, roomId: Id): Table<Id, ConnId>
  {
    if roomId in rooms then rooms[roomId].participants else []
  }

  /** No registered room has an empty participant table. */
  ghost predicate Populated(rooms: Rooms)
  {
    forall r :: r in rooms ==> |rooms[r].participants| > 0
  }

  /** The registry after `addClientToRoom(roomId, clientId, c)` at time `now`. */
  function AfterJoin(rooms: Rooms, roomId: Id, clientId: Id, c: ConnId, now: int): (r: Rooms)
    ensures r.Keys == rooms.Keys + {roomId}
    ensures forall x :: x in rooms && x != roomId ==> r[x] == rooms[x]
    ensures Lookup(Members(r, roomId), clientId) == Some(c)
    ensures forall k :: k != clientId ==> Lookup(Members(r, roomId), k) == Lookup(Members(rooms, roomId), k)
    ensures |Members(r, roomId)| ==
      if Lookup(Members(rooms, roomId), clientId).Some? then |Members(rooms, roomId)| else |Members(rooms, roomId)| + 1
    ensures r[roomId].createdAt == if roomId in rooms then rooms[roomId].createdAt else now
    ensures Populated(rooms) ==> Populated(r)
  {
    var created := if roomId in rooms then rooms[roomId].createdAt else now;
    rooms[roomId := Room(Put(Members(rooms, roomId), clientId, c), created)]
  }

  /** The registry after `removeClientFromRoom(roomId, clientId)`. */
  function AfterLeave(rooms: Rooms, roomId: Id, clientId: Id): (r: Rooms)
    ensures r.Keys <= rooms.Keys
    ensures forall x :: x in rooms && x != roomId ==> x in r && r[x] == rooms[x]
    ensures roomId in r ==> Lookup(r[roomId].participants, clientId).None? && r[roomId].createdAt == rooms[roomId].createdAt
    ensures roomId in rooms ==> (roomId in r <==> Delete(rooms[roomId].participants, clientId) != [])
    ensures roomId in r ==> r[roomId].participants == Delete(rooms[roomId].participants, clientId)
    ensures roomId !in rooms ==> r == rooms
    ensures Populated(rooms) ==> Populated(r)
  {
    if roomId !in rooms then rooms
    else
      var t := Delete(rooms[roomId].participants, clientId);
      if |t| == 0 then rooms - {roomId} else rooms[roomId := rooms[roomId].(participants := t)]
  }

  /** On distinct keys, leaving removes one participant from the count, or none when the client was not there. */
  lemma LeaveCount(rooms: Rooms, roomId: Id, clientId: Id)
    requires roomId in rooms && DistinctKeys(rooms[roomId].participants)
    ensures |Members(AfterLeave(rooms, roomId, clientId), roomId)| ==
      if Lookup(rooms[roomId].participants, clientId).Some? then |rooms[roomId].participants| - 1
      else |rooms[roomId].participants|
  {
    DeleteSize(rooms[roomId].participants, clientId);
  }

  /** In a reachable registry, a client joining a room it is not in and then leaving restores the registry exactly. */
  lemma JoinThenLeave(rooms: Rooms, roomId: Id, clientId: Id, c: ConnId, now: int)
    requires Populated(rooms)
    requires Lookup(Members(rooms, roomId), clientId).None?
    ensures AfterLeave(AfterJoin(rooms, roomId, clientId, c, now), roomId, clientId) == rooms
  {
    DeleteAppended(Members(rooms, roomId), clientId, c);
    if roomId in rooms {
      RejoinedRoomRestored(rooms, roomId, clientId, c, now);
    } else {
      NewRoomRestored(rooms, roomId, clientId, c, now);
    }
  }

  /** The case of `JoinThenLeave` where the room exists: it still holds others, so only the entry goes. */
  lemma RejoinedRoomRestored(rooms: Rooms, roomId: Id, clientId: Id, c: ConnId, now: int)
    requires roomId in rooms && |rooms[roomId].participants| > 0
    requires Lookup(rooms[roomId].participants, clientId).None?
    requires Delete(rooms[roomId].participants + [(clientId, c)], clientId) == rooms[roomId].participants
    ensures AfterLeave(AfterJoin(rooms, roomId, clientId, c, now), roomId, clientId) == rooms
  {
    var room := rooms[roomId];
    var joined := Room(room.participants + [(clientId, c)], room.createdAt);
    JoinExistingRoom(rooms, roomId, clientId, c, now);
    LeaveKeepsRoom(rooms[roomId := joined], roomId, clientId);
    OverwriteBack(rooms, roomId, joined);
  }

  // The next four lemmas are single steps of `JoinThenLeave` and `Server.AddClientToRoom`,
  // stated apart so that each is proved in a small context.

  /** Joining an existing room a client is not in appends the client's entry and keeps the creation time. */
  lemma JoinExistingRoom(rooms: Rooms, roomId: Id, clientId: Id, c: ConnId, now: int)
    requires roomId in rooms
    requires Lookup(rooms[roomId].participants, clientId).None?
    ensures AfterJoin(rooms, roomId, clientId, c, now)
         == rooms[roomId := Room(rooms[roomId].participants + [(clientId, c)], rooms[roomId].createdAt)]
  {
  }

  /** Leaving a room that keeps other participants only drops the client's entry. */
  lemma LeaveKeepsRoom(rooms: Rooms, roomId: Id, clientId: Id)
    requires roomId in rooms && |Delete(rooms[roomId].participants, clientId)| > 0
    ensures AfterLeave(rooms, roomId, clientId)
         == rooms[roomId := rooms[roomId].(participants := Delete(rooms[roomId].participants, clientId))]
  {
  }

  /** Setting a key twice keeps only the second value. */
  lemma OverwriteTwice(rooms: Rooms, roomId: Id, first: Room, second: Room)
    ensures rooms[roomId := first][roomId := second] == rooms[roomId := second]
  {
  }

  /** Setting a key and then setting it back to its old value gives back the registry. */
  lemma OverwriteBack(rooms: Rooms, roomId: Id, room: Room)
    requires roomId in rooms
    ensures rooms[roomId := room][roomId := rooms[roomId]] == rooms
  {
  }

  /** The case of `JoinThenLeave` where the join created the room: leaving empties it, so it goes. */
  lemma NewRoomRestored(rooms: Rooms, roomId: Id, clientId: Id, c: ConnId, now: int)
    requires roomId !in rooms
    ensures AfterLeave(AfterJoin(rooms, roomId, clientId, c, now), roomId, clientId) == rooms
  {
    var j := AfterJoin(rooms, roomId, clientId, c, now);
    assert j == rooms[roomId := Room([(clientId, c)], now)];
    assert Delete([(clientId, c)], clientId) == [];
    assert AfterLeave(j, roomId, clientId) == j - {roomId};
    assert j - {roomId} == rooms;
  }

  /** Whether connection `c` receives a broadcast: it is open and is not the excluded connection. */
  predicate Receives(c: ConnId, open: set<ConnId>, exclude: Option<ConnId>)
  {
    c in open && exclude != Some(c)
  }

  /** What `broadcastToRoom` sends over table `t`, in the table's order. */
  function Fanout(t: Table<Id, ConnId>, open: set<ConnId>, exclude: Option<ConnId>, e: Outbound)
    : seq<(ConnId, Outbound)>
  {
    if t == [] then []
    else
      var c := t[|t| - 1].1;
      Fanout(t[..|t| - 1], open, exclude, e) + if Receives(c, open, exclude) then [(c, e)] else []
  }

  /** A broadcast sends only the given frame, only to receiving connections, and at most one frame per entry. */
  lemma {:induction false} FanoutSends(t: Table<Id, ConnId>, open: set<ConnId>, exclude: Option<ConnId>, e: Outbound)
    ensures |Fanout(t, open, exclude, e)| <= |t|
    ensures forall k :: 0 <= k < |Fanout(t, open, exclude, e)| ==>
      Fanout(t, open, exclude, e)[k].1 == e && Receives(Fanout(t, open, exclude, e)[k].0, open, exclude)
  {
    if t != [] {
      FanoutSends(t[..|t| - 1], open, exclude, e);
    }
  }

  /** Broadcasting over one more entry of the table sends at most one more frame, to that entry's connection. */
  lemma FanoutStep(t: Table<Id, ConnId>, i: nat, open: set<ConnId>, exclude: Option<ConnId>, e: Outbound)
    requires i < |t|
    ensures Fanout(t[..i + 1], open, exclude, e)
         == Fanout(t[..i], open, exclude, e) + if Receives(t[i].1, open, exclude) then [(t[i].1, e)] else []
  {
    assert t[..i + 1][..i] == t[..i];
  }

  /** The number of entries of `t` whose connection is `c`. */
  function Holds(t: Table<Id, ConnId>, c: ConnId): nat
  {
    if t == [] then 0
    else Holds(t[..|t| - 1], c) + if t[|t| - 1].1 == c then 1 else 0
  }

  /** A broadcast sends connection `c` one copy per entry it holds when it receives at all, and none otherwise. */
  lemma {:induction false} FanoutCopies(t: Table<Id, ConnId>, open: set<ConnId>, exclude: Option<ConnId>, e: Outbound, c: ConnId)
    ensures multiset(Fanout(t, open, exclude, e))[(c, e)] == if Receives(c, open, exclude) then Holds(t, c) else 0
  {
    if t != [] {
      FanoutCopies(t[..|t| - 1], open, exclude, e, c);
    }
  }

  /** Hence a participant that holds exactly one entry gets exactly one copy, and the excluded or a closed one none. */
  lemma FanoutOnce(t: Table<Id, ConnId>, open: set<ConnId>, exclude: Option<ConnId>, e: Outbound, c: ConnId)
    requires Holds(t, c) == 1
    ensures multiset(Fanout(t, open, exclude, e))[(c, e)] == if Receives(c, open, exclude) then 1 else 0
  {
    FanoutCopies(t, open, exclude, e, c);
  }

  /** What relaying an `offer`, `answer` or `ice-candidate` sends: nothing, or the frame itself to the target. */
  function RelayOutput(rooms: Rooms, open: set<ConnId>, m: Inbound): (r: seq<(ConnId, Outbound)>)
    requires m.Signal?
    ensures |r| <= 1
    ensures forall k :: 0 <= k < |r| ==>
      && r[k].1 == Relay(m)
      && m.roomId in rooms && Truthy(m.targetId)
      && Lookup(rooms[m.roomId].participants, m.targetId) == Some(r[k].0)
      && r[k].0 in open
    ensures r == [] ==>
      || m.roomId !in rooms || !Truthy(m.targetId)
      || Lookup(rooms[m.roomId].participants, m.targetId).None?
      || Lookup(rooms[m.roomId].participants, m.targetId).value !in open
  {
    if m.roomId in rooms && Truthy(m.targetId) then
      match Lookup(rooms[m.roomId].participants, m.targetId)
      case Some(target) => if target in open then [(target, Relay(m))] else []
      case None => []
    else []
  }

  /** An empty room older than `EmptyRoomMaxAge` at time `now`. */
  predicate Stale(room: Room, now: int)
  {
    |room.participants| == 0 && now - room.createdAt > EmptyRoomMaxAge
  }

  /** The registry after one sweep at time `now`. */
  function Swept(rooms: Rooms, now: int): (r: Rooms)
    ensures r.Keys <= rooms.Keys
    ensures forall x :: x in rooms ==> (x in r <==> !Stale(rooms[x], now))
    ensures forall x :: x in r ==> r[x] == rooms[x]
  {
    map x | x in rooms && !Stale(rooms[x], now) :: rooms[x]
  }

  /** Since join always inserts and leave deletes a room that empties, the sweep never finds anything to delete. */
  lemma SweepRemovesNothing(rooms: Rooms, now: int)
    requires Populated(rooms)
    ensures Swept(rooms, now) == rooms
  {
    assert Swept(rooms, now).Keys == rooms.Keys;
  }

  /** Every entry of every room is a connection accepted so far, and keys are distinct. */
  ghost predicate RoomOk(room: Room, bound: ConnId)
  {
    && DistinctKeys(room.participants)
    && forall e :: e in room.participants ==> e.1 < bound
  }

  /** The registry invariant: no room is empty, and every room is well formed for connections below `bound`. */
  ghost predicate RegistryOk(rooms: Rooms, bound: ConnId)
  {
    && Populated(rooms)
    && forall r :: r in rooms ==> RoomOk(rooms[r], bound)
  }

  /** Joining with an accepted connection keeps the registry invariant. */
  lemma JoinKeepsRegistryOk(rooms: Rooms, roomId: Id, clientId: Id, c: ConnId, now: int, bound: ConnId)
    requires RegistryOk(rooms, bound) && c < bound
    ensures RegistryOk(AfterJoin(rooms, roomId, clientId, c, now), bound)
  {
    var t := Members(rooms, roomId);
    assert DistinctKeys(t);
    PutKeepsKeysDistinct(t, clientId, c);
    PutEntries(t, clientId, c);
  }

  /** Leaving keeps the registry invariant. */
  lemma LeaveKeepsRegistryOk(rooms: Rooms, roomId: Id, clientId: Id, bound: ConnId)
    requires RegistryOk(rooms, bound)
    ensures RegistryOk(AfterLeave(rooms, roomId, clientId), bound)
  {
    if roomId in rooms {
      DeleteSize(rooms[roomId].participants, clientId);
    }
  }

  class Server {
    /** The registry, `rooms` in the source. */
    var rooms: Rooms
    /** The handlers' shared variables, for each connection whose close event has not fired. */
    var sessions: map<ConnId, Session>
    /** Connections whose `readyState` is `OPEN`. */
    var open: set<ConnId>
    /** Every `send` so far, in order: the connection it went to and the frame. */
    var log: seq<(ConnId, Outbound)>
    /** The identity the next accepted connection gets. */
    var nextConn: ConnId

    ghost predicate Valid()
      reads this
    {
      && open <= sessions.Keys
      && (forall c :: c in sessions ==> c < nextConn)
      && RegistryOk(rooms, nextConn)
    }

    constructor ()
      ensures Valid()
      ensures rooms == map[] && sessions == map[] && open == {} && log == [] && nextConn == 0
    {
      rooms := map[];
      sessions := map[];
      open := {};
      log := [];
      nextConn := 0;
    }

    /** A new WebSocket connection: open, and not yet bound to a client or a room. */
    method Connect() returns (c: ConnId)
      requires Valid()
      modifies this
      ensures Valid()
      ensures c == old(nextConn) && c !in old(sessions) && nextConn == old(nextConn) + 1
      ensures forall r :: r in rooms ==> forall e :: e in rooms[r].participants ==> e.1 != c
      ensures sessions == old(sessions)[c := Session(None, None)] && open == old(open) + {c}
      ensures rooms == old(rooms) && log == old(log)
    {
      c := nextConn;
      nextConn := nextConn + 1;
      sessions := sessions[c := Session(None, None)];
      open := open + {c};
    }

    /** The connection starts its closing handshake: its `readyState` is no longer `OPEN`. */
    method BeginClose(c: ConnId)
      requires Valid()
      modifies this`open
      ensures Valid()
      ensures open == old(open) - {c}
    {
      open := open - {c};
    }

    /** `broadcastToRoom`: send `e` to every open participant of `roomId` except `exclude`. */
    method BroadcastToRoom(roomId: Id, e: Outbound, exclude: Option<ConnId>)
      modifies this`log
      ensures log == old(log) + if roomId in rooms then Fanout(rooms[roomId].participants, open, exclude, e) else []
    {
      if roomId in rooms {
        var t := rooms[roomId].participants;
        var i := 0;
        while i < |t|
          invariant 0 <= i <= |t|
          invariant log == old(log) + Fanout(t[..i], open, exclude, e)
        {
          var c := t[i].1;
          if c in open && exclude != Some(c) {
            log := log + [(c, e)];
          }
          FanoutStep(t, i, open, exclude, e);
          i := i + 1;
        }
        assert t[..|t|] == t;
      }
    }

    /** `addClientToRoom`: create the room on first join, then set the client's entry; returns the new size. */
    method AddClientToRoom(roomId: Id, clientId: Id, c: ConnId, now: int) returns (count: nat)
      requires Valid() && c < nextConn
      modifies this`rooms
      ensures Valid()
      ensures rooms == AfterJoin(old(rooms), roomId, clientId, c, now)
      ensures count == |Members(rooms, roomId)|
    {
      if roomId !in rooms {
        rooms := rooms[roomId := Room([], now)];
      }
      var room := rooms[roomId];
      rooms := rooms[roomId := room.(participants := Put(room.participants, clientId, c))];
      count := |rooms[roomId].participants|;
      if roomId !in old(rooms) {
        OverwriteTwice(old(rooms), roomId, Room([], now), rooms[roomId]);
      }
      JoinKeepsRegistryOk(old(rooms), roomId, clientId, c, now, nextConn);
    }

    /** `removeClientFromRoom`: delete the client's entry and the room once it is empty; returns the remaining size, 0 for no room. */
    method RemoveClientFromRoom(roomId: Id, clientId: Id) returns (count: nat)
      requires Valid()
      modifies this`rooms
      ensures Valid()
      ensures rooms == AfterLeave(old(rooms), roomId, clientId)
      ensures count == |Members(rooms, roomId)|
    {
      count := 0;
      if roomId in rooms {
        var room := rooms[roomId];
        var t := Delete(room.participants, clientId);
        rooms := rooms[roomId := room.(participants := t)];
        count := |t|;
        if |t| == 0 {
          rooms := rooms - {roomId};
        }
      }
      LeaveKeepsRegistryOk(old(rooms), roomId, clientId, nextConn);
    }

    /** The `message` handler of connection `c`, for one parsed frame `m` arriving at time `now`. */
    method OnMessage(c: ConnId, m: Inbound, now: int)
      requires Valid() && c in open
      modifies this
      ensures Valid()
      ensures open == old(open) && nextConn == old(nextConn)
      ensures !m.JoinRoom? ==> rooms == old(rooms) && sessions == old(sessions)
      ensures m.JoinRoom? ==>
        var t := Members(rooms, m.roomId);
        && sessions == old(sessions)[c := Session(m.clientId, m.roomId)]
        && rooms == AfterJoin(old(rooms), m.roomId, m.clientId, c, now)
        && log == old(log) + [(c, RoomJoined(m.roomId, |t|))]
                           + Fanout(t, open, Some(c), ParticipantJoined(m.clientId, |t|))
      ensures m.Signal? ==> log == old(log) + RelayOutput(old(rooms), open, m)
      ensures m.ChatMessage? ==>
        log == old(log) + Fanout(Members(rooms, m.roomId), open, Some(c),
                                 ChatOut(m.message, m.messageId, m.senderId, m.timestamp))
      ensures m.Unknown? ==> log == old(log)
      ensures m.Malformed? ==> log == old(log) + [(c, Error(InvalidMessageFormat))]
    {
      match m
      case JoinRoom(roomId, clientId) =>
        sessions := sessions[c := Session(clientId, roomId)];
        var participantCount := AddClientToRoom(roomId, clientId, c, now);
        log := log + [(c, RoomJoined(roomId, participantCount))];
        BroadcastToRoom(roomId, ParticipantJoined(clientId, participantCount), Some(c));
      case Signal(_, roomId, targetId, _, _) =>
        if roomId in rooms && Truthy(targetId) {
          var target := Lookup(rooms[roomId].participants, targetId);
          if target.Some? && target.value in open {
            log := log + [(target.value, Relay(m))];
          }
        }
      case ChatMessage(roomId, message, messageId, senderId, timestamp, _) =>
        BroadcastToRoom(roomId, ChatOut(message, messageId, senderId, timestamp), Some(c));
      case Unknown(_) =>
      case Malformed =>
        log := log + [(c, Error(InvalidMessageFormat))];
    }

    /** The `close` handler of connection `c`: a bound connection leaves its room and the rest are told. */
    method OnClose(c: ConnId)
      requires Valid() && c in sessions
      modifies this
      ensures Valid()
      ensures sessions == old(sessions) - {c} && open == old(open) - {c} && nextConn == old(nextConn)
      ensures var s := old(sessions)[c];
        if Truthy(s.clientId) && Truthy(s.roomId) then
          var t := Members(rooms, s.roomId);
          && rooms == AfterLeave(old(rooms), s.roomId, s.clientId)
          && log == old(log) + Fanout(t, open, None, ParticipantLeft(s.clientId, |t|))
        else
          rooms == old(rooms) && log == old(log)
    {
      var s := sessions[c];
      sessions := sessions - {c};
      open := open - {c};
      if Truthy(s.clientId) && Truthy(s.roomId) {
        var participantCount := RemoveClientFromRoom(s.roomId, s.clientId);
        BroadcastToRoom(s.roomId, ParticipantLeft(s.clientId, participantCount), None);
      }
    }

    /** The periodic cleanup at time `now`: delete every empty room older than `EmptyRoomMaxAge`. */
    method Sweep(now: int)
      modifies this`rooms
      ensures rooms == Swept(old(rooms), now)
      ensures old(Valid()) ==> Valid() && rooms == old(rooms)
    {
      var pending := rooms.Keys;
      while pending != {}
        invariant pending <= old(rooms).Keys
        invariant rooms == map x | x in old(rooms) && (x in pending || !Stale(old(rooms)[x], now)) :: old(rooms)[x]
        decreases pending
      {
        var x :| x in pending;
        if |rooms[x].participants| == 0 && now - rooms[x].createdAt > EmptyRoomMaxAge {
          rooms := rooms - {x};
        }
        pending := pending - {x};
      }
      if old(Valid()) {
        SweepRemovesNothing(old(rooms), now);
      }
    }
  }
}
