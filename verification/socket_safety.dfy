/**
 * Two invariants the real-time engine is meant to keep, and the two handlers
 * that break them as written:
 *
 *  - `Authorized`: a socket is subscribed to a room's channel only when its
 *    user takes part in the room. `join_room` checks the user id the client
 *    sends instead of the socket's own, so any socket can join any room by
 *    naming one of its participants; `JoinRoomAsSelf` checks the socket's user.
 *  - `PresenceAccurate`: every user with a live socket is marked online.
 *    `disconnect` marks the user offline when any one of its sockets goes,
 *    although another may still be connected; `PresenceAwareDisconnect` does
 *    so (and tells the rooms) only when the last socket goes.
 *
 * `Handle` dispatches client events to the corrected handlers and keeps both
 * invariants together with `Valid` and the store's unique indexes.
 */
module SocketSafety {
  import opened Wrappers
  import opened Domain
  import opened Externals
  import opened SocketEngine

  /** Every room channel a socket has joined names a room its user takes part in. */
  predicate Authorized(e: Engine) {
    forall s, x :: s in e.sockets && s in e.channels && x in e.db.rooms && x.id in e.channels[s]
      ==> e.sockets[s].id in x.participants
  }

  /** The stored user with this id is marked online. */
  predicate MarkedOnline(db: Db, id: UserId) {
    exists i :: 0 <= i < |db.users| && db.users[i].id == id && db.users[i].isOnline
  }

  /** Every user with a live socket is marked online. */
  predicate PresenceAccurate(e: Engine) {
    forall s :: s in e.sockets ==> MarkedOnline(e.db, e.sockets[s].id)
  }

  /** Room ids cast to object ids (the store assigns them). */
  predicate RoomIdsCast(db: Db) {
    forall x :: x in db.rooms ==> IsObjectId(x.id)
  }

  /** Everything `Handle` keeps. */
  predicate Safe(e: Engine) {
    Valid(e) && WellFormed(e.db) && RoomIdsCast(e.db) && Authorized(e) && PresenceAccurate(e)
  }

  /** A personal channel is never a room id: `_` is not a hexadecimal digit. */
  lemma UserChannelIsNoRoom(id: UserId)
    ensures !IsObjectId(UserChannel(id))
  {
    assert UserChannel(id)[4] == '_';
  }

  /** Under the unique index, a room id names one room. */
  lemma SameRoom(db: Db, x: Room, y: Room)
    requires WellFormed(db) && x in db.rooms && y in db.rooms && x.id == y.id
    ensures x == y
  {
    var i :| 0 <= i < |db.rooms| && db.rooms[i] == x;
    var j :| 0 <= j < |db.rooms| && db.rooms[j] == y;
  }

  // ---- the corrected handlers ----------------------------------------------

  /** `join_room` checking the socket's own user; whatever id the client sends is ignored. */
  function JoinRoomAsSelf(e: Engine, sid: SocketId, roomId: RoomId): (r: Engine)
    requires Valid(e) && sid in e.sockets
    ensures Valid(r)
    ensures r.sockets == e.sockets && r.registry == e.registry && r.db == e.db
    ensures roomId in r.channels[sid] <==>
              roomId in e.channels[sid] || (IsObjectId(roomId) && IsObjectId(e.sockets[sid].id)
                                            && FindRoomFor(e.db, roomId, e.sockets[sid].id).Some?)
    ensures forall s :: s in r.channels && s != sid ==> r.channels[s] == e.channels[s]
    ensures r.channels[sid] <= e.channels[sid] + {roomId}
  {
    JoinRoom(e, sid, roomId, e.sockets[sid].id)
  }

  /** Whether the user behind `sid` keeps another live socket. */
  predicate StillConnected(e: Engine, sid: SocketId)
    requires sid in e.sockets
  {
    exists s :: s in e.sockets && s != sid && e.sockets[s].id == e.sockets[sid].id
  }

  /**
   * `disconnect` that marks the user offline, and tells its rooms, only when
   * its last socket goes; otherwise the socket is simply removed.
   */
  function PresenceAwareDisconnect(e: Engine, sid: SocketId, now: int): (r: Engine)
    requires Valid(e) && sid in e.sockets
    ensures Valid(r)
    ensures r.sockets == e.sockets - {sid} && r.channels == e.channels - {sid}
    ensures |r.registry| == |e.registry| - 1
    ensures StillConnected(e, sid) ==> r.db == e.db && r.outbox == e.outbox
    ensures !StillConnected(e, sid) ==> r == Disconnect(e, sid, now)
  {
    if StillConnected(e, sid) then Drop(e, sid) else Disconnect(e, sid, now)
  }

  // ---- the findings ----------------------------------------------------------

  /**
   * As written, a socket whose user is not in a room joins it by naming a
   * participant in the request, and the engine is no longer `Authorized`.
   */
  lemma JoinRoomTrustsClaimedUser(e: Engine, sid: SocketId, x: Room, claimed: UserId)
    requires Valid(e) && sid in e.sockets
    requires x in e.db.rooms && IsObjectId(x.id) && IsObjectId(claimed)
    requires claimed in x.participants && e.sockets[sid].id !in x.participants
    ensures !Authorized(JoinRoom(e, sid, x.id, claimed))
  {
    var r := JoinRoom(e, sid, x.id, claimed);
    assert FindRoomFor(e.db, x.id, claimed).Some?;
    assert x.id in r.channels[sid] && x in r.db.rooms;
  }

  /**
   * As written, closing one of two sockets of a user marks the user offline
   * while the other socket is still live, so presence is no longer accurate.
   */
  lemma DisconnectForgetsOtherSockets(e: Engine, sid: SocketId, other: SocketId, now: int)
    requires Valid(e) && sid in e.sockets && other in e.sockets && other != sid
    requires e.sockets[other].id == e.sockets[sid].id
    ensures !PresenceAccurate(Disconnect(e, sid, now))
  {
    var r := Disconnect(e, sid, now);
    var id := e.sockets[sid].id;
    assert other in r.sockets && r.sockets[other].id == id;
  }

  // ---- each corrected step keeps the invariants -------------------------------

  /** Connecting a socket of a stored user keeps every invariant. */
  lemma ConnectSafe(e: Engine, sid: SocketId, p: Profile, now: int)
    requires Safe(e) && sid !in e.sockets && FindUser(e.db, p.id).Some?
    ensures Safe(Connect(e, sid, p, now))
  {
    SetOnlineKeepsIndexes(e.db, p.id, true, now);
    ConnectAuthorized(e, sid, p, now);
    ConnectPresence(e, sid, p, now);
  }

  /** The channels joined on connection are the personal one and rooms the user is in. */
  lemma ConnectAuthorized(e: Engine, sid: SocketId, p: Profile, now: int)
    requires Valid(e) && WellFormed(e.db) && RoomIdsCast(e.db) && Authorized(e) && sid !in e.sockets
    ensures Authorized(Connect(e, sid, p, now))
  {
    var r := Connect(e, sid, p, now);
    forall s, x | s in r.sockets && s in r.channels && x in r.db.rooms && x.id in r.channels[s]
      ensures r.sockets[s].id in x.participants
    {
      if s == sid {
        if x.id == UserChannel(p.id) {
          UserChannelIsNoRoom(p.id);
        } else {
          var y :| y in RoomsOf(e.db, p.id) && y.id == x.id;
          SameRoom(e.db, x, y);
        }
      }
    }
  }

  /** Connection marks the user online and leaves everyone else's flag alone. */
  lemma ConnectPresence(e: Engine, sid: SocketId, p: Profile, now: int)
    requires Valid(e) && PresenceAccurate(e) && sid !in e.sockets && FindUser(e.db, p.id).Some?
    ensures PresenceAccurate(Connect(e, sid, p, now))
  {
    var r := Connect(e, sid, p, now);
    SetOnlineMarks(e.db, p.id, now);
    forall s | s in r.sockets ensures MarkedOnline(r.db, r.sockets[s].id) {
      if s != sid && e.sockets[s].id != p.id {
        SetOnlineKeepsOthers(e.db, p.id, true, now, e.sockets[s].id);
      }
    }
  }

  /** Marking a stored user online makes it `MarkedOnline`. */
  lemma SetOnlineMarks(db: Db, id: UserId, now: int)
    requires FindUser(db, id).Some?
    ensures MarkedOnline(SetOnline(db, id, true, now), id)
  {
    var k :| 0 <= k < |db.users| && db.users[k] == FindUser(db, id).value;
    assert SetOnline(db, id, true, now).users[k].isOnline;
  }

  /** A presence update for one user leaves every other user's flag as it was. */
  lemma SetOnlineKeepsOthers(db: Db, id: UserId, online: bool, now: int, q: UserId)
    requires q != id && MarkedOnline(db, q)
    ensures MarkedOnline(SetOnline(db, id, online, now), q)
  {
    var i :| 0 <= i < |db.users| && db.users[i].id == q && db.users[i].isOnline;
    assert SetOnline(db, id, online, now).users[i] == db.users[i];
  }

  lemma JoinSafe(e: Engine, sid: SocketId, roomId: RoomId)
    requires Safe(e) && sid in e.sockets
    ensures Safe(JoinRoomAsSelf(e, sid, roomId))
  {
    var r := JoinRoomAsSelf(e, sid, roomId);
    forall s, x | s in r.sockets && s in r.channels && x in r.db.rooms && x.id in r.channels[s]
      ensures r.sockets[s].id in x.participants
    {
      if s == sid && x.id !in e.channels[sid] {
        var y := FindRoomFor(e.db, roomId, e.sockets[sid].id).value;
        SameRoom(e.db, x, y);
      }
    }
  }

  lemma LeaveSafe(e: Engine, sid: SocketId, roomId: RoomId)
    requires Safe(e) && sid in e.sockets
    ensures Safe(LeaveRoom(e, sid, roomId))
  {
  }

  lemma TypingSafe(e: Engine, sid: SocketId, roomId: RoomId, isTyping: bool)
    requires Safe(e) && sid in e.sockets
    ensures Safe(TypingEvent(e, sid, roomId, isTyping))
  {
  }

  /** Sending rewrites only a room's activity time, so ids and participants stay as they were. */
  lemma SendSafe(e: Engine, sid: SocketId, roomId: RoomId, content: string, kind: Option<string>,
                 msgId: MessageId, now: int)
    requires Safe(e) && sid in e.sockets
    ensures Safe(SendMessage(e, sid, roomId, content, kind, msgId, now))
  {
    var r := SendMessage(e, sid, roomId, content, kind, msgId, now);
    if r.db != e.db {
      var m := Schemas.NewMessage(msgId, content, Some(e.sockets[sid].id), Some(roomId), kind, now).value;
      var d := e.db.(messages := e.db.messages + [m]);
      TouchedRooms(d, roomId, now);
      forall s, x | s in r.sockets && s in r.channels && x in r.db.rooms && x.id in r.channels[s]
        ensures r.sockets[s].id in x.participants
      {
        var y :| y in e.db.rooms && y.id == x.id && y.participants == x.participants;
      }
    }
  }

  /** Every room after an activity-time update has a counterpart before it with the same id and participants. */
  lemma TouchedRooms(d: Db, roomId: RoomId, now: int)
    ensures var r := UpdateRoom(d, roomId, (x: Room) => x.(updatedAt := now));
            forall x :: x in r.rooms ==> exists y :: y in d.rooms && y.id == x.id && y.participants == x.participants
  {
    var r := UpdateRoom(d, roomId, (x: Room) => x.(updatedAt := now));
    forall x | x in r.rooms
      ensures exists y :: y in d.rooms && y.id == x.id && y.participants == x.participants
    {
      var i :| 0 <= i < |r.rooms| && r.rooms[i] == x;
      assert d.rooms[i] in d.rooms;
    }
  }

  lemma DisconnectSafe(e: Engine, sid: SocketId, now: int)
    requires Safe(e) && sid in e.sockets
    ensures Safe(PresenceAwareDisconnect(e, sid, now))
  {
    if !StillConnected(e, sid) {
      SetOnlineKeepsIndexes(e.db, e.sockets[sid].id, false, now);
      LastSocketPresence(e, sid, now);
    }
  }

  /** When the last socket of a user goes, every remaining socket belongs to someone else, whose flag is untouched. */
  lemma LastSocketPresence(e: Engine, sid: SocketId, now: int)
    requires Valid(e) && PresenceAccurate(e) && sid in e.sockets && !StillConnected(e, sid)
    ensures PresenceAccurate(Disconnect(e, sid, now))
  {
    var r := Disconnect(e, sid, now);
    forall s | s in r.sockets ensures MarkedOnline(r.db, r.sockets[s].id) {
      SetOnlineKeepsOthers(e.db, e.sockets[sid].id, false, now, e.sockets[s].id);
    }
  }

  // ---- the event loop --------------------------------------------------------

  /** What a client can do: open a socket, or send one of the handled events on it. */
  datatype Event =
    | Open(sid: SocketId, token: Option<string>)
    | Join(sid: SocketId, roomId: RoomId, claimed: UserId)
    | Leave(sid: SocketId, roomId: RoomId)
    | Send(sid: SocketId, roomId: RoomId, content: string, kind: Option<string>, msgId: MessageId)
    | TypingStart(sid: SocketId, roomId: RoomId)
    | TypingStop(sid: SocketId, roomId: RoomId)
    | Close(sid: SocketId)

  /**
   * One event, with the corrected handlers. A refused handshake leaves the
   * engine as it was; events name live sockets, and socket ids are fresh, so
   * anything else is ignored.
   */
  function Handle(e: Engine, o: Oracles, ev: Event, now: int): (r: Engine)
    requires Valid(e)
    ensures Valid(r)
    ensures ev.Open? && Handshake(e.db, o, ev.token).Err? ==> r == e
    ensures (ev.Open? && ev.sid !in e.sockets && Handshake(e.db, o, ev.token).Ok?)
              ==> r.sockets == e.sockets[ev.sid := Handshake(e.db, o, ev.token).value]
    ensures !ev.Open? && ev.sid in e.sockets && !ev.Close? ==> r.sockets == e.sockets
    ensures ev.Close? && ev.sid in e.sockets ==> r.sockets == e.sockets - {ev.sid}
    ensures ev.sid !in e.sockets && !ev.Open? ==> r == e
  {
    if ev.Open? then
      if ev.sid in e.sockets then e
      else match Handshake(e.db, o, ev.token)
        case Err(_) => e
        case Ok(p) => Connect(e, ev.sid, p, now)
    else if ev.sid !in e.sockets then e
    else match ev
      case Join(sid, roomId, _) => JoinRoomAsSelf(e, sid, roomId)
      case Leave(sid, roomId) => LeaveRoom(e, sid, roomId)
      case Send(sid, roomId, content, kind, msgId) => SendMessage(e, sid, roomId, content, kind, msgId, now)
      case TypingStart(sid, roomId) => TypingEvent(e, sid, roomId, true)
      case TypingStop(sid, roomId) => TypingEvent(e, sid, roomId, false)
      case Close(sid) => PresenceAwareDisconnect(e, sid, now)
  }

  /** Every event keeps the invariants. */
  lemma HandleSafe(e: Engine, o: Oracles, ev: Event, now: int)
    requires Safe(e)
    ensures Safe(Handle(e, o, ev, now))
  {
    if ev.Open? {
      if ev.sid !in e.sockets && Handshake(e.db, o, ev.token).Ok? {
        ConnectSafe(e, ev.sid, Handshake(e.db, o, ev.token).value, now);
      }
    } else if ev.sid in e.sockets {
      match ev
      case Join(sid, roomId, _) => JoinSafe(e, sid, roomId);
      case Leave(sid, roomId) => LeaveSafe(e, sid, roomId);
      case Send(sid, roomId, content, kind, msgId) => SendSafe(e, sid, roomId, content, kind, msgId, now);
      case TypingStart(sid, roomId) => TypingSafe(e, sid, roomId, true);
      case TypingStop(sid, roomId) => TypingSafe(e, sid, roomId, false);
      case Close(sid) => DisconnectSafe(e, sid, now);
    }
  }

  /** Any run of events from a safe engine ends in a safe engine. */
  function Run(e: Engine, o: Oracles, evs: seq<Event>, now: int): (r: Engine)
    requires Safe(e)
    ensures Safe(r)
    decreases |evs|
  {
    if evs == [] then e
    else
      HandleSafe(e, o, evs[0], now);
      Run(Handle(e, o, evs[0], now), o, evs[1..], now)
  }
}
