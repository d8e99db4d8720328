/**
 * The personal channels `user_<id>` of the engine as written. A socket joins
 * its own user's channel on connection; `join_room` can only add channels
 * whose name casts to an object id, which a personal channel never does. So
 * even with the join check trusting the client, a socket never holds another
 * user's personal channel, and `emitToUser` reaches that user's sockets only.
 * (A socket may leave its own channel: `leave_room` checks nothing.)
 */
module PersonalChannels {
  import opened Wrappers
  import opened Domain
  import opened Externals
  import opened SocketEngine
  import opened SocketSafety

  /** A personal channel held by a socket is the one of the socket's own user. */
  ghost predicate OwnChannelsOnly(e: Engine) {
    forall s, id :: s in e.sockets && s in e.channels && UserChannel(id) in e.channels[s] ==> e.sockets[s].id == id
  }

  /** What the engine as written keeps. */
  ghost predicate Private(e: Engine) {
    SocketEngine.Valid(e) && RoomIdsCast(e.db) && OwnChannelsOnly(e)
  }

  lemma UserChannelInjective(a: UserId, b: UserId)
    requires UserChannel(a) == UserChannel(b)
    ensures a == b
  {
    assert a == UserChannel(a)[5..];
    assert b == UserChannel(b)[5..];
  }

  /** Only the user's own sockets receive what is sent to the user. */
  lemma EmitToUserOnlyReachesUser(e: Engine, userId: UserId, event: string, data: string)
    requires Private(e)
    ensures var sent := EmitToUser(e, userId, event, data).outbox[|e.outbox|];
            forall s :: s in sent.recipients ==> s in e.sockets && e.sockets[s].id == userId
  {
  }

  lemma ConnectPrivate(e: Engine, sid: SocketId, p: Profile, now: int)
    requires Private(e) && sid !in e.sockets
    ensures Private(Connect(e, sid, p, now))
  {
    var r := Connect(e, sid, p, now);
    forall s, id | s in r.sockets && s in r.channels && UserChannel(id) in r.channels[s]
      ensures r.sockets[s].id == id
    {
      if s == sid {
        if UserChannel(id) == UserChannel(p.id) {
          UserChannelInjective(id, p.id);
        } else {
          assert UserChannel(id) in RoomChannels(RoomsOf(e.db, p.id));
          var x :| x in RoomsOf(e.db, p.id) && x.id == UserChannel(id);
          UserChannelIsNoRoom(id);
          assert false;
        }
      }
    }
  }

  /** The join as written: a new channel is always an object id, never a personal channel. */
  lemma JoinPrivate(e: Engine, sid: SocketId, roomId: RoomId, claimed: UserId)
    requires Private(e) && sid in e.sockets
    ensures Private(JoinRoom(e, sid, roomId, claimed))
  {
    var r := JoinRoom(e, sid, roomId, claimed);
    forall s, id | s in r.sockets && s in r.channels && UserChannel(id) in r.channels[s]
      ensures r.sockets[s].id == id
    {
      if s == sid && UserChannel(id) !in e.channels[sid] {
        assert UserChannel(id) == roomId && IsObjectId(roomId);
        UserChannelIsNoRoom(id);
        assert false;
      }
    }
  }

  lemma LeavePrivate(e: Engine, sid: SocketId, roomId: RoomId)
    requires Private(e) && sid in e.sockets
    ensures Private(LeaveRoom(e, sid, roomId))
  {
  }

  lemma SendPrivate(e: Engine, sid: SocketId, roomId: RoomId, content: string, kind: Option<string>,
                    msgId: MessageId, now: int)
    requires Private(e) && sid in e.sockets
    ensures Private(SendMessage(e, sid, roomId, content, kind, msgId, now))
  {
    var r := SendMessage(e, sid, roomId, content, kind, msgId, now);
    if r.db != e.db {
      var m := Schemas.NewMessage(msgId, content, Some(e.sockets[sid].id), Some(roomId), kind, now).value;
      TouchedRooms(e.db.(messages := e.db.messages + [m]), roomId, now);
    }
  }

  lemma DisconnectPrivate(e: Engine, sid: SocketId, now: int)
    requires Private(e) && sid in e.sockets
    ensures Private(Disconnect(e, sid, now))
  {
  }

  /** One event, with the handlers as written: the client's claimed id decides a join, any close marks offline. */
  function HandleAsWritten(e: Engine, o: Oracles, ev: Event, now: int): (r: Engine)
    requires SocketEngine.Valid(e)
    ensures SocketEngine.Valid(r)
    ensures ev.Join? && ev.sid in e.sockets ==> r == JoinRoom(e, ev.sid, ev.roomId, ev.claimed)
    ensures ev.Close? && ev.sid in e.sockets ==> r == Disconnect(e, ev.sid, now)
    ensures ev.sid !in e.sockets && !ev.Open? ==> r == e
  {
    if ev.Open? then
      if ev.sid in e.sockets then e
      else match Handshake(e.db, o, ev.token)
        case Err(_) => e
        case Ok(p) => Connect(e, ev.sid, p, now)
    else if ev.sid !in e.sockets then e
    else match ev
      case Join(sid, roomId, claimed) => JoinRoom(e, sid, roomId, claimed)
      case Leave(sid, roomId) => LeaveRoom(e, sid, roomId)
      case Send(sid, roomId, content, kind, msgId) => SendMessage(e, sid, roomId, content, kind, msgId, now)
      case TypingStart(sid, roomId) => TypingEvent(e, sid, roomId, true)
      case TypingStop(sid, roomId) => TypingEvent(e, sid, roomId, false)
      case Close(sid) => Disconnect(e, sid, now)
  }

  lemma HandleAsWrittenPrivate(e: Engine, o: Oracles, ev: Event, now: int)
    requires Private(e)
    ensures Private(HandleAsWritten(e, o, ev, now))
  {
    if ev.Open? {
      if ev.sid !in e.sockets && Handshake(e.db, o, ev.token).Ok? {
        ConnectPrivate(e, ev.sid, Handshake(e.db, o, ev.token).value, now);
      }
    } else if ev.sid in e.sockets {
      match ev
      case Join(sid, roomId, claimed) => JoinPrivate(e, sid, roomId, claimed);
      case Leave(sid, roomId) => LeavePrivate(e, sid, roomId);
      case Send(sid, roomId, content, kind, msgId) => SendPrivate(e, sid, roomId, content, kind, msgId, now);
      case TypingStart(sid, roomId) =>
      case TypingStop(sid, roomId) =>
      case Close(sid) => DisconnectPrivate(e, sid, now);
    }
  }

  /** Any run of the engine as written keeps personal channels private. */
  function RunAsWritten(e: Engine, o: Oracles, evs: seq<Event>, now: int): (r: Engine)
    requires Private(e)
    ensures Private(r)
    decreases |evs|
  {
    if evs == [] then e
    else
      HandleAsWrittenPrivate(e, o, evs[0], now);
      RunAsWritten(HandleAsWritten(e, o, evs[0], now), o, evs[1..], now)
  }
}
