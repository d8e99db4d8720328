/**
 * The real-time event engine. A connected socket carries the profile it was
 * authenticated with, a registry entry (the `connectedUsers` map) and the set
 * of channels it has joined: its personal channel `user_<id>` and room ids.
 * Every emission is recorded in an outbox together with the sockets it
 * reaches, resolved at the moment of the emit.
 *
 * The handlers here follow the server as written; `SocketSafety` holds the
 * two corrected handlers and the invariants they keep.
 */
module SocketEngine {
  import opened Wrappers
  import opened Seqs
  import opened Domain
  import opened Externals
  import opened Schemas

  type SocketId = string
  type Channel = string

  /** What the handshake stores in `socket.data.user` (the user without the password). */
  datatype Profile = Profile(id: UserId, displayName: string, avatar: Option<string>)

  /** An entry of the `connectedUsers` registry. */
  datatype SocketUser = SocketUser(userId: UserId, socketId: SocketId, displayName: string, avatar: Option<string>)

  /** Who an emit addresses: `io.to(ch)`, `socket.to(ch)` (everyone else in `ch`), or `socket.emit`. */
  datatype Audience = Everyone(channel: Channel) | OthersIn(channel: Channel, except: SocketId) | Caller(socket: SocketId)

  datatype Payload =
    | ErrorMsg(message: string)
    | RoomNotice(roomId: RoomId, message: string)
    | Presence(roomId: RoomId, user: Profile)
    | Chat(msg: Message)
    | Typing(roomId: RoomId, user: Profile, isTyping: bool)
    | Offline(userId: UserId, displayName: string)
    | Custom(data: string)

  datatype Emission = Emission(audience: Audience, recipients: set<SocketId>, event: string, payload: Payload)

  datatype Engine = Engine(
    sockets: map<SocketId, Profile>,
    registry: map<SocketId, SocketUser>,
    channels: map<SocketId, set<Channel>>,
    db: Db,
    outbox: seq<Emission>)

  const AuthError := "Authentication error"
  const UserNotFound := "User not found"
  const RoomDenied := "Room not found or access denied"
  const JoinFailed := "Failed to join room"
  const SendFailed := "Failed to send message"

  /** The personal channel every socket of a user joins (`user_<id>`). */
  function UserChannel(id: UserId): Channel {
    "user_" + id
  }

  function Entry(sid: SocketId, p: Profile): SocketUser {
    SocketUser(p.id, sid, p.displayName, p.avatar)
  }

  /** The three per-socket maps describe the same sockets, and the registry mirrors the profiles. */
  predicate Valid(e: Engine) {
    && e.registry.Keys == e.sockets.Keys
    && e.channels.Keys == e.sockets.Keys
    && forall s :: s in e.sockets ==> e.registry[s] == Entry(s, e.sockets[s])
  }

  /** The sockets that have joined `ch`. */
  function Members(e: Engine, ch: Channel): (r: set<SocketId>)
    ensures forall s :: s in r <==> s in e.channels && ch in e.channels[s]
  {
    set s | s in e.channels && ch in e.channels[s]
  }

  /**
   * Who an emit reaches, resolved when it is made: `socket.emit` the caller,
   * `io.to(ch)` every socket that has joined `ch`, `socket.to(ch)` every such
   * socket but the caller.
   */
  function Recipients(e: Engine, a: Audience): (r: set<SocketId>)
    ensures a.Caller? ==> r == {a.socket}
    ensures a.Everyone? ==> forall s :: s in r <==> s in e.channels && a.channel in e.channels[s]
    ensures a.OthersIn? ==> forall s :: s in r <==> s != a.except && s in e.channels && a.channel in e.channels[s]
  {
    match a
    case Everyone(ch) => Members(e, ch)
    case OthersIn(ch, s) => Members(e, ch) - {s}
    case Caller(s) => {s}
  }

  /** Records one emit, addressed as `a`, in the outbox. */
  function Emit(e: Engine, a: Audience, event: string, p: Payload): (r: Engine)
    ensures r == e.(outbox := e.outbox + [Emission(a, Recipients(e, a), event, p)])
  {
    e.(outbox := e.outbox + [Emission(a, Recipients(e, a), event, p)])
  }

  /** `socket.emit('error', { message })`. */
  function Fail(e: Engine, sid: SocketId, message: string): (r: Engine)
    ensures r == e.(outbox := e.outbox + [Emission(Caller(sid), {sid}, "error", ErrorMsg(message))])
  {
    Emit(e, Caller(sid), "error", ErrorMsg(message))
  }

  /** Error emissions reach the offending socket only. */
  predicate ErrorsToCallerOnly(out: seq<Emission>) {
    forall i :: 0 <= i < |out| && out[i].event == "error" ==> |out[i].recipients| <= 1
  }

  // ---- handshake and connection -----------------------------------------

  /**
   * The handshake middleware: a missing or empty token, a token that does not
   * verify, or claims whose id does not cast are an authentication error; a
   * well-formed id with no stored user is reported as such.
   */
  function Handshake(db: Db, o: Oracles, token: Option<string>): (r: Result<Profile, string>)
    ensures (token.None? || token.value == [] || o.verifyToken(token.value).None?) ==> r == Err(AuthError)
    ensures r.Err? ==> r.error == AuthError || r.error == UserNotFound
    ensures r.Ok? <==> && token.Some? && token.value != [] && o.verifyToken(token.value).Some?
                       && IsObjectId(o.verifyToken(token.value).value.userId)
                       && FindUser(db, o.verifyToken(token.value).value.userId).Some?
    ensures r.Ok? ==> var u := FindUser(db, o.verifyToken(token.value).value.userId).value;
                      r.value == Profile(u.id, u.displayName, u.avatar)
  {
    if token.None? || token.value == [] then Err(AuthError)
    else match o.verifyToken(token.value)
      case None => Err(AuthError)
      case Some(c) =>
        if !IsObjectId(c.userId) then Err(AuthError)
        else match FindUser(db, c.userId)
          case None => Err(UserNotFound)
          case Some(u) => Ok(Profile(u.id, u.displayName, u.avatar))
  }

  /** The room channels a socket joins on connection: one per room the user takes part in. */
  function RoomChannels(rooms: seq<Room>): (r: set<Channel>)
    ensures forall ch :: ch in r <==> exists x :: x in rooms && x.id == ch
  {
    set x | x in rooms :: x.id
  }

  /**
   * The `connection` handler: register the socket, mark the user online, join
   * the personal channel and the channels of all the user's rooms. Nothing is
   * emitted. Socket ids are fresh.
   */
  function Connect(e: Engine, sid: SocketId, p: Profile, now: int): (r: Engine)
    requires Valid(e) && sid !in e.sockets
    ensures Valid(r)
    ensures r.sockets == e.sockets[sid := p] && r.registry == e.registry[sid := Entry(sid, p)]
    ensures r.channels == e.channels[sid := {UserChannel(p.id)} + RoomChannels(RoomsOf(e.db, p.id))]
    ensures r.db == SetOnline(e.db, p.id, true, now)
    ensures r.outbox == e.outbox
    ensures |r.registry| == |e.registry| + 1
  {
    Engine(e.sockets[sid := p], e.registry[sid := Entry(sid, p)],
           e.channels[sid := {UserChannel(p.id)} + RoomChannels(RoomsOf(e.db, p.id))],
           SetOnline(e.db, p.id, true, now), e.outbox)
  }

  /** A new socket: a refused handshake leaves the engine as it was; an accepted one connects. */
  function Accept(e: Engine, o: Oracles, sid: SocketId, token: Option<string>, now: int): (r: Engine)
    requires Valid(e) && sid !in e.sockets
    ensures Valid(r)
    ensures Handshake(e.db, o, token).Err? ==> r == e
    ensures Handshake(e.db, o, token).Ok? ==>
              && |r.registry| == |e.registry| + 1
              && r.registry == e.registry[sid := Entry(sid, Handshake(e.db, o, token).value)]
              && r == Connect(e, sid, Handshake(e.db, o, token).value, now)
  {
    match Handshake(e.db, o, token)
    case Err(_) => e
    case Ok(p) => Connect(e, sid, p, now)
  }

  /** A connected socket hears its personal channel and every room its user takes part in. */
  lemma ConnectSubscribes(e: Engine, sid: SocketId, p: Profile, now: int, x: Room)
    requires Valid(e) && sid !in e.sockets
    requires x in e.db.rooms && p.id in x.participants
    ensures sid in Members(Connect(e, sid, p, now), x.id)
    ensures sid in Members(Connect(e, sid, p, now), UserChannel(p.id))
  {
    assert x in RoomsOf(e.db, p.id);
  }

  // ---- room membership ----------------------------------------------------

  /**
   * `join_room` as written: access is checked for the `userId` the client puts
   * in the request, not for the socket's own user. An id that does not cast
   * is reported as a failed join.
   */
  function JoinRoom(e: Engine, sid: SocketId, roomId: RoomId, claimed: UserId): (r: Engine)
    requires Valid(e) && sid in e.sockets
    ensures Valid(r)
    ensures r.sockets == e.sockets && r.registry == e.registry && r.db == e.db
    ensures !(IsObjectId(roomId) && IsObjectId(claimed)) ==> r == Fail(e, sid, JoinFailed)
    ensures (IsObjectId(roomId) && IsObjectId(claimed) && FindRoomFor(e.db, roomId, claimed).None?)
              ==> r == Fail(e, sid, RoomDenied)
    ensures r.channels != e.channels ==> r.channels == e.channels[sid := e.channels[sid] + {roomId}]
    ensures roomId in r.channels[sid] <==>
              roomId in e.channels[sid] || (IsObjectId(roomId) && IsObjectId(claimed)
                                            && FindRoomFor(e.db, roomId, claimed).Some?)
    ensures ErrorsToCallerOnly(e.outbox) ==> ErrorsToCallerOnly(r.outbox)
  {
    if !(IsObjectId(roomId) && IsObjectId(claimed)) then Fail(e, sid, JoinFailed)
    else if FindRoomFor(e.db, roomId, claimed).None? then Fail(e, sid, RoomDenied)
    else Subscribe(e, sid, roomId)
  }

  /** The success path of a join: subscribe, confirm to the caller, tell the others in the room. */
  function Subscribe(e: Engine, sid: SocketId, roomId: RoomId): (r: Engine)
    requires Valid(e) && sid in e.sockets
    ensures Valid(r)
    ensures r.sockets == e.sockets && r.registry == e.registry && r.db == e.db
    ensures r.channels == e.channels[sid := e.channels[sid] + {roomId}]
    ensures |r.outbox| == |e.outbox| + 2 && r.outbox[..|e.outbox|] == e.outbox
    ensures r.outbox[|e.outbox|] == Emission(Caller(sid), {sid}, "joined_room", RoomNotice(roomId, "Successfully joined room"))
    ensures r.outbox[|e.outbox| + 1] ==
              Emission(OthersIn(roomId, sid), Members(r, roomId) - {sid}, "user_joined", Presence(roomId, e.sockets[sid]))
    ensures sid in Members(r, roomId)
  {
    var joined := e.(channels := e.channels[sid := e.channels[sid] + {roomId}]);
    var confirmed := Emit(joined, Caller(sid), "joined_room", RoomNotice(roomId, "Successfully joined room"));
    Emit(confirmed, OthersIn(roomId, sid), "user_joined", Presence(roomId, e.sockets[sid]))
  }

  /** `leave_room`: unsubscribe (no check of any kind), confirm, tell the remaining members. */
  function LeaveRoom(e: Engine, sid: SocketId, roomId: RoomId): (r: Engine)
    requires Valid(e) && sid in e.sockets
    ensures Valid(r)
    ensures r.sockets == e.sockets && r.registry == e.registry && r.db == e.db
    ensures r.channels == e.channels[sid := e.channels[sid] - {roomId}]
    ensures sid !in Members(r, roomId)
    ensures |r.outbox| == |e.outbox| + 2 && r.outbox[..|e.outbox|] == e.outbox
    ensures r.outbox[|e.outbox|] == Emission(Caller(sid), {sid}, "left_room", RoomNotice(roomId, "Successfully left room"))
    ensures r.outbox[|e.outbox| + 1] ==
              Emission(OthersIn(roomId, sid), Members(e, roomId) - {sid}, "user_left", Presence(roomId, e.sockets[sid]))
  {
    var left := e.(channels := e.channels[sid := e.channels[sid] - {roomId}]);
    assert Members(left, roomId) - {sid} == Members(e, roomId) - {sid};
    var confirmed := Emit(left, Caller(sid), "left_room", RoomNotice(roomId, "Successfully left room"));
    Emit(confirmed, OthersIn(roomId, sid), "user_left", Presence(roomId, e.sockets[sid]))
  }

  /** Joining a room and leaving it again restores the socket's subscriptions. */
  lemma SubscribeThenLeave(e: Engine, sid: SocketId, roomId: RoomId)
    requires Valid(e) && sid in e.sockets && roomId !in e.channels[sid]
    ensures LeaveRoom(Subscribe(e, sid, roomId), sid, roomId).channels == e.channels
  {
    var s := Subscribe(e, sid, roomId);
    assert s.channels[sid] - {roomId} == e.channels[sid];
  }

  // ---- messages and typing ----------------------------------------------

  /**
   * `send_message`: the sender must take part in the room; the message is
   * validated and stored, broadcast to every socket in the room (the sender's
   * included), and the room's activity time is set.
   */
  function SendMessage(e: Engine, sid: SocketId, roomId: RoomId, content: string, kind: Option<string>,
                       msgId: MessageId, now: int): (r: Engine)
    requires Valid(e) && sid in e.sockets
    ensures Valid(r)
    ensures r.sockets == e.sockets && r.registry == e.registry && r.channels == e.channels
    ensures var uid := e.sockets[sid].id;
            !(IsObjectId(roomId) && IsObjectId(uid)) ==> r == Fail(e, sid, SendFailed)
    ensures var uid := e.sockets[sid].id;
            (IsObjectId(roomId) && IsObjectId(uid) && FindRoomFor(e.db, roomId, uid).None?)
              ==> r == Fail(e, sid, RoomDenied)
    ensures var uid := e.sockets[sid].id;
            (IsObjectId(roomId) && IsObjectId(uid) && FindRoomFor(e.db, roomId, uid).Some?) ==>
              if NewMessageOk(e, sid, roomId, content, kind, msgId, now) then r.db != e.db
              else r == Fail(e, sid, SendFailed)
    ensures r.db == e.db ==> exists msg :: r == Fail(e, sid, msg)
    ensures r.db != e.db ==>
              var uid := e.sockets[sid].id;
              && FindRoomFor(e.db, roomId, uid).Some?
              && NewMessageOk(e, sid, roomId, content, kind, msgId, now)
              && var m := Schemas.NewMessage(msgId, content, Some(uid), Some(roomId), kind, now).value;
                 && r.db == UpdateRoom(e.db.(messages := e.db.messages + [m]), roomId,
                                       (x: Room) => x.(updatedAt := now))
                 && r.outbox == e.outbox + [Emission(Everyone(roomId), Members(e, roomId), "new_message", Chat(m))]
    ensures ErrorsToCallerOnly(e.outbox) ==> ErrorsToCallerOnly(r.outbox)
    ensures WellFormed(e.db) ==> WellFormed(r.db)
  {
    var uid := e.sockets[sid].id;
    if !(IsObjectId(roomId) && IsObjectId(uid)) then Fail(e, sid, SendFailed)
    else if FindRoomFor(e.db, roomId, uid).None? then Fail(e, sid, RoomDenied)
    else match Schemas.NewMessage(msgId, content, Some(uid), Some(roomId), kind, now)
      case Err(_) => Fail(e, sid, SendFailed)
      case Ok(m) =>
        match InsertMessage(e.db, m)
        case None => Fail(e, sid, SendFailed)
        case Some(d) =>
          var sent := Emit(e.(db := d), Everyone(roomId), "new_message", Chat(m));
          var r := sent.(db := UpdateRoom(d, roomId, (x: Room) => x.(updatedAt := now)));
          assert r.db != e.db by { assert |r.db.messages| == |e.db.messages| + 1; }
          if WellFormed(e.db) then TouchKeepsKeys(d, roomId, now); r else r
  }

  /** The message document validates and its id is not taken. */
  predicate NewMessageOk(e: Engine, sid: SocketId, roomId: RoomId, content: string, kind: Option<string>,
                         msgId: MessageId, now: int)
    requires sid in e.sockets
  {
    && Schemas.NewMessage(msgId, content, Some(e.sockets[sid].id), Some(roomId), kind, now).Ok?
    && forall y :: y in e.db.messages ==> y.id != msgId
  }

  /** Setting a room's activity time keeps every id as it was. */
  lemma TouchKeepsKeys(d: Db, roomId: RoomId, now: int)
    requires WellFormed(d)
    ensures WellFormed(UpdateRoom(d, roomId, (x: Room) => x.(updatedAt := now)))
  {
    var r := UpdateRoom(d, roomId, (x: Room) => x.(updatedAt := now));
    assert forall i :: 0 <= i < |d.rooms| ==> r.rooms[i].id == d.rooms[i].id;
  }

  /** A message that is accepted is stored in the room's history and reaches every socket in the room. */
  lemma SentMessageDelivered(e: Engine, sid: SocketId, roomId: RoomId, content: string, kind: Option<string>,
                             msgId: MessageId, now: int)
    requires Valid(e) && sid in e.sockets
    requires SendMessage(e, sid, roomId, content, kind, msgId, now).db != e.db
    ensures var r := SendMessage(e, sid, roomId, content, kind, msgId, now);
            var last := r.outbox[|r.outbox| - 1];
            && last.event == "new_message"
            && last.recipients == Members(e, roomId)
            && last.payload.msg in MessagesOf(r.db, roomId)
            && last.payload.msg.sender == e.sockets[sid].id
  {
    var r := SendMessage(e, sid, roomId, content, kind, msgId, now);
    var uid := e.sockets[sid].id;
    var m := Schemas.NewMessage(msgId, content, Some(uid), Some(roomId), kind, now).value;
    var d := e.db.(messages := e.db.messages + [m]);
    assert r.db.messages == d.messages;
    assert m in r.db.messages;
  }

  /** `typing_start` / `typing_stop`: tell everyone else in the room; no membership check. */
  function TypingEvent(e: Engine, sid: SocketId, roomId: RoomId, isTyping: bool): (r: Engine)
    requires Valid(e) && sid in e.sockets
    ensures Valid(r)
    ensures r.sockets == e.sockets && r.registry == e.registry && r.channels == e.channels && r.db == e.db
    ensures r.outbox == e.outbox + [Emission(OthersIn(roomId, sid), Members(e, roomId) - {sid}, "user_typing",
                                             Typing(roomId, e.sockets[sid], isTyping))]
    ensures sid !in r.outbox[|r.outbox| - 1].recipients
  {
    Emit(e, OthersIn(roomId, sid), "user_typing", Typing(roomId, e.sockets[sid], isTyping))
  }

  // ---- disconnection ------------------------------------------------------

  /** One `user_offline` notice per room, addressed to the room's remaining sockets. */
  function OfflineNotices(e: Engine, sid: SocketId, p: Profile, rooms: seq<Room>): (r: seq<Emission>)
    ensures |r| == |rooms|
    ensures forall i :: 0 <= i < |rooms| ==>
              r[i] == Emission(OthersIn(rooms[i].id, sid), Members(e, rooms[i].id) - {sid}, "user_offline",
                               Offline(p.id, p.displayName))
  {
    if rooms == [] then []
    else [Emission(OthersIn(rooms[0].id, sid), Members(e, rooms[0].id) - {sid}, "user_offline",
                   Offline(p.id, p.displayName))]
         + OfflineNotices(e, sid, p, rooms[1..])
  }

  /** Removes a socket from the registry, the profiles and every channel. */
  function Drop(e: Engine, sid: SocketId): (r: Engine)
    requires Valid(e)
    ensures Valid(r)
    ensures r.sockets == e.sockets - {sid} && r.registry == e.registry - {sid} && r.channels == e.channels - {sid}
    ensures r.db == e.db && r.outbox == e.outbox
    ensures sid in e.sockets ==> |r.registry| == |e.registry| - 1
  {
    e.(sockets := e.sockets - {sid}, registry := e.registry - {sid}, channels := e.channels - {sid})
  }

  /**
   * `disconnect` as written: the socket has already left all its channels;
   * the registry entry goes, the user is marked offline whatever other
   * sockets it still has, and each of its rooms is told.
   */
  function Disconnect(e: Engine, sid: SocketId, now: int): (r: Engine)
    requires Valid(e) && sid in e.sockets
    ensures Valid(r)
    ensures |r.registry| == |e.registry| - 1
    ensures r.sockets == e.sockets - {sid} && r.registry == e.registry - {sid} && r.channels == e.channels - {sid}
    ensures r.db == SetOnline(e.db, e.sockets[sid].id, false, now)
    ensures r.outbox == e.outbox + OfflineNotices(Drop(e, sid), sid, e.sockets[sid], RoomsOf(e.db, e.sockets[sid].id))
    ensures forall i :: |e.outbox| <= i < |r.outbox| ==> sid !in r.outbox[i].recipients
  {
    var p := e.sockets[sid];
    var gone := Drop(e, sid);
    var notices := OfflineNotices(gone, sid, p, RoomsOf(e.db, p.id));
    gone.(db := SetOnline(e.db, p.id, false, now), outbox := e.outbox + notices)
  }

  // ---- server-side helpers --------------------------------------------------

  /** `getConnectedUsersCount`. */
  function ConnectedCount(e: Engine): (r: nat)
    requires Valid(e)
    ensures r == |e.sockets|
  {
    assert e.registry.Keys == e.sockets.Keys;
    |e.registry|
  }

  /** `getConnectedUsers`: the registry entries (their order is not modelled). */
  function ConnectedUsers(e: Engine): (r: set<SocketUser>)
    requires Valid(e)
    ensures forall u :: u in r <==> exists s :: s in e.sockets && u == Entry(s, e.sockets[s])
  {
    e.registry.Values
  }

  /** `emitToRoom`: one emit reaching every socket in the room's channel; nothing else changes. */
  function EmitToRoom(e: Engine, roomId: RoomId, event: string, data: string): (r: Engine)
    ensures r.(outbox := e.outbox) == e
    ensures |r.outbox| == |e.outbox| + 1 && r.outbox[..|e.outbox|] == e.outbox
    ensures r.outbox[|e.outbox|].event == event && r.outbox[|e.outbox|].payload == Custom(data)
    ensures forall s :: s in r.outbox[|e.outbox|].recipients <==> s in e.channels && roomId in e.channels[s]
  {
    Emit(e, Everyone(roomId), event, Custom(data))
  }

  /** `emitToUser`: one emit reaching every socket in the user's personal channel; nothing else changes. */
  function EmitToUser(e: Engine, userId: UserId, event: string, data: string): (r: Engine)
    ensures r.(outbox := e.outbox) == e
    ensures |r.outbox| == |e.outbox| + 1 && r.outbox[..|e.outbox|] == e.outbox
    ensures r.outbox[|e.outbox|].event == event && r.outbox[|e.outbox|].payload == Custom(data)
    ensures forall s :: s in r.outbox[|e.outbox|].recipients <==> s in e.channels && UserChannel(userId) in e.channels[s]
  {
    Emit(e, Everyone(UserChannel(userId)), event, Custom(data))
  }

  /** A socket receives what is sent to its user from the moment it connects. */
  lemma ConnectedSocketReachable(e: Engine, sid: SocketId, p: Profile, now: int, event: string, data: string)
    requires Valid(e) && sid !in e.sockets
    ensures var c := Connect(e, sid, p, now);
            sid in EmitToUser(c, p.id, event, data).outbox[|c.outbox|].recipients
  {
  }
}
