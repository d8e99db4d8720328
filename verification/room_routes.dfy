/**
 * The room routes: create, list, read, update and delete chat rooms, page
 * through a room's history, and list the other users. Every route runs after
 * the token check; `caller` is the verified token's claims. An id that the
 * store cannot cast to an object id makes the query throw, which the routes
 * report as a 500.
 */
module RoomRoutes {
  import opened Wrappers
  import opened Text
  import opened Seqs
  import opened Domain
  import opened Externals
  import opened Schemas
  import opened Http
  import opened AuthRoutes

  const PersonalNeedsTwo := "Personal rooms must have exactly 2 participants"
  const PersonalExists := "Personal room already exists between these users"
  const ParticipantsNotFound := "One or more participants not found"
  const RoomNotFound := "Room not found or access denied"
  const OnlyCreatorUpdates := "Only room creator can update group rooms"
  const OnlyCreatorDeletes := "Only room creator can delete group rooms"

  predicate AllObjectIds(ids: seq<string>) {
    forall i :: 0 <= i < |ids| ==> IsObjectId(ids[i])
  }

  // ---- POST /rooms --------------------------------------------------------

  datatype CreateRoomBody = CreateRoomBody(name: string, description: Option<string>, kind: string,
                                           participants: seq<UserId>)

  /** The create-room request schema (on the raw, untrimmed strings). */
  predicate CreateRoomBodyValid(b: CreateRoomBody) {
    && 1 <= |b.name| <= MaxRoomNameLength
    && (b.description.Some? ==> |b.description.value| <= MaxDescriptionLength)
    && ParseRoomType(b.kind).Some?
    && |b.participants| >= 1
  }

  /**
   * `[...new Set([...participants, userId])]`: the requested users and the
   * creator, once each, in order of first mention; a creator who did not list
   * themselves comes last.
   */
  function RoomMembers(requested: seq<UserId>, creator: UserId): (r: seq<UserId>)
    ensures NoDuplicates(r)
    ensures forall x :: x in r <==> x in requested || x == creator
    ensures creator in r
    ensures forall i, j :: 0 <= i < j < |r| ==>
              FirstIndex(requested + [creator], r[i]) < FirstIndex(requested + [creator], r[j])
    ensures creator !in requested ==> r[|r| - 1] == creator
  {
    CreatorLast(requested, creator);
    Dedupe(requested + [creator])
  }

  lemma CreatorLast(requested: seq<UserId>, creator: UserId)
    ensures creator !in requested ==>
              var r := Dedupe(requested + [creator]); r[|r| - 1] == creator
  {
    if creator in requested { return; }
    var all := requested + [creator];
    var r := Dedupe(all);
    assert FirstIndex(all, creator) == |requested| by { assert all[|requested|] == creator; }
    var k :| 0 <= k < |r| && r[k] == creator;
    if k < |r| - 1 {
      assert false;
    }
  }

  /** `ChatRoom.findOne({ type: 'personal', participants: { $all: ids } })`. */
  function FindPersonalRoomWith(db: Db, ids: seq<UserId>): (r: Option<Room>)
    ensures r.Some? ==> r.value in db.rooms && r.value.kind == Personal
                        && forall x :: x in ids ==> x in r.value.participants
    ensures r.None? <==> forall y :: y in db.rooms && y.kind == Personal ==>
                           exists x :: x in ids && x !in y.participants
  {
    Find(db.rooms, (y: Room) => y.kind == Personal && forall x :: x in ids ==> x in y.participants)
  }

  /** `User.find({ _id: { $in: ids } }).length`. */
  function CountUsersIn(db: Db, ids: seq<UserId>): nat {
    |Filter(db.users, (u: User) => u.id in ids)|
  }

  predicate AllUsersExist(db: Db, ids: seq<UserId>) {
    forall x :: x in ids ==> FindUser(db, x).Some?
  }

  /**
   * POST /rooms. The room's participants are the requested users plus the
   * creator, without repeats. A personal room needs exactly two of them and
   * must not duplicate an existing personal room; every participant must be a
   * stored user.
   */
  function CreateRoom(db: Db, caller: Claims, b: CreateRoomBody, newId: RoomId, now: int): (r: Handled<Room>)
    ensures !CreateRoomBodyValid(b) ==> r == Handled(db, Failure(400, ValidationError))
    ensures (&& CreateRoomBodyValid(b) && ParseRoomType(b.kind) == Some(Personal)
             && |RoomMembers(b.participants, caller.userId)| != 2)
              ==> r == Handled(db, Failure(400, PersonalNeedsTwo))
    ensures r.reply.Failure? ==> r.db == db
    ensures var members := RoomMembers(b.participants, caller.userId);
            var personal := ParseRoomType(b.kind) == Some(Personal);
            (CreateRoomBodyValid(b) && (personal ==> |members| == 2)) ==>
              && (!AllObjectIds(members) ==> r == Handled(db, Failure(500, InternalError)))
              && ((AllObjectIds(members) && personal && FindPersonalRoomWith(db, members).Some?)
                    ==> r == Handled(db, Failure(400, PersonalExists)))
              && ((&& WellFormed(db) && AllObjectIds(members)
                   && (personal ==> FindPersonalRoomWith(db, members).None?)
                   && !AllUsersExist(db, members))
                    ==> r == Handled(db, Failure(400, ParticipantsNotFound)))
    ensures WellFormed(db) ==>
              (r.reply.Success? <==>
                 var members := RoomMembers(b.participants, caller.userId);
                 && CreateRoomBodyValid(b)
                 && (ParseRoomType(b.kind) == Some(Personal) ==>
                       |members| == 2 && FindPersonalRoomWith(db, members).None?)
                 && AllObjectIds(members)
                 && AllUsersExist(db, members)
                 && !IsBlank(b.name)
                 && (forall y :: y in db.rooms ==> y.id != newId))
    ensures r.reply.Success? ==>
              && r.reply.status == 201
              && r.reply.body == RoomDocument(newId, b, ParseRoomType(b.kind).value,
                                              RoomMembers(b.participants, caller.userId), caller.userId, now)
              && r.db == db.(rooms := db.rooms + [r.reply.body])
    ensures WellFormed(db) ==> WellFormed(r.db)
  {
    if !CreateRoomBodyValid(b) then Handled(db, Failure(400, ValidationError))
    else
      var kind := ParseRoomType(b.kind).value;
      var members := RoomMembers(b.participants, caller.userId);
      assert WellFormed(db) ==> (CountUsersIn(db, members) == |members| <==> AllUsersExist(db, members)) by {
        if WellFormed(db) { CountUsersDecides(db, members); }
      }
      if kind == Personal && |members| != 2 then Handled(db, Failure(400, PersonalNeedsTwo))
      else if !AllObjectIds(members) then Handled(db, Failure(500, InternalError))
      else if kind == Personal && FindPersonalRoomWith(db, members).Some? then Handled(db, Failure(400, PersonalExists))
      else if CountUsersIn(db, members) != |members| then Handled(db, Failure(400, ParticipantsNotFound))
      else SaveRoom(db, newId, b, kind, members, caller.userId, now)
  }

  /** The room document the create route builds: name and description trimmed by the schema. */
  function RoomDocument(id: RoomId, b: CreateRoomBody, kind: RoomType, members: seq<UserId>,
                        createdBy: UserId, now: int): Room {
    Room(id, Trim(b.name), if b.description.Some? then Some(Trim(b.description.value)) else None,
         kind, members, createdBy, now)
  }

  /** `room.save()` for a request that passed the route's checks: schema validation, then the insert. */
  function SaveRoom(db: Db, id: RoomId, b: CreateRoomBody, kind: RoomType, members: seq<UserId>,
                    createdBy: UserId, now: int): (r: Handled<Room>)
    requires CreateRoomBodyValid(b)
    requires kind == Group || |members| == 2
    ensures r.reply.Failure? ==> r == Handled(db, Failure(500, InternalError))
    ensures r.reply.Success? <==> !IsBlank(b.name) && forall y :: y in db.rooms ==> y.id != id
    ensures r.reply.Success? ==>
              && r.reply == Success(201, RoomDocument(id, b, kind, members, createdBy, now))
              && r.db == db.(rooms := db.rooms + [r.reply.body])
    ensures WellFormed(db) ==> WellFormed(r.db)
  {
    NewRoomFromRequest(id, b, kind, members, createdBy, now);
    var x := RoomDocument(id, b, kind, members, createdBy, now);
    if NewRoom(id, b.name, b.description, kind, members, createdBy, now).Err? then
      Handled(db, Failure(500, InternalError))
    else match InsertRoom(db, x)
      case None => Handled(db, Failure(500, InternalError))
      case Some(d) => Handled(d, Success(201, x))
  }

  /** For a request that passed the request schema, the room schema rejects only a blank name. */
  lemma NewRoomFromRequest(id: RoomId, b: CreateRoomBody, kind: RoomType, members: seq<UserId>,
                           createdBy: UserId, now: int)
    requires CreateRoomBodyValid(b)
    requires kind == Group || |members| == 2
    ensures NewRoom(id, b.name, b.description, kind, members, createdBy, now).Ok? <==> !IsBlank(b.name)
    ensures NewRoom(id, b.name, b.description, kind, members, createdBy, now).Ok? ==>
              NewRoom(id, b.name, b.description, kind, members, createdBy, now).value
                == RoomDocument(id, b, kind, members, createdBy, now)
  {
    TrimBound(b.name);
    TrimBound(if b.description.Some? then b.description.value else []);
  }

  /** Trimming never lengthens a string. */
  lemma TrimBound(s: string)
    ensures |Trim(s)| <= |s|
  {
  }

  /** The ids of the stored users that occur in `ids`. */
  ghost function FoundIds(users: seq<User>, ids: seq<UserId>): set<UserId> {
    set u | u in users && u.id in ids :: u.id
  }

  /** With distinct user ids, the users matched by `$in` are as many as the distinct ids they carry. */
  lemma CountFound(users: seq<User>, ids: seq<UserId>)
    requires DistinctBy(users, (u: User) => u.id)
    ensures |Filter(users, (u: User) => u.id in ids)| == |FoundIds(users, ids)|
  {
    var f := Filter(users, (u: User) => u.id in ids);
    FilterDistinctBy(users, (u: User) => u.id in ids, (u: User) => u.id);
    var fi := seq(|f|, i requires 0 <= i < |f| => f[i].id);
    assert NoDuplicates(fi);
    DistinctLength(fi);
    assert (set x | x in fi) == FoundIds(users, ids) by {
      forall x | x in fi ensures x in FoundIds(users, ids) {
        var k :| 0 <= k < |fi| && fi[k] == x;
        assert f[k] in f;
      }
      forall x | x in FoundIds(users, ids) ensures x in fi {
        var u :| u in users && u.id in ids && u.id == x;
        assert u in f;
        var k :| 0 <= k < |f| && f[k] == u;
        assert fi[k] == x;
      }
    }
  }

  /** With distinct ids and stored user ids, the route's count comparison decides exactly whether every id names a stored user. */
  lemma CountUsersDecides(db: Db, ids: seq<UserId>)
    requires WellFormed(db) && NoDuplicates(ids)
    ensures CountUsersIn(db, ids) == |ids| <==> AllUsersExist(db, ids)
  {
    assert DistinctBy(db.users, (u: User) => u.id);
    CountFound(db.users, ids);
    var found := FoundIds(db.users, ids);
    var all := set x | x in ids;
    DistinctLength(ids);
    assert found <= all;
    if AllUsersExist(db, ids) {
      forall x | x in all ensures x in found {
        var u := FindUser(db, x).value;
      }
      assert found == all;
    }
    if CountUsersIn(db, ids) == |ids| {
      SubsetSameSize(found, all);
      forall x | x in ids ensures FindUser(db, x).Some? {
        assert x in found;
      }
    }
  }

  // ---- GET /rooms -------------------------------------------------------

  /** The sort `{ updatedAt: -1 }`: the most recently active rooms first. */
  function NewerFirst(): (Room, Room) -> bool {
    (a: Room, b: Room) => a.updatedAt >= b.updatedAt
  }

  lemma NewerFirstIsPreorder()
    ensures TotalPreorder(NewerFirst())
  {
  }

  /** GET /rooms: the caller's rooms, each exactly once, most recently active first. */
  function ListRooms(db: Db, caller: Claims): (r: Reply<seq<Room>>)
    ensures !IsObjectId(caller.userId) <==> r == Failure(500, InternalError)
    ensures r.Success? ==>
              && r.status == 200
              && multiset(r.body) == multiset(RoomsOf(db, caller.userId))
              && (forall x :: x in r.body <==> x in db.rooms && caller.userId in x.participants)
              && (forall i, j :: 0 <= i < j < |r.body| ==> r.body[i].updatedAt >= r.body[j].updatedAt)
  {
    if !IsObjectId(caller.userId) then Failure(500, InternalError)
    else
      NewerFirstIsPreorder();
      var rooms := SortBy(RoomsOf(db, caller.userId), NewerFirst());
      assert forall x :: x in rooms <==> x in multiset(RoomsOf(db, caller.userId));
      Success(200, rooms)
  }

  // ---- GET /rooms/:roomId -------------------------------------------------

  /** GET /rooms/:roomId: the room, to its participants only. */
  function GetRoom(db: Db, caller: Claims, roomId: RoomId): (r: Reply<Room>)
    ensures !(IsObjectId(roomId) && IsObjectId(caller.userId)) ==> r == Failure(500, InternalError)
    ensures IsObjectId(roomId) && IsObjectId(caller.userId) ==>
              && (r.Success? <==> exists x :: x in db.rooms && x.id == roomId && caller.userId in x.participants)
              && (r.Failure? ==> r == Failure(404, RoomNotFound))
    ensures r.Success? ==> r.status == 200 && r.body in db.rooms && r.body.id == roomId
                           && caller.userId in r.body.participants
  {
    if !(IsObjectId(roomId) && IsObjectId(caller.userId)) then Failure(500, InternalError)
    else match FindRoomFor(db, roomId, caller.userId)
      case None => Failure(404, RoomNotFound)
      case Some(x) => Success(200, x)
  }

  /** A room just created can be read back by its creator. */
  lemma CreateThenGet(db: Db, caller: Claims, b: CreateRoomBody, newId: RoomId, now: int)
    requires WellFormed(db) && IsObjectId(newId)
    requires CreateRoom(db, caller, b, newId, now).reply.Success?
    ensures var h := CreateRoom(db, caller, b, newId, now);
            GetRoom(h.db, caller, newId) == Success(200, h.reply.body)
  {
    var h := CreateRoom(db, caller, b, newId, now);
    var members := RoomMembers(b.participants, caller.userId);
    assert AllObjectIds(members);
    assert caller.userId in members;
    assert IsObjectId(caller.userId);
    var k := |db.rooms|;
    assert h.db.rooms[k] == h.reply.body;
    UniqueRoomLookup(h.db, k, caller.userId);
  }

  /** With unique room ids, a participant's lookup of a stored room finds exactly that room. */
  lemma UniqueRoomLookup(db: Db, k: nat, userId: UserId)
    requires WellFormed(db) && k < |db.rooms| && userId in db.rooms[k].participants
    ensures FindRoomFor(db, db.rooms[k].id, userId) == Some(db.rooms[k])
  {
    var found := FindRoomFor(db, db.rooms[k].id, userId).value;
    var j :| 0 <= j < |db.rooms| && db.rooms[j] == found;
    assert db.rooms[j].id == db.rooms[k].id;
  }

  /** Asking twice for the same personal room: the second request is refused. */
  lemma PersonalRoomOnce(db: Db, caller: Claims, b: CreateRoomBody, id1: RoomId, id2: RoomId, t1: int, t2: int)
    requires WellFormed(db)
    requires ParseRoomType(b.kind) == Some(Personal)
    requires CreateRoom(db, caller, b, id1, t1).reply.Success?
    ensures CreateRoom(CreateRoom(db, caller, b, id1, t1).db, caller, b, id2, t2)
              == Handled(CreateRoom(db, caller, b, id1, t1).db, Failure(400, PersonalExists))
  {
    var d := CreateRoom(db, caller, b, id1, t1).db;
    var x := CreateRoom(db, caller, b, id1, t1).reply.body;
    var members := RoomMembers(b.participants, caller.userId);
    assert d.rooms[|db.rooms|] == x;
    assert x.participants == members && x.kind == Personal;
    assert FindPersonalRoomWith(d, members).Some?;
  }

  // ---- PUT /rooms/:roomId ----------------------------------------------------

  datatype RoomUpdate = RoomUpdate(name: Option<string>, description: Option<string>)

  /** The update-room request schema (on the raw strings, each only if supplied). */
  predicate RoomUpdateValid(b: RoomUpdate) {
    && (b.name.Some? ==> 1 <= |b.name.value| <= MaxRoomNameLength)
    && (b.description.Some? ==> |b.description.value| <= MaxDescriptionLength)
  }

  /** What the update writes: the supplied fields, trimmed, and the update time. */
  function ApplyRoomUpdate(x: Room, b: RoomUpdate, now: int): Room {
    x.(name := if b.name.Some? then Trim(b.name.value) else x.name,
       description := if b.description.Some? then Some(Trim(b.description.value)) else x.description,
       updatedAt := now)
  }

  /** Who may change or delete a room: anyone in a personal room, only the creator of a group room. */
  predicate MayManage(x: Room, userId: UserId) {
    x.kind == Personal || x.createdBy == userId
  }

  /**
   * PUT /rooms/:roomId. The request schema is checked before anything else.
   * Only participants may update, and of a group room only its creator; the
   * supplied fields are stored trimmed and must satisfy the room schema.
   */
  function EditRoom(db: Db, caller: Claims, roomId: RoomId, b: RoomUpdate, now: int): (r: Handled<Room>)
    ensures !RoomUpdateValid(b) ==> r == Handled(db, Failure(400, ValidationError))
    ensures r.reply.Failure? ==> r.db == db
    ensures RoomUpdateValid(b) && IsObjectId(roomId) && IsObjectId(caller.userId) ==>
              match FindRoomFor(db, roomId, caller.userId)
              case None => r == Handled(db, Failure(404, RoomNotFound))
              case Some(x) =>
                && (!MayManage(x, caller.userId) ==> r == Handled(db, Failure(403, OnlyCreatorUpdates)))
                && (MayManage(x, caller.userId) && b.name.Some? && IsBlank(b.name.value) ==>
                      r == Handled(db, Failure(500, InternalError)))
                && (MayManage(x, caller.userId) && (b.name.Some? ==> !IsBlank(b.name.value)) ==>
                      r == Handled(UpdateRoom(db, roomId, (y: Room) => ApplyRoomUpdate(y, b, now)),
                                   Success(200, ApplyRoomUpdate(x, b, now))))
    ensures RoomUpdateValid(b) && !(IsObjectId(roomId) && IsObjectId(caller.userId)) ==>
              r == Handled(db, Failure(500, InternalError))
    ensures r.reply.Success? ==>
              && RoomUpdateValid(b) && IsObjectId(roomId) && IsObjectId(caller.userId)
              && FindRoomFor(db, roomId, caller.userId).Some?
              && MayManage(FindRoomFor(db, roomId, caller.userId).value, caller.userId)
              && r.reply == Success(200, ApplyRoomUpdate(FindRoomFor(db, roomId, caller.userId).value, b, now))
              && r.db == UpdateRoom(db, roomId, (y: Room) => ApplyRoomUpdate(y, b, now))
              && r.reply.body.id == roomId && r.reply.body.updatedAt == now
              && r.reply.body.participants == FindRoomFor(db, roomId, caller.userId).value.participants
              && r.reply.body.kind == FindRoomFor(db, roomId, caller.userId).value.kind
              && r.reply.body.createdBy == FindRoomFor(db, roomId, caller.userId).value.createdBy
  {
    if !RoomUpdateValid(b) then Handled(db, Failure(400, ValidationError))
    else if !(IsObjectId(roomId) && IsObjectId(caller.userId)) then Handled(db, Failure(500, InternalError))
    else match FindRoomFor(db, roomId, caller.userId)
      case None => Handled(db, Failure(404, RoomNotFound))
      case Some(x) =>
        if !MayManage(x, caller.userId) then Handled(db, Failure(403, OnlyCreatorUpdates))
        else if b.name.Some? && CheckRoomName(b.name.value).Invalid? then Handled(db, Failure(500, InternalError))
        else if b.description.Some? && CheckDescription(b.description.value).Invalid?
        then Handled(db, Failure(500, InternalError))
        else
          Handled(UpdateRoom(db, roomId, (y: Room) => ApplyRoomUpdate(y, b, now)),
                  Success(200, ApplyRoomUpdate(x, b, now)))
  }

  /** Another participant of a group room can neither change nor delete it. */
  lemma GroupRoomGuarded(db: Db, caller: Claims, roomId: RoomId, b: RoomUpdate, now: int)
    requires RoomUpdateValid(b) && IsObjectId(roomId) && IsObjectId(caller.userId)
    requires FindRoomFor(db, roomId, caller.userId).Some?
    requires FindRoomFor(db, roomId, caller.userId).value.kind == Group
    requires FindRoomFor(db, roomId, caller.userId).value.createdBy != caller.userId
    ensures EditRoom(db, caller, roomId, b, now) == Handled(db, Failure(403, OnlyCreatorUpdates))
    ensures DeleteRoom(db, caller, roomId) == Handled(db, Failure(403, OnlyCreatorDeletes))
  {
  }

  /** After a successful update, reading the room shows the update. */
  lemma EditThenGet(db: Db, caller: Claims, roomId: RoomId, b: RoomUpdate, now: int)
    requires WellFormed(db)
    requires EditRoom(db, caller, roomId, b, now).reply.Success?
    ensures var h := EditRoom(db, caller, roomId, b, now);
            GetRoom(h.db, caller, roomId) == Success(200, h.reply.body)
  {
    var h := EditRoom(db, caller, roomId, b, now);
    var x := FindRoomFor(db, roomId, caller.userId).value;
    var k :| 0 <= k < |db.rooms| && db.rooms[k] == x;
    assert h.db.rooms[k] == ApplyRoomUpdate(x, b, now);
    assert forall i :: 0 <= i < |db.rooms| ==> h.db.rooms[i].id == db.rooms[i].id;
    assert WellFormed(h.db);
    UniqueRoomLookup(h.db, k, caller.userId);
  }

  // ---- DELETE /rooms/:roomId ---------------------------------------------

  /** `Message.deleteMany({ roomId })` then `ChatRoom.findByIdAndDelete(roomId)`. */
  function RemoveRoom(db: Db, roomId: RoomId): (r: Db)
    ensures r.users == db.users
    ensures forall x :: x in r.rooms <==> x in db.rooms && x.id != roomId
    ensures forall m :: m in r.messages <==> m in db.messages && m.roomId != roomId
    ensures WellFormed(db) ==> WellFormed(r)
  {
    var r := db.(rooms := Filter(db.rooms, (x: Room) => x.id != roomId),
                 messages := Filter(db.messages, (m: Message) => m.roomId != roomId));
    if WellFormed(db) then RemoveKeepsKeys(db, roomId); r else r
  }

  lemma RemoveKeepsKeys(db: Db, roomId: RoomId)
    requires WellFormed(db)
    ensures WellFormed(db.(rooms := Filter(db.rooms, (x: Room) => x.id != roomId),
                           messages := Filter(db.messages, (m: Message) => m.roomId != roomId)))
  {
    assert DistinctBy(db.rooms, (x: Room) => x.id);
    assert DistinctBy(db.messages, (m: Message) => m.id);
    FilterDistinctBy(db.rooms, (x: Room) => x.id != roomId, (x: Room) => x.id);
    FilterDistinctBy(db.messages, (m: Message) => m.roomId != roomId, (m: Message) => m.id);
  }

  /** DELETE /rooms/:roomId: removes the room and its whole history. */
  function DeleteRoom(db: Db, caller: Claims, roomId: RoomId): (r: Handled<string>)
    ensures !(IsObjectId(roomId) && IsObjectId(caller.userId)) ==> r == Handled(db, Failure(500, InternalError))
    ensures IsObjectId(roomId) && IsObjectId(caller.userId) ==>
              match FindRoomFor(db, roomId, caller.userId)
              case None => r == Handled(db, Failure(404, RoomNotFound))
              case Some(x) =>
                if !MayManage(x, caller.userId) then r == Handled(db, Failure(403, OnlyCreatorDeletes))
                else r == Handled(RemoveRoom(db, roomId), Success(200, "Room deleted successfully"))
  {
    if !(IsObjectId(roomId) && IsObjectId(caller.userId)) then Handled(db, Failure(500, InternalError))
    else match FindRoomFor(db, roomId, caller.userId)
      case None => Handled(db, Failure(404, RoomNotFound))
      case Some(x) =>
        if !MayManage(x, caller.userId) then Handled(db, Failure(403, OnlyCreatorDeletes))
        else Handled(RemoveRoom(db, roomId), Success(200, "Room deleted successfully"))
  }

  /** After a deletion the room is gone for everybody, with no message left behind. */
  lemma DeleteThenGet(db: Db, caller: Claims, roomId: RoomId, anyone: Claims)
    requires DeleteRoom(db, caller, roomId).reply.Success?
    ensures IsObjectId(anyone.userId) ==>
              GetRoom(DeleteRoom(db, caller, roomId).db, anyone, roomId) == Failure(404, RoomNotFound)
    ensures forall m :: m in DeleteRoom(db, caller, roomId).db.messages ==> m.roomId != roomId
  {
    assert DeleteRoom(db, caller, roomId).db == RemoveRoom(db, roomId);
  }

  // ---- GET /rooms/:roomId/messages --------------------------------------

  const DefaultPage := 1
  const DefaultLimit := 20
  const MaxLimit := 100

  /** The reply of the history route: one page, oldest first, and the page arithmetic. */
  datatype MessagePage = MessagePage(messages: seq<Message>, page: int, limit: int, total: int, pages: int)

  /** `Math.ceil(n / l)` for a non-negative count and a positive page size. */
  function CeilDiv(n: nat, l: nat): (r: nat)
    requires l >= 1
    ensures r * l >= n
    ensures n > 0 ==> (r - 1) * l < n
    ensures n == 0 ==> r == 0
  {
    (n + l - 1) / l
  }

  /** The sort `{ createdAt: -1 }`: the newest message first. */
  function LaterFirst(): (Message, Message) -> bool {
    (a: Message, b: Message) => a.createdAt >= b.createdAt
  }

  lemma LaterFirstIsPreorder()
    ensures TotalPreorder(LaterFirst())
  {
  }

  /** A room's history, newest first. */
  function NewestFirst(db: Db, roomId: RoomId): (r: seq<Message>)
    ensures multiset(r) == multiset(MessagesOf(db, roomId))
    ensures forall i, j :: 0 <= i < j < |r| ==> r[i].createdAt >= r[j].createdAt
  {
    LaterFirstIsPreorder();
    SortBy(MessagesOf(db, roomId), LaterFirst())
  }

  /** The same history, oldest first: the order in which the pages are shown. */
  function History(db: Db, roomId: RoomId): seq<Message> {
    Reverse(NewestFirst(db, roomId))
  }

  /** `page` and `limit` after defaulting, if they pass the query schema. */
  predicate PagingValid(page: Option<int>, limit: Option<int>) {
    page.GetOr(DefaultPage) >= 1 && 1 <= limit.GetOr(DefaultLimit) <= MaxLimit
  }

  function Min(a: int, b: int): int { if a <= b then a else b }
  function Max(a: int, b: int): int { if a >= b then a else b }

  /**
   * GET /rooms/:roomId/messages. The query is checked first, then access. The
   * history sorted newest first is cut at `skip = (page - 1) * limit`, at most
   * `limit` messages are kept, and they are returned oldest first.
   */
  function RoomMessages(db: Db, caller: Claims, roomId: RoomId, page: Option<int>, limit: Option<int>)
    : (r: Reply<MessagePage>)
    ensures !PagingValid(page, limit) ==> r == Failure(400, ValidationError)
    ensures PagingValid(page, limit) && !(IsObjectId(roomId) && IsObjectId(caller.userId)) ==>
              r == Failure(500, InternalError)
    ensures PagingValid(page, limit) && IsObjectId(roomId) && IsObjectId(caller.userId) ==>
              (r.Success? <==> exists x :: x in db.rooms && x.id == roomId && caller.userId in x.participants)
    ensures r.Success? ==>
              && PagingValid(page, limit)
              && r == Success(200, PageReply(db, roomId, page.GetOr(DefaultPage), limit.GetOr(DefaultLimit)))
  {
    if !PagingValid(page, limit) then Failure(400, ValidationError)
    else if !(IsObjectId(roomId) && IsObjectId(caller.userId)) then Failure(500, InternalError)
    else match FindRoomFor(db, roomId, caller.userId)
      case None => Failure(404, RoomNotFound)
      case Some(_) => Success(200, PageReply(db, roomId, page.GetOr(DefaultPage), limit.GetOr(DefaultLimit)))
  }

  /**
   * The body of a history reply for page `p` of size `l`: the page's messages
   * and a page count that just covers the room's total.
   */
  function PageReply(db: Db, roomId: RoomId, p: int, l: int): (r: MessagePage)
    requires p >= 1 && l >= 1
    ensures r.page == p && r.limit == l
    ensures r.total == |MessagesOf(db, roomId)|
    ensures r.messages == PageMessages(db, roomId, p, l)
    ensures r.pages * l >= r.total
    ensures r.total > 0 ==> (r.pages - 1) * l < r.total
  {
    var newest := NewestFirst(db, roomId);
    NewestFirstSameMessages(db, roomId);
    MessagePage(PageMessages(db, roomId, p, l), p, l, |newest|, CeilDiv(|newest|, l))
  }

  /**
   * The messages of page `p` of size `l`: at most `l` of them, cut from the
   * history sorted newest first after skipping `(p - 1) * l`.
   */
  function PageMessages(db: Db, roomId: RoomId, p: int, l: int): (r: seq<Message>)
    requires p >= 1 && l >= 1
    ensures |r| <= l
    ensures r == PageOf(NewestFirst(db, roomId), Skip(p, l), l)
  {
    PageOf(NewestFirst(db, roomId), Skip(p, l), l)
  }

  /**
   * A page holds messages of the room only, oldest first. Stated apart from
   * `PageMessages`, so that proofs about how pages fit together do not carry it.
   */
  lemma PageMessagesOrdered(db: Db, roomId: RoomId, p: int, l: int)
    requires p >= 1 && l >= 1
    ensures var r := PageMessages(db, roomId, p, l);
            && (forall m :: m in r ==> m in db.messages && m.roomId == roomId)
            && (forall i, j :: 0 <= i < j < |r| ==> r[i].createdAt <= r[j].createdAt)
  {
    NewestFirstSameMessages(db, roomId);
    PageOfOrder(NewestFirst(db, roomId), Skip(p, l), l);
  }

  /** Sorting keeps exactly the room's messages. */
  lemma NewestFirstSameMessages(db: Db, roomId: RoomId)
    ensures |NewestFirst(db, roomId)| == |MessagesOf(db, roomId)|
    ensures forall m :: m in NewestFirst(db, roomId) <==> m in db.messages && m.roomId == roomId
  {
    var newest := NewestFirst(db, roomId);
    assert |multiset(newest)| == |multiset(MessagesOf(db, roomId))|;
    forall m ensures m in newest <==> m in MessagesOf(db, roomId) {
      assert m in newest <==> m in multiset(newest);
      assert m in MessagesOf(db, roomId) <==> m in multiset(MessagesOf(db, roomId));
    }
  }

  /**
   * One page of a newest-first history: skip `skip` messages, keep at most
   * `l`, show them oldest first. Equivalently, the slice of the oldest-first
   * history that ends `skip` messages before its end.
   */
  function PageOf(newest: seq<Message>, skip: nat, l: nat): (r: seq<Message>)
    ensures |r| <= l
    ensures r == Reverse(newest)[Max(0, |newest| - skip - l) .. Max(0, |newest| - skip)]
  {
    var n := |newest|;
    var a := Min(skip, n);
    var b := Min(skip + l, n);
    ReverseSlice(newest, a, b);
    Reverse(newest[a..b])
  }

  /** A page holds messages of the history only, and shows a newest-first history oldest first. */
  lemma PageOfOrder(newest: seq<Message>, skip: nat, l: nat)
    ensures forall m :: m in PageOf(newest, skip, l) ==> m in newest
    ensures (forall i, j :: 0 <= i < j < |newest| ==> newest[i].createdAt >= newest[j].createdAt) ==>
              forall i, j :: 0 <= i < j < |PageOf(newest, skip, l)| ==>
                PageOf(newest, skip, l)[i].createdAt <= PageOf(newest, skip, l)[j].createdAt
  {
    var n := |newest|;
    var b := Min(skip + l, n);
    var r := PageOf(newest, skip, l);
    var h := Reverse(newest);
    assert r == h[n - b .. n - b + |r|];
    forall k | 0 <= k < |r| ensures r[k] == newest[b - 1 - k] {
      assert r[k] == h[n - b + k];
    }
    forall m | m in r ensures m in newest {
      var k :| 0 <= k < |r| && r[k] == m;
      assert r[k] == newest[b - 1 - k];
    }
    if forall i, j :: 0 <= i < j < |newest| ==> newest[i].createdAt >= newest[j].createdAt {
      forall i, j | 0 <= i < j < |r| ensures r[i].createdAt <= r[j].createdAt {
        assert r[i] == newest[b - 1 - i] && r[j] == newest[b - 1 - j];
      }
    }
  }

  /**
   * `skip = (page - 1) * limit`: how many newer messages come before page `p`,
   * one page size per earlier page.
   */
  function Skip(p: int, l: int): (r: nat)
    requires p >= 1 && l >= 1
    decreases p
  {
    if p == 1 then 0 else Skip(p - 1, l) + l
  }

  /** The skip is the product the route computes. */
  lemma {:induction false} SkipIsProduct(p: int, l: int)
    requires p >= 1 && l >= 1
    ensures Skip(p, l) == (p - 1) * l
    decreases p
  {
    if p > 1 {
      SkipIsProduct(p - 1, l);
      assert (p - 1) * l == (p - 2) * l + l;
    }
  }

  /** Page `p` is the slice of the oldest-first history that ends `(p - 1) * l` messages before its end. */
  lemma PageIsHistorySlice(db: Db, roomId: RoomId, p: int, l: int)
    requires p >= 1 && l >= 1
    ensures var n := |History(db, roomId)|;
            var skip := Skip(p, l);
            PageMessages(db, roomId, p, l) == History(db, roomId)[Max(0, n - skip - l) .. Max(0, n - skip)]
  {
    PageOfReversed(NewestFirst(db, roomId), History(db, roomId), PageMessages(db, roomId, p, l), Skip(p, l), l);
  }

  /** `PageOf`'s slice, read off a history already reversed. */
  lemma PageOfReversed(newest: seq<Message>, h: seq<Message>, page: seq<Message>, skip: nat, l: nat)
    requires h == Reverse(newest) && page == PageOf(newest, skip, l)
    ensures page == h[Max(0, |h| - skip - l) .. Max(0, |h| - skip)]
  {
  }

  /** Consecutive pages fit together: page `p + 1` ends where page `p` starts. */
  lemma PagesTile(db: Db, roomId: RoomId, p: int, l: int)
    requires p >= 1 && l >= 1
    ensures var n := |History(db, roomId)|;
            var skip := Skip(p, l);
            PageMessages(db, roomId, p + 1, l) + PageMessages(db, roomId, p, l)
              == History(db, roomId)[Max(0, n - skip - 2 * l) .. Max(0, n - skip)]
  {
    PagesOfTile(NewestFirst(db, roomId), History(db, roomId),
                PageMessages(db, roomId, p + 1, l), PageMessages(db, roomId, p, l),
                Skip(p, l), Skip(p + 1, l), l);
  }

  /** Two consecutive pages of one newest-first list form one slice of the list reversed. */
  lemma PagesOfTile(newest: seq<Message>, h: seq<Message>, x: seq<Message>, y: seq<Message>,
                    skip: nat, next: nat, l: nat)
    requires h == Reverse(newest) && next == skip + l
    requires x == PageOf(newest, next, l) && y == PageOf(newest, skip, l)
    ensures x + y == h[Max(0, |h| - skip - 2 * l) .. Max(0, |h| - skip)]
  {
    SlicesTile(h, x, y, skip, next, l);
  }

  /** The slice of `l` ending `skip + l` before the end, then the one ending `skip` before it, form one slice. */
  lemma SlicesTile<T>(h: seq<T>, x: seq<T>, y: seq<T>, skip: nat, next: nat, l: nat)
    requires next == skip + l
    requires x == h[Max(0, |h| - next - l) .. Max(0, |h| - next)]
    requires y == h[Max(0, |h| - skip - l) .. Max(0, |h| - skip)]
    ensures x + y == h[Max(0, |h| - skip - 2 * l) .. Max(0, |h| - skip)]
  {
    var a := Max(0, |h| - skip - 2 * l);
    var b := Max(0, |h| - skip - l);
    var c := Max(0, |h| - skip);
    assert h[a..b] + h[b..c] == h[a..c];
  }

  // ---- GET /users ---------------------------------------------------------

  /** The sort `{ displayName: 1 }`. */
  function ByName(): (User, User) -> bool {
    (a: User, b: User) => LexLe(a.displayName, b.displayName)
  }

  lemma ByNameIsPreorder()
    ensures TotalPreorder(ByName())
  {
    forall a: User, b: User ensures LexLe(a.displayName, b.displayName) || LexLe(b.displayName, a.displayName) {
      LexLeTotal(a.displayName, b.displayName);
    }
    forall a: User, b: User, c: User | LexLe(a.displayName, b.displayName) && LexLe(b.displayName, c.displayName)
      ensures LexLe(a.displayName, c.displayName)
    {
      LexLeTransitive(a.displayName, b.displayName, c.displayName);
    }
  }

  /** `User.find({ _id: { $ne: id } }).sort({ displayName: 1 })`: every other user, each once, by name. */
  function OthersByName(db: Db, id: UserId): (r: seq<User>)
    ensures multiset(r) == multiset(Filter(db.users, (u: User) => u.id != id))
    ensures |r| == |Filter(db.users, (u: User) => u.id != id)|
    ensures forall u :: u in r <==> u in db.users && u.id != id
    ensures forall i, j :: 0 <= i < j < |r| ==> LexLe(r[i].displayName, r[j].displayName)
  {
    ByNameIsPreorder();
    var others := Filter(db.users, (u: User) => u.id != id);
    var sorted := SortBy(others, ByName());
    assert |multiset(sorted)| == |multiset(others)|;
    forall u ensures u in sorted <==> u in others {
      assert u in sorted <==> u in multiset(sorted);
      assert u in others <==> u in multiset(others);
    }
    sorted
  }

  /** The projection of users to what the route returns (`select` without the password). */
  function Views(us: seq<User>): (r: seq<ProfileView>)
    ensures |r| == |us|
    ensures forall i :: 0 <= i < |us| ==> r[i] == View(us[i])
  {
    seq(|us|, i requires 0 <= i < |us| => View(us[i]))
  }

  /** GET /users: every other user, by display name, without passwords. */
  function ListUsers(db: Db, caller: Claims): (r: Reply<seq<ProfileView>>)
    ensures !IsObjectId(caller.userId) <==> r == Failure(500, InternalError)
    ensures r.Success? ==> r == Success(200, Views(OthersByName(db, caller.userId)))
    ensures IsObjectId(caller.userId) ==> r == Success(200, Views(OthersByName(db, caller.userId)))
  {
    if !IsObjectId(caller.userId) then Failure(500, InternalError)
    else Success(200, Views(OthersByName(db, caller.userId)))
  }

  /** The caller never appears in the user list, and every other user does. */
  lemma ListUsersExcludesCaller(db: Db, caller: Claims)
    requires IsObjectId(caller.userId)
    ensures forall v :: v in ListUsers(db, caller).body ==> v.user.id != caller.userId
    ensures forall u :: u in db.users && u.id != caller.userId ==> View(u) in ListUsers(db, caller).body
  {
    var us := OthersByName(db, caller.userId);
    var vs := ListUsers(db, caller).body;
    forall v | v in vs ensures v.user.id != caller.userId {
      var k :| 0 <= k < |vs| && vs[k] == v;
      assert us[k] in us;
    }
    forall u | u in db.users && u.id != caller.userId ensures View(u) in vs {
      assert u in us;
      var k :| 0 <= k < |us| && us[k] == u;
      assert vs[k] == View(u);
    }
  }
}
