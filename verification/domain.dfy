/**
 * The persistent records of the chat server (users, rooms, messages) and an
 * in-memory stand-in for the document store. Each collection is a sequence in
 * insertion order, which is the order in which an unsorted query returns it.
 */
module Domain {
  import opened Wrappers
  import opened Seqs

  type UserId = string
  type RoomId = string
  type MessageId = string

  predicate IsHexDigit(c: char) {
    '0' <= c <= '9' || 'a' <= c <= 'f' || 'A' <= c <= 'F'
  }

  /**
   * A string the document store accepts as an object id: 24 hexadecimal digits.
   * A query or document holding any other string in an id position fails with a
   * cast error.
   */
  predicate IsObjectId(s: string) {
    |s| == 24 && forall i :: 0 <= i < |s| ==> IsHexDigit(s[i])
  }

  datatype RoomType = Group | Personal

  function RoomTypeName(t: RoomType): string {
    match t
    case Group => "group"
    case Personal => "personal"
  }

  /** The `enum(['group', 'personal'])` check. */
  function ParseRoomType(s: string): (r: Option<RoomType>)
    ensures r.Some? <==> s == "group" || s == "personal"
    ensures r.Some? ==> RoomTypeName(r.value) == s
  {
    if s == "group" then Some(Group)
    else if s == "personal" then Some(Personal)
    else None
  }

  /** Printing a room type and parsing it back gives the same type. */
  lemma RoomTypeRoundTrip(t: RoomType)
    ensures ParseRoomType(RoomTypeName(t)) == Some(t)
  {
  }

  datatype MessageType = TextMessage | ImageMessage | FileMessage

  function MessageTypeName(t: MessageType): string {
    match t
    case TextMessage => "text"
    case ImageMessage => "image"
    case FileMessage => "file"
  }

  /** The `enum(['text', 'image', 'file'])` check. */
  function ParseMessageType(s: string): (r: Option<MessageType>)
    ensures r.Some? <==> s == "text" || s == "image" || s == "file"
    ensures r.Some? ==> MessageTypeName(r.value) == s
  {
    if s == "text" then Some(TextMessage)
    else if s == "image" then Some(ImageMessage)
    else if s == "file" then Some(FileMessage)
    else None
  }

  /** A stored user; `passwordHash` is what the password field holds after hashing. */
  datatype User = User(
    id: UserId,
    email: string,
    passwordHash: string,
    displayName: string,
    avatar: Option<string>,
    isOnline: bool,
    lastSeen: int)

  /** A stored chat room; `updatedAt` is an opaque timestamp. */
  datatype Room = Room(
    id: RoomId,
    name: string,
    description: Option<string>,
    kind: RoomType,
    participants: seq<UserId>,
    createdBy: UserId,
    updatedAt: int)

  /** A stored message; `createdAt` is an opaque timestamp. */
  datatype Message = Message(
    id: MessageId,
    content: string,
    sender: UserId,
    roomId: RoomId,
    kind: MessageType,
    createdAt: int)

  datatype Db = Db(users: seq<User>, rooms: seq<Room>, messages: seq<Message>)

  /** Unique indexes: user ids, user e-mails, room ids and message ids are distinct. */
  predicate WellFormed(db: Db) {
    && (forall i, j :: 0 <= i < j < |db.users| ==>
          db.users[i].id != db.users[j].id && db.users[i].email != db.users[j].email)
    && (forall i, j :: 0 <= i < j < |db.rooms| ==> db.rooms[i].id != db.rooms[j].id)
    && (forall i, j :: 0 <= i < j < |db.messages| ==> db.messages[i].id != db.messages[j].id)
  }

  /** `User.findById(id)`. */
  function FindUser(db: Db, id: UserId): (r: Option<User>)
    ensures r.Some? ==> r.value in db.users && r.value.id == id
    ensures r.None? <==> forall u :: u in db.users ==> u.id != id
  {
    Find(db.users, (u: User) => u.id == id)
  }

  /** `User.findOne({ email })`. */
  function FindUserByEmail(db: Db, email: string): (r: Option<User>)
    ensures r.Some? ==> r.value in db.users && r.value.email == email
    ensures r.None? <==> forall u :: u in db.users ==> u.email != email
  {
    Find(db.users, (u: User) => u.email == email)
  }

  /** `ChatRoom.findOne({ _id: roomId, participants: userId })`: the room, if `userId` takes part in it. */
  function FindRoomFor(db: Db, roomId: RoomId, userId: UserId): (r: Option<Room>)
    ensures r.Some? ==> r.value in db.rooms && r.value.id == roomId && userId in r.value.participants
    ensures r.None? <==> forall x :: x in db.rooms ==> !(x.id == roomId && userId in x.participants)
  {
    Find(db.rooms, (x: Room) => x.id == roomId && userId in x.participants)
  }

  /** The query condition `{ participants: userId }`. */
  function TakesPart(userId: UserId): Room -> bool {
    (x: Room) => userId in x.participants
  }

  /** The query condition `{ roomId }`. */
  function PostedIn(roomId: RoomId): Message -> bool {
    (m: Message) => m.roomId == roomId
  }

  /** `ChatRoom.find({ participants: userId })`: the user's rooms, once each, in store order. */
  function RoomsOf(db: Db, userId: UserId): (r: seq<Room>)
    ensures forall x :: x in r <==> x in db.rooms && userId in x.participants
  {
    Filter(db.rooms, TakesPart(userId))
  }

  /**
   * The user's rooms keep their store order and multiplicity. Stated apart
   * from `RoomsOf`, so that proofs about channels do not carry it.
   */
  lemma RoomsOfInOrder(db: Db, userId: UserId)
    ensures KeepsInOrder(RoomsOf(db, userId), db.rooms, TakesPart(userId))
  {
    FilterKeepsInOrder(db.rooms, TakesPart(userId));
  }

  /** `Message.find({ roomId })`: the room's messages, once each, in store (creation) order. */
  function MessagesOf(db: Db, roomId: RoomId): (r: seq<Message>)
    ensures forall m :: m in r <==> m in db.messages && m.roomId == roomId
  {
    Filter(db.messages, PostedIn(roomId))
  }

  /**
   * The room's messages keep their store order and multiplicity. Stated apart
   * from `MessagesOf`, so that proofs about history pages do not carry it.
   */
  lemma MessagesOfInOrder(db: Db, roomId: RoomId)
    ensures KeepsInOrder(MessagesOf(db, roomId), db.messages, PostedIn(roomId))
  {
    FilterKeepsInOrder(db.messages, PostedIn(roomId));
  }

  /** `User.findByIdAndUpdate(id, …)`: rewrites the user with that id, if any. */
  function UpdateUser(db: Db, id: UserId, f: User -> User): (r: Db)
    ensures r.rooms == db.rooms && r.messages == db.messages
    ensures |r.users| == |db.users|
    ensures forall i :: 0 <= i < |db.users| ==>
              r.users[i] == (if db.users[i].id == id then f(db.users[i]) else db.users[i])
  {
    db.(users := MapWhere(db.users, (u: User) => u.id == id, f))
  }

  /** `ChatRoom.findByIdAndUpdate(id, …)`: rewrites the room with that id, if any. */
  function UpdateRoom(db: Db, id: RoomId, f: Room -> Room): (r: Db)
    ensures r.users == db.users && r.messages == db.messages
    ensures |r.rooms| == |db.rooms|
    ensures forall i :: 0 <= i < |db.rooms| ==>
              r.rooms[i] == (if db.rooms[i].id == id then f(db.rooms[i]) else db.rooms[i])
  {
    db.(rooms := MapWhere(db.rooms, (x: Room) => x.id == id, f))
  }

  /** Sets a user's presence flag and last-seen time (`updateUserOnlineStatus`). */
  function SetOnline(db: Db, id: UserId, online: bool, now: int): (r: Db)
    ensures r.rooms == db.rooms && r.messages == db.messages
    ensures |r.users| == |db.users|
    ensures forall i :: 0 <= i < |db.users| ==>
              r.users[i] == (if db.users[i].id == id
                             then db.users[i].(isOnline := online, lastSeen := now)
                             else db.users[i])
  {
    UpdateUser(db, id, (u: User) => u.(isOnline := online, lastSeen := now))
  }

  /** Presence updates change neither ids nor e-mails, so the unique indexes still hold. */
  lemma SetOnlineKeepsIndexes(db: Db, id: UserId, online: bool, now: int)
    requires WellFormed(db)
    ensures WellFormed(SetOnline(db, id, online, now))
  {
    var r := SetOnline(db, id, online, now);
    forall i, j | 0 <= i < j < |r.users|
      ensures r.users[i].id != r.users[j].id && r.users[i].email != r.users[j].email
    {
      assert db.users[i].id != db.users[j].id && db.users[i].email != db.users[j].email;
    }
  }

  /** Insertion under the unique indexes on user id and e-mail: a duplicate key fails. */
  function InsertUser(db: Db, u: User): (r: Option<Db>)
    ensures r.None? <==> exists v :: v in db.users && (v.id == u.id || v.email == u.email)
    ensures r.Some? ==> r.value == db.(users := db.users + [u])
    ensures r.Some? && WellFormed(db) ==> WellFormed(r.value)
  {
    if exists v :: v in db.users && (v.id == u.id || v.email == u.email) then None
    else
      var d := db.(users := db.users + [u]);
      assert forall i :: 0 <= i < |db.users| ==> db.users[i] in db.users;
      Some(d)
  }

  /** Insertion under the unique index on room id: a duplicate key fails. */
  function InsertRoom(db: Db, x: Room): (r: Option<Db>)
    ensures r.None? <==> exists y :: y in db.rooms && y.id == x.id
    ensures r.Some? ==> r.value == db.(rooms := db.rooms + [x])
    ensures r.Some? && WellFormed(db) ==> WellFormed(r.value)
  {
    if exists y :: y in db.rooms && y.id == x.id then None
    else
      var d := db.(rooms := db.rooms + [x]);
      assert forall i :: 0 <= i < |db.rooms| ==> db.rooms[i] in db.rooms;
      Some(d)
  }

  /** Insertion under the unique index on message id: a duplicate key fails. */
  function InsertMessage(db: Db, m: Message): (r: Option<Db>)
    ensures r.None? <==> exists y :: y in db.messages && y.id == m.id
    ensures r.Some? ==> r.value == db.(messages := db.messages + [m])
    ensures r.Some? && WellFormed(db) ==> WellFormed(r.value)
  {
    if exists y :: y in db.messages && y.id == m.id then None
    else
      var d := db.(messages := db.messages + [m]);
      assert forall i :: 0 <= i < |db.messages| ==> db.messages[i] in db.messages;
      Some(d)
  }
}
