/**
 * The records the web client receives from the server: users, rooms whose
 * participants and creator are populated user objects, messages with a
 * populated sender, and the user object of a typing notice. Timestamps are
 * milliseconds since the epoch.
 */
module ClientTypes {
  import opened Wrappers
  import opened Domain

  /**
   * A user as the client reads it. Its id is `id`, the field the client code
   * compares; the server's populated documents carry the same value as `_id`.
   */
  datatype ClientUser = ClientUser(
    id: UserId,
    email: string,
    displayName: string,
    avatar: Option<string>,
    isOnline: bool,
    lastSeen: int)

  datatype ClientRoom = ClientRoom(
    id: RoomId,
    name: string,
    description: Option<string>,
    kind: RoomType,
    participants: seq<ClientUser>,
    createdBy: ClientUser,
    updatedAt: int)

  datatype ClientMessage = ClientMessage(
    id: MessageId,
    content: string,
    kind: MessageType,
    sender: ClientUser,
    roomId: RoomId,
    createdAt: int)

  /** An entry of a room's typing list. */
  datatype TypingUser = TypingUser(id: UserId, displayName: string, avatar: Option<string>)
}
