/**
 * The sidebar: choosing a user opens the personal room already shared with
 * them, or asks the server for a new one; and the title shown for each room.
 *
 * Room titles are computed as written with the literal user id
 * `'current-user-id'`, which matches nobody, so a personal room is titled
 * with its first participant's name, which can be the reader's own.
 * `RoomTitle` uses the reader's id.
 */
module Sidebar {
  import opened Wrappers
  import opened Seqs
  import opened Domain
  import opened ClientTypes
  import opened ChatStore
  import opened ClientUtils
  import RoomRoutes

  /** A personal room in which the user takes part. */
  function SharedWith(userId: UserId): ClientRoom -> bool {
    (x: ClientRoom) => x.kind == Personal && exists p :: p in x.participants && p.id == userId
  }

  /** The request `handleUserSelect` sends when no room is shared yet. */
  function PersonalRequest(user: ClientUser): (r: RoomRoutes.CreateRoomBody)
    ensures r.kind == "personal" && r.participants == [user.id] && r.description.None?
    ensures r.name == "Chat with " + user.displayName
  {
    RoomRoutes.CreateRoomBody("Chat with " + user.displayName, None, "personal", [user.id])
  }

  /** What selecting a user does first: open a shared room, or send a create request. */
  datatype Step = OpenRoom(room: ClientRoom) | Request(body: RoomRoutes.CreateRoomBody)

  /** The first step of `handleUserSelect`: the first room of the list shared with the user is opened. */
  function SelectUser(rooms: seq<ClientRoom>, user: ClientUser): (r: Step)
    ensures r.OpenRoom? <==> exists x :: x in rooms && SharedWith(user.id)(x)
    ensures forall k :: IsFirst(rooms, SharedWith(user.id), k) ==> r == OpenRoom(rooms[k])
    ensures r.OpenRoom? ==> r.room in rooms && r.room.kind == Personal
                            && exists p :: p in r.room.participants && p.id == user.id
    ensures r.Request? ==> r.body == PersonalRequest(user)
  {
    FindIsFirst(rooms, SharedWith(user.id));
    match Find(rooms, SharedWith(user.id))
    case Some(x) => OpenRoom(x)
    case None => Request(PersonalRequest(user))
  }

  /**
   * `handleUserSelect`, with the server's answer to the create request as a
   * parameter (it is used only when a request is sent). A created room is put
   * first and opened; on the "already exists" error the shared room is looked
   * up again in the same list; any other error changes nothing.
   */
  function HandleUserSelect(s: ChatState, user: ClientUser, answer: Result<ClientRoom, string>): (r: ChatState)
    ensures SelectUser(s.rooms, user).OpenRoom? ==> r == s.(currentRoom := Some(SelectUser(s.rooms, user).room))
    ensures (SelectUser(s.rooms, user).Request? && answer.Ok?) ==>
              r.rooms == [answer.value] + s.rooms && r.currentRoom == Some(answer.value)
              && r.(rooms := s.rooms, currentRoom := s.currentRoom) == s
    ensures (SelectUser(s.rooms, user).Request? && answer.Err?) ==> r == s
  {
    match SelectUser(s.rooms, user)
    case OpenRoom(x) => SetCurrentRoom(s, Some(x))
    case Request(_) =>
      match answer
      case Ok(room) => SetCurrentRoom(AddRoom(s, room), Some(room))
      case Err(e) =>
        if e == RoomRoutes.PersonalExists then
          match Find(s.rooms, SharedWith(user.id))
          case Some(x) => SetCurrentRoom(s, Some(x))
          case None => s
        else s
  }

  /**
   * The lookup after "already exists" searches the list that the first lookup
   * already searched, so it never finds a room: that error changes nothing.
   */
  lemma ExistsErrorChangesNothing(s: ChatState, user: ClientUser)
    requires SelectUser(s.rooms, user).Request?
    ensures HandleUserSelect(s, user, Err(RoomRoutes.PersonalExists)) == s
  {
  }

  /** The request sent for another user passes the server's schema when the name fits, and makes a two-member room. */
  lemma RequestAccepted(user: ClientUser, me: UserId)
    requires |user.displayName| <= 90 && user.id != me
    ensures RoomRoutes.CreateRoomBodyValid(PersonalRequest(user))
    ensures |RoomRoutes.RoomMembers(PersonalRequest(user).participants, me)| == 2
  {
    var r := RoomRoutes.RoomMembers([user.id], me);
    assert (set x | x in r) == {user.id, me};
    DistinctLength(r);
  }

  // ---- room titles --------------------------------------------------------------

  const PlaceholderUserId := "current-user-id"

  /** The title of a room in the list, as written: computed for the literal placeholder id. */
  function RoomTitleAsWritten(room: ClientRoom): (r: string)
    ensures room.kind == Group ==> r == room.name
  {
    GenerateRoomName(room, PlaceholderUserId)
  }

  /** The title of a room in the list for the signed-in reader. */
  function RoomTitle(room: ClientRoom, me: UserId): (r: string)
    ensures room.kind == Group ==> r == room.name
    ensures room.kind == Personal ==>
              forall k :: IsFirst(room.participants, NotUser(me), k) ==>
                r == NameOrUnknown(room.participants[k].displayName)
    ensures room.kind == Personal ==> r == UnknownUser || exists p :: p in room.participants && p.id != me
                                                                     && p.displayName == r
  {
    GenerateRoomName(room, me)
  }

  /** As written, a personal room listing the reader first is titled with the reader's own name. */
  lemma TitleShowsOwnName(room: ClientRoom, me: ClientUser, other: ClientUser)
    requires room.kind == Personal && room.participants == [me, other]
    requires me.id != PlaceholderUserId && me.displayName != []
    ensures RoomTitleAsWritten(room) == me.displayName
  {
    var found := Find(room.participants, NotUser(PlaceholderUserId));
    assert NotUser(PlaceholderUserId)(me);
    var k :| 0 <= k < |room.participants| && room.participants[k] == found.value
             && forall j :: 0 <= j < k ==> !NotUser(PlaceholderUserId)(room.participants[j]);
    assert k == 0;
  }

  /** With the reader's id, the same room is titled with the other participant's name. */
  lemma TitleShowsOther(room: ClientRoom, me: ClientUser, other: ClientUser)
    requires room.kind == Personal && room.participants == [me, other]
    requires me.id != other.id && other.displayName != []
    ensures RoomTitle(room, me.id) == other.displayName
  {
    PersonalRoomShowsOther(room, me, other);
  }
}
