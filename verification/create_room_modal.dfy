/**
 * The create-room dialog: its form schema, how clicking a user toggles the
 * selection, how switching between group and personal resets the form, and
 * the request it submits.
 */
module CreateRoomModal {
  import opened Wrappers
  import opened Text
  import opened Seqs
  import opened Domain
  import opened Schemas
  import opened ClientTypes
  import RoomRoutes

  datatype RoomForm = RoomForm(name: string, description: Option<string>, kind: RoomType, participants: seq<UserId>)

  /** The form's defaults: a group with nobody selected and no name yet. */
  const DefaultForm := RoomForm([], None, Group, [])

  const PersonalPlaceholder := "Personal Chat"

  /** The messages of the form schema, in schema order; the form is valid when there are none. */
  function FormErrors(f: RoomForm): (r: seq<string>)
    ensures r == [] <==> && 1 <= |f.name| <= MaxRoomNameLength
                         && (f.description.Some? ==> |f.description.value| <= MaxDescriptionLength)
                         && |f.participants| >= 1
                         && (f.kind == Personal ==> |f.participants| == 1)
                         && (f.kind == Group ==> !IsBlank(f.name))
  {
    (if |f.name| < 1 then ["Room name is required"] else [])
    + (if |f.name| > MaxRoomNameLength then ["Room name too long"] else [])
    + (if f.description.Some? && |f.description.value| > MaxDescriptionLength then ["Description too long"] else [])
    + (if |f.participants| < 1 then ["Select at least one participant"] else [])
    + (if f.kind == Personal && |f.participants| != 1 then ["Personal chat must have exactly one participant"] else [])
    + (if f.kind == Group && IsBlank(f.name) then ["Room name is required for group chats"] else [])
  }

  predicate FormValid(f: RoomForm) {
    FormErrors(f) == []
  }

  // ---- selection ------------------------------------------------------------------

  /** `current.filter(id => id !== userId)`. */
  function Unselect(current: seq<UserId>, userId: UserId): (r: seq<UserId>)
    ensures forall x :: x in r <==> x in current && x != userId
    ensures |r| <= |current|
    decreases |current|
  {
    if current == [] then []
    else (if current[0] == userId then [] else [current[0]]) + Unselect(current[1..], userId)
  }

  /** The test `Unselect` keeps an entry by. */
  function IsNot(userId: UserId): UserId -> bool {
    x => x != userId
  }

  lemma {:induction false} UnselectIsFilter(current: seq<UserId>, userId: UserId)
    ensures Unselect(current, userId) == Filter(current, IsNot(userId))
    decreases |current|
  {
    if current != [] {
      UnselectIsFilter(current[1..], userId);
    }
  }

  /** Unselecting keeps the other users, each occurrence of them, in their order. */
  lemma UnselectInOrder(current: seq<UserId>, userId: UserId)
    ensures KeepsInOrder(Unselect(current, userId), current, IsNot(userId))
  {
    UnselectIsFilter(current, userId);
    FilterKeepsInOrder(current, IsNot(userId));
  }

  lemma {:induction false} UnselectAbsent(current: seq<UserId>, userId: UserId)
    requires userId !in current
    ensures Unselect(current, userId) == current
    decreases |current|
  {
    if current != [] {
      UnselectAbsent(current[1..], userId);
      assert [current[0]] + current[1..] == current;
    }
  }

  lemma {:induction false} UnselectLast(current: seq<UserId>, userId: UserId)
    ensures Unselect(current + [userId], userId) == Unselect(current, userId)
    decreases |current|
  {
    if current == [] {
      assert [] + [userId] == [userId];
    } else {
      UnselectLast(current[1..], userId);
      assert (current + [userId])[1..] == current[1..] + [userId];
    }
  }

  /**
   * `handleParticipantToggle`: in personal mode the clicked user becomes the
   * only selection, or clears it when already selected; in group mode the
   * clicked user is appended, or every occurrence of it removed.
   */
  function ToggleParticipant(kind: RoomType, current: seq<UserId>, userId: UserId): (r: seq<UserId>)
    ensures kind == Personal ==> r == (if userId in current then [] else [userId])
    ensures kind == Group && userId !in current ==> r == current + [userId]
    ensures kind == Group && userId in current ==>
              userId !in r && |r| < |current| && forall x :: x != userId ==> (x in r <==> x in current)
  {
    match kind
    case Personal => if userId in current then [] else [userId]
    case Group =>
      if userId in current then
        var r := Unselect(current, userId);
        assert |r| < |current| by { UnselectShorter(current, userId); }
        r
      else current + [userId]
  }

  lemma {:induction false} UnselectShorter(current: seq<UserId>, userId: UserId)
    requires userId in current
    ensures |Unselect(current, userId)| < |current|
    decreases |current|
  {
    if current[0] != userId {
      UnselectShorter(current[1..], userId);
    }
  }

  /** In group mode, clicking a selected user keeps the rest of the selection in order. */
  lemma GroupRemovalInOrder(current: seq<UserId>, userId: UserId)
    ensures userId in current ==>
              KeepsInOrder(ToggleParticipant(Group, current, userId), current, IsNot(userId))
  {
    UnselectInOrder(current, userId);
  }

  /** In personal mode the selection never holds more than one user. */
  lemma PersonalSelectionAtMostOne(current: seq<UserId>, userId: UserId)
    ensures |ToggleParticipant(Personal, current, userId)| <= 1
  {
  }

  /** In group mode, clicking a user twice gives back the selection. */
  lemma GroupToggleTwice(current: seq<UserId>, userId: UserId)
    requires userId !in current
    ensures ToggleParticipant(Group, ToggleParticipant(Group, current, userId), userId) == current
  {
    UnselectLast(current, userId);
    UnselectAbsent(current, userId);
  }

  /** `handleTypeChange`: personal clears the selection and sets a placeholder name; group clears the name. */
  function ChangeType(f: RoomForm, kind: RoomType): (r: RoomForm)
    ensures r.kind == kind && r.description == f.description
    ensures kind == Personal ==> r.participants == [] && r.name == PersonalPlaceholder
    ensures kind == Group ==> r.participants == f.participants && r.name == []
  {
    match kind
    case Personal => f.(kind := Personal, participants := [], name := PersonalPlaceholder)
    case Group => f.(kind := Group, name := [])
  }

  /** A fresh group form stays invalid until a name is typed in. */
  lemma GroupFormNeedsName(f: RoomForm)
    ensures !FormValid(ChangeType(f, Group))
  {
  }

  // ---- submitting -------------------------------------------------------------------

  /** `selectedUser?.displayName || 'User'`. */
  function SelectedName(users: seq<ClientUser>, participants: seq<UserId>): (r: string)
    ensures r != []
  {
    if participants == [] then "User"
    else match Find(users, (u: ClientUser) => u.id == participants[0])
      case None => "User"
      case Some(u) => if u.displayName == [] then "User" else u.displayName
  }

  /**
   * The request of `handleSubmit`: a personal room is named after the chosen
   * user and sent without a description; a group is sent as entered.
   */
  function SubmitRequest(f: RoomForm, users: seq<ClientUser>): (r: RoomRoutes.CreateRoomBody)
    ensures r.kind == RoomTypeName(f.kind) && r.participants == f.participants
    ensures f.kind == Group ==> r.name == f.name && r.description == f.description
    ensures f.kind == Personal ==> r.name == "Chat with " + SelectedName(users, f.participants)
                                   && r.description.None?
  {
    match f.kind
    case Group => RoomRoutes.CreateRoomBody(f.name, f.description, "group", f.participants)
    case Personal =>
      RoomRoutes.CreateRoomBody("Chat with " + SelectedName(users, f.participants), None, "personal", f.participants)
  }

  /**
   * A valid form yields a request the server's schema accepts (for a personal
   * room, as long as the generated name fits), and a personal request for
   * another user makes a room of exactly two members.
   */
  lemma ValidFormAccepted(f: RoomForm, users: seq<ClientUser>, me: UserId)
    requires FormValid(f)
    requires f.kind == Personal ==> |SelectedName(users, f.participants)| <= MaxRoomNameLength - 10
    ensures RoomRoutes.CreateRoomBodyValid(SubmitRequest(f, users))
    ensures f.kind == Personal && f.participants[0] != me ==>
              |RoomRoutes.RoomMembers(SubmitRequest(f, users).participants, me)| == 2
  {
    if f.kind == Personal && f.participants[0] != me {
      PairMembers(f.participants[0], me);
    }
  }

  /** The members of a room requested with one other user: that user and the creator. */
  lemma PairMembers(other: UserId, me: UserId)
    requires other != me
    ensures |RoomRoutes.RoomMembers([other], me)| == 2
  {
    var r := RoomRoutes.RoomMembers([other], me);
    assert (set x | x in r) == {other, me};
    DistinctLength(r);
  }
}
