/**
 * The document schemas of the store: the setters (`trim`, `lowercase`), defaults,
 * validators and save hooks of the message, chat-room and user models. A
 * validator reports at most one error per field; a document is saved only when
 * no field reports one.
 */
module Schemas {
  import opened Wrappers
  import opened Text
  import opened Domain
  import opened Externals

  datatype FieldError = FieldError(path: string, message: string)

  /** Why a save was refused: schema validation, or a `pre('save')` hook. */
  datatype SaveError = ValidationFailed(errors: seq<FieldError>) | HookRejected(message: string)

  const MaxMessageLength := 2000
  const MaxRoomNameLength := 100
  const MaxDescriptionLength := 500
  const MinPasswordLength := 6
  const MinDisplayNameLength := 2
  const MaxDisplayNameLength := 50

  /** One field's check: the stored (already trimmed) value, or its error. */
  datatype Checked = Valid(value: string) | Invalid(error: FieldError)

  /** Collects the errors of several checked fields, in schema order. */
  function Errors(cs: seq<Checked>): (r: seq<FieldError>)
    ensures r == [] <==> forall k :: 0 <= k < |cs| ==> cs[k].Valid?
  {
    if cs == [] then []
    else (if cs[0].Invalid? then [cs[0].error] else []) + Errors(cs[1..])
  }

  // ---- Message.ts -------------------------------------------------------

  /** `content`: trimmed, required (non-empty after trimming), at most 2000 characters. */
  function CheckContent(content: string): (r: Checked)
    ensures r.Valid? <==> !IsBlank(content) && |Trim(content)| <= MaxMessageLength
    ensures r.Valid? ==> r.value == Trim(content)
  {
    var v := Trim(content);
    if v == [] then Invalid(FieldError("content", "Message content is required"))
    else if |v| > MaxMessageLength then Invalid(FieldError("content", "Message cannot exceed 2000 characters"))
    else Valid(v)
  }

  /** A required object-id field: absent values and values that do not cast are errors. */
  function CheckObjectId(path: string, required: string, v: Option<string>): (r: Checked)
    ensures r.Valid? <==> v.Some? && IsObjectId(v.value)
    ensures r.Valid? ==> r.value == v.value
  {
    match v
    case None => Invalid(FieldError(path, required))
    case Some(s) => if IsObjectId(s) then Valid(s) else Invalid(FieldError(path, "Cast to ObjectId failed"))
  }

  /** `type`: one of 'text', 'image', 'file', defaulting to 'text'. */
  function CheckMessageType(t: Option<string>): (r: Checked)
    ensures r.Valid? <==> t.None? || ParseMessageType(t.value).Some?
    ensures r.Valid? ==> r.value == t.GetOr("text")
  {
    var v := t.GetOr("text");
    if ParseMessageType(v).Some? then Valid(v)
    else Invalid(FieldError("type", "`" + v + "` is not a valid enum value for path `type`."))
  }

  /**
   * `new Message({ content, sender, roomId, type })` followed by validation:
   * either the document that would be stored, or the failing fields.
   */
  function NewMessage(id: MessageId, content: string, sender: Option<UserId>, roomId: Option<RoomId>,
                      kind: Option<string>, now: int): (r: Result<Message, SaveError>)
    ensures r.Ok? <==> && !IsBlank(content) && |Trim(content)| <= MaxMessageLength
                       && sender.Some? && IsObjectId(sender.value)
                       && roomId.Some? && IsObjectId(roomId.value)
                       && (kind.None? || ParseMessageType(kind.value).Some?)
    ensures r.Ok? ==> && r.value.id == id && r.value.content == Trim(content)
                      && r.value.sender == sender.value && r.value.roomId == roomId.value
                      && MessageTypeName(r.value.kind) == kind.GetOr("text")
                      && r.value.createdAt == now
    ensures r.Err? ==> r.error.ValidationFailed? && r.error.errors != []
  {
    var c := CheckContent(content);
    var s := CheckObjectId("sender", "Sender is required", sender);
    var m := CheckObjectId("roomId", "Room ID is required", roomId);
    var t := CheckMessageType(kind);
    var errs := Errors([c, s, m, t]);
    if errs != [] then Err(ValidationFailed(errs))
    else
      assert [c, s, m, t][0] == c && [c, s, m, t][1] == s && [c, s, m, t][2] == m && [c, s, m, t][3] == t;
      Ok(Message(id, c.value, s.value, m.value, ParseMessageType(t.value).value, now))
  }

  /** Whitespace-only content never reaches the store. */
  lemma BlankContentRejected(id: MessageId, content: string, sender: Option<UserId>, roomId: Option<RoomId>,
                             kind: Option<string>, now: int)
    requires IsBlank(content)
    ensures NewMessage(id, content, sender, roomId, kind, now).Err?
  {
  }

  // ---- ChatRoom.ts ------------------------------------------------------

  /** `name`: trimmed, required, 1..100 characters. */
  function CheckRoomName(name: string): (r: Checked)
    ensures r.Valid? <==> !IsBlank(name) && |Trim(name)| <= MaxRoomNameLength
    ensures r.Valid? ==> r.value == Trim(name) && 1 <= |r.value| <= MaxRoomNameLength
  {
    var v := Trim(name);
    if v == [] then Invalid(FieldError("name", "Room name is required"))
    else if |v| > MaxRoomNameLength then Invalid(FieldError("name", "Room name cannot exceed 100 characters"))
    else Valid(v)
  }

  /** `description`: trimmed, at most 500 characters. */
  function CheckDescription(d: string): (r: Checked)
    ensures r.Valid? <==> |Trim(d)| <= MaxDescriptionLength
    ensures r.Valid? ==> r.value == Trim(d)
  {
    var v := Trim(d);
    if |v| > MaxDescriptionLength then Invalid(FieldError("description", "Description cannot exceed 500 characters"))
    else Valid(v)
  }

  /** An optional field: absent is valid and stays absent. */
  function CheckOptional(v: Option<string>, check: string -> Checked): (r: Checked)
  {
    match v
    case None => Valid([])
    case Some(s) => check(s)
  }

  /** The `pre('save')` hook of chat rooms: personal rooms have exactly two participants. */
  function RoomSaveHook(x: Room): (r: Option<string>)
    ensures r.None? <==> x.kind == Group || |x.participants| == 2
  {
    match x.kind
    case Group => None
    case Personal =>
      if |x.participants| != 2 then Some("Personal rooms must have exactly 2 participants") else None
  }

  /**
   * `new ChatRoom({ … }).save()` up to the write: the room that would be stored
   * (name and description trimmed, timestamps set), or why the save was refused.
   */
  function NewRoom(id: RoomId, name: string, description: Option<string>, kind: RoomType,
                   participants: seq<UserId>, createdBy: UserId, now: int): (r: Result<Room, SaveError>)
    ensures r.Ok? <==> && !IsBlank(name) && |Trim(name)| <= MaxRoomNameLength
                       && (description.Some? ==> |Trim(description.value)| <= MaxDescriptionLength)
                       && (kind == Group || |participants| == 2)
    ensures r.Ok? ==> && r.value.id == id && r.value.name == Trim(name)
                      && r.value.description == (if description.Some? then Some(Trim(description.value)) else None)
                      && r.value.kind == kind && r.value.participants == participants
                      && r.value.createdBy == createdBy && r.value.updatedAt == now
    ensures r.Err? && r.error.HookRejected? ==> r.error.message == "Personal rooms must have exactly 2 participants"
  {
    var n := CheckRoomName(name);
    var d := CheckOptional(description, CheckDescription);
    var errs := Errors([n, d]);
    if errs != [] then
      assert [n, d][0] == n && [n, d][1] == d;
      Err(ValidationFailed(errs))
    else
      assert [n, d][0] == n && [n, d][1] == d;
      var x := Room(id, n.value, if description.Some? then Some(d.value) else None, kind, participants, createdBy, now);
      match RoomSaveHook(x)
      case Some(msg) => Err(HookRejected(msg))
      case None => Ok(x)
  }

  /** Group rooms pass the save hook whatever their number of participants. */
  lemma GroupRoomsUnrestricted(id: RoomId, name: string, description: Option<string>,
                               participants: seq<UserId>, createdBy: UserId, now: int)
    requires !IsBlank(name) && |Trim(name)| <= MaxRoomNameLength
    requires description.Some? ==> |Trim(description.value)| <= MaxDescriptionLength
    ensures NewRoom(id, name, description, Group, participants, createdBy, now).Ok?
  {
  }

  // ---- User.ts ----------------------------------------------------------

  /** The `lowercase` and `trim` setters of the e-mail field (they commute). */
  function NormalizeEmail(e: string): (r: string)
    ensures r == Trim(Lower(e))
  {
    TrimLowerCommute(e);
    Lower(Trim(e))
  }

  /** `email`: required, and must match the schema's pattern (after normalisation). */
  function CheckEmail(o: Oracles, e: string): (r: Checked)
    ensures r.Valid? <==> NormalizeEmail(e) != [] && o.emailPattern(NormalizeEmail(e))
    ensures r.Valid? ==> r.value == NormalizeEmail(e)
  {
    var v := NormalizeEmail(e);
    if v == [] then Invalid(FieldError("email", "Email is required"))
    else if !o.emailPattern(v) then Invalid(FieldError("email", "Please enter a valid email"))
    else Valid(v)
  }

  /** `password`: required, at least 6 characters (checked before hashing). */
  function CheckPassword(p: string): (r: Checked)
    ensures r.Valid? <==> |p| >= MinPasswordLength
    ensures r.Valid? ==> r.value == p
  {
    if p == [] then Invalid(FieldError("password", "Password is required"))
    else if |p| < MinPasswordLength then Invalid(FieldError("password", "Password must be at least 6 characters"))
    else Valid(p)
  }

  /** `displayName`: trimmed, required, 2..50 characters. */
  function CheckDisplayName(n: string): (r: Checked)
    ensures r.Valid? <==> MinDisplayNameLength <= |Trim(n)| <= MaxDisplayNameLength
    ensures r.Valid? ==> r.value == Trim(n)
  {
    var v := Trim(n);
    if v == [] then Invalid(FieldError("displayName", "Display name is required"))
    else if |v| < MinDisplayNameLength then Invalid(FieldError("displayName", "Display name must be at least 2 characters"))
    else if |v| > MaxDisplayNameLength then Invalid(FieldError("displayName", "Display name cannot exceed 50 characters"))
    else Valid(v)
  }

  /**
   * The `pre('save')` hook of users: the password is hashed only when it was
   * modified since the last save; otherwise the stored hash is kept as it is.
   */
  function UserSaveHook(o: Oracles, u: User, passwordModified: bool): (r: User)
    ensures r.(passwordHash := u.passwordHash) == u
    ensures passwordModified ==> r.passwordHash == o.hashPassword(u.passwordHash)
    ensures !passwordModified ==> r.passwordHash == u.passwordHash
  {
    if passwordModified then u.(passwordHash := o.hashPassword(u.passwordHash)) else u
  }

  /**
   * `new User({ email, password, displayName, avatar }).save()` up to the write:
   * setters and defaults applied (offline, no avatar unless given), validated,
   * then the password hashed by the save hook.
   */
  function NewUser(o: Oracles, id: UserId, email: string, password: string, displayName: string,
                   avatar: Option<string>, now: int): (r: Result<User, SaveError>)
    ensures r.Ok? <==> && NormalizeEmail(email) != [] && o.emailPattern(NormalizeEmail(email))
                       && |password| >= MinPasswordLength
                       && MinDisplayNameLength <= |Trim(displayName)| <= MaxDisplayNameLength
    ensures r.Ok? ==> r.value == User(id, NormalizeEmail(email), o.hashPassword(password), Trim(displayName),
                                      avatar, false, now)
    ensures r.Err? ==> r.error.ValidationFailed?
  {
    var e := CheckEmail(o, email);
    var p := CheckPassword(password);
    var n := CheckDisplayName(displayName);
    if !(e.Valid? && p.Valid? && n.Valid?) then Err(ValidationFailed(Errors([e, p, n])))
    else
      var doc := User(id, e.value, password, n.value, avatar, false, now);
      Ok(UserSaveHook(o, doc, true))
  }
}
