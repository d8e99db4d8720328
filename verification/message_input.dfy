/**
 * The message composer: how a `user_typing` notice from the server updates the
 * open room's typing list, and what sending a message emits.
 *
 * The handler as written reads the typing flag from the notice's user object,
 * which the server builds from id, display name and avatar only; the flag sits
 * beside it. The missing flag reads as false, so every notice removes the user
 * from the list. It also starts from the typing map captured when its effect
 * last ran, not the store's current one. `HandleUserTyping` reads the flag where
 * the server puts it and updates the store's current list.
 */
module MessageInput {
  import opened Wrappers
  import opened Text
  import opened Seqs
  import opened Domain
  import opened Schemas
  import opened ClientTypes
  import opened ChatStore
  import opened SocketEngine

  /** The user object of a typing notice, as the client stores it. */
  function Typist(p: Profile): TypingUser {
    TypingUser(p.id, p.displayName, p.avatar)
  }

  /** `list.filter(u => u.id !== id)`. */
  function Without(list: seq<TypingUser>, id: UserId): (r: seq<TypingUser>)
    ensures forall x :: x in r <==> x in list && x.id != id
    ensures |r| <= |list|
    decreases |list|
  {
    if list == [] then []
    else (if list[0].id == id then [] else [list[0]]) + Without(list[1..], id)
  }

  /** The test `Without` keeps an entry by. */
  function OtherTypist(id: UserId): TypingUser -> bool {
    (u: TypingUser) => u.id != id
  }

  lemma {:induction false} WithoutIsFilter(list: seq<TypingUser>, id: UserId)
    ensures Without(list, id) == Filter(list, OtherTypist(id))
    decreases |list|
  {
    if list != [] {
      WithoutIsFilter(list[1..], id);
    }
  }

  /** Dropping a user keeps the other typists, each entry of them, in their order. */
  lemma WithoutInOrder(list: seq<TypingUser>, id: UserId)
    ensures KeepsInOrder(Without(list, id), list, OtherTypist(id))
  {
    WithoutIsFilter(list, id);
    FilterKeepsInOrder(list, OtherTypist(id));
  }

  lemma {:induction false} WithoutAppend(a: seq<TypingUser>, b: seq<TypingUser>, id: UserId)
    ensures Without(a + b, id) == Without(a, id) + Without(b, id)
    decreases |a|
  {
    if a != [] {
      var h := if a[0].id == id then [] else [a[0]];
      assert (a + b)[0] == a[0] && (a + b)[1..] == a[1..] + b;
      calc {
        Without(a + b, id);
        h + Without(a[1..] + b, id);
        { WithoutAppend(a[1..], b, id); }
        h + (Without(a[1..], id) + Without(b, id));
        (h + Without(a[1..], id)) + Without(b, id);
        Without(a, id) + Without(b, id);
      }
    } else {
      assert a + b == b;
    }
  }

  lemma {:induction false} WithoutTwice(a: seq<TypingUser>, id: UserId)
    ensures Without(Without(a, id), id) == Without(a, id)
    decreases |a|
  {
    if a != [] {
      WithoutTwice(a[1..], id);
      var w := Without(a, id);
      if a[0].id != id {
        assert w == [a[0]] + Without(a[1..], id);
        assert w[0] == a[0] && w[1..] == Without(a[1..], id);
        assert Without(w, id) == [w[0]] + Without(w[1..], id);
      } else {
        assert w == Without(a[1..], id);
      }
    }
  }

  /** The list update of the handler: drop the user, and put it back last when it is typing. */
  function UpdateTyping(current: seq<TypingUser>, u: TypingUser, typing: bool): (r: seq<TypingUser>)
    ensures forall x: TypingUser :: x.id != u.id ==> (x in r <==> x in current)
    ensures (exists x :: x in r && x.id == u.id) <==> typing
    ensures typing ==> r[|r| - 1] == u
    ensures forall i, j :: 0 <= i < j < |r| && r[i].id == u.id ==> r[j].id != u.id
    ensures Without(r, u.id) == Without(current, u.id)
  {
    var rest := Without(current, u.id);
    WithoutTwice(current, u.id);
    if typing then
      WithoutAppend(rest, [u], u.id);
      assert Without([u], u.id) == [];
      assert forall i :: 0 <= i < |rest| ==> rest[i] in rest;
      rest + [u]
    else
      assert forall i :: 0 <= i < |rest| ==> rest[i] in rest;
      rest
  }

  /** The flag the handler as written reads: the user object has none, so it is undefined. */
  function FlagOnUserObject(p: Profile): bool {
    false
  }

  /**
   * `handleUserTyping` as written. The flag is taken from the user object, and
   * the room's list is read from `snapshot`: the `typingUsers` the listener
   * captured when its effect last ran (it re-runs only when the room or the
   * local typing flag changes), not the store's current map.
   */
  function HandleUserTypingAsWritten(s: ChatState, snapshot: TypingMap, roomId: RoomId, notice: Payload)
    : (r: ChatState)
    requires notice.Typing?
    ensures notice.roomId != roomId ==> r == s
    ensures r.(typingUsers := s.typingUsers) == s
    ensures notice.roomId == roomId ==>
              MapGet(r.typingUsers, roomId) == Some(Without(MapGet(snapshot, roomId).GetOr([]), notice.user.id))
    ensures notice.roomId == roomId ==>
              forall x :: x in MapGet(r.typingUsers, roomId).value ==> x.id != notice.user.id
  {
    if notice.roomId != roomId then s
    else
      var current := MapGet(snapshot, roomId).GetOr([]);
      SetTypingUsers(s, roomId, UpdateTyping(current, Typist(notice.user), FlagOnUserObject(notice.user)))
  }

  /** `handleUserTyping` reading the flag the server sends: the user is listed exactly while typing. */
  function HandleUserTyping(s: ChatState, roomId: RoomId, notice: Payload): (r: ChatState)
    requires notice.Typing?
    ensures notice.roomId != roomId ==> r == s
    ensures r.(typingUsers := s.typingUsers) == s
    ensures notice.roomId == roomId ==>
              && MapGet(r.typingUsers, roomId).Some?
              && ((exists x :: x in MapGet(r.typingUsers, roomId).value && x.id == notice.user.id) <==> notice.isTyping)
              && Without(MapGet(r.typingUsers, roomId).value, notice.user.id)
                 == Without(MapGet(s.typingUsers, roomId).GetOr([]), notice.user.id)
  {
    if notice.roomId != roomId then s
    else
      var current := MapGet(s.typingUsers, roomId).GetOr([]);
      SetTypingUsers(s, roomId, UpdateTyping(current, Typist(notice.user), notice.isTyping))
  }

  /**
   * End to end: a `typing_start` handled by the server reaches the others in
   * the room, and the handler as written does not list the typing user, while
   * the corrected handler does.
   */
  lemma TypingStartNeverListed(e: Engine, sid: SocketId, roomId: RoomId, s: ChatState, snapshot: TypingMap)
    requires SocketEngine.Valid(e) && sid in e.sockets
    ensures var out := TypingEvent(e, sid, roomId, true).outbox;
            var notice := out[|out| - 1].payload;
            && notice.Typing? && notice.isTyping
            && (forall x :: x in MapGet(HandleUserTypingAsWritten(s, snapshot, roomId, notice).typingUsers, roomId).value
                  ==> x.id != e.sockets[sid].id)
            && (exists x :: x in MapGet(HandleUserTyping(s, roomId, notice).typingUsers, roomId).value
                  && x.id == e.sockets[sid].id)
  {
    var out := TypingEvent(e, sid, roomId, true).outbox;
    var notice := out[|out| - 1].payload;
    assert notice == Typing(roomId, e.sockets[sid], true);
    assert notice.user.id == e.sockets[sid].id;
    var asWritten := MapGet(HandleUserTypingAsWritten(s, snapshot, roomId, notice).typingUsers, roomId).value;
    assert forall x :: x in asWritten ==> x.id != e.sockets[sid].id;
    var fixed := MapGet(HandleUserTyping(s, roomId, notice).typingUsers, roomId).value;
    assert exists x :: x in fixed && x.id == e.sockets[sid].id;
  }

  // ---- sending ------------------------------------------------------------------

  /** What the composer emits on its socket. */
  datatype ClientEvent = SendMessageEvent(roomId: RoomId, content: string, kind: string)
                       | TypingStopEvent(roomId: RoomId)

  datatype Composer = Composer(text: string, isTyping: bool)

  /**
   * `handleSendMessage`: blank input sends nothing; otherwise the trimmed text
   * goes out as a text message, the input is cleared, and an active typing
   * notice is stopped after the message.
   */
  function HandleSendMessage(c: Composer, roomId: RoomId): (r: (Composer, seq<ClientEvent>))
    ensures IsBlank(c.text) ==> r == (c, [])
    ensures !IsBlank(c.text) ==> r.0 == Composer([], false)
    ensures !IsBlank(c.text) ==> |r.1| >= 1 && r.1[0] == SendMessageEvent(roomId, Trim(c.text), "text")
    ensures !IsBlank(c.text) ==> r.1[1..] == if c.isTyping then [TypingStopEvent(roomId)] else []
    ensures forall i :: 0 <= i < |r.1| && r.1[i].SendMessageEvent? ==> !IsBlank(r.1[i].content)
  {
    var t := Trim(c.text);
    if t == [] then (c, [])
    else
      assert !IsBlank(t) by { assert !IsWhitespace(t[0]); }
      (Composer([], false), [SendMessageEvent(roomId, t, "text")] + (if c.isTyping then [TypingStopEvent(roomId)] else []))
  }

  /**
   * What the composer sends passes the server's message schema whenever it
   * fits the length limit, and is stored exactly as sent.
   */
  lemma SentTextAccepted(c: Composer, roomId: RoomId, sender: UserId, id: MessageId, now: int)
    requires !IsBlank(c.text) && |Trim(c.text)| <= MaxMessageLength
    requires IsObjectId(roomId) && IsObjectId(sender)
    ensures var ev := HandleSendMessage(c, roomId).1[0];
            var m := Schemas.NewMessage(id, ev.content, Some(sender), Some(roomId), Some(ev.kind), now);
            m.Ok? && m.value.content == Trim(c.text) && m.value.kind == TextMessage
  {
    var t := Trim(c.text);
    TrimIdempotent(c.text);
    assert !IsBlank(t) by { assert !IsWhitespace(t[0]); }
    assert HandleSendMessage(c, roomId).1[0] == SendMessageEvent(roomId, t, "text");
    var m := Schemas.NewMessage(id, t, Some(sender), Some(roomId), Some("text"), now);
    assert ParseMessageType("text") == Some(TextMessage);
    assert m.Ok? && MessageTypeName(m.value.kind) == "text";
  }
}
