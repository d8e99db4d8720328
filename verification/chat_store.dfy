/**
 * The client's chat store: rooms, the current room, the loaded messages,
 * the user list, the ids of users seen online and, per room, who is typing.
 * Each action is a pure update of the state; everything it does not name is
 * kept as it was.
 */
module ChatStore {
  import opened Wrappers
  import opened Seqs
  import opened Domain
  import opened ClientTypes

  // ---- the typing map ---------------------------------------------------------

  /** A JavaScript `Map` from room id to typing list: entries in insertion order. */
  type TypingMap = seq<(RoomId, seq<TypingUser>)>

  predicate KeysDistinct(m: TypingMap) {
    forall i, j :: 0 <= i < j < |m| ==> m[i].0 != m[j].0
  }

  function Keys(m: TypingMap): (r: set<RoomId>)
    ensures forall k :: k in r <==> exists i :: 0 <= i < |m| && m[i].0 == k
  {
    set i | 0 <= i < |m| :: m[i].0
  }

  lemma KeysCons(x: (RoomId, seq<TypingUser>), rest: TypingMap)
    ensures Keys([x] + rest) == {x.0} + Keys(rest)
  {
    var r := [x] + rest;
    assert r[0].0 == x.0;
    forall k | k in Keys(r) ensures k in {x.0} + Keys(rest) {
      var i :| 0 <= i < |r| && r[i].0 == k;
      if i > 0 { assert rest[i - 1].0 == k; }
    }
    forall k | k in Keys(rest) ensures k in Keys(r) {
      var i :| 0 <= i < |rest| && rest[i].0 == k;
      assert r[i + 1].0 == k;
    }
  }

  /** `map.get(key)`. */
  function MapGet(m: TypingMap, key: RoomId): (r: Option<seq<TypingUser>>)
    ensures r.None? <==> key !in Keys(m)
    ensures r.Some? ==> exists i :: 0 <= i < |m| && m[i] == (key, r.value)
    decreases |m|
  {
    if m == [] then None
    else if m[0].0 == key then Some(m[0].1)
    else MapGet(m[1..], key)
  }

  /** `map.set(key, value)`: an existing key keeps its position, a new one goes last. */
  function MapSet(m: TypingMap, key: RoomId, v: seq<TypingUser>): (r: TypingMap)
    ensures MapGet(r, key) == Some(v)
    ensures forall k :: k != key ==> MapGet(r, k) == MapGet(m, k)
    decreases |m|
  {
    if m == [] then [(key, v)]
    else if m[0].0 == key then
      var r := [(key, v)] + m[1..];
      assert r[1..] == m[1..];
      r
    else
      var rest := MapSet(m[1..], key, v);
      var r := [m[0]] + rest;
      assert r[1..] == rest;
      r
  }

  /** `map.set` adds the key to the map's keys. */
  lemma {:induction false} MapSetKeys(m: TypingMap, key: RoomId, v: seq<TypingUser>)
    ensures Keys(MapSet(m, key, v)) == Keys(m) + {key}
    decreases |m|
  {
    if m != [] {
      assert [m[0]] + m[1..] == m;
      KeysCons(m[0], m[1..]);
      if m[0].0 == key {
        KeysCons((key, v), m[1..]);
      } else {
        MapSetKeys(m[1..], key, v);
        KeysCons(m[0], MapSet(m[1..], key, v));
      }
    }
  }

  /** `map.set` grows the map by one entry exactly when the key is new. */
  lemma {:induction false} MapSetSize(m: TypingMap, key: RoomId, v: seq<TypingUser>)
    ensures |MapSet(m, key, v)| == if key in Keys(m) then |m| else |m| + 1
    decreases |m|
  {
    if m != [] {
      assert [m[0]] + m[1..] == m;
      KeysCons(m[0], m[1..]);
      if m[0].0 != key {
        MapSetSize(m[1..], key, v);
      }
    }
  }

  /** `map.set` never introduces a second entry for a key. */
  lemma {:induction false} MapSetDistinct(m: TypingMap, key: RoomId, v: seq<TypingUser>)
    requires KeysDistinct(m)
    ensures KeysDistinct(MapSet(m, key, v))
    decreases |m|
  {
    var r := MapSet(m, key, v);
    if m != [] {
      if m[0].0 == key {
        assert forall i :: 1 <= i < |m| ==> r[i] == m[i];
      } else {
        var rest := MapSet(m[1..], key, v);
        MapSetDistinct(m[1..], key, v);
        MapSetKeys(m[1..], key, v);
        assert forall i :: 1 <= i < |r| ==> r[i] == rest[i - 1];
        forall i | 1 <= i < |r| ensures r[0].0 != r[i].0 {
          assert rest[i - 1].0 in Keys(rest);
          if rest[i - 1].0 != key {
            var j :| 0 <= j < |m[1..]| && m[1..][j].0 == rest[i - 1].0;
            assert m[j + 1].0 == rest[i - 1].0;
          }
        }
      }
    }
  }

  /** The number of typing entries over every room. */
  function TotalTyping(m: TypingMap): nat
    decreases |m|
  {
    if m == [] then 0 else |m[0].1| + TotalTyping(m[1..])
  }

  /** Setting one room's list changes the total by the difference of the two lists only. */
  lemma {:induction false} TotalAfterSet(m: TypingMap, key: RoomId, v: seq<TypingUser>)
    requires KeysDistinct(m)
    ensures TotalTyping(MapSet(m, key, v)) == TotalTyping(m) - |MapGet(m, key).GetOr([])| + |v|
    decreases |m|
  {
    if m != [] {
      if m[0].0 == key {
        assert ([(key, v)] + m[1..])[1..] == m[1..];
      } else {
        TotalAfterSet(m[1..], key, v);
        assert ([m[0]] + MapSet(m[1..], key, v))[1..] == MapSet(m[1..], key, v);
      }
    }
  }

  // ---- the state and its actions ----------------------------------------------

  datatype ChatState = ChatState(
    rooms: seq<ClientRoom>,
    currentRoom: Option<ClientRoom>,
    messages: seq<ClientMessage>,
    users: seq<ClientUser>,
    onlineUsers: set<UserId>,
    typingUsers: TypingMap,
    isLoading: bool)

  /** The store's initial state: nothing loaded, no room open. */
  function Initial(): (r: ChatState)
    ensures r.rooms == [] && r.messages == [] && r.users == [] && r.onlineUsers == {} && r.typingUsers == []
    ensures r.currentRoom.None? && !r.isLoading
  {
    ChatState([], None, [], [], {}, [], false)
  }

  function SetRooms(s: ChatState, rooms: seq<ClientRoom>): (r: ChatState)
    ensures r.rooms == rooms && r.(rooms := s.rooms) == s
  {
    s.(rooms := rooms)
  }

  /** `addRoom`: the new room first, then the old ones in their order. */
  function AddRoom(s: ChatState, room: ClientRoom): (r: ChatState)
    ensures |r.rooms| == |s.rooms| + 1 && r.rooms[0] == room && r.rooms[1..] == s.rooms
    ensures r.(rooms := s.rooms) == s
  {
    s.(rooms := [room] + s.rooms)
  }

  function SetCurrentRoom(s: ChatState, room: Option<ClientRoom>): (r: ChatState)
    ensures r.currentRoom == room && r.(currentRoom := s.currentRoom) == s
  {
    s.(currentRoom := room)
  }

  function SetMessages(s: ChatState, messages: seq<ClientMessage>): (r: ChatState)
    ensures r.messages == messages && r.(messages := s.messages) == s
  {
    s.(messages := messages)
  }

  /** `addMessage`: appended at the end; earlier messages stay where they were. */
  function AddMessage(s: ChatState, m: ClientMessage): (r: ChatState)
    ensures |r.messages| == |s.messages| + 1 && r.messages[..|s.messages|] == s.messages
    ensures r.messages[|s.messages|] == m
    ensures r.(messages := s.messages) == s
  {
    s.(messages := s.messages + [m])
  }

  function SetUsers(s: ChatState, users: seq<ClientUser>): (r: ChatState)
    ensures r.users == users && r.(users := s.users) == s
  {
    s.(users := users)
  }

  /** `setOnlineUsers`: exactly the given ids, repeats collapsed. */
  function SetOnlineUsers(s: ChatState, ids: seq<UserId>): (r: ChatState)
    ensures forall x :: x in r.onlineUsers <==> x in ids
    ensures r.(onlineUsers := s.onlineUsers) == s
  {
    s.(onlineUsers := set x | x in ids)
  }

  function AddOnlineUser(s: ChatState, id: UserId): (r: ChatState)
    ensures r.onlineUsers == s.onlineUsers + {id} && r.(onlineUsers := s.onlineUsers) == s
  {
    s.(onlineUsers := s.onlineUsers + {id})
  }

  function RemoveOnlineUser(s: ChatState, id: UserId): (r: ChatState)
    ensures r.onlineUsers == s.onlineUsers - {id} && r.(onlineUsers := s.onlineUsers) == s
  {
    s.(onlineUsers := s.onlineUsers - {id})
  }

  /** `setTypingUsers`: only the entry of `roomId` changes. */
  function SetTypingUsers(s: ChatState, roomId: RoomId, users: seq<TypingUser>): (r: ChatState)
    ensures MapGet(r.typingUsers, roomId) == Some(users)
    ensures forall k :: k != roomId ==> MapGet(r.typingUsers, k) == MapGet(s.typingUsers, k)
    ensures r.(typingUsers := s.typingUsers) == s
  {
    s.(typingUsers := MapSet(s.typingUsers, roomId, users))
  }

  function SetLoading(s: ChatState, loading: bool): (r: ChatState)
    ensures r.isLoading == loading && r.(isLoading := s.isLoading) == s
  {
    s.(isLoading := loading)
  }

  function ClearMessages(s: ChatState): (r: ChatState)
    ensures r.messages == [] && r.(messages := s.messages) == s
  {
    s.(messages := [])
  }

  // ---- laws -------------------------------------------------------------------

  /** Adding an online user twice is adding it once. */
  lemma AddOnlineIdempotent(s: ChatState, id: UserId)
    ensures AddOnlineUser(AddOnlineUser(s, id), id) == AddOnlineUser(s, id)
  {
  }

  /** Removing a user that is not online changes nothing. */
  lemma RemoveAbsentOnline(s: ChatState, id: UserId)
    requires id !in s.onlineUsers
    ensures RemoveOnlineUser(s, id) == s
  {
  }

  /** A user that comes online and goes offline again leaves the set as it was. */
  lemma OnlineRoundTrip(s: ChatState, id: UserId)
    requires id !in s.onlineUsers
    ensures RemoveOnlineUser(AddOnlineUser(s, id), id) == s
  {
  }

  /** Setting a room's typing list twice keeps only the second list. */
  lemma TypingLastWriteWins(s: ChatState, roomId: RoomId, a: seq<TypingUser>, b: seq<TypingUser>)
    ensures MapGet(SetTypingUsers(SetTypingUsers(s, roomId, a), roomId, b).typingUsers, roomId) == Some(b)
    ensures SetTypingUsers(SetTypingUsers(s, roomId, a), roomId, b).typingUsers
              == SetTypingUsers(s, roomId, b).typingUsers
  {
    MapSetTwice(s.typingUsers, roomId, a, b);
  }

  lemma {:induction false} MapSetTwice(m: TypingMap, key: RoomId, a: seq<TypingUser>, b: seq<TypingUser>)
    ensures MapSet(MapSet(m, key, a), key, b) == MapSet(m, key, b)
    decreases |m|
  {
    if m != [] && m[0].0 != key {
      MapSetTwice(m[1..], key, a, b);
      var once := MapSet(m, key, a);
      assert once == [m[0]] + MapSet(m[1..], key, a);
      assert once[1..] == MapSet(m[1..], key, a);
    } else if m != [] {
      assert ([(key, a)] + m[1..])[1..] == m[1..];
    }
  }

  /** After clearing, the next message starts the list. */
  lemma ClearThenAdd(s: ChatState, m: ClientMessage)
    ensures AddMessage(ClearMessages(s), m).messages == [m]
  {
  }
}
