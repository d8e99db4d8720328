# Real-time chat: a Dafny model of the server engine and the client rules

The system is a chat application. A Fastify server keeps users, chat rooms and
messages in MongoDB through Mongoose schemas. It authenticates requests with
JWT bearer tokens and pushes live events over Socket.IO. A Next.js client keeps
its view state in a zustand store.

This project models the logic of that system as pure Dafny functions over
immutable data:

- **Store and schemas.** `domain.dfy` holds the store: users, rooms and
  messages in insertion order. `schemas.dfy` holds the validators, setters,
  defaults and save hooks of the three Mongoose models.
- **HTTP routes.** `middleware.dfy` models bearer-token extraction.
  `auth_routes.dfy` and `room_routes.dfy` model the routes. Each route becomes
  one function from the store and the request to a new store and a reply.
- **Socket engine.** `socket_engine.dfy` is the socket handler as a state
  machine. Its state holds:
  - the live sockets and the registry of connected users;
  - each socket's subscribed channels;
  - the store;
  - an outbox of emissions, each with its audience resolved to a set of
    socket ids at emit time.

  `socket_safety.dfy` states the engine's invariants. It exhibits where the
  handlers as written break them, and proves that corrected handlers keep them.
  `socket_channels.dfy` shows what the handlers as written still keep: no
  socket ever holds another user's personal `user_<id>` channel. So
  `emitToUser` reaches only that user's sockets.
- **Client.** Six files model the client's pure logic:
  - `client_utils.dfy`: string helpers;
  - `chat_store.dfy`: store reducers;
  - `message_list.dfy`: message grouping and the typing count;
  - `message_input.dfy`: typing-list update and sending;
  - `create_room_modal.dfy` and `sidebar.dfy`: room-creation form and
    personal-chat lookup.
- **Foreign code.** bcrypt, JWT, the e-mail regular expression and the URL
  check are foreign. They are fields of an `Oracles` record in
  `externals.dfy`, total functions the model never looks inside. Clock values
  are integer parameters.

## Model

| member | source | states |
|---|---|---|
| Domain.ParseRoomType | Backend/src/models/ChatRoom.ts:26-30 | a room type parses exactly from 'group' or 'personal', and parsing inverts the type's name |
| Domain.RoomTypeRoundTrip | Backend/src/models/ChatRoom.ts:26-30 | every room type survives name-then-parse |
| Domain.ParseMessageType | Backend/src/models/Message.ts:29-33 | a message type parses exactly from 'text', 'image' or 'file', and parsing inverts the name |
| Domain.FindUser | Backend/src/socket/socketHandler.ts:34 | `findById` finds a stored user with that id, and finds none exactly when no stored user has it |
| Domain.FindUserByEmail | Backend/src/routes/auth.ts:30 | `findOne({ email })` finds a stored user with that e-mail, and none exactly when no user has it |
| Domain.FindRoomFor | Backend/src/routes/rooms.ts:156 | `findOne({ _id, participants: userId })` finds a room with that id listing the user, and none exactly when no such room exists |
| Domain.IsObjectId | Backend/src/routes/rooms.ts:99 | the cast of an id string: 24 hexadecimal digits, anything else fails the query |
| Domain.RoomsOf | Backend/src/socket/socketHandler.ts:101 | `find({ participants: userId })` returns exactly the stored rooms listing the user |
| Domain.RoomsOfInOrder | Backend/src/socket/socketHandler.ts:101 | the user's rooms come in store order, each as often as stored, and nothing else: they are the store filtered by participation |
| Domain.MessagesOf | Backend/src/routes/rooms.ts:193 | `find({ roomId })` returns exactly the stored messages of the room |
| Domain.MessagesOfInOrder | Backend/src/routes/rooms.ts:193 | the room's messages come in store order, each as often as stored: they are the store filtered by room |
| Domain.UpdateUser | Backend/src/routes/auth.ts:135-139 | `findByIdAndUpdate` rewrites only the users with that id; rooms, messages and every other user are unchanged |
| Domain.UpdateRoom | Backend/src/socket/socketHandler.ts:191 | `findByIdAndUpdate` on rooms rewrites only the rooms with that id; users, messages and other rooms are unchanged |
| Domain.SetOnline | Backend/src/socket/socketHandler.ts:242-251 | the presence update sets `isOnline` and `lastSeen` of the users with that id and changes nothing else |
| Domain.SetOnlineKeepsIndexes | Backend/src/socket/socketHandler.ts:242-251 | the presence update keeps ids and e-mails unique |
| Domain.InsertUser | Backend/src/models/User.ts:17-20 | a user is stored iff neither its id nor its (unique) e-mail is taken; it is then appended and uniqueness is kept |
| Domain.InsertRoom | Backend/src/routes/rooms.ts:57-68 | a room is stored iff its id is new; it is appended and uniqueness is kept |
| Domain.InsertMessage | Backend/src/socket/socketHandler.ts:168-175 | a message is stored iff its id is new; it is appended and uniqueness is kept |
| Text.Trim | Backend/src/models/Message.ts:16 | the `trim` setter: the result is a contiguous slice with only whitespace cut off on both sides, empty exactly for blank input |
| Text.TrimIdempotent | Backend/src/models/Message.ts:16 | trimming a trimmed value changes nothing |
| Text.TrimLowerCommute | Backend/src/models/User.ts:21-22 | the `lowercase` and `trim` setters commute |
| Text.ReplaceFirst | Backend/src/middleware/auth.ts:7 | `String.replace` with a string pattern: unchanged without an occurrence, else only the first occurrence is replaced |
| Text.JoinSplit | Frontend/src/lib/utils.ts:28 | joining the pieces of `split(' ')` with the separator gives back the input |
| Text.SplitJoin | Frontend/src/lib/utils.ts:28 | splitting a join of separator-free pieces gives back the pieces |
| Schemas.Errors | Backend/src/models/Message.ts:12-36 | validation reports no error exactly when every field is valid |
| Schemas.CheckContent | Backend/src/models/Message.ts:13-18 | content is accepted iff non-blank and at most 2000 characters after trimming; the trimmed text is stored |
| Schemas.CheckObjectId | Backend/src/models/Message.ts:19-28 | a required id field is accepted iff present and a valid ObjectId |
| Schemas.CheckMessageType | Backend/src/models/Message.ts:29-33 | the type is accepted iff absent or one of the enum values; absent defaults to 'text' |
| Schemas.NewMessage | Backend/src/models/Message.ts:12-36 | a message saves iff content, sender, roomId and type all validate; the stored document carries the trimmed content, the ids and the type (default 'text') |
| Schemas.BlankContentRejected | Backend/src/models/Message.ts:13-16 | whitespace-only content is never saved |
| Schemas.CheckRoomName | Backend/src/models/ChatRoom.ts:14-20 | the room name is accepted iff non-blank and at most 100 characters after trimming |
| Schemas.CheckDescription | Backend/src/models/ChatRoom.ts:21-25 | the description is accepted iff at most 500 characters after trimming |
| Schemas.CheckOptional | Backend/src/models/ChatRoom.ts:21-25 | an optional field is valid when absent and checked when present |
| Schemas.RoomSaveHook | Backend/src/models/ChatRoom.ts:45-51 | the save hook passes iff the room is a group or has exactly two participants |
| Schemas.NewRoom | Backend/src/models/ChatRoom.ts:13-51 | a room saves iff name and description validate and a personal room has two participants; the hook's error is 'Personal rooms must have exactly 2 participants' |
| Schemas.GroupRoomsUnrestricted | Backend/src/models/ChatRoom.ts:46-50 | group rooms save with any number of participants |
| Schemas.NormalizeEmail | Backend/src/models/User.ts:17-24 | the stored e-mail is the trimmed, lower-cased input |
| Schemas.CheckEmail | Backend/src/models/User.ts:17-24 | the e-mail is accepted iff non-empty after normalisation and matching the pattern |
| Schemas.CheckPassword | Backend/src/models/User.ts:25-29 | the password is accepted iff it has at least 6 characters |
| Schemas.CheckDisplayName | Backend/src/models/User.ts:30-36 | the display name is accepted iff 2..50 characters after trimming |
| Schemas.UserSaveHook | Backend/src/models/User.ts:54-64 | only the password field can change: it is hashed when modified and kept as stored otherwise |
| Schemas.NewUser | Backend/src/models/User.ts:16-64 | a new user saves iff e-mail, password and display name validate; it starts offline with the hashed password |
| AuthMiddleware.ExtractToken | Backend/src/middleware/auth.ts:7 | the token is the header with its first 'Bearer ' removed wherever it occurs; no header gives no token |
| AuthMiddleware.Authenticate | Backend/src/middleware/auth.ts:5-17 | 401 'No token provided' iff the token is missing or empty; 401 'Invalid token' iff verification fails; otherwise the decoded claims are attached |
| AuthMiddleware.PrefixedHeaderYieldsToken | Backend/src/middleware/auth.ts:7 | 'Bearer ' + t yields t |
| AuthMiddleware.ReplaceIsNotPrefixStrip | Backend/src/middleware/auth.ts:7 | 'xBearer y' yields 'xy': the removal is not a prefix strip |
| AuthMiddleware.BarePrefixHasNoToken | Backend/src/middleware/auth.ts:8-10 | a header of exactly 'Bearer ' is 'No token provided' |
| AuthRoutes.RegisterBodyValid | Backend/src/routes/auth.ts:6-11 | the register schema: an e-mail, a password of at least 6 characters, a display name of 2..50, an avatar URL or nothing |
| AuthRoutes.StoredAvatar | Backend/src/routes/auth.ts:40 | an empty avatar is stored as absent, any other is kept |
| AuthRoutes.Register | Backend/src/routes/auth.ts:25-65 | invalid bodies get 400 and a used e-mail gets 400 'User already exists', both leaving the store unchanged; with a valid body and a free e-mail the call succeeds exactly when the user document validates and its id is new, and otherwise gets 500; success appends exactly the normalised, hashed, offline user and answers 201 with a token for it |
| AuthRoutes.InsertNewEmail | Backend/src/routes/auth.ts:36-43 | once the e-mail is known to be free, saving the new user fails only for a taken id |
| AuthRoutes.Login | Backend/src/routes/auth.ts:68-109 | unknown e-mail and wrong password get the same 401 'Invalid credentials' and change nothing; success marks the user online |
| AuthRoutes.ProfileUpdateValid | Backend/src/routes/auth.ts:18-21 | the update-profile schema: a display name of 2..50 and an avatar URL, each only if supplied |
| AuthRoutes.GetProfile | Backend/src/routes/auth.ts:112-123 | the caller's own profile, 404 for an unknown id, 500 for an id that does not cast |
| AuthRoutes.ApplyProfileUpdate | Backend/src/routes/auth.ts:131-133 | the update document: only the supplied fields, the display name trimmed by the schema setter |
| AuthRoutes.UpdateProfile | Backend/src/routes/auth.ts:126-152 | an invalid body gets 400; a failed id cast or a display name invalid after trimming gets 500; otherwise an existing caller's update succeeds and an unknown caller gets 404; only the supplied displayName/avatar of the caller change, every other field and every other user is kept |
| AuthRoutes.Logout | Backend/src/routes/auth.ts:155-169 | logout marks the caller offline at the given time and changes no other user, room or message |
| AuthRoutes.LoginThenLogoutPresence | Backend/src/routes/auth.ts:155-163 | after a login the user is online with the login time; after the following logout, for an id that casts, offline with the logout time |
| AuthRoutes.RegisterThenLogin | Backend/src/routes/auth.ts:68-87 | a just-registered user can log in with the same e-mail and password and gets their own id back |
| AuthRoutes.LoginFindsStored | Backend/src/routes/auth.ts:68-87 | a stored user logs in with their e-mail and the password whose hash is kept, and the session names their id |
| AuthRoutes.UpdateThenGetProfile | Backend/src/routes/auth.ts:112-145 | the profile read after an update is the one the update returned |
| AuthRoutes.UniqueEmailLookup | Backend/src/routes/auth.ts:73 | with unique e-mails, lookup by e-mail returns the user holding it |
| AuthRoutes.UniqueIdLookup | Backend/src/routes/auth.ts:114 | with unique ids, lookup by id returns the user holding it |
| AuthRoutes.SetOnlineLookup | Backend/src/routes/auth.ts:84-87 | after the presence update the user reads back with the new flag and time |
| RoomRoutes.CreateRoomBodyValid | Backend/src/routes/rooms.ts:7-12 | the create-room schema: name 1..100, description at most 500, a known type, at least one participant |
| RoomRoutes.RoomMembers | Backend/src/routes/rooms.ts:32-33 | the members are the requested ids plus the creator, each once, in order of first mention; a creator who did not list themselves comes last |
| RoomRoutes.CreatorLast | Backend/src/routes/rooms.ts:32-33 | `new Set` keeps first occurrences in order, so an unlisted creator appended last stays last |
| RoomRoutes.FindPersonalRoomWith | Backend/src/routes/rooms.ts:40-48 | finds a personal room containing all the ids, and none exactly when every personal room misses one |
| RoomRoutes.CountUsersDecides | Backend/src/routes/rooms.ts:52-55 | with unique stored ids and distinct requested ids, comparing the `$in` count with the number of ids decides exactly whether every id is a stored user |
| RoomRoutes.RoomDocument | Backend/src/routes/rooms.ts:57-63 | the document `new ChatRoom` builds: trimmed name and description, the deduplicated members, the caller as creator |
| RoomRoutes.CreateRoom | Backend/src/routes/rooms.ts:26-75 | for a valid body (a personal room with exactly two members): a failed id cast gets 500, an existing personal room between the members gets 400 'Personal room already exists', and otherwise a missing participant gets 400 'One or more participants not found'; success iff the body is valid, a personal room has two distinct members and no existing personal room with them, all members exist and the name is not blank; the stored room has the deduplicated members and the caller as creator; failures leave the store unchanged |
| RoomRoutes.SaveRoom | Backend/src/routes/rooms.ts:57-68 | the save succeeds iff the trimmed name is non-empty and the id is new, and appends exactly the room document |
| RoomRoutes.NewRoomFromRequest | Backend/src/routes/rooms.ts:57-68 | a request that passed the route's checks fails the schema only for a blank name |
| RoomRoutes.ListRooms | Backend/src/routes/rooms.ts:78-91 | exactly the caller's rooms, each once, most recently updated first |
| RoomRoutes.GetRoom | Backend/src/routes/rooms.ts:94-111 | the room if the caller participates, else 404 |
| RoomRoutes.CreateThenGet | Backend/src/routes/rooms.ts:94-111 | a created room can be read back by its creator as created |
| RoomRoutes.UniqueRoomLookup | Backend/src/routes/rooms.ts:99 | with unique room ids, looking a room up for a participant returns it |
| RoomRoutes.PersonalRoomOnce | Backend/src/routes/rooms.ts:40-48 | repeating a successful personal-room request gets 400 'Personal room already exists' and stores nothing |
| RoomRoutes.RoomUpdateValid | Backend/src/routes/rooms.ts:14-17 | the update-room schema: name 1..100 and description at most 500, each only if supplied |
| RoomRoutes.MayManage | Backend/src/routes/rooms.ts:125-128 | anyone in a personal room, and only the creator of a group room, may change or delete it |
| RoomRoutes.ApplyRoomUpdate | Backend/src/routes/rooms.ts:130-137 | the update document: only the supplied fields, trimmed by the schema setters, and the update time |
| RoomRoutes.EditRoom | Backend/src/routes/rooms.ts:114-148 | 500 for a failed id cast, 404 for non-participants, 403 for a non-creator on a group room, 500 for a supplied name that trims to empty; otherwise success changes only the supplied name/description and keeps participants, type and creator |
| RoomRoutes.GroupRoomGuarded | Backend/src/routes/rooms.ts:125-128 | a participant who did not create a group room can neither update nor delete it |
| RoomRoutes.EditThenGet | Backend/src/routes/rooms.ts:130-137 | the room read after an update is the one the update returned |
| RoomRoutes.RemoveRoom | Backend/src/routes/rooms.ts:166-170 | the cascade removes the room and exactly the messages with its id, nothing else |
| RoomRoutes.DeleteRoom | Backend/src/routes/rooms.ts:151-176 | 404 for non-participants, 403 for a non-creator on a group room, otherwise the cascade |
| RoomRoutes.DeleteThenGet | Backend/src/routes/rooms.ts:166-170 | after a delete nobody can read the room and no message of it remains |
| RoomRoutes.CeilDiv | Backend/src/routes/rooms.ts:207 | `Math.ceil(total / limit)`: the least page count covering the total |
| RoomRoutes.NewestFirst | Backend/src/routes/rooms.ts:193-195 | the room's messages, as a permutation, sorted newest first |
| RoomRoutes.PagingValid | Backend/src/routes/rooms.ts:19-22 | the paging schema: page at least 1 and limit 1..100, defaulting to 1 and 20 |
| RoomRoutes.RoomMessages | Backend/src/routes/rooms.ts:179-216 | 400 for an invalid page/limit, 404 for non-participants, otherwise the page reply |
| RoomRoutes.PageReply | Backend/src/routes/rooms.ts:191-209 | the reply echoes page and limit, counts the room's messages, carries the page's messages and a page count that just covers the total |
| RoomRoutes.PageMessages | Backend/src/routes/rooms.ts:191-202 | at most `limit` messages, the page of the newest-first history after skipping (page-1)*limit |
| RoomRoutes.PageMessagesOrdered | Backend/src/routes/rooms.ts:191-202 | a page holds messages of the room only, oldest first |
| RoomRoutes.SkipIsProduct | Backend/src/routes/rooms.ts:191 | the skip is (page-1)*limit: one page size for each earlier page |
| RoomRoutes.PageOf | Backend/src/routes/rooms.ts:195-202 | skip-limit-reverse of the newest-first list is a slice of the oldest-first history |
| RoomRoutes.PageOfOrder | Backend/src/routes/rooms.ts:195-202 | a page of a newest-first list comes out oldest first |
| RoomRoutes.PageIsHistorySlice | Backend/src/routes/rooms.ts:191-202 | each page is the corresponding slice of the chronological history |
| RoomRoutes.PagesOfTile | Backend/src/routes/rooms.ts:195-202 | two consecutive pages cut from one newest-first list form one slice of that list reversed |
| RoomRoutes.PagesTile | Backend/src/routes/rooms.ts:191-202 | page p+1 followed by page p is one contiguous slice of the history: pages neither overlap nor leave gaps |
| RoomRoutes.OthersByName | Backend/src/routes/rooms.ts:223-225 | all users except the caller, as a permutation, sorted by display name |
| RoomRoutes.ListUsers | Backend/src/routes/rooms.ts:219-243 | 500 exactly when the caller's id fails the cast; otherwise success with the users except the caller by name, as public views |
| RoomRoutes.ListUsersExcludesCaller | Backend/src/routes/rooms.ts:223 | the caller never appears and every other user does |
| SocketEngine.Fail | Backend/src/socket/socketHandler.ts:195 | `socket.emit('error', …)`: one error emission to the caller only, nothing else changes |
| SocketEngine.Recipients | Backend/src/socket/socketHandler.ts:118-126 | `socket.emit` reaches the caller, `io.to(r)` every subscriber of r, `socket.to(r)` every subscriber except the caller |
| SocketEngine.Handshake | Backend/src/socket/socketHandler.ts:26-45 | a missing, empty or unverifiable token is 'Authentication error'; a token for an unknown user is refused; otherwise the user's profile |
| SocketEngine.RoomChannels | Backend/src/socket/socketHandler.ts:98-109 | the channels joined are exactly the ids of the given rooms |
| SocketEngine.Connect | Backend/src/socket/socketHandler.ts:47-65 | exactly one registry entry is added; the socket subscribes to `user_<id>` and every room listing the user; the user is marked online |
| SocketEngine.Accept | Backend/src/socket/socketHandler.ts:26-65 | a refused handshake changes nothing; an accepted one connects with the handshake profile |
| SocketEngine.ConnectSubscribes | Backend/src/socket/socketHandler.ts:62-65 | after connecting, the socket is a member of its user channel and of each of the user's rooms |
| SocketEngine.JoinRoom | Backend/src/socket/socketHandler.ts:111-138 | the room is joined iff it lists the client-supplied userId; otherwise only the caller gets an error and subscriptions are unchanged |
| SocketEngine.Subscribe | Backend/src/socket/socketHandler.ts:122-133 | a join subscribes the socket, answers 'joined_room' to the caller and sends 'user_joined' to the other subscribers only |
| SocketEngine.LeaveRoom | Backend/src/socket/socketHandler.ts:140-153 | without any membership check the socket is unsubscribed, the caller gets 'left_room' and the remaining subscribers 'user_left' |
| SocketEngine.SubscribeThenLeave | Backend/src/socket/socketHandler.ts:140-153 | leaving a room just joined restores the subscriptions |
| SocketEngine.SendMessage | Backend/src/socket/socketHandler.ts:155-197 | non-participants get only 'Room not found or access denied'; for a participant the message is stored exactly when it validates and its id is new, and otherwise the caller gets only 'Failed to send message'; a stored message is the one from the handshake user, 'new_message' goes to every subscriber, then the room's updatedAt is touched |
| SocketEngine.SentMessageDelivered | Backend/src/socket/socketHandler.ts:175-188 | a stored message is the one broadcast, from the handshake user, to all the room's subscribers including the sender |
| SocketEngine.TypingEvent | Backend/src/socket/socketHandler.ts:199-221 | typing start/stop changes no state and sends 'user_typing' with the flag to the subscribers except the sender |
| SocketEngine.OfflineNotices | Backend/src/socket/socketHandler.ts:233-239 | one 'user_offline' per room of the user, in order, to the room's other subscribers |
| SocketEngine.Drop | Backend/src/socket/socketHandler.ts:227 | only this socket's entry and subscriptions are removed |
| SocketEngine.Disconnect | Backend/src/socket/socketHandler.ts:223-240 | the registry shrinks by one, the user is marked offline whatever other sockets they have, and every room of theirs gets 'user_offline' |
| SocketEngine.ConnectedCount | Backend/src/socket/socketHandler.ts:254-256 | the count is the number of live sockets |
| SocketEngine.ConnectedUsers | Backend/src/socket/socketHandler.ts:259-261 | exactly one registry entry per live socket |
| SocketEngine.EmitToRoom | Backend/src/socket/socketHandler.ts:264-266 | one emission, reaching exactly the sockets that have joined the room's channel; no other state changes |
| SocketEngine.EmitToUser | Backend/src/socket/socketHandler.ts:269-271 | one emission, reaching exactly the sockets that have joined `user_<id>`; no other state changes |
| SocketEngine.ConnectedSocketReachable | Backend/src/socket/socketHandler.ts:62 | a socket receives what is sent to its user from the moment it connects |
| SocketSafety.JoinRoomAsSelf | Backend/src/socket/socketHandler.ts:111-138 | join checked against the handshake identity: the room is joined iff the socket's own user participates; only the caller's subscriptions can change |
| SocketSafety.JoinRoomTrustsClaimedUser | Backend/src/socket/socketHandler.ts:113-116 | a socket can subscribe to a room its user is not in by claiming another participant's id |
| SocketSafety.PresenceAwareDisconnect | Backend/src/socket/socketHandler.ts:223-240 | the user is marked offline and announced only when this was their last socket |
| SocketSafety.DisconnectForgetsOtherSockets | Backend/src/socket/socketHandler.ts:227-230 | with a second socket of the same user open, disconnect leaves a connected user marked offline |
| SocketSafety.ConnectSafe | Backend/src/socket/socketHandler.ts:47-65 | connecting keeps registry consistency, authorised subscriptions and accurate presence |
| SocketSafety.JoinSafe | Backend/src/socket/socketHandler.ts:111-138 | the corrected join keeps the invariant |
| SocketSafety.LeaveSafe | Backend/src/socket/socketHandler.ts:140-153 | leaving keeps the invariant |
| SocketSafety.TypingSafe | Backend/src/socket/socketHandler.ts:199-221 | typing events keep the invariant |
| SocketSafety.SendSafe | Backend/src/socket/socketHandler.ts:155-197 | sending keeps the invariant |
| SocketSafety.DisconnectSafe | Backend/src/socket/socketHandler.ts:223-240 | the corrected disconnect keeps the invariant |
| SocketSafety.LastSocketPresence | Backend/src/socket/socketHandler.ts:227-230 | marking offline on the last socket keeps presence accurate |
| SocketSafety.Handle | Backend/src/socket/socketHandler.ts:47-95 | each event is dispatched to its handler: refused handshakes and events on dead sockets change nothing, only open and close change the live sockets |
| SocketSafety.HandleSafe | Backend/src/socket/socketHandler.ts:47-95 | every event keeps the invariant |
| SocketSafety.Run | Backend/src/socket/socketHandler.ts:47-95 | any sequence of events from a safe state ends in a safe state |
| PersonalChannels.EmitToUserOnlyReachesUser | Backend/src/socket/socketHandler.ts:269-271 | in the engine as written, what is sent to a user reaches only that user's sockets |
| PersonalChannels.ConnectPrivate | Backend/src/socket/socketHandler.ts:62-65 | connecting gives a socket its own personal channel and room channels, never another user's personal channel |
| PersonalChannels.JoinPrivate | Backend/src/socket/socketHandler.ts:111-122 | even trusting the claimed id, join_room only adds object-id channels, never a personal channel |
| PersonalChannels.LeavePrivate | Backend/src/socket/socketHandler.ts:140-141 | leaving keeps personal channels private |
| PersonalChannels.SendPrivate | Backend/src/socket/socketHandler.ts:155-197 | sending keeps personal channels private |
| PersonalChannels.DisconnectPrivate | Backend/src/socket/socketHandler.ts:223-240 | disconnecting keeps personal channels private |
| PersonalChannels.HandleAsWritten | Backend/src/socket/socketHandler.ts:47-95 | events dispatched to the handlers as written: the claimed id decides a join, any close marks the user offline |
| PersonalChannels.HandleAsWrittenPrivate | Backend/src/socket/socketHandler.ts:47-95 | every event of the engine as written keeps personal channels private |
| PersonalChannels.RunAsWritten | Backend/src/socket/socketHandler.ts:47-95 | any run of the engine as written keeps personal channels private |
| ClientUtils.HeadsAreFirstLetters | Frontend/src/lib/utils.ts:27-30 | the mapped-and-joined string is the first letter of each non-empty word, in order |
| ClientUtils.Initials | Frontend/src/lib/utils.ts:26-33 | at most two characters: the upper-cased first letters of the first two words, empty words contributing nothing |
| ClientUtils.InitialsOfWords | Frontend/src/lib/utils.ts:26-33 | for a name joined from words, the initials are the first letters of the first one or two words |
| ClientUtils.InitialsFromWords | Frontend/src/lib/utils.ts:26-33 | the initials are read off the name's non-empty words |
| ClientUtils.SliceEnd | Frontend/src/lib/utils.ts:37 | `slice`'s end argument: clamped, negative counts from the end |
| ClientUtils.TruncateText | Frontend/src/lib/utils.ts:35-38 | unchanged when short enough; otherwise the first maxLength characters and '...' |
| ClientUtils.TruncateBounded | Frontend/src/lib/utils.ts:35-38 | the result is at most maxLength+3 long and starts like the input |
| ClientUtils.GenerateRoomName | Frontend/src/lib/utils.ts:40-51 | a group's name; for a personal room the name of the first participant other than the current user, 'Unknown User' when that name is empty or there is no such participant |
| ClientUtils.PersonalRoomShowsOther | Frontend/src/lib/utils.ts:46-50 | a two-person room is titled with the other person's name |
| ChatStore.MapGet | Frontend/src/store/chatStore.ts:65-69 | `Map.get`: absent exactly for missing keys, else the stored list |
| ChatStore.MapSet | Frontend/src/store/chatStore.ts:65-69 | `Map.set`: the key reads back the new list, every other key is unchanged |
| ChatStore.MapSetKeys | Frontend/src/store/chatStore.ts:65-69 | `set` adds exactly the key |
| ChatStore.MapSetSize | Frontend/src/store/chatStore.ts:65-69 | `set` grows the map only for a new key |
| ChatStore.MapSetDistinct | Frontend/src/store/chatStore.ts:65-69 | `set` keeps keys unique |
| ChatStore.TotalAfterSet | Frontend/src/store/chatStore.ts:65-69 | the number of typists across rooms changes by the replaced room's difference only |
| ChatStore.Initial | Frontend/src/store/chatStore.ts:26-33 | the store starts empty, no room selected, not loading |
| ChatStore.SetRooms | Frontend/src/store/chatStore.ts:35 | replaces the rooms, nothing else |
| ChatStore.AddRoom | Frontend/src/store/chatStore.ts:37-39 | the new room first, then the old rooms in order; nothing else changes |
| ChatStore.SetCurrentRoom | Frontend/src/store/chatStore.ts:41 | replaces the current room, nothing else |
| ChatStore.SetMessages | Frontend/src/store/chatStore.ts:43 | replaces the messages, nothing else |
| ChatStore.AddMessage | Frontend/src/store/chatStore.ts:45-47 | appends the message, earlier ones unchanged |
| ChatStore.SetUsers | Frontend/src/store/chatStore.ts:49 | replaces the users, nothing else |
| ChatStore.SetOnlineUsers | Frontend/src/store/chatStore.ts:51 | the online set is exactly the given ids |
| ChatStore.AddOnlineUser | Frontend/src/store/chatStore.ts:53-57 | the online set gains the id |
| ChatStore.RemoveOnlineUser | Frontend/src/store/chatStore.ts:59-63 | the online set loses the id |
| ChatStore.SetTypingUsers | Frontend/src/store/chatStore.ts:65-69 | only the room's typing list is replaced |
| ChatStore.SetLoading | Frontend/src/store/chatStore.ts:71 | replaces the loading flag, nothing else |
| ChatStore.ClearMessages | Frontend/src/store/chatStore.ts:73 | the message list becomes empty, nothing else changes |
| ChatStore.AddOnlineIdempotent | Frontend/src/store/chatStore.ts:53-57 | adding an online id twice is adding it once |
| ChatStore.RemoveAbsentOnline | Frontend/src/store/chatStore.ts:59-63 | removing an absent id changes nothing |
| ChatStore.OnlineRoundTrip | Frontend/src/store/chatStore.ts:53-63 | adding then removing a new id restores the state |
| ChatStore.TypingLastWriteWins | Frontend/src/store/chatStore.ts:65-69 | two updates of one room's typing list equal the second alone |
| ChatStore.MapSetTwice | Frontend/src/store/chatStore.ts:65-69 | setting a key twice equals setting it once to the last value |
| ChatStore.ClearThenAdd | Frontend/src/store/chatStore.ts:45-73 | after clearing, an added message is the only one |
| MessageList.BubbleAt | Frontend/src/components/MessageList.tsx:76-80 | one message's flags: own, avatar, time |
| MessageList.Layout | Frontend/src/components/MessageList.tsx:75-80 | own iff sent by the current user; the first message shows avatar and time; later ones show the avatar iff the sender changed and the time iff more than 5 minutes passed |
| MessageList.LiveMessageKeepsLayout | Frontend/src/components/MessageList.tsx:75-80 | a new message at the end does not change how earlier messages are drawn |
| MessageList.OlderPageKeepsLayout | Frontend/src/components/MessageList.tsx:75-80 | prepending an older page changes only the first previously shown message |
| MessageList.TypingIndicator | Frontend/src/components/MessageList.tsx:166-176 | shown iff the map has any entry, with the count of typists across all rooms |
| MessageList.EmptiedListsStillShown | Frontend/src/components/MessageList.tsx:166-176 | a map of emptied lists still shows the indicator, with 0 |
| MessageList.NoTypists | Frontend/src/components/MessageList.tsx:175 | emptied lists count no typists |
| MessageList.IndicatorCountsEveryRoom | Frontend/src/components/MessageList.tsx:166-176 | after one room's update the indicator counts every room's typists, not the current room's |
| MessageInput.Without | Frontend/src/components/MessageInput.tsx:43 | the filter keeps exactly the entries of other users |
| MessageInput.WithoutIsFilter | Frontend/src/components/MessageInput.tsx:43 | the list update is `filter` with the test `u.id !== id` |
| MessageInput.WithoutInOrder | Frontend/src/components/MessageInput.tsx:43 | the kept entries are all the other users' entries, each as often as before, in their order |
| MessageInput.WithoutAppend | Frontend/src/components/MessageInput.tsx:42-43 | filtering distributes over concatenation |
| MessageInput.WithoutTwice | Frontend/src/components/MessageInput.tsx:42-43 | filtering is idempotent |
| MessageInput.UpdateTyping | Frontend/src/components/MessageInput.tsx:40-45 | other entries keep their order; the user is listed iff typing, last and only once |
| MessageInput.HandleUserTypingAsWritten | Frontend/src/components/MessageInput.tsx:37-59 | other rooms are ignored; for this room the list the listener captured when its effect last ran is used, and the flag is read from `data.user`, where the server never puts it, so the room's list becomes that captured list without the user |
| MessageInput.HandleUserTyping | Frontend/src/components/MessageInput.tsx:37-47 | the flag read from the payload: the user is listed iff typing, the others unchanged |
| MessageInput.TypingStartNeverListed | Frontend/src/components/MessageInput.tsx:41 | a server 'typing_start' notice never lists the typist as written, and does with the corrected handler |
| MessageInput.HandleSendMessage | Frontend/src/components/MessageInput.tsx:79-97 | blank input sends nothing; otherwise the trimmed text is sent as 'text', the input is cleared, and an active typing state is stopped after the message |
| MessageInput.SentTextAccepted | Frontend/src/components/MessageInput.tsx:80-84 | the client's trimmed text passes the server's message schema unchanged |
| CreateRoomModal.FormErrors | Frontend/src/components/CreateRoomModal.tsx:12-35 | no error iff the name has 1..100 characters, the description at most 500, at least one participant, exactly one for personal, a non-blank name for groups |
| CreateRoomModal.Unselect | Frontend/src/components/CreateRoomModal.tsx:104 | removes every occurrence of the user and keeps the rest |
| CreateRoomModal.UnselectIsFilter | Frontend/src/components/CreateRoomModal.tsx:104 | the removal is `filter` with the test `id !== userId` |
| CreateRoomModal.UnselectInOrder | Frontend/src/components/CreateRoomModal.tsx:104 | the kept ids are all the other ids, each as often as before, in their order |
| CreateRoomModal.UnselectAbsent | Frontend/src/components/CreateRoomModal.tsx:104 | removing an absent user changes nothing |
| CreateRoomModal.UnselectLast | Frontend/src/components/CreateRoomModal.tsx:103-105 | removing a just-appended user removes exactly its occurrences |
| CreateRoomModal.UnselectShorter | Frontend/src/components/CreateRoomModal.tsx:104 | removing a present user shortens the list |
| CreateRoomModal.ToggleParticipant | Frontend/src/components/CreateRoomModal.tsx:89-108 | personal: [] if selected else exactly [user]; group: append an absent user, remove a present one |
| CreateRoomModal.GroupRemovalInOrder | Frontend/src/components/CreateRoomModal.tsx:102-104 | in group mode, clicking a selected user keeps the other selected ids in their order |
| CreateRoomModal.PersonalSelectionAtMostOne | Frontend/src/components/CreateRoomModal.tsx:92-100 | a personal selection never exceeds one user |
| CreateRoomModal.GroupToggleTwice | Frontend/src/components/CreateRoomModal.tsx:102-107 | toggling an absent user twice restores the selection |
| CreateRoomModal.ChangeType | Frontend/src/components/CreateRoomModal.tsx:110-124 | personal clears the participants and names the form 'Personal Chat'; group clears the name and keeps participants |
| CreateRoomModal.GroupFormNeedsName | Frontend/src/components/CreateRoomModal.tsx:110-124 | right after switching to group the form cannot be submitted |
| CreateRoomModal.SelectedName | Frontend/src/components/CreateRoomModal.tsx:68-69 | the name part is never empty ('User' as fallback) |
| CreateRoomModal.SubmitRequest | Frontend/src/components/CreateRoomModal.tsx:62-73 | groups are sent as filled in; personal rooms are named 'Chat with ' + the selected name and lose the description |
| CreateRoomModal.ValidFormAccepted | Frontend/src/components/CreateRoomModal.tsx:62-73 | a valid form's request passes the server's schema, and a personal one with another user yields two members |
| CreateRoomModal.PairMembers | Backend/src/routes/rooms.ts:32-35 | another user's id plus the creator make two members |
| Sidebar.SharedWith | Frontend/src/components/Sidebar.tsx:22-25 | the room test of the lookup: a personal room listing the user |
| Sidebar.PersonalRequest | Frontend/src/components/Sidebar.tsx:33-38 | the request is personal, with exactly the selected user and 'Chat with ' + their name |
| Sidebar.SelectUser | Frontend/src/components/Sidebar.tsx:21-30 | the first personal room of the list shared with the user is opened; the request is made exactly when there is none |
| Sidebar.HandleUserSelect | Frontend/src/components/Sidebar.tsx:19-62 | an existing room becomes current; a created room is prepended and becomes current; an error leaves the state as it was |
| Sidebar.ExistsErrorChangesNothing | Frontend/src/components/Sidebar.tsx:47-56 | the 'already exists' fallback searches the same list that just failed, so it changes nothing |
| Sidebar.RequestAccepted | Frontend/src/components/Sidebar.tsx:33-38 | the request passes the server's schema and yields two members |
| Sidebar.RoomTitleAsWritten | Frontend/src/components/Sidebar.tsx:128 | titles use the literal 'current-user-id' as the current user |
| Sidebar.RoomTitle | Frontend/src/components/Sidebar.tsx:128 | titles computed for the signed-in user: a group's name, else the name of the first other participant or 'Unknown User' |
| Sidebar.TitleShowsOwnName | Frontend/src/components/Sidebar.tsx:128 | as written, a personal room listing the viewer first is titled with the viewer's own name |
| Sidebar.TitleShowsOther | Frontend/src/components/Sidebar.tsx:128 | corrected, the room is titled with the other person's name |

## Left out

- Transport and plumbing are not modelled: the Socket.IO server and CORS setup, Fastify wiring and `server.ts`, the client's socket and axios wrappers, and all console logging.
- Concurrency is not modelled. Each handler is one atomic transition, so the create-personal-room race and interleaved async handlers are out of scope.
- Mongoose mechanics are not modelled: `populate`, `$all`/`$in` query internals, indexes and 12-byte string ObjectIds. Lookups are sequence searches over the store, and a malformed ObjectId goes to the handler's catch branch.
- Ids are compared as exact strings. Casting an id string to an ObjectId ignores the case of its hex digits, so the server finds a stored id spelled in upper case; the model answers 'not found' for such a spelling.
- bcrypt, JWT signing, verification and expiry, the e-mail regular expression and zod's URL check are uninterpreted `Oracles` fields. Salt rounds and the 7-day expiry are not modelled; `bcrypt.compare` is modelled as equality with a deterministic hash.
- Clock values are integer parameters. `formatMessageTime`, `formatLastSeen`, `debounce` and `cn` are not modelled. Neither is the Invalid Date (NaN) case of the 5-minute comparison.
- Rendering, scrolling, textarea sizing, avatar uploads, toasts and the profile and registration pages are not modelled.
- Upper and lower case conversion covers ASCII letters only, not full Unicode case mapping. User display names sort by code-point order (`LexLe`), MongoDB's default binary order; collations are not modelled.
- Strings are sequences of Unicode code points. JavaScript's `length`, `charAt` and `slice`, and with them the Mongoose and zod length limits, count UTF-16 code units. A character outside the Basic Multilingual Plane counts once here and twice there: a message of 1500 emoji is accepted by the model and rejected by the server, and the model never splits a surrogate pair in `getInitials` or `truncateText`.
- Client records carry a user's id as `id`, the field the client code reads (utils.ts:47, Sidebar.tsx:24, MessageList.tsx:76). The server sends populated documents whose JSON carries it as `_id` only, so in the running client those comparisons read `undefined`. The model compares the ids the client evidently means.
- RoomRoutes.RoomMessages: page and limit are integers. A query string that converts to a non-integer number (e.g. '1.5') is not modelled.
- SocketEngine.ConnectedUsers: the connected users are returned as a set. The insertion order of the JavaScript `Map` is not modelled.
- SocketEngine.Connect: socket ids are assumed fresh, as Socket.IO generates them.
- SocketSafety.Handle: an event for a socket that is not connected changes nothing, because the source only registers handlers on live sockets.
- Socket payloads are typed. Fields missing from a client's payload are not modelled.
- The join check and the message save are atomic with their emissions. A database error in the middle of a handler (besides a failed cast) is not modelled.
- MessageInput: the typing-start debounce and timers (lines 19-33 and 61-70) are not modelled. Only the list update and sending are.
- CreateRoomModal: after submission the room is added with `addRoom` and a toast is shown. Only the request that is built is modelled.
- RoomsOf: its contract states membership only; store order and multiplicity are stated by `Domain.RoomsOfInOrder`, kept apart so that the proofs about channels do not carry them.
- MessagesOf: its contract states membership only; store order and multiplicity are stated by `Domain.MessagesOfInOrder`, kept apart so that the proofs about history pages do not carry them.
- Without: its contract states membership only; order and multiplicity are stated by `MessageInput.WithoutInOrder`.
- Unselect: its contract states membership only; order and multiplicity are stated by `CreateRoomModal.UnselectInOrder`.
- ToggleParticipant: the group-removal case states membership only; the order of the kept ids is stated by `CreateRoomModal.GroupRemovalInOrder`.
- PageMessages: its contract states the length bound and the cut; membership and order are stated by `RoomRoutes.PageMessagesOrdered`.
- AuthRoutes.GetProfile: the returned profile carries `lastSeen` but not the `createdAt`/`updatedAt` timestamps Mongoose adds, which are clock values.

## Findings

| source | as written | input that shows it | evidently intended | confidence | as-written member | corrected member |
|---|---|---|---|---|---|---|
| Backend/src/socket/socketHandler.ts:113-116 | join_room checks room access for the `userId` in the client's payload | a socket of user A sends `join_room` with a room that lists B but not A, and `userId: B` | check access for the handshake user `socket.data.user._id`, as send_message does | high (not executed) | SocketSafety.JoinRoomTrustsClaimedUser | SocketSafety.JoinSafe |
| Backend/src/socket/socketHandler.ts:227-230 | any disconnect marks the user offline and announces it | user A with two open sockets closes one | mark offline only when the user's last socket closes | medium (not executed) | SocketSafety.DisconnectForgetsOtherSockets | SocketSafety.DisconnectSafe |
| Frontend/src/components/MessageInput.tsx:41 | the typing flag is read from `data.user.isTyping` | the server's `user_typing` with `isTyping: true`, whose user object has no such field | read `data.isTyping`, where the server puts it, and update the store's current typing list: the listener keeps the `typingUsers` of the render in which its effect last ran (line 59), so with the flag alone fixed, typists A then B would leave only [B] | high (not executed) | MessageInput.TypingStartNeverListed | MessageInput.HandleUserTyping |
| Frontend/src/components/Sidebar.tsx:128 | room titles are computed for the literal id 'current-user-id' | a personal room whose participants are [me, other] | pass the signed-in user's id. On its own this does not change the title in the running client: the populated participants carry `_id`, so `participant.id` is `undefined` for everyone (see Left out) | high (not executed) | Sidebar.TitleShowsOwnName | Sidebar.TitleShowsOther |
