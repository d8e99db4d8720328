/**
 * The account routes: register, login, profile read and update, logout. Each
 * handler is a function from the store (and the request) to the new store and
 * the reply. Request bodies arrive already typed as strings; `Validation error`
 * replies stand for the request-schema checks.
 */
module AuthRoutes {
  import opened Wrappers
  import opened Text
  import opened Domain
  import opened Externals
  import opened Schemas
  import opened Http

  /** The user as the routes return it (never the password). */
  datatype PublicUser = PublicUser(id: UserId, email: string, displayName: string,
                                   avatar: Option<string>, isOnline: bool)

  function Public(u: User): PublicUser {
    PublicUser(u.id, u.email, u.displayName, u.avatar, u.isOnline)
  }

  /** The stored user without its password (`select('-password')`). */
  datatype ProfileView = ProfileView(user: PublicUser, lastSeen: int)

  function View(u: User): ProfileView {
    ProfileView(Public(u), u.lastSeen)
  }

  /** The reply of register and login: a signed token for the user. */
  datatype Session = Session(message: string, token: string, user: PublicUser)

  datatype RegisterBody = RegisterBody(email: string, password: string, displayName: string,
                                       avatar: Option<string>)

  /** The register request schema: e-mail format, password >= 6, display name 2..50, avatar a URL or empty. */
  predicate RegisterBodyValid(o: Oracles, b: RegisterBody) {
    && o.isEmail(b.email)
    && |b.password| >= MinPasswordLength
    && MinDisplayNameLength <= |b.displayName| <= MaxDisplayNameLength
    && (b.avatar.None? || b.avatar.value == [] || o.isUrl(b.avatar.value))
  }

  /** `avatar || undefined`: an empty avatar is stored as absent. */
  function StoredAvatar(a: Option<string>): (r: Option<string>)
    ensures r.None? <==> a.None? || a.value == []
    ensures r.Some? ==> r == a
  {
    if a.Some? && a.value != [] then a else None
  }

  const UserExists := "User already exists with this email"
  const InvalidCredentials := "Invalid credentials"
  const UserNotFound := "User not found"

  /**
   * POST /register. A taken e-mail (compared after the schema's normalisation)
   * is a 400 and stores nothing; otherwise the new user is stored offline with
   * a hashed password and a token is issued.
   */
  function Register(db: Db, o: Oracles, b: RegisterBody, newId: UserId, now: int): (r: Handled<Session>)
    ensures !RegisterBodyValid(o, b) ==> r == Handled(db, Failure(400, ValidationError))
    ensures (RegisterBodyValid(o, b) && FindUserByEmail(db, NormalizeEmail(b.email)).Some?)
              ==> r == Handled(db, Failure(400, UserExists))
    ensures (RegisterBodyValid(o, b) && FindUserByEmail(db, NormalizeEmail(b.email)).None?) ==>
              if NewUser(o, newId, b.email, b.password, b.displayName, StoredAvatar(b.avatar), now).Ok?
                 && forall v :: v in db.users ==> v.id != newId
              then r.reply.Success?
              else r == Handled(db, Failure(500, InternalError))
    ensures r.reply.Failure? ==> r.db == db
    ensures r.reply.Success? ==>
              && RegisterBodyValid(o, b)
              && FindUserByEmail(db, NormalizeEmail(b.email)).None?
              && r.reply.status == 201
              && var u := User(newId, NormalizeEmail(b.email), o.hashPassword(b.password), Trim(b.displayName),
                               StoredAvatar(b.avatar), false, now);
                 && r.db == db.(users := db.users + [u])
                 && r.reply.body == Session("User created successfully", o.signToken(Claims(newId, u.email)), Public(u))
    ensures WellFormed(db) ==> WellFormed(r.db)
  {
    if !RegisterBodyValid(o, b) then Handled(db, Failure(400, ValidationError))
    else if FindUserByEmail(db, NormalizeEmail(b.email)).Some? then Handled(db, Failure(400, UserExists))
    else match NewUser(o, newId, b.email, b.password, b.displayName, StoredAvatar(b.avatar), now)
      case Err(_) => Handled(db, Failure(500, InternalError))
      case Ok(u) =>
        InsertNewEmail(db, u);
        match InsertUser(db, u)
        case None => Handled(db, Failure(500, InternalError))
        case Some(db') =>
          Handled(db', Success(201, Session("User created successfully",
                                            o.signToken(Claims(u.id, u.email)), Public(u))))
  }

  /** With the e-mail free, storing a user fails exactly when its id is taken. */
  lemma InsertNewEmail(db: Db, u: User)
    requires FindUserByEmail(db, u.email).None?
    ensures InsertUser(db, u).Some? <==> forall v :: v in db.users ==> v.id != u.id
  {
  }

  datatype LoginBody = LoginBody(email: string, password: string)

  /**
   * POST /login. An unknown e-mail and a wrong password give the very same 401;
   * a success marks the user online and keeps the stored password hash.
   */
  function Login(db: Db, o: Oracles, b: LoginBody, now: int): (r: Handled<Session>)
    ensures !(o.isEmail(b.email) && b.password != []) ==> r == Handled(db, Failure(400, ValidationError))
    ensures o.isEmail(b.email) && b.password != [] ==>
              match FindUserByEmail(db, NormalizeEmail(b.email))
              case None => r == Handled(db, Failure(401, InvalidCredentials))
              case Some(u) =>
                if !PasswordMatches(o, b.password, u.passwordHash)
                then r == Handled(db, Failure(401, InvalidCredentials))
                else
                  && r.db == SetOnline(db, u.id, true, now)
                  && r.reply == Success(200, Session("Login successful", o.signToken(Claims(u.id, u.email)),
                                                     Public(u.(isOnline := true, lastSeen := now))))
  {
    if !(o.isEmail(b.email) && b.password != []) then Handled(db, Failure(400, ValidationError))
    else match FindUserByEmail(db, NormalizeEmail(b.email))
      case None => Handled(db, Failure(401, InvalidCredentials))
      case Some(u) =>
        if !PasswordMatches(o, b.password, u.passwordHash) then Handled(db, Failure(401, InvalidCredentials))
        else
          var saved := UserSaveHook(o, u.(isOnline := true, lastSeen := now), false);
          Handled(SetOnline(db, u.id, true, now),
                  Success(200, Session("Login successful", o.signToken(Claims(saved.id, saved.email)), Public(saved))))
  }

  /** GET /profile: the caller's own record, or 404 when the user no longer exists. */
  function GetProfile(db: Db, caller: Claims): (r: Reply<ProfileView>)
    ensures !IsObjectId(caller.userId) ==> r == Failure(500, InternalError)
    ensures IsObjectId(caller.userId) ==>
              match FindUser(db, caller.userId)
              case None => r == Failure(404, UserNotFound)
              case Some(u) => r == Success(200, View(u))
  {
    if !IsObjectId(caller.userId) then Failure(500, InternalError)
    else match FindUser(db, caller.userId)
      case None => Failure(404, UserNotFound)
      case Some(u) => Success(200, View(u))
  }

  datatype ProfileUpdate = ProfileUpdate(displayName: Option<string>, avatar: Option<string>)

  /** The update-profile request schema: display name 2..50 and avatar a URL, each only if supplied. */
  predicate ProfileUpdateValid(o: Oracles, b: ProfileUpdate) {
    && (b.displayName.Some? ==> MinDisplayNameLength <= |b.displayName.value| <= MaxDisplayNameLength)
    && (b.avatar.Some? ==> o.isUrl(b.avatar.value))
  }

  /** The fields an update writes: only those supplied, the display name trimmed. */
  function ApplyProfileUpdate(u: User, b: ProfileUpdate): User {
    u.(displayName := if b.displayName.Some? then Trim(b.displayName.value) else u.displayName,
       avatar := if b.avatar.Some? then b.avatar else u.avatar)
  }

  /**
   * PUT /profile. Only the supplied fields change; every other field of the
   * caller's record, and every other record, is left as it was. An unknown user
   * gets 404 and nothing changes.
   */
  function UpdateProfile(db: Db, o: Oracles, caller: Claims, b: ProfileUpdate): (r: Handled<ProfileView>)
    ensures !ProfileUpdateValid(o, b) ==> r == Handled(db, Failure(400, ValidationError))
    ensures r.reply.Failure? ==> r.db == db
    ensures (&& ProfileUpdateValid(o, b) && IsObjectId(caller.userId)
             && (b.displayName.Some? ==> CheckDisplayName(b.displayName.value).Valid?)
             && FindUser(db, caller.userId).None?)
              ==> r == Handled(db, Failure(404, UserNotFound))
    ensures (&& ProfileUpdateValid(o, b) && IsObjectId(caller.userId)
             && (b.displayName.Some? ==> CheckDisplayName(b.displayName.value).Valid?)
             && FindUser(db, caller.userId).Some?)
              ==> r.reply.Success?
    ensures ProfileUpdateValid(o, b) && !IsObjectId(caller.userId) ==> r == Handled(db, Failure(500, InternalError))
    ensures (&& ProfileUpdateValid(o, b) && IsObjectId(caller.userId)
             && b.displayName.Some? && CheckDisplayName(b.displayName.value).Invalid?)
              ==> r == Handled(db, Failure(500, InternalError))
    ensures r.reply.Success? ==>
              && FindUser(db, caller.userId).Some?
              && var u := FindUser(db, caller.userId).value;
                 && r.db == UpdateUser(db, caller.userId, (v: User) => ApplyProfileUpdate(v, b))
                 && r.reply == Success(200, View(ApplyProfileUpdate(u, b)))
    ensures r.reply.Success? ==>
              && |r.db.users| == |db.users| && r.db.rooms == db.rooms && r.db.messages == db.messages
              && forall i :: 0 <= i < |db.users| ==>
                   && r.db.users[i].id == db.users[i].id
                   && r.db.users[i].email == db.users[i].email
                   && r.db.users[i].passwordHash == db.users[i].passwordHash
                   && r.db.users[i].isOnline == db.users[i].isOnline
                   && r.db.users[i].lastSeen == db.users[i].lastSeen
                   && ((b.displayName.None? || db.users[i].id != caller.userId)
                         ==> r.db.users[i].displayName == db.users[i].displayName)
                   && ((b.avatar.None? || db.users[i].id != caller.userId)
                         ==> r.db.users[i].avatar == db.users[i].avatar)
  {
    if !ProfileUpdateValid(o, b) then Handled(db, Failure(400, ValidationError))
    else if !IsObjectId(caller.userId) then Handled(db, Failure(500, InternalError))
    else if b.displayName.Some? && CheckDisplayName(b.displayName.value).Invalid?
    then Handled(db, Failure(500, InternalError))
    else match FindUser(db, caller.userId)
      case None => Handled(db, Failure(404, UserNotFound))
      case Some(u) =>
        Handled(UpdateUser(db, caller.userId, (v: User) => ApplyProfileUpdate(v, b)),
                Success(200, View(ApplyProfileUpdate(u, b))))
  }

  /**
   * POST /logout: marks the caller offline. The reply is a success even when
   * no user has the caller's id (the update result is not checked).
   */
  function Logout(db: Db, caller: Claims, now: int): (r: Handled<string>)
    ensures IsObjectId(caller.userId) ==>
              && r.reply == Success(200, "Logout successful")
              && r.db.rooms == db.rooms && r.db.messages == db.messages && |r.db.users| == |db.users|
              && forall i :: 0 <= i < |db.users| ==>
                   r.db.users[i] == if db.users[i].id == caller.userId
                                    then db.users[i].(isOnline := false, lastSeen := now)
                                    else db.users[i]
    ensures !IsObjectId(caller.userId) ==> r == Handled(db, Failure(500, InternalError))
  {
    if !IsObjectId(caller.userId) then Handled(db, Failure(500, InternalError))
    else Handled(SetOnline(db, caller.userId, false, now), Success(200, "Logout successful"))
  }

  /** Login and logout toggle the presence flag of the account. */
  lemma LoginThenLogoutPresence(db: Db, o: Oracles, b: LoginBody, now: int, later: int)
    requires WellFormed(db)
    requires Login(db, o, b, now).reply.Success?
    ensures var u := FindUserByEmail(db, NormalizeEmail(b.email)).value;
            FindUser(Login(db, o, b, now).db, u.id) == Some(u.(isOnline := true, lastSeen := now))
    ensures var u := FindUserByEmail(db, NormalizeEmail(b.email)).value;
            IsObjectId(u.id) ==>
              FindUser(Logout(Login(db, o, b, now).db, Claims(u.id, u.email), later).db, u.id)
                == Some(u.(isOnline := false, lastSeen := later))
  {
    var u := FindUserByEmail(db, NormalizeEmail(b.email)).value;
    var k :| 0 <= k < |db.users| && db.users[k] == u;
    var d1 := Login(db, o, b, now).db;
    UniqueIdLookup(db, k);
    SetOnlineLookup(db, k, true, now);
    SetOnlineLookup(d1, k, false, later);
  }

  /**
   * A successful registration can be followed by a login with the same e-mail
   * and password, which finds the new account.
   */
  lemma RegisterThenLogin(db: Db, o: Oracles, b: RegisterBody, newId: UserId, now: int, later: int)
    requires WellFormed(db)
    requires Register(db, o, b, newId, now).reply.Success?
    ensures var d := Register(db, o, b, newId, now).db;
            && Login(d, o, LoginBody(b.email, b.password), later).reply.Success?
            && Login(d, o, LoginBody(b.email, b.password), later).reply.body.user.id == newId
  {
    var reg := Register(db, o, b, newId, now);
    var d := reg.db;
    var u := User(newId, NormalizeEmail(b.email), o.hashPassword(b.password), Trim(b.displayName),
                  StoredAvatar(b.avatar), false, now);
    assert d == db.(users := db.users + [u]);
    assert RegisterBodyValid(o, b);
    LoginFindsStored(d, o, LoginBody(b.email, b.password), u, |db.users|, later);
  }

  /** A stored user is found by a login with their e-mail and the password whose hash is kept. */
  lemma LoginFindsStored(d: Db, o: Oracles, b: LoginBody, u: User, k: nat, later: int)
    requires WellFormed(d) && k < |d.users| && d.users[k] == u
    requires o.isEmail(b.email) && b.password != []
    requires u.email == NormalizeEmail(b.email) && u.passwordHash == o.hashPassword(b.password)
    ensures Login(d, o, b, later).reply.Success?
    ensures Login(d, o, b, later).reply.body.user.id == u.id
  {
    UniqueEmailLookup(d, k);
    assert FindUserByEmail(d, NormalizeEmail(b.email)) == Some(u);
    assert PasswordMatches(o, b.password, u.passwordHash);
  }

  /** After a successful profile update, reading the profile shows the update. */
  lemma UpdateThenGetProfile(db: Db, o: Oracles, caller: Claims, b: ProfileUpdate)
    requires WellFormed(db)
    requires UpdateProfile(db, o, caller, b).reply.Success?
    ensures GetProfile(UpdateProfile(db, o, caller, b).db, caller) == UpdateProfile(db, o, caller, b).reply
  {
    var u := FindUser(db, caller.userId).value;
    var k :| 0 <= k < |db.users| && db.users[k] == u;
    var d := UpdateProfile(db, o, caller, b).db;
    assert d.users[k] == ApplyProfileUpdate(u, b);
    assert WellFormed(d);
    UniqueIdLookup(d, k);
  }

  /** With unique e-mails, `FindUserByEmail` finds the user stored at any position. */
  lemma UniqueEmailLookup(db: Db, k: nat)
    requires WellFormed(db) && k < |db.users|
    ensures FindUserByEmail(db, db.users[k].email) == Some(db.users[k])
  {
    var r := FindUserByEmail(db, db.users[k].email);
    var j :| 0 <= j < |db.users| && db.users[j] == r.value;
    assert db.users[j].email == db.users[k].email;
  }

  /** With unique ids, `FindUser` finds the user stored at any position. */
  lemma UniqueIdLookup(db: Db, k: nat)
    requires WellFormed(db) && k < |db.users|
    ensures FindUser(db, db.users[k].id) == Some(db.users[k])
  {
    var r := FindUser(db, db.users[k].id);
    var j :| 0 <= j < |db.users| && db.users[j] == r.value;
    assert db.users[j].id == db.users[k].id;
  }

  /** `SetOnline` keeps ids unique and rewrites exactly the user at that id. */
  lemma SetOnlineLookup(db: Db, k: nat, online: bool, now: int)
    requires WellFormed(db) && k < |db.users|
    ensures WellFormed(SetOnline(db, db.users[k].id, online, now))
    ensures FindUser(SetOnline(db, db.users[k].id, online, now), db.users[k].id)
              == Some(db.users[k].(isOnline := online, lastSeen := now))
  {
    var d := SetOnline(db, db.users[k].id, online, now);
    assert d.users[k] == db.users[k].(isOnline := online, lastSeen := now);
    UniqueIdLookup(d, k);
  }
}
