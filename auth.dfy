/** The session manager (src/api/auth.py): the handlers that register, log in,
    log out of one device or of all of them, change the password, delete the
    account and refresh the access token, as transitions of the credential
    store and the revocation store.  The JWT library's own checks
    (`jwt_required`, `jwt_refresh_token_required`) and signing are not part of
    this model: a handler is handed the decoded, accepted token records, and
    the tokens it issues are their claims.
    The handlers import `Payload` from src/models/jwt.py and call
    `authorize.get_payload()` and `authorize.raise_banned_jwt(...)`, none of
    which the repository defines; the model reads the payload as a
    `Tokens.TokenData` and the ban as the 401 that `check_banned` raises. */
module Auth {
  import opened Ids
  import opened Errors
  import opened Results
  import opened Passwords
  import opened Models
  import opened Redis
  import opened Tokens
  import opened JwtService
  import opened Users
  import PermissionManagement

  /** `ChangePasswordModel`. */
  datatype PasswordChange = PasswordChange(oldPassword: string, newPassword: string)

  /** The access and the refresh token `login` sets as cookies. */
  datatype TokenPair = TokenPair(access: RawToken, refresh: RawToken)

  /** `if await jwt.check_banned(payload): ...`: `check_banned` raises 401 on a
      revoked token and otherwise returns None, so the `if` never fires and the
      handler goes on exactly when the token is not revoked. */
  function Unbanned(store: Store, t: TokenData): (r: Result<()>)
    ensures r.Err? <==> Revoked(store, t)
    ensures r.Err? ==> r.error == TokenBanned(t.nameToken)
  {
    match CheckBanned(store, t)
    case Pass => Ok(())
    case Fail(e) => Err(e)
  }

  /** `register`: 409 when a live user has the login, otherwise `create_user`. */
  function RegisterSpec(db: Db, ps: PasswordService, account: Account, salt: string, newId: Uuid)
    : (r: Step<UserRow, Db>)
    ensures r.result == Err(LoginTaken) <==> exists u :: u in db.users && u.login == account.login && !u.isDeleted
    ensures r.result.Err? ==> r.next == db
    ensures r.result.Ok? ==> r.result.value.login == account.login && !r.result.value.isDeleted
  {
    if GetUserSpec(db, account.login, false).Some? then Step(Err(LoginTaken), db)
    else CreateUserSpec(db, ps, account, salt, newId)
  }

  /** `login`: 401 unless a live user has the login and the password checks
      against its stored hash; both tokens are issued at `now` for that user
      and carry its permission ids.  `accessJti` and `refreshJti` stand for the
      library's fresh uuids. */
  function LoginSpec(db: Db, ps: PasswordService, account: Account, now: int, cfg: JwtConfig, accessJti: Uuid, refreshJti: Uuid)
    : (r: Result<TokenPair>)
    ensures r.Ok? ==> exists u :: (
      && u in db.users && u.login == account.login && !u.isDeleted
      && ps.CheckPassword(account.password, u.password)
      && r.value.access.sub == u.id && r.value.access.permissions == u.permissions)
    ensures r.Ok? ==>
      && r.value.refresh.sub == r.value.access.sub && r.value.refresh.permissions == r.value.access.permissions
      && r.value.access.tokenType == "access" && r.value.refresh.tokenType == "refresh"
      && r.value.access.iat == now && r.value.refresh.iat == now
      && r.value.access.exp == now + cfg.accessExpires && r.value.refresh.exp == now + cfg.refreshExpires
    ensures r.Err? ==> r.error == BadCredentials
  {
    match GetUserSpec(db, account.login, false)
    case None => Err(BadCredentials)
    case Some(u) =>
      if !ps.CheckPassword(account.password, u.password) then Err(BadCredentials)
      else Ok(TokenPair(
        Issue(u.id, "access", u.permissions, now, cfg.accessExpires, accessJti),
        Issue(u.id, "refresh", u.permissions, now, cfg.refreshExpires, refreshJti)))
  }

  /** `logout` as written: only the access token is checked for a ban; then the
      individual markers of both tokens are set, each holding the token's jti
      and expiring with it, both under the access token's user. */
  function LogoutSpec(store: Store, access: TokenData, refresh: TokenData, now: int): (r: Step<(), Store>)
    ensures r.result.Err? <==> Revoked(store, access)
    ensures r.result.Err? ==> r.next == store
    ensures r.result.Ok? ==>
      r.next.Keys == store.Keys + {Key(AccessBanned, access.userId, access.jti), Key(RefreshBanned, access.userId, refresh.jti)}
    ensures r.result.Ok? ==>
      && r.next[Key(AccessBanned, access.userId, access.jti)] == Entry(OneTuple(StrValue(access.jti)), access.exp - now)
      && r.next[Key(RefreshBanned, access.userId, refresh.jti)] == Entry(OneTuple(StrValue(refresh.jti)), refresh.exp - now)
    ensures r.result.Ok? ==>
      forall k :: (k in store && k != Key(AccessBanned, access.userId, access.jti)
                   && k != Key(RefreshBanned, access.userId, refresh.jti)) ==> r.next[k] == store[k]
  {
    PrefixesDisjoint();
    match Unbanned(store, access)
    case Err(e) => Step(Err(e), store)
    case Ok(_) =>
      var s := Put(store, Key(AccessBanned, access.userId, access.jti), StrValue(access.jti), access.exp - now);
      Step(Ok(()), Put(s, Key(RefreshBanned, access.userId, refresh.jti), StrValue(refresh.jti), refresh.exp - now))
  }

  /** `logout` as evidently intended: the markers hold the token strings that
      `check_banned` compares them with. */
  function LogoutIntendedSpec(store: Store, access: TokenData, refresh: TokenData, now: int): (r: Step<(), Store>)
    ensures r.result.Err? <==> Revoked(store, access)
    ensures r.result.Err? ==> r.next == store
  {
    match Unbanned(store, access)
    case Err(e) => Step(Err(e), store)
    case Ok(_) =>
      var s := Put(store, Key(AccessBanned, access.userId, access.jti), StrValue(access.token), access.exp - now);
      Step(Ok(()), Put(s, Key(RefreshBanned, access.userId, refresh.jti), StrValue(refresh.token), refresh.exp - now))
  }

  /** `logout_all`: both global markers of the user hold `now`. */
  function LogoutAllSpec(store: Store, t: TokenData, now: int, cfg: JwtConfig): (r: Step<(), Store>)
    ensures r.result.Err? <==> Revoked(store, t)
    ensures r.result.Err? ==> r.next == store
    ensures r.result.Ok? ==>
      && r.next.Keys == store.Keys + {Key(AccessBanned, "all", t.userId), Key(RefreshBanned, "all", t.userId)}
      && r.next[Key(AccessBanned, "all", t.userId)] == Entry(OneTuple(IntValue(now)), cfg.accessExpires)
      && r.next[Key(RefreshBanned, "all", t.userId)] == Entry(OneTuple(IntValue(now)), cfg.refreshExpires)
    ensures r.result.Ok? ==>
      forall k :: (k in store && k != Key(AccessBanned, "all", t.userId)
                   && k != Key(RefreshBanned, "all", t.userId)) ==> r.next[k] == store[k]
  {
    PrefixesDisjoint();
    match Unbanned(store, t)
    case Err(e) => Step(Err(e), store)
    case Ok(_) => Step(Ok(()), BanUser(store, t.userId, now, cfg))
  }

  /** `change_password`: after the ban check, 401 "account deleted" when no
      live user has the token's id, 401 "wrong password" when the old password
      does not check; otherwise `change_password`.  No marker is written. */
  function ChangePasswordHandlerSpec(st: State, ps: PasswordService, t: TokenData, change: PasswordChange, salt: string)
    : (r: Step<(), State>)
    ensures r.next.store == st.store
    ensures r.result.Err? ==> r.next == st
    ensures r.result.Ok? <==> (
      && !Revoked(st.store, t) && GetUserByIdSpec(st.db, t.userId).Some?
      && ps.CheckPassword(change.oldPassword, GetUserByIdSpec(st.db, t.userId).value.password))
  {
    match Unbanned(st.store, t)
    case Err(e) => Step(Err(e), st)
    case Ok(_) =>
      match GetUserByIdSpec(st.db, t.userId)
      case None => Step(Err(AccountDeleted), st)
      case Some(u) =>
        if !ps.CheckPassword(change.oldPassword, u.password) then Step(Err(WrongPassword), st)
        else Step(Ok(()), st.(db := ChangePasswordSpec(st.db, ps, u, change.newPassword, salt)))
  }

  /** `delete`: after the ban check, the live user with the token's id (if any)
      is soft-deleted, and both global markers are set in every case. */
  function DeleteHandlerSpec(st: State, t: TokenData, now: int, cfg: JwtConfig): (r: Step<(), State>)
    ensures r.result.Err? <==> Revoked(st.store, t)
    ensures r.result.Err? ==> r.next == st
    ensures r.result.Ok? ==> r.next.store == BanUser(st.store, t.userId, now, cfg)
    ensures r.result.Ok? && GetUserByIdSpec(st.db, t.userId).None? ==> r.next.db == st.db
  {
    match Unbanned(st.store, t)
    case Err(e) => Step(Err(e), st)
    case Ok(_) =>
      var db := match GetUserByIdSpec(st.db, t.userId)
        case None => st.db
        case Some(u) => DeleteUserSpec(st.db, u);
      Step(Ok(()), State(db, BanUser(st.store, t.userId, now, cfg)))
  }

  /** `refresh`: after the ban check of the refresh token, a new access token
      for the same user carrying the refresh token's permission snapshot; the
      credential store is not consulted and nothing is written. */
  function RefreshSpec(store: Store, t: TokenData, now: int, cfg: JwtConfig, jti: Uuid): (r: Result<RawToken>)
    ensures r.Err? <==> Revoked(store, t)
    ensures r.Ok? ==> (
      && r.value.sub == t.userId && r.value.permissions == t.permissions
      && r.value.tokenType == "access" && r.value.iat == now && r.value.exp == now + cfg.accessExpires)
  {
    match Unbanned(store, t)
    case Err(e) => Err(e)
    case Ok(_) => Ok(Issue(t.userId, "access", t.permissions, now, cfg.accessExpires, jti))
  }

  class AuthHandlers {
    const users: UserService
    const redis: RedisService
    const cfg: JwtConfig

    constructor (users: UserService, redis: RedisService, cfg: JwtConfig)
      ensures this.users == users && this.redis == redis && this.cfg == cfg
    {
      this.users := users;
      this.redis := redis;
      this.cfg := cfg;
    }

    function Current(): State
      reads users.session, redis
    {
      State(users.session.db, redis.store)
    }

    method Register(account: Account, salt: string, newId: Uuid) returns (r: Result<UserRow>)
      modifies users.session
      ensures Step(r, users.session.db) == RegisterSpec(old(users.session.db), users.passwords, account, salt, newId)
    {
      var existing := users.GetUser(account.login, false);
      if existing.Some? {
        return Err(LoginTaken);
      }
      r := users.CreateUser(account, salt, newId);
    }

    method Login(account: Account, now: int, accessJti: Uuid, refreshJti: Uuid) returns (r: Result<TokenPair>)
      ensures r == LoginSpec(users.session.db, users.passwords, account, now, cfg, accessJti, refreshJti)
    {
      var user := users.GetUser(account.login, false);
      if user.None? || !users.passwords.CheckPassword(account.password, user.value.password) {
        return Err(BadCredentials);
      }
      var u := user.value;
      var access := Issue(u.id, "access", u.permissions, now, cfg.accessExpires, accessJti);
      var refresh := Issue(u.id, "refresh", u.permissions, now, cfg.refreshExpires, refreshJti);
      r := Ok(TokenPair(access, refresh));
    }

    method Logout(access: TokenData, refresh: TokenData, now: int) returns (r: Result<()>)
      modifies redis
      ensures Step(r, redis.store) == LogoutSpec(old(redis.store), access, refresh, now)
    {
      var verdict := CheckBanned(redis.store, access);
      if verdict.Fail? {
        return Err(verdict.error);
      }
      redis.Set(Key(AccessBanned, access.userId, access.jti), StrValue(access.jti), access.exp - now);
      redis.Set(Key(RefreshBanned, access.userId, refresh.jti), StrValue(refresh.jti), refresh.exp - now);
      r := Ok(());
    }

    method LogoutAll(t: TokenData, now: int) returns (r: Result<()>)
      modifies redis
      ensures Step(r, redis.store) == LogoutAllSpec(old(redis.store), t, now, cfg)
    {
      var verdict := CheckBanned(redis.store, t);
      if verdict.Fail? {
        return Err(verdict.error);
      }
      redis.Set(Key(AccessBanned, "all", t.userId), IntValue(now), cfg.accessExpires);
      redis.Set(Key(RefreshBanned, "all", t.userId), IntValue(now), cfg.refreshExpires);
      r := Ok(());
    }

    method ChangePassword(t: TokenData, change: PasswordChange, salt: string) returns (r: Result<()>)
      modifies users.session
      ensures Step(r, Current()) == ChangePasswordHandlerSpec(old(Current()), users.passwords, t, change, salt)
    {
      var verdict := CheckBanned(redis.store, t);
      if verdict.Fail? {
        return Err(verdict.error);
      }
      var user := users.GetUserById(t.userId);
      if user.None? {
        return Err(AccountDeleted);
      }
      if !users.passwords.CheckPassword(change.oldPassword, user.value.password) {
        return Err(WrongPassword);
      }
      users.ChangePassword(user.value, change.newPassword, salt);
      r := Ok(());
    }

    method Delete(t: TokenData, now: int) returns (r: Result<()>)
      modifies users.session, redis
      ensures Step(r, Current()) == DeleteHandlerSpec(old(Current()), t, now, cfg)
    {
      var verdict := CheckBanned(redis.store, t);
      if verdict.Fail? {
        return Err(verdict.error);
      }
      var user := users.GetUserById(t.userId);
      if user.Some? {
        users.DeleteUser(user.value);
      }
      redis.Set(Key(AccessBanned, "all", t.userId), IntValue(now), cfg.accessExpires);
      redis.Set(Key(RefreshBanned, "all", t.userId), IntValue(now), cfg.refreshExpires);
      r := Ok(());
    }

    method Refresh(t: TokenData, now: int, jti: Uuid) returns (r: Result<RawToken>)
      ensures r == RefreshSpec(redis.store, t, now, cfg, jti)
    {
      var verdict := CheckBanned(redis.store, t);
      if verdict.Fail? {
        return Err(verdict.error);
      }
      r := Ok(Issue(t.userId, "access", t.permissions, now, cfg.accessExpires, jti));
    }
  }

  // ---- properties ----

  /** With logins unique, `login` succeeds exactly when a live user has the
      login and the password checks against its hash. */
  lemma LoginDecides(db: Db, ps: PasswordService, account: Account, now: int, cfg: JwtConfig, aj: Uuid, rj: Uuid, u: UserRow)
    requires Valid(db) && u in db.users && u.login == account.login && !u.isDeleted
    ensures LoginSpec(db, ps, account, now, cfg, aj, rj).Ok? <==> ps.CheckPassword(account.password, u.password)
    ensures LoginSpec(db, ps, account, now, cfg, aj, rj).Ok? ==>
      LoginSpec(db, ps, account, now, cfg, aj, rj).value.access.sub == u.id
  {
    var found := GetUserSpec(db, account.login, false);
    var i :| 0 <= i < |db.users| && db.users[i] == found.value;
    var j :| 0 <= j < |db.users| && db.users[j] == u;
    assert db.users[i].login == db.users[j].login;
  }

  /** Registration keeps the schema's guarantees, so two live users never
      share a login; the registered user is the only row with its login. */
  lemma RegisterKeepsLoginsUnique(db: Db, ps: PasswordService, account: Account, salt: string, newId: Uuid)
    requires Valid(db)
    ensures var r := RegisterSpec(db, ps, account, salt, newId);
      && Valid(r.next)
      && (r.result.Ok? ==> forall v :: v in r.next.users && v.login == account.login ==> v == r.result.value)
  {
    var r := RegisterSpec(db, ps, account, salt, newId);
    if GetUserSpec(db, account.login, false).None? {
      CreateUserKeepsValid(db, ps, account, salt, newId);
    }
    if r.result.Ok? {
      var us := r.next.users;
      forall v | v in us && v.login == account.login ensures v == r.result.value {
        var i :| 0 <= i < |us| && us[i] == v;
        var j :| 0 <= j < |us| && us[j] == r.result.value;
        assert us[i].login == us[j].login;
      }
    }
  }

  /** Registering and then logging in with the same password succeeds, as the
      registered user. */
  lemma RegisterThenLogin(db: Db, ps: PasswordService, account: Account, salt: string, newId: Uuid,
                          now: int, cfg: JwtConfig, aj: Uuid, rj: Uuid)
    requires Valid(db) && RegisterSpec(db, ps, account, salt, newId).result.Ok?
    ensures var r := RegisterSpec(db, ps, account, salt, newId);
      && LoginSpec(r.next, ps, account, now, cfg, aj, rj).Ok?
      && LoginSpec(r.next, ps, account, now, cfg, aj, rj).value.access.sub == r.result.value.id
  {
    var r := RegisterSpec(db, ps, account, salt, newId);
    RegisterKeepsLoginsUnique(db, ps, account, salt, newId);
    CheckAcceptsOwnHash(ps, account.password, ps.hashName, ps.iters, salt);
    LoginDecides(r.next, ps, account, now, cfg, aj, rj, r.result.value);
  }

  /** As written, `logout` leaves both tokens usable: each marker holds a jti,
      which is never the token string `check_banned` compares it with. */
  lemma LogoutLeavesTokensUsable(store: Store, access: TokenData, refresh: TokenData, now: int)
    requires access.nameToken == "access" && refresh.nameToken == "refresh"
    requires refresh.userId == access.userId
    requires access.token != access.jti && refresh.token != refresh.jti
    requires !Revoked(store, access) && !Revoked(store, refresh)
    ensures var r := LogoutSpec(store, access, refresh, now);
      && r.result.Ok? && !Revoked(r.next, access) && !Revoked(r.next, refresh)
  {
    UuidShape(access.userId);
  }

  /** With the token strings stored, `logout` revokes both tokens. */
  lemma LogoutIntendedRevokes(store: Store, access: TokenData, refresh: TokenData, now: int)
    requires access.nameToken == "access" && refresh.nameToken == "refresh"
    requires refresh.userId == access.userId
    requires !Revoked(store, access)
    ensures var r := LogoutIntendedSpec(store, access, refresh, now);
      && r.result.Ok? && Revoked(r.next, access) && Revoked(r.next, refresh)
  {
  }

  /** After `logout_all` every access or refresh token of the user issued
      before `now` is refused, and no other user's token changes verdict. */
  lemma LogoutAllRevokes(store: Store, t: TokenData, now: int, cfg: JwtConfig)
    requires !Revoked(store, t)
    ensures var r := LogoutAllSpec(store, t, now, cfg);
      && r.result.Ok?
      && (forall d: TokenData :: d.userId == t.userId && d.iat < now && (d.nameToken == "access" || d.nameToken == "refresh")
            ==> CheckBanned(r.next, d).Fail?)
      && (forall d: TokenData :: d.userId != t.userId ==> CheckBanned(r.next, d) == CheckBanned(store, d))
  {
    BanUserBansAll(store, t.userId, now, cfg);
    forall d: TokenData | d.userId != t.userId
      ensures CheckBanned(BanUser(store, t.userId, now, cfg), d) == CheckBanned(store, d)
    {
      BanUserLeavesOthers(store, t.userId, now, cfg, d);
    }
  }

  /** After `change_password` the new password logs in, as the same user. */
  lemma ChangePasswordThenLogin(st: State, ps: PasswordService, t: TokenData, change: PasswordChange, salt: string,
                                now: int, cfg: JwtConfig, aj: Uuid, rj: Uuid)
    requires Valid(st.db) && ChangePasswordHandlerSpec(st, ps, t, change, salt).result.Ok?
    ensures var u := GetUserByIdSpec(st.db, t.userId).value;
      var next := ChangePasswordHandlerSpec(st, ps, t, change, salt).next;
      && Valid(next.db)
      && LoginSpec(next.db, ps, Account(u.login, change.newPassword), now, cfg, aj, rj).Ok?
      && LoginSpec(next.db, ps, Account(u.login, change.newPassword), now, cfg, aj, rj).value.access.sub == t.userId
  {
    var u := GetUserByIdSpec(st.db, t.userId).value;
    var next := ChangePasswordHandlerSpec(st, ps, t, change, salt).next;
    var u' := u.(password := ps.ComputeHash(change.newPassword, salt));
    ChangePasswordOnlyPassword(st.db, ps, u, change.newPassword, salt);
    var i :| 0 <= i < |st.db.users| && st.db.users[i] == u;
    assert next.db.users[i] == u';
    LoginDecides(next.db, ps, Account(u.login, change.newPassword), now, cfg, aj, rj, u');
  }

  /** Soft-deleting a user leaves no live row with its id or its login. */
  lemma DeleteLeavesNoLiveLogin(db: Db, u: UserRow)
    requires Valid(db) && u in db.users
    ensures var next := DeleteUserSpec(db, u);
      && Valid(next)
      && GetUserByIdSpec(next, u.id).None?
      && GetUserSpec(next, u.login, false).None?
  {
    DeleteUserClears(db, u);
    var next := DeleteUserSpec(db, u);
    var j :| 0 <= j < |db.users| && db.users[j] == u;
    forall k | 0 <= k < |next.users| && !next.users[k].isDeleted ensures next.users[k].login != u.login {
      if k != j {
        assert db.users[k].id != u.id;
      }
    }
  }

  /** After `delete` the account no longer logs in or resolves by id, and every
      token of it issued before `now` is refused. */
  lemma DeleteEndsAccount(st: State, t: TokenData, now: int, cfg: JwtConfig, ps: PasswordService, pw: string,
                          aj: Uuid, rj: Uuid, u: UserRow)
    requires Valid(st.db) && !Revoked(st.store, t)
    requires u in st.db.users && u.id == t.userId && !u.isDeleted
    ensures var next := DeleteHandlerSpec(st, t, now, cfg).next;
      && next.db == DeleteUserSpec(st.db, u)
      && Valid(next.db)
      && GetUserByIdSpec(next.db, u.id).None?
      && LoginSpec(next.db, ps, Account(u.login, pw), now, cfg, aj, rj) == Err(BadCredentials)
      && (forall d: TokenData :: d.userId == u.id && d.iat < now && (d.nameToken == "access" || d.nameToken == "refresh")
            ==> CheckBanned(next.store, d).Fail?)
  {
    var found := GetUserByIdSpec(st.db, t.userId).value;
    var i :| 0 <= i < |st.db.users| && st.db.users[i] == found;
    var j :| 0 <= j < |st.db.users| && st.db.users[j] == u;
    assert st.db.users[i].id == st.db.users[j].id;
    DeleteLeavesNoLiveLogin(st.db, u);
    BanUserBansAll(st.store, t.userId, now, cfg);
  }

  /** Deleting an account and registering its login again revives the same
      row: the user keeps its id. */
  lemma DeleteThenRegisterKeepsId(st: State, t: TokenData, now: int, cfg: JwtConfig, ps: PasswordService,
                                  account: Account, salt: string, newId: Uuid, u: UserRow)
    requires Valid(st.db) && !Revoked(st.store, t)
    requires u in st.db.users && u.id == t.userId && !u.isDeleted && u.login == account.login
    ensures var next := DeleteHandlerSpec(st, t, now, cfg).next;
      var r := RegisterSpec(next.db, ps, account, salt, newId);
      && r.result.Ok? && r.result.value.id == u.id && r.result.value.permissions == []
  {
    var pw := account.password;
    DeleteEndsAccount(st, t, now, cfg, ps, pw, u.id, u.id, u);
    var next := DeleteHandlerSpec(st, t, now, cfg).next;
    var d := u.(isDeleted := true, permissions := []);
    var j :| 0 <= j < |st.db.users| && st.db.users[j] == u;
    assert next.db.users[j] == d;
    CreateUserRevives(next.db, ps, account, salt, newId, d);
  }

  /** `refresh` issues the permissions the refresh token carries, whatever the
      credential store now says; but once the permissions of the user change,
      the ban written with the change refuses every refresh token issued
      before it. */
  lemma RefreshAfterTakeAwayRefused(st: State, psel: PermissionManagement.PermissionSelector,
                                    usel: PermissionManagement.UserSelector, now: int, cfg: JwtConfig, t: TokenData, jti: Uuid)
    requires PermissionManagement.TakeAwaySpec(st, psel, usel, now, cfg).result.Ok?
    requires t.nameToken == "refresh" && t.iat < now
    requires t.userId == PermissionManagement.FindUser(st.db, usel).value.id
    ensures RefreshSpec(PermissionManagement.TakeAwaySpec(st, psel, usel, now, cfg).next.store, t, now, cfg, jti).Err?
  {
    PermissionManagement.AssignAndTakeAwayBan(st, psel, usel, now, cfg);
  }
}
