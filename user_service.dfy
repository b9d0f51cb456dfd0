/** The user store (src/services/user_service.py): lookups by login and by id,
    registration that revives a soft-deleted row, soft deletion and password
    change. */
module Users {
  import opened Ids
  import opened Errors
  import opened Results
  import opened Query
  import opened Passwords
  import opened Models

  /** `AccountModel`: a login and a plaintext password. */
  datatype Account = Account(login: string, password: string)

  function LoginFilter(login: string, isDeleted: bool): UserRow -> bool
  {
    (u: UserRow) => u.login == login && u.isDeleted == isDeleted
  }

  function IdFilter(id: Uuid): UserRow -> bool
  {
    (u: UserRow) => u.id == id && !u.isDeleted
  }

  /** `get_user(login, is_deleted)`: the first row with that login and exactly
      that deleted flag. */
  function GetUserSpec(db: Db, login: string, isDeleted: bool): (r: Option<UserRow>)
    ensures r.Some? ==> r.value in db.users && r.value.login == login && r.value.isDeleted == isDeleted
    ensures r.None? <==> forall u :: u in db.users ==> !(u.login == login && u.isDeleted == isDeleted)
  {
    First(Filter(db.users, LoginFilter(login, isDeleted)))
  }

  /** `get_user_by_id`: the live row with that id; a soft-deleted row is never
      returned. */
  function GetUserByIdSpec(db: Db, id: Uuid): (r: Option<UserRow>)
    ensures r.Some? ==> r.value in db.users && r.value.id == id && !r.value.isDeleted
    ensures r.None? <==> forall u :: u in db.users ==> !(u.id == id && !u.isDeleted)
  {
    First(Filter(db.users, IdFilter(id)))
  }

  /** `create_user`: a soft-deleted row with the login is revived (same id,
      new password, no longer deleted); otherwise a new row is inserted, which
      the commit refuses when the login is too long, or when the id or the
      login is already taken by any row.  `salt` and `newId` stand for the
      fresh random salt and uuid4. */
  function CreateUserSpec(db: Db, ps: PasswordService, account: Account, salt: string, newId: Uuid)
    : (r: Step<UserRow, Db>)
    ensures r.result.Ok? ==> r.result.value.login == account.login && !r.result.value.isDeleted
    ensures r.result.Ok? ==> r.result.value.password == ps.ComputeHash(account.password, salt)
    ensures r.result.Ok? ==> r.result.value in r.next.users
    ensures r.result.Err? ==> r.next == db && (r.result.error == DataTooLong || r.result.error == UniqueViolation)
    ensures r.result.Err? <==>
      GetUserSpec(db, account.login, true).None?
      && (|account.login| > LoginLength || newId in UserIds(db) || exists v :: v in db.users && v.login == account.login)
    ensures GetUserSpec(db, account.login, true).Some? ==>
      r.result.Ok? && r.result.value.id == GetUserSpec(db, account.login, true).value.id
    ensures GetUserSpec(db, account.login, true).None? && r.result.Ok? ==>
      && r.result.value == NewUser(newId, account.login, ps.ComputeHash(account.password, salt))
      && r.next.users == db.users + [r.result.value]
      && r.next.permissions == db.permissions
  {
    var hash := ps.ComputeHash(account.password, salt);
    match GetUserSpec(db, account.login, true)
    case Some(deleted) =>
      var u := deleted.(password := hash, isDeleted := false);
      Step(Ok(u), db.(users := ReplaceUser(db.users, u)))
    case None =>
      var u := NewUser(newId, account.login, hash);
      if |account.login| > LoginLength then Step(Err(DataTooLong), db)
      else if newId in UserIds(db) || exists v :: v in db.users && v.login == account.login then Step(Err(UniqueViolation), db)
      else Step(Ok(u), db.(users := db.users + [u]))
  }

  /** `delete_user`: the row is marked deleted and loses every permission. */
  function DeleteUserSpec(db: Db, u: UserRow): (r: Db)
    ensures r.permissions == db.permissions && |r.users| == |db.users|
  {
    db.(users := ReplaceUser(db.users, u.(isDeleted := true, permissions := [])))
  }

  /** `change_password`: only the password columns of the row change. */
  function ChangePasswordSpec(db: Db, ps: PasswordService, u: UserRow, newPassword: string, salt: string): (r: Db)
    ensures r.permissions == db.permissions && |r.users| == |db.users|
  {
    db.(users := ReplaceUser(db.users, u.(password := ps.ComputeHash(newPassword, salt))))
  }

  class UserService {
    const session: Session
    const passwords: PasswordService

    constructor (session: Session, passwords: PasswordService)
      ensures this.session == session && this.passwords == passwords
    {
      this.session := session;
      this.passwords := passwords;
    }

    method GetUser(login: string, isDeleted: bool) returns (r: Option<UserRow>)
      ensures r == GetUserSpec(session.db, login, isDeleted)
    {
      r := GetUserSpec(session.db, login, isDeleted);
    }

    method GetUserById(id: Uuid) returns (r: Option<UserRow>)
      ensures r == GetUserByIdSpec(session.db, id)
    {
      r := GetUserByIdSpec(session.db, id);
    }

    method CreateUser(account: Account, salt: string, newId: Uuid) returns (r: Result<UserRow>)
      modifies session
      ensures Step(r, session.db) == CreateUserSpec(old(session.db), passwords, account, salt, newId)
    {
      var deleted := GetUser(account.login, true);
      var hash := passwords.ComputeHash(account.password, salt);
      var db := session.db;
      if deleted.None? {
        var user := NewUser(newId, account.login, hash);
        // the commit
        if |account.login| > LoginLength {
          return Err(DataTooLong);
        }
        if newId in UserIds(db) || exists v :: v in db.users && v.login == account.login {
          return Err(UniqueViolation);
        }
        session.db := db.(users := db.users + [user]);
        r := Ok(user);
      } else {
        var user := deleted.value.(password := hash, isDeleted := false);
        session.db := db.(users := ReplaceUser(db.users, user));
        r := Ok(user);
      }
    }

    method DeleteUser(user: UserRow)
      modifies session
      ensures session.db == DeleteUserSpec(old(session.db), user)
    {
      var u := user.(isDeleted := true, permissions := []);
      session.db := session.db.(users := ReplaceUser(session.db.users, u));
    }

    method ChangePassword(user: UserRow, newPassword: string, salt: string)
      modifies session
      ensures session.db == ChangePasswordSpec(old(session.db), passwords, user, newPassword, salt)
    {
      var u := user.(password := passwords.ComputeHash(newPassword, salt));
      session.db := session.db.(users := ReplaceUser(session.db.users, u));
    }
  }

  // ---- properties ----

  /** Registering a login whose row was soft-deleted revives that row: the
      same id, the new password, live again, and no other row changes. */
  lemma CreateUserRevives(db: Db, ps: PasswordService, account: Account, salt: string, newId: Uuid, d: UserRow)
    requires Valid(db) && d in db.users && d.login == account.login && d.isDeleted
    ensures var r := CreateUserSpec(db, ps, account, salt, newId);
      && r.result == Ok(d.(password := ps.ComputeHash(account.password, salt), isDeleted := false))
      && Valid(r.next)
      && |r.next.users| == |db.users|
      && forall i :: 0 <= i < |db.users| ==> r.next.users[i] == if db.users[i] == d then r.result.value else db.users[i]
  {
    var found := GetUserSpec(db, account.login, true);
    assert found.Some?;
    var i :| 0 <= i < |db.users| && db.users[i] == found.value;
    var j :| 0 <= j < |db.users| && db.users[j] == d;
    assert found.value == d by {
      assert db.users[i].login == db.users[j].login;
    }
    ReplaceUserValid(db, d, d.(password := ps.ComputeHash(account.password, salt), isDeleted := false));
  }

  /** `create_user` keeps the schema's guarantees. */
  lemma CreateUserKeepsValid(db: Db, ps: PasswordService, account: Account, salt: string, newId: Uuid)
    requires Valid(db)
    ensures Valid(CreateUserSpec(db, ps, account, salt, newId).next)
  {
    match GetUserSpec(db, account.login, true)
    case Some(d) =>
      CreateUserRevives(db, ps, account, salt, newId, d);
    case None =>
      var r := CreateUserSpec(db, ps, account, salt, newId);
      if r.result.Ok? {
        var us := r.next.users;
        forall i, j | 0 <= i < j < |us| ensures us[i].id != us[j].id && us[i].login != us[j].login {
          if j == |us| - 1 {
            assert us[i] in db.users;
          }
        }
        assert PermissionIds(r.next) == PermissionIds(db);
        forall v, pid | v in us && pid in v.permissions ensures pid in PermissionIds(r.next) {
          var k :| 0 <= k < |us| && us[k] == v;
          if k < |db.users| {
            assert db.users[k] in db.users;
          }
        }
      }
  }

  /** After `delete_user` the row is deleted and holds nothing, the schema's
      guarantees hold, and no other row changes. */
  lemma DeleteUserClears(db: Db, u: UserRow)
    requires Valid(db) && u in db.users
    ensures var next := DeleteUserSpec(db, u);
      && Valid(next)
      && (forall i :: 0 <= i < |db.users| && db.users[i] != u ==> next.users[i] == db.users[i])
      && (forall i :: 0 <= i < |db.users| && db.users[i] == u ==>
            next.users[i].id == u.id && next.users[i].isDeleted && next.users[i].permissions == [])
      && GetUserByIdSpec(next, u.id).None?
  {
    ReplaceUserValid(db, u, u.(isDeleted := true, permissions := []));
    var next := DeleteUserSpec(db, u);
    forall v | v in next.users ensures !(v.id == u.id && !v.isDeleted) {
      var i :| 0 <= i < |next.users| && next.users[i] == v;
      assert db.users[i] in db.users;
    }
  }

  /** After `change_password` the new password verifies, the row keeps its id,
      login, deleted flag and permissions, and no other row changes. */
  lemma ChangePasswordOnlyPassword(db: Db, ps: PasswordService, u: UserRow, newPassword: string, salt: string)
    requires Valid(db) && u in db.users
    ensures var next := ChangePasswordSpec(db, ps, u, newPassword, salt);
      && Valid(next)
      && (forall i :: 0 <= i < |db.users| ==>
            next.users[i] == if db.users[i] == u then u.(password := ps.ComputeHash(newPassword, salt)) else db.users[i])
      && ps.CheckPassword(newPassword, ps.ComputeHash(newPassword, salt))
  {
    ReplaceUserValid(db, u, u.(password := ps.ComputeHash(newPassword, salt)));
    CheckAcceptsOwnHash(ps, newPassword, ps.hashName, ps.iters, salt);
  }
}
