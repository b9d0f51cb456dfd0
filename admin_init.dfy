/** The administrator bootstrap commands (admin_init.py): `create_admin` makes
    sure the "admin" permission exists and creates a user holding it;
    `delete_admin` hard-deletes a user and, when exactly one user holds the
    admin permission, the permission too.  Everything a command adds or deletes
    is committed together at its end; a command that exits early commits
    nothing. */
module AdminInit {
  import opened Ids
  import opened Errors
  import opened Results
  import opened Query
  import opened Passwords
  import opened Models

  const AdminName: string := "admin"
  const AdminDescription: string := "admin permission allows everything"

  function AdminFilter(): PermissionRow -> bool
  {
    (p: PermissionRow) => p.name == AdminName
  }

  function LiveLoginFilter(login: string): UserRow -> bool
  {
    (u: UserRow) => u.login == login && !u.isDeleted
  }

  function AnyLoginFilter(login: string): UserRow -> bool
  {
    (u: UserRow) => u.login == login
  }

  /** The first permission named "admin", if any. */
  function FindAdmin(db: Db): (r: Option<PermissionRow>)
    ensures r.Some? ==> r.value in db.permissions && r.value.name == AdminName
    ensures r.None? <==> forall p :: p in db.permissions ==> p.name != AdminName
  {
    First(Filter(db.permissions, AdminFilter()))
  }

  /** `num_admins`: the user rows (deleted or not) holding the admin
      permission, counted by their ids, which the primary key keeps distinct;
      none when there is no such permission. */
  function AdminCount(db: Db, admin: Option<PermissionRow>): (n: nat)
    ensures admin.None? ==> n == 0
    ensures admin.Some? && n == 0 ==> forall u :: u in db.users ==> admin.value.id !in u.permissions
  {
    if admin.None? then 0 else |Holders(db.users, admin.value.id)|
  }

  /** `create_admin_user`: `Exit` when a live user has the login; otherwise a
      fresh user row, not yet committed.  A soft-deleted row is not revived. */
  function CreateAdminUser(db: Db, login: string, hash: Password, newId: Uuid): (r: Result<UserRow>)
    ensures r.Err? <==> exists u :: u in db.users && u.login == login && !u.isDeleted
    ensures r.Err? ==> r.error == Exit
    ensures r.Ok? ==> r.value == NewUser(newId, login, hash)
  {
    if First(Filter(db.users, LiveLoginFilter(login))).Some? then Err(Exit)
    else Ok(NewUser(newId, login, hash))
  }

  /** The commit at the end of `create_admin`: the login must fit its column,
      and the new rows' ids and the login must be free. */
  function CommitAdmin(db: Db, admin: PermissionRow, isNew: bool, user: UserRow): (r: Step<(), Db>)
    ensures r.result.Err? ==> r.next == db
    ensures r.result.Ok? ==> (
      && r.next.users == db.users + [user]
      && r.next.permissions == if isNew then db.permissions + [admin] else db.permissions)
  {
    if |user.login| > LoginLength then Step(Err(DataTooLong), db)
    else if user.id in UserIds(db) || (exists v :: v in db.users && v.login == user.login)
      || (isNew && admin.id in PermissionIds(db))
    then Step(Err(UniqueViolation), db)
    else
      var perms := if isNew then db.permissions + [admin] else db.permissions;
      Step(Ok(()), Db(db.users + [user], perms))
  }

  /** `create_admin`: the existing "admin" permission or a new one, a new user
      created by `create_admin_user`, the permission appended to its list, one
      commit. */
  function CreateAdminSpec(db: Db, ps: PasswordService, login: string, password: string, salt: string,
                           newUserId: Uuid, newPermId: Uuid): (r: Step<(), Db>)
    ensures r.result.Err? ==> r.next == db
    ensures r.result.Err? <==>
      || (exists u :: u in db.users && u.login == login && !u.isDeleted)
      || |login| > LoginLength || newUserId in UserIds(db) || (exists v :: v in db.users && v.login == login)
      || (FindAdmin(db).None? && newPermId in PermissionIds(db))
    ensures r.result.Ok? ==>
      var admin := FindAdmin(db);
      var perm := if admin.Some? then admin.value else PermissionRow(newPermId, AdminName, Some(AdminDescription));
      && r.next.users == db.users + [NewUser(newUserId, login, ps.ComputeHash(password, salt)).(permissions := [perm.id])]
      && r.next.permissions == if admin.Some? then db.permissions else db.permissions + [perm]
  {
    var admin := FindAdmin(db);
    var perm := if admin.Some? then admin.value else PermissionRow(newPermId, AdminName, Some(AdminDescription));
    match CreateAdminUser(db, login, ps.ComputeHash(password, salt), newUserId)
    case Err(e) => Step(Err(e), db)
    case Ok(u) =>
      assert u.permissions + [perm.id] == [perm.id];
      CommitAdmin(db, perm, admin.None?, u.(permissions := u.permissions + [perm.id]))
  }

  /** The user table without the row `id` (and, with it, its association rows). */
  function RemoveUser(users: seq<UserRow>, id: Uuid): (r: seq<UserRow>)
    ensures forall u :: u in r <==> u in users && u.id != id
  {
    Filter(users, (u: UserRow) => u.id != id)
  }

  /** `delete_admin` as written: `Exit` when no row has the login; otherwise
      the admin permission is deleted when exactly one user holds it, whoever
      that user is, and the user row is deleted. */
  function DeleteAdminSpec(db: Db, login: string): (r: Step<(), Db>)
    ensures r.result.Err? <==> forall u :: u in db.users ==> u.login != login
    ensures r.result.Err? ==> r.result.error == Exit && r.next == db
  {
    var admin := FindAdmin(db);
    var count := AdminCount(db, admin);
    match First(Filter(db.users, AnyLoginFilter(login)))
    case None => Step(Err(Exit), db)
    case Some(u) =>
      var db' := if count == 1 then DeletePermission(db, admin.value.id) else db;
      Step(Ok(()), db'.(users := RemoveUser(db'.users, u.id)))
  }

  /** `delete_admin` as evidently intended: the admin permission goes only
      with its last holder. */
  function DeleteAdminIntendedSpec(db: Db, login: string): (r: Step<(), Db>)
    ensures r.result.Err? <==> forall u :: u in db.users ==> u.login != login
    ensures r.result.Err? ==> r.result.error == Exit && r.next == db
  {
    var admin := FindAdmin(db);
    var count := AdminCount(db, admin);
    match First(Filter(db.users, AnyLoginFilter(login)))
    case None => Step(Err(Exit), db)
    case Some(u) =>
      var db' := if count == 1 && admin.value.id in u.permissions then DeletePermission(db, admin.value.id) else db;
      Step(Ok(()), db'.(users := RemoveUser(db'.users, u.id)))
  }

  /** The command line, over one database session. */
  class AdminCli {
    const session: Session
    const passwords: PasswordService

    constructor (session: Session, passwords: PasswordService)
      ensures this.session == session && this.passwords == passwords
    {
      this.session := session;
      this.passwords := passwords;
    }

    method CreateAdmin(login: string, password: string, salt: string, newUserId: Uuid, newPermId: Uuid)
      returns (r: Result<()>)
      modifies session
      ensures Step(r, session.db) == CreateAdminSpec(old(session.db), passwords, login, password, salt, newUserId, newPermId)
    {
      var db := session.db;
      var admin := FindAdmin(db);
      var isNew := admin.None?;
      var perm := if isNew then PermissionRow(newPermId, AdminName, Some(AdminDescription)) else admin.value;
      var hash := passwords.ComputeHash(password, salt);
      var created := CreateAdminUser(db, login, hash, newUserId);
      if created.Err? {
        return Err(created.error);
      }
      var user := created.value;
      user := user.(permissions := user.permissions + [perm.id]);
      // the commit
      if |user.login| > LoginLength {
        return Err(DataTooLong);
      }
      if user.id in UserIds(db) || (exists v :: v in db.users && v.login == user.login) || (isNew && perm.id in PermissionIds(db)) {
        return Err(UniqueViolation);
      }
      if isNew {
        db := db.(permissions := db.permissions + [perm]);
      }
      session.db := db.(users := db.users + [user]);
      r := Ok(());
    }

    method DeleteAdmin(login: string) returns (r: Result<()>)
      modifies session
      ensures Step(r, session.db) == DeleteAdminSpec(old(session.db), login)
    {
      var db := session.db;
      var admin := FindAdmin(db);
      var count := AdminCount(db, admin);
      var user := First(Filter(db.users, AnyLoginFilter(login)));
      if user.None? {
        return Err(Exit);
      }
      if count == 1 {
        db := DeletePermission(db, admin.value.id);
      }
      session.db := db.(users := RemoveUser(db.users, user.value.id));
      r := Ok(());
    }
  }

  // ---- properties ----

  /** A successful commit of a user holding only the admin permission keeps the
      schema's guarantees. */
  lemma CommitAdminValid(db: Db, perm: PermissionRow, isNew: bool, u: UserRow)
    requires Valid(db) && CommitAdmin(db, perm, isNew, u).result.Ok?
    requires u.permissions == [perm.id]
    requires isNew ==> |perm.name| <= NameLength && DescriptionFits(perm.description)
    requires isNew ==> forall p :: p in db.permissions ==> p.name != perm.name
    requires !isNew ==> perm in db.permissions
    ensures Valid(CommitAdmin(db, perm, isNew, u).next)
  {
    var next := CommitAdmin(db, perm, isNew, u).next;
    CommitAdminUsers(db, perm, isNew, u);
    if isNew {
      forall i, j | 0 <= i < j < |next.permissions|
        ensures next.permissions[i].id != next.permissions[j].id && next.permissions[i].name != next.permissions[j].name
      {
        if j == |next.permissions| - 1 {
          assert next.permissions[i] in db.permissions;
        }
      }
    }
    assert perm in next.permissions;
    assert PermissionIds(db) <= PermissionIds(next);
    forall v, pid | v in next.users && pid in v.permissions ensures pid in PermissionIds(next) {
      var k :| 0 <= k < |next.users| && next.users[k] == v;
      if k < |db.users| {
        assert db.users[k] in db.users;
      }
    }
  }

  /** The committed user table keeps its primary key and unique logins. */
  lemma CommitAdminUsers(db: Db, perm: PermissionRow, isNew: bool, u: UserRow)
    requires Valid(db) && CommitAdmin(db, perm, isNew, u).result.Ok?
    ensures var us := CommitAdmin(db, perm, isNew, u).next.users;
      forall i, j :: 0 <= i < j < |us| ==> us[i].id != us[j].id && us[i].login != us[j].login
  {
    var us := CommitAdmin(db, perm, isNew, u).next.users;
    forall i, j | 0 <= i < j < |us| ensures us[i].id != us[j].id && us[i].login != us[j].login {
      if j == |us| - 1 {
        assert us[i] in db.users;
      }
    }
  }

  /** On success `create_admin` leaves a live user with the login that holds a
      permission named "admin", and the tables keep the schema's guarantees. */
  lemma CreateAdminGrants(db: Db, ps: PasswordService, login: string, password: string, salt: string,
                          newUserId: Uuid, newPermId: Uuid)
    requires Valid(db) && CreateAdminSpec(db, ps, login, password, salt, newUserId, newPermId).result.Ok?
    ensures var next := CreateAdminSpec(db, ps, login, password, salt, newUserId, newPermId).next;
      && Valid(next)
      && exists u, p :: u in next.users && p in next.permissions
           && u.login == login && !u.isDeleted && p.name == AdminName && p.id in u.permissions
  {
    var admin := FindAdmin(db);
    var perm := if admin.Some? then admin.value else PermissionRow(newPermId, AdminName, Some(AdminDescription));
    var u0 := NewUser(newUserId, login, ps.ComputeHash(password, salt));
    var u := u0.(permissions := u0.permissions + [perm.id]);
    var next := CreateAdminSpec(db, ps, login, password, salt, newUserId, newPermId).next;
    assert next == CommitAdmin(db, perm, admin.None?, u).next;
    CommitAdminValid(db, perm, admin.None?, u);
    assert u in next.users && perm in next.permissions;
  }

  /** `create_admin` exits, committing nothing, when a live user has the
      login; a soft-deleted row with the login is not revived but makes the
      commit fail. */
  lemma CreateAdminRefusesTakenLogin(db: Db, ps: PasswordService, login: string, password: string, salt: string,
                                     newUserId: Uuid, newPermId: Uuid, u: UserRow)
    requires u in db.users && u.login == login
    ensures var r := CreateAdminSpec(db, ps, login, password, salt, newUserId, newPermId);
      && r.next == db
      && r.result.Err?
      && (!u.isDeleted ==> r.result.error == Exit)
      && ((u.isDeleted && |login| <= LoginLength && forall v :: v in db.users && v.login == login ==> v.isDeleted)
          ==> r.result.error == UniqueViolation)
  {
  }

  /** What a successful `delete_admin` leaves: no row has the login, every
      other user keeps a row with its id, and the permission table is either
      untouched or, when exactly one user held the admin permission, without
      any permission named "admin" and without a holder of its id. */
  lemma DeleteAdminEffect(db: Db, login: string)
    requires Valid(db) && DeleteAdminSpec(db, login).result.Ok?
    ensures var next := DeleteAdminSpec(db, login).next;
      var admin := FindAdmin(db);
      && (forall w :: w in next.users ==> w.login != login)
      && (forall v :: v in db.users && v.login != login ==> exists w :: w in next.users && w.id == v.id)
      && (AdminCount(db, admin) != 1 ==>
            next.permissions == db.permissions
            && forall v :: v in db.users && v.login != login ==> v in next.users)
      && (AdminCount(db, admin) == 1 ==>
            (forall q :: q in next.permissions ==> q.name != AdminName)
            && forall w :: w in next.users ==> admin.value.id !in w.permissions)
  {
    var admin := FindAdmin(db);
    var u := First(Filter(db.users, AnyLoginFilter(login))).value;
    if AdminCount(db, admin) == 1 {
      AdminPermissionGone(db, admin.value, u.id);
      DeleteLastAdminLogin(db, admin.value, u);
    } else {
      RemoveLoginRow(db, u);
    }
  }

  /** Removing the row of the user `u` drops every row with its login and
      keeps every other row. */
  lemma RemoveLoginRow(db: Db, u: UserRow)
    requires Valid(db) && u in db.users
    ensures var users := RemoveUser(db.users, u.id);
      && (forall w :: w in users ==> w.login != u.login)
      && (forall v :: v in db.users && v.login != u.login ==> v in users)
  {
    var i :| 0 <= i < |db.users| && db.users[i] == u;
    forall v | v in db.users && v.login != u.login ensures v.id != u.id {
      var k :| 0 <= k < |db.users| && db.users[k] == v;
      assert k != i;
    }
    forall w | w in RemoveUser(db.users, u.id) ensures w.login != u.login {
      var k :| 0 <= k < |db.users| && db.users[k] == w;
    }
  }

  /** Deleting the admin permission and then the row of `u` drops every row
      with its login. */
  lemma DeleteLastAdminLogin(db: Db, p: PermissionRow, u: UserRow)
    requires Valid(db) && u in db.users
    ensures var mid := DeletePermission(db, p.id);
      forall w :: w in RemoveUser(mid.users, u.id) ==> w.login != u.login
  {
    var mid := DeletePermission(db, p.id);
    var i :| 0 <= i < |db.users| && db.users[i] == u;
    forall w | w in RemoveUser(mid.users, u.id) ensures w.login != u.login {
      var k :| 0 <= k < |mid.users| && mid.users[k] == w;
      assert w.id == db.users[k].id && w.login == db.users[k].login;
    }
  }

  /** Deleting the admin permission and then a user row: no permission is
      named "admin" any more, nobody holds it, and every other user's row
      stays. */
  lemma AdminPermissionGone(db: Db, p: PermissionRow, uid: Uuid)
    requires Valid(db) && p in db.permissions && p.name == AdminName
    ensures var mid := DeletePermission(db, p.id);
      var next := mid.(users := RemoveUser(mid.users, uid));
      && (forall q :: q in next.permissions ==> q.name != AdminName)
      && (forall v :: v in next.users ==> v.id != uid && p.id !in v.permissions)
      && (forall v :: v in db.users && v.id != uid ==> exists w :: w in next.users && w.id == v.id)
  {
    DeletePermissionValid(db, p.id);
    var mid := DeletePermission(db, p.id);
    var next := mid.(users := RemoveUser(mid.users, uid));
    var j :| 0 <= j < |db.permissions| && db.permissions[j] == p;
    forall q | q in next.permissions ensures q.name != AdminName {
      var i :| 0 <= i < |db.permissions| && db.permissions[i] == q;
      assert i != j;
    }
    forall v | v in next.users ensures v.id != uid && p.id !in v.permissions {
      var k :| 0 <= k < |mid.users| && mid.users[k] == v;
    }
    forall v | v in db.users && v.id != uid ensures exists w :: w in next.users && w.id == v.id {
      var k :| 0 <= k < |db.users| && db.users[k] == v;
      assert mid.users[k] in mid.users;
    }
  }

  /** As written, deleting a user who does not hold the admin permission,
      while exactly one other user does, deletes the permission: the remaining
      administrator loses it. */
  lemma DeleteAdminStripsOtherAdmin(db: Db, login: string, p: PermissionRow, a: UserRow, b: UserRow)
    requires Valid(db) && p in db.permissions && p.name == AdminName
    requires a in db.users && p.id in a.permissions
    requires b in db.users && b.login == login && p.id !in b.permissions
    requires forall v :: v in db.users && p.id in v.permissions ==> v == a
    ensures var next := DeleteAdminSpec(db, login).next;
      && (forall q :: q in next.permissions ==> q.name != AdminName)
      && (forall v :: v in next.users ==> p.id !in v.permissions)
      && exists v :: v in next.users && v.id == a.id
  {
    AdminUnique(db, p);
    SoleHolderCounts(db, p, a);
    var j :| 0 <= j < |db.users| && db.users[j] == b;
    var k :| 0 <= k < |db.users| && db.users[k] == a;
    assert a.login != login by {
      assert j != k;
    }
    DeleteAdminEffect(db, login);
  }

  /** Under the intended reading, deleting a user who does not hold the admin
      permission keeps it and every other user's permissions. */
  lemma DeleteAdminIntendedKeepsOthers(db: Db, login: string, b: UserRow)
    requires Valid(db) && b in db.users && b.login == login
    requires FindAdmin(db).Some? && FindAdmin(db).value.id !in b.permissions
    ensures var next := DeleteAdminIntendedSpec(db, login).next;
      && next.permissions == db.permissions
      && forall v :: v in db.users && v.id != b.id ==> v in next.users
  {
    var found := First(Filter(db.users, AnyLoginFilter(login))).value;
    var i :| 0 <= i < |db.users| && db.users[i] == found;
    var j :| 0 <= j < |db.users| && db.users[j] == b;
    assert db.users[i].login == db.users[j].login;
  }

  /** Under the intended reading, deleting the last administrator deletes the
      admin permission with it. */
  lemma DeleteAdminIntendedRemovesLast(db: Db, login: string, p: PermissionRow, a: UserRow)
    requires Valid(db) && p in db.permissions && p.name == AdminName
    requires a in db.users && a.login == login && p.id in a.permissions
    requires forall v :: v in db.users && p.id in v.permissions ==> v == a
    ensures var next := DeleteAdminIntendedSpec(db, login).next;
      && (forall q :: q in next.permissions ==> q.name != AdminName)
      && (forall v :: v in next.users ==> v.id != a.id && p.id !in v.permissions)
  {
    AdminUnique(db, p);
    SoleHolderCounts(db, p, a);
    var found := First(Filter(db.users, AnyLoginFilter(login))).value;
    var i :| 0 <= i < |db.users| && db.users[i] == found;
    var k :| 0 <= k < |db.users| && db.users[k] == a;
    assert db.users[i].login == db.users[k].login;
    AdminPermissionGone(db, p, a.id);
  }

  /** With unique names, the first row named "admin" is the one named "admin". */
  lemma AdminUnique(db: Db, p: PermissionRow)
    requires Valid(db) && p in db.permissions && p.name == AdminName
    ensures FindAdmin(db) == Some(p)
  {
    var f := FindAdmin(db).value;
    var i :| 0 <= i < |db.permissions| && db.permissions[i] == f;
    var j :| 0 <= j < |db.permissions| && db.permissions[j] == p;
    assert db.permissions[i].name == db.permissions[j].name;
  }

  /** A permission held by exactly one row counts one administrator. */
  lemma SoleHolderCounts(db: Db, p: PermissionRow, a: UserRow)
    requires a in db.users && p.id in a.permissions
    requires forall v :: v in db.users && p.id in v.permissions ==> v == a
    ensures AdminCount(db, Some(p)) == 1
  {
    assert Holders(db.users, p.id) == {a.id};
  }
}
