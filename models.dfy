/** The credential store (src/models/alchemy_model.py): the `user` and
    `permission` tables, the `user_permission` association (kept as each user
    row's list of permission ids, in the order the relationship list holds
    them), the constraints the schema enforces, and the session that owns the
    tables. */
module Models {
  import opened Ids
  import opened Results
  import opened Passwords
  import opened Query
  import Redis

  /** String(60) on `user.login` and `permission.name`, String(256) on
      `permission.description`. */
  const LoginLength: nat := 60
  const NameLength: nat := 60
  const DescriptionLength: nat := 256

  datatype PermissionRow = PermissionRow(id: Uuid, name: string, description: Option<string>)

  datatype UserRow = UserRow(id: Uuid, login: string, password: Password, isDeleted: bool, permissions: seq<Uuid>)

  /** Both tables, rows in table order. */
  datatype Db = Db(users: seq<UserRow>, permissions: seq<PermissionRow>)

  /** A freshly constructed `UserOrm`: `is_deleted` defaults to false and it
      holds no permission. */
  function NewUser(id: Uuid, login: string, password: Password): (u: UserRow)
    ensures !u.isDeleted && u.permissions == []
    ensures u.id == id && u.login == login && u.password == password
  {
    UserRow(id, login, password, false, [])
  }

  predicate NoDuplicates(s: seq<Uuid>)
  {
    forall i, j :: 0 <= i < j < |s| ==> s[i] != s[j]
  }

  function PermissionIds(db: Db): (ids: set<Uuid>)
  {
    set p | p in db.permissions :: p.id
  }

  function UserIds(db: Db): (ids: set<Uuid>)
  {
    set u | u in db.users :: u.id
  }

  predicate DescriptionFits(d: Option<string>)
  {
    d.None? || |d.value| <= DescriptionLength
  }

  /** What the schema guarantees of every committed state. */
  predicate Valid(db: Db)
  {
    // primary keys, and `login` unique over all rows, deleted or not
    && (forall i, j :: 0 <= i < j < |db.users| ==>
          db.users[i].id != db.users[j].id && db.users[i].login != db.users[j].login)
    // primary keys, and `name` unique
    && (forall i, j :: 0 <= i < j < |db.permissions| ==>
          db.permissions[i].id != db.permissions[j].id && db.permissions[i].name != db.permissions[j].name)
    && (forall u :: u in db.users ==> |u.login| <= LoginLength)
    && (forall p :: p in db.permissions ==> |p.name| <= NameLength && DescriptionFits(p.description))
    // (user_id, permission_id) is the association's primary key, and both
    // columns are foreign keys
    && (forall u :: u in db.users ==> NoDuplicates(u.permissions))
    && (forall u, pid :: u in db.users && pid in u.permissions ==> pid in PermissionIds(db))
  }

  /** The users holding permission `pid` (the query `permissions.contains(p)`). */
  function Holders(users: seq<UserRow>, pid: Uuid): (ids: set<Uuid>)
    ensures forall u :: u in users && pid in u.permissions ==> u.id in ids
    ensures forall id :: id in ids ==> exists u :: u in users && pid in u.permissions && u.id == id
  {
    set u | u in users && pid in u.permissions :: u.id
  }

  /** Scanning one more user adds it to the holders exactly when it holds `pid`. */
  lemma HoldersSnoc(users: seq<UserRow>, i: nat, pid: Uuid)
    requires i < |users|
    ensures Holders(users[..i + 1], pid) ==
      Holders(users[..i], pid) + (if pid in users[i].permissions then {users[i].id} else {})
  {
    assert users[..i + 1] == users[..i] + [users[i]];
  }

  /** `list.remove(x)`: drop the first occurrence. */
  function RemoveFirst(s: seq<Uuid>, x: Uuid): (r: seq<Uuid>)
    requires x in s
    ensures |r| == |s| - 1
    ensures multiset(r) == multiset(s) - multiset{x}
  {
    assert s == [s[0]] + s[1..];
    if s[0] == x then s[1..]
    else [s[0]] + RemoveFirst(s[1..], x)
  }

  lemma {:induction false} NoDuplicatesTail(s: seq<Uuid>)
    requires s != [] && NoDuplicates(s)
    ensures NoDuplicates(s[1..]) && s[0] !in s[1..]
  {
    forall i, j | 0 <= i < j < |s[1..]| ensures s[1..][i] != s[1..][j] {
      assert s[1..][i] == s[i + 1] && s[1..][j] == s[j + 1];
    }
    forall i | 0 <= i < |s[1..]| ensures s[1..][i] != s[0] {
      assert s[1..][i] == s[i + 1];
    }
  }

  /** Without duplicates, removing `x` removes it entirely and keeps the rest. */
  lemma {:induction false} RemoveFirstNoDuplicates(s: seq<Uuid>, x: Uuid)
    requires x in s && NoDuplicates(s)
    ensures forall y :: y in RemoveFirst(s, x) <==> y in s && y != x
    ensures NoDuplicates(RemoveFirst(s, x))
  {
    NoDuplicatesTail(s);
    if s[0] != x {
      var rest := RemoveFirst(s[1..], x);
      RemoveFirstNoDuplicates(s[1..], x);
      assert RemoveFirst(s, x) == [s[0]] + rest;
      forall i, j | 0 <= i < j < |[s[0]] + rest| ensures ([s[0]] + rest)[i] != ([s[0]] + rest)[j] {
        if i == 0 {
          assert ([s[0]] + rest)[j] == rest[j - 1];
        } else {
          assert ([s[0]] + rest)[i] == rest[i - 1] && ([s[0]] + rest)[j] == rest[j - 1];
        }
      }
    }
  }

  /** The user rows with the row whose id is `u.id` replaced by `u`: an update
      of one ORM object in place. */
  function ReplaceUser(users: seq<UserRow>, u: UserRow): (r: seq<UserRow>)
    ensures |r| == |users|
    ensures forall i :: 0 <= i < |users| ==> r[i] == if users[i].id == u.id then u else users[i]
  {
    seq(|users|, i requires 0 <= i < |users| => if users[i].id == u.id then u else users[i])
  }

  /** The permission rows for a list of permission ids, in list order (the
      `PermissionModel`s built from `user.permissions`). */
  function Resolve(perms: seq<PermissionRow>, ids: seq<Uuid>): (r: seq<PermissionRow>)
    ensures |r| <= |ids|
    ensures forall p :: p in r ==> p in perms && p.id in ids
  {
    if ids == [] then []
    else
      var rest := Resolve(perms, ids[1..]);
      match First(Filter(perms, (p: PermissionRow) => p.id == ids[0]))
      case Some(p) => [p] + rest
      case None => rest
  }

  function UserId(u: UserRow): Uuid { u.id }
  function PermissionId(p: PermissionRow): Uuid { p.id }
  function PermissionName(p: PermissionRow): string { p.name }

  /** The same row with permission `pid` detached, if it holds it
      (`user.permissions.remove(p)`). */
  function Detach(u: UserRow, pid: Uuid): (r: UserRow)
    ensures r.id == u.id && r.login == u.login && r.password == u.password && r.isDeleted == u.isDeleted
    ensures pid in u.permissions ==> |r.permissions| == |u.permissions| - 1
  {
    if pid in u.permissions then u.(permissions := RemoveFirst(u.permissions, pid)) else u
  }

  lemma DetachRemoves(u: UserRow, pid: Uuid)
    requires NoDuplicates(u.permissions)
    ensures forall q :: q in Detach(u, pid).permissions <==> q in u.permissions && q != pid
    ensures NoDuplicates(Detach(u, pid).permissions)
  {
    if pid in u.permissions {
      RemoveFirstNoDuplicates(u.permissions, pid);
    }
  }

  function DetachAll(users: seq<UserRow>, pid: Uuid): (r: seq<UserRow>)
    ensures |r| == |users|
    ensures forall i :: 0 <= i < |users| ==> r[i] == Detach(users[i], pid)
  {
    seq(|users|, i requires 0 <= i < |users| => Detach(users[i], pid))
  }

  /** The permission table without the row `pid`. */
  function WithoutPermission(perms: seq<PermissionRow>, pid: Uuid): (r: seq<PermissionRow>)
    ensures forall p :: p in r <==> p in perms && p.id != pid
  {
    Filter(perms, (p: PermissionRow) => p.id != pid)
  }

  /** `session.delete(permission)`: the row goes, and the association rows
      that name it go with it (`ondelete="CASCADE"`). */
  function DeletePermission(db: Db, pid: Uuid): (r: Db)
  {
    Db(DetachAll(db.users, pid), WithoutPermission(db.permissions, pid))
  }

  /** Deleting a permission leaves the permission table unique and within its
      column types, without exactly that id. */
  lemma DeletePermissionRows(db: Db, pid: Uuid)
    requires Valid(db)
    ensures var r := DeletePermission(db, pid);
      && PermissionIds(r) == PermissionIds(db) - {pid}
      && (forall i, j :: 0 <= i < j < |r.permissions| ==>
            r.permissions[i].id != r.permissions[j].id && r.permissions[i].name != r.permissions[j].name)
      && (forall p :: p in r.permissions ==> |p.name| <= NameLength && DescriptionFits(p.description))
  {
    var r := DeletePermission(db, pid);
    FilterKeepsDistinct(db.permissions, (p: PermissionRow) => p.id != pid, PermissionId);
    FilterKeepsDistinct(db.permissions, (p: PermissionRow) => p.id != pid, PermissionName);
    assert PermissionIds(r) == PermissionIds(db) - {pid} by {
      forall q | q in PermissionIds(db) - {pid} ensures q in PermissionIds(r) {
        var p :| p in db.permissions && p.id == q;
        assert p in r.permissions;
      }
    }
  }

  /** Deleting a permission detaches exactly that id from every user row and
      keeps every list duplicate-free. */
  lemma DeletePermissionUsers(db: Db, pid: Uuid)
    requires Valid(db)
    ensures var r := DeletePermission(db, pid);
      && |r.users| == |db.users|
      && (forall i, q :: 0 <= i < |db.users| ==>
            (q in r.users[i].permissions <==> q in db.users[i].permissions && q != pid))
      && (forall u :: u in r.users ==> NoDuplicates(u.permissions))
  {
    var r := DeletePermission(db, pid);
    forall i, q | 0 <= i < |db.users|
      ensures q in r.users[i].permissions <==> q in db.users[i].permissions && q != pid
    {
      DetachRemoves(db.users[i], pid);
    }
    forall u | u in r.users ensures NoDuplicates(u.permissions) {
      var i :| 0 <= i < |r.users| && r.users[i] == u;
      DetachRemoves(db.users[i], pid);
    }
  }

  /** Deleting a permission keeps the schema's guarantees, removes exactly that
      id, leaves nobody holding it and changes no user's other permissions. */
  lemma DeletePermissionValid(db: Db, pid: Uuid)
    requires Valid(db)
    ensures Valid(DeletePermission(db, pid))
    ensures PermissionIds(DeletePermission(db, pid)) == PermissionIds(db) - {pid}
    ensures Holders(DeletePermission(db, pid).users, pid) == {}
    ensures forall i, q :: 0 <= i < |db.users| ==>
      (q in DeletePermission(db, pid).users[i].permissions <==> q in db.users[i].permissions && q != pid)
  {
    var r := DeletePermission(db, pid);
    DeletePermissionRows(db, pid);
    DeletePermissionUsers(db, pid);
    forall u, q | u in r.users && q in u.permissions ensures q in PermissionIds(r) && q != pid {
      var i :| 0 <= i < |r.users| && r.users[i] == u;
      assert db.users[i] in db.users && q in db.users[i].permissions;
    }
  }

  /** Replacing one user row by an updated copy with the same id and login
      keeps the schema's guarantees, provided the new permission list is
      duplicate-free and names existing permissions. */
  lemma ReplaceUserValid(db: Db, u: UserRow, u': UserRow)
    requires Valid(db) && u in db.users
    requires u'.id == u.id && u'.login == u.login
    requires NoDuplicates(u'.permissions)
    requires forall q :: q in u'.permissions ==> q in PermissionIds(db)
    ensures Valid(db.(users := ReplaceUser(db.users, u')))
    ensures forall i :: 0 <= i < |db.users| ==>
      ReplaceUser(db.users, u')[i] == if db.users[i] == u then u' else db.users[i]
  {
    var r := ReplaceUser(db.users, u');
    forall i | 0 <= i < |db.users| ensures r[i] == if db.users[i] == u then u' else db.users[i] {
      if db.users[i] != u {
        var k :| 0 <= k < |db.users| && db.users[k] == u;
        assert db.users[i].id != db.users[k].id;
      }
    }
    assert forall v :: v in r ==> v == u' || v in db.users;
    forall v, q | v in r && q in v.permissions ensures q in PermissionIds(db) {
      if v != u' {
        assert v in db.users;
      }
    }
    assert PermissionIds(db.(users := r)) == PermissionIds(db);
  }

  /** The permission rows with the row whose id is `p.id` replaced by `p`. */
  function ReplacePermission(perms: seq<PermissionRow>, p: PermissionRow): (r: seq<PermissionRow>)
    ensures |r| == |perms|
    ensures forall i :: 0 <= i < |perms| ==> r[i] == if perms[i].id == p.id then p else perms[i]
  {
    seq(|perms|, i requires 0 <= i < |perms| => if perms[i].id == p.id then p else perms[i])
  }

  /** When every id names an existing permission, each id resolves to a row
      with that id: the listing loses and reorders nothing. */
  lemma {:induction false} ResolveComplete(perms: seq<PermissionRow>, ids: seq<Uuid>)
    requires forall q :: q in ids ==> exists p :: p in perms && p.id == q
    ensures |Resolve(perms, ids)| == |ids|
    ensures forall i :: 0 <= i < |ids| ==> Resolve(perms, ids)[i].id == ids[i] && Resolve(perms, ids)[i] in perms
  {
    if ids != [] {
      assert forall q :: q in ids[1..] ==> q in ids;
      ResolveComplete(perms, ids[1..]);
      assert ids[0] in ids;
      var p :| p in perms && p.id == ids[0];
      var f := Filter(perms, (p: PermissionRow) => p.id == ids[0]);
      assert p in f;
      var rest := Resolve(perms, ids[1..]);
      assert Resolve(perms, ids) == [f[0]] + rest;
      forall i | 0 <= i < |ids| ensures Resolve(perms, ids)[i].id == ids[i] && Resolve(perms, ids)[i] in perms {
        if i > 0 {
          assert Resolve(perms, ids)[i] == rest[i - 1] && ids[i] == ids[1..][i - 1];
        }
      }
    }
  }

  /** A permission id names one row. */
  lemma SameIdSameRow(db: Db, a: PermissionRow, b: PermissionRow)
    requires Valid(db) && a in db.permissions && b in db.permissions && a.id == b.id
    ensures a == b
  {
    var i :| 0 <= i < |db.permissions| && db.permissions[i] == a;
    var j :| 0 <= j < |db.permissions| && db.permissions[j] == b;
    assert !(i < j) && !(j < i);
  }

  /** Only the row `p` itself carries `p`'s id, so only it is replaced. */
  lemma ReplacePermissionOne(db: Db, p: PermissionRow, p': PermissionRow)
    requires Valid(db) && p in db.permissions && p'.id == p.id
    ensures forall i :: 0 <= i < |db.permissions| ==>
      ReplacePermission(db.permissions, p')[i] == if db.permissions[i] == p then p' else db.permissions[i]
  {
    forall i | 0 <= i < |db.permissions|
      ensures ReplacePermission(db.permissions, p')[i] == if db.permissions[i] == p then p' else db.permissions[i]
    {
      if db.permissions[i].id == p.id {
        SameIdSameRow(db, db.permissions[i], p);
      }
    }
  }

  /** Replacing one permission row by a row with the same id keeps the
      schema's guarantees, provided the new name is no other row's name and
      the new values fit their columns. */
  lemma ReplacePermissionValid(db: Db, p: PermissionRow, p': PermissionRow)
    requires Valid(db) && p in db.permissions && p'.id == p.id
    requires |p'.name| <= NameLength && DescriptionFits(p'.description)
    requires forall q :: q in db.permissions && q != p ==> q.name != p'.name
    ensures Valid(db.(permissions := ReplacePermission(db.permissions, p')))
  {
    var ps := db.permissions;
    var ps' := ReplacePermission(ps, p');
    var db' := db.(permissions := ps');
    ReplacePermissionOne(db, p, p');
    forall i, j | 0 <= i < j < |ps'| ensures ps'[i].id != ps'[j].id && ps'[i].name != ps'[j].name {
      assert ps[i] in ps && ps[j] in ps;
    }
    forall q | q in ps' ensures |q.name| <= NameLength && DescriptionFits(q.description) {
      var i :| 0 <= i < |ps'| && ps'[i] == q;
      assert ps[i] in ps;
    }
    assert PermissionIds(db') == PermissionIds(db) by {
      forall x | x in PermissionIds(db) ensures x in PermissionIds(db') {
        var i :| 0 <= i < |ps| && ps[i].id == x;
        assert ps'[i] in ps';
      }
      forall x | x in PermissionIds(db') ensures x in PermissionIds(db) {
        var i :| 0 <= i < |ps'| && ps'[i].id == x;
        assert ps[i] in ps;
      }
    }
  }

  /** The whole abstract state: credential tables and revocation store. */
  datatype State = State(db: Db, store: Redis.Store)

  /** The session: the committed state of both tables.  Operations that fail
      before their commit leave it as it was. */
  class Session {
    var db: Db

    constructor (initial: Db)
      ensures db == initial
    {
      db := initial;
    }
  }
}
