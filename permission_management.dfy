/** Permission administration (src/services/permission_management_service.py):
    create, delete, rename or re-describe a permission, grant it to a user or
    take it away, and list permissions.  Every change to what a user may do
    also writes that user's global ban markers, so tokens carrying the old
    permission list stop being accepted. */
module PermissionManagement {
  import opened Ids
  import opened Errors
  import opened Results
  import opened Query
  import opened Models
  import opened Redis
  import opened Tokens
  import opened JwtService

  /** `CreatePermissionModel` */
  datatype NewPermission = NewPermission(name: string, description: Option<string>)

  /** `SearchPermissionModel`: a permission chosen by id or by name. */
  datatype PermissionSelector = PermissionSelector(id: Option<Uuid>, name: Option<string>)

  /** `ChangePermissionModel`: the columns to overwrite; None keeps a column. */
  datatype PermissionChange = PermissionChange(name: Option<string>, description: Option<string>)

  /** `UserModel`: a user chosen by id or by login. */
  datatype UserSelector = UserSelector(id: Option<Uuid>, login: Option<string>)

  /** `ResponseUserModel` */
  datatype UserView = UserView(id: Uuid, login: string, permissions: seq<PermissionRow>)

  // ---- selectors: `model_dump(exclude_none=True)` and the `where` clauses ----

  /** An empty `model_dump(exclude_none=True)`: every field is None. */
  predicate Blank(sel: PermissionSelector)
  {
    sel.id.None? && sel.name.None?
  }

  predicate BlankUser(sel: UserSelector)
  {
    sel.id.None? && sel.login.None?
  }

  predicate BlankChange(c: PermissionChange)
  {
    c.name.None? && c.description.None?
  }

  /** `or_(name == sel.name, id == sel.id)`: a None field compares as SQL NULL
      and matches no row. */
  predicate Picks(sel: PermissionSelector, p: PermissionRow)
  {
    sel.name == Some(p.name) || sel.id == Some(p.id)
  }

  /** `and_(or_(id == sel.id, login == sel.login), is_deleted == False)` */
  predicate PicksUser(sel: UserSelector, u: UserRow)
  {
    (sel.id == Some(u.id) || sel.login == Some(u.login)) && !u.isDeleted
  }

  function PermissionFilter(sel: PermissionSelector): PermissionRow -> bool
  {
    (p: PermissionRow) => Picks(sel, p)
  }

  function UserFilter(sel: UserSelector): UserRow -> bool
  {
    (u: UserRow) => PicksUser(sel, u)
  }

  /** The rows a permission selector matches, in table order. */
  function Matching(perms: seq<PermissionRow>, sel: PermissionSelector): (r: seq<PermissionRow>)
    ensures forall p :: p in r <==> p in perms && Picks(sel, p)
  {
    Filter(perms, PermissionFilter(sel))
  }

  function NameFilter(name: string): PermissionRow -> bool
  {
    (p: PermissionRow) => p.name == name
  }

  /** `select(PermissionOrm).where(name == name)` */
  function Named(perms: seq<PermissionRow>, name: string): (r: seq<PermissionRow>)
    ensures r == [] <==> forall p :: p in perms ==> p.name != name
  {
    Filter(perms, NameFilter(name))
  }

  /** The permission `.one()` returns for a selector. */
  function FindPermission(db: Db, sel: PermissionSelector): (r: Result<PermissionRow>)
    ensures r.Ok? ==> r.value in db.permissions && Picks(sel, r.value)
    ensures r.Ok? ==> forall p :: p in db.permissions && Picks(sel, p) ==> p == r.value
    ensures r == Err(PermissionMissing) <==> forall p :: p in db.permissions ==> !Picks(sel, p)
    ensures r.Err? ==> r.error == PermissionMissing || r.error == MultipleRows
  {
    One(Matching(db.permissions, sel), PermissionMissing)
  }

  /** The live user `.one()` returns for a selector. */
  function FindUser(db: Db, sel: UserSelector): (r: Result<UserRow>)
    ensures r.Ok? ==> r.value in db.users && PicksUser(sel, r.value)
    ensures r.Ok? ==> forall u :: u in db.users && PicksUser(sel, u) ==> u == r.value
    ensures r == Err(UserMissing) <==> forall u :: u in db.users ==> !PicksUser(sel, u)
    ensures r.Err? ==> r.error == UserMissing || r.error == MultipleRows
  {
    One(Filter(db.users, UserFilter(sel)), UserMissing)
  }

  /** The response for a user: its permissions as rows, in list order. */
  function View(db: Db, u: UserRow): (v: UserView)
    ensures v.id == u.id && v.login == u.login
  {
    UserView(u.id, u.login, Resolve(db.permissions, u.permissions))
  }

  /** Whether every changed column fits its String(n) type. */
  predicate ChangeFits(c: PermissionChange)
  {
    (c.name.None? || |c.name.value| <= NameLength) && DescriptionFits(c.description)
  }

  /** A row the selector does not match already has the new name. */
  predicate NameUsedElsewhere(perms: seq<PermissionRow>, sel: PermissionSelector, name: string)
  {
    exists q :: q in perms && !Picks(sel, q) && q.name == name
  }

  /** The row after `.values(**change.model_dump(exclude_none=True))`. */
  function Apply(p: PermissionRow, c: PermissionChange): (r: PermissionRow)
    ensures r.id == p.id
    ensures r.name == (if c.name.Some? then c.name.value else p.name)
    ensures r.description == (if c.description.Some? then c.description else p.description)
  {
    PermissionRow(p.id, if c.name.Some? then c.name.value else p.name,
                  if c.description.Some? then c.description else p.description)
  }

  function WithPermission(u: UserRow, pid: Uuid): (r: UserRow)
    ensures r.id == u.id && r.login == u.login && r.isDeleted == u.isDeleted
    ensures r.permissions == u.permissions + [pid]
  {
    u.(permissions := u.permissions + [pid])
  }

  // ---- the operations on the abstract state ----

  /** The commit of a new permission row: the database refuses a value too
      long for its column, then a duplicate primary key. */
  function Insert(st: State, np: NewPermission, newId: Uuid): (r: Step<PermissionRow, State>)
    ensures r.result.Ok? <==> |np.name| <= NameLength && DescriptionFits(np.description) && newId !in PermissionIds(st.db)
    ensures r.result.Err? ==> r.next == st && (r.result.error == DataTooLong || r.result.error == UniqueViolation)
    ensures r.result.Ok? ==>
      && r.result.value == PermissionRow(newId, np.name, np.description)
      && r.next == st.(db := st.db.(permissions := st.db.permissions + [r.result.value]))
  {
    if |np.name| > NameLength || !DescriptionFits(np.description) then Step(Err(DataTooLong), st)
    else if newId in PermissionIds(st.db) then Step(Err(UniqueViolation), st)
    else
      var row := PermissionRow(newId, np.name, np.description);
      Step(Ok(row), st.(db := st.db.(permissions := st.db.permissions + [row])))
  }

  /** `create`: refuses a taken name, then inserts the row at commit. */
  function CreateSpec(st: State, np: NewPermission, newId: Uuid): (r: Step<PermissionRow, State>)
    ensures r.result == Err(PermissionNameTaken) <==> exists p :: p in st.db.permissions && p.name == np.name
    ensures r.result.Ok? <==>
      && (forall p :: p in st.db.permissions ==> p.name != np.name)
      && |np.name| <= NameLength && DescriptionFits(np.description)
      && newId !in PermissionIds(st.db)
    ensures r.result.Ok? ==>
      && r.result.value.id == newId && r.result.value.name == np.name
      && r.result.value.description == np.description
      && r.next == st.(db := st.db.(permissions := st.db.permissions + [r.result.value]))
    ensures r.result.Err? ==> r.next == st
  {
    if First(Named(st.db.permissions, np.name)).Some? then Step(Err(PermissionNameTaken), st)
    else Insert(st, np, newId)
  }

  /** `delete`: the holders lose the permission and are banned, then the row
      goes. */
  function DeleteSpec(st: State, sel: PermissionSelector, now: int, cfg: JwtConfig): (r: Step<(), State>)
    ensures Blank(sel) ==> r == Step(Err(NotEnoughInfo), st)
    ensures r.result.Ok? <==> !Blank(sel) && FindPermission(st.db, sel).Ok?
    ensures !Blank(sel) && FindPermission(st.db, sel).Err? ==> r.result.error == FindPermission(st.db, sel).error
    ensures r.result.Err? ==> r.next == st
  {
    if Blank(sel) then Step(Err(NotEnoughInfo), st)
    else
      match FindPermission(st.db, sel)
      case Err(e) => Step(Err(e), st)
      case Ok(p) =>
        Step(Ok(()), State(DeletePermission(st.db, p.id), BanUsers(st.store, Holders(st.db.users, p.id), now, cfg)))
  }

  /** `update`: one UPDATE over every matched row, then the holders are banned.
      The database decides the failures in its own order: no row, a value too
      long, a name that would be duplicated, and only then `.one()` on the
      returned rows. */
  function UpdateSpec(st: State, sel: PermissionSelector, change: PermissionChange, now: int, cfg: JwtConfig)
    : (r: Step<PermissionRow, State>)
    ensures Blank(sel) || BlankChange(change) ==> r == Step(Err(NotEnoughInfo), st)
    ensures r.result == Err(PermissionMissing) <==>
      !Blank(sel) && !BlankChange(change) && forall p :: p in st.db.permissions ==> !Picks(sel, p)
    ensures r.result.Ok? ==> FindPermission(st.db, sel).Ok? && ChangeFits(change)
    ensures r.result.Ok? && change.name.Some? ==> !NameUsedElsewhere(st.db.permissions, sel, change.name.value)
    ensures (&& !Blank(sel) && !BlankChange(change) && FindPermission(st.db, sel).Ok? && ChangeFits(change)
             && (change.name.Some? ==> !NameUsedElsewhere(st.db.permissions, sel, change.name.value)))
      ==> r.result.Ok?
    ensures r.result.Err? ==> r.next == st
  {
    if Blank(sel) || BlankChange(change) then Step(Err(NotEnoughInfo), st)
    else
      var matched := Matching(st.db.permissions, sel);
      if matched == [] then Step(Err(PermissionMissing), st)
      else if !ChangeFits(change) then Step(Err(DataTooLong), st)
      else if change.name.Some? && (|matched| > 1 || NameUsedElsewhere(st.db.permissions, sel, change.name.value)) then
        Step(Err(PermissionNameTaken), st)
      else if |matched| > 1 then Step(Err(MultipleRows), st)
      else
        var p := Apply(matched[0], change);
        Step(Ok(p), State(st.db.(permissions := ReplacePermission(st.db.permissions, p)),
                          BanUsers(st.store, Holders(st.db.users, p.id), now, cfg)))
  }

  /** `assign`: appends the permission to a live user's list and bans the user. */
  function AssignSpec(st: State, psel: PermissionSelector, usel: UserSelector, now: int, cfg: JwtConfig)
    : (r: Step<UserView, State>)
    ensures Blank(psel) || BlankUser(usel) ==> r == Step(Err(NotEnoughInfo), st)
    ensures r.result.Ok? <==>
      && !Blank(psel) && !BlankUser(usel)
      && FindPermission(st.db, psel).Ok? && FindUser(st.db, usel).Ok?
      && FindPermission(st.db, psel).value.id !in FindUser(st.db, usel).value.permissions
    ensures r.result.Err? ==> r.next == st
  {
    if Blank(psel) || BlankUser(usel) then Step(Err(NotEnoughInfo), st)
    else
      match FindPermission(st.db, psel)
      case Err(e) => Step(Err(e), st)
      case Ok(p) =>
        match FindUser(st.db, usel)
        case Err(e) => Step(Err(e), st)
        case Ok(u) =>
          if p.id in u.permissions then Step(Err(AlreadyHolds), st)
          else
            var u' := WithPermission(u, p.id);
            var db := st.db.(users := ReplaceUser(st.db.users, u'));
            Step(Ok(View(db, u')), State(db, BanUser(st.store, u.id, now, cfg)))
  }

  /** `take_away`: removes the permission from a live user's list and bans the
      user; `list.remove` raising ValueError is the "does not hold" answer. */
  function TakeAwaySpec(st: State, psel: PermissionSelector, usel: UserSelector, now: int, cfg: JwtConfig)
    : (r: Step<UserView, State>)
    ensures Blank(psel) || BlankUser(usel) ==> r == Step(Err(NotEnoughInfo), st)
    ensures r.result.Ok? <==>
      && !Blank(psel) && !BlankUser(usel)
      && FindPermission(st.db, psel).Ok? && FindUser(st.db, usel).Ok?
      && FindPermission(st.db, psel).value.id in FindUser(st.db, usel).value.permissions
    ensures r.result.Err? ==> r.next == st
  {
    if Blank(psel) || BlankUser(usel) then Step(Err(NotEnoughInfo), st)
    else
      match FindPermission(st.db, psel)
      case Err(e) => Step(Err(e), st)
      case Ok(p) =>
        match FindUser(st.db, usel)
        case Err(e) => Step(Err(e), st)
        case Ok(u) =>
          if p.id !in u.permissions then Step(Err(DoesNotHold), st)
          else
            var u' := u.(permissions := RemoveFirst(u.permissions, p.id));
            var db := st.db.(users := ReplaceUser(st.db.users, u'));
            Step(Ok(View(db, u')), State(db, BanUser(st.store, u.id, now, cfg)))
  }

  // ---- the loops that collect ban markers ----

  /** The loop of `delete`: detach the permission from each holder and collect
      both ban markers for it.  The source walks the result of the holders
      query; walking every row and skipping non-holders visits the same rows
      in the same order. */
  method DetachHolders(users: seq<UserRow>, pid: Uuid, now: int)
    returns (detached: seq<UserRow>, access: map<Key, Value>, refresh: map<Key, Value>)
    ensures detached == DetachAll(users, pid)
    ensures access == BanMap(AccessBanned, Holders(users, pid), now)
    ensures refresh == BanMap(RefreshBanned, Holders(users, pid), now)
  {
    detached := [];
    access := map[];
    refresh := map[];
    var i := 0;
    while i < |users|
      invariant 0 <= i <= |users|
      invariant |detached| == i && forall j :: 0 <= j < i ==> detached[j] == Detach(users[j], pid)
      invariant access == BanMap(AccessBanned, Holders(users[..i], pid), now)
      invariant refresh == BanMap(RefreshBanned, Holders(users[..i], pid), now)
    {
      var user := users[i];
      BanStep(AccessBanned, users, i, pid, now);
      BanStep(RefreshBanned, users, i, pid, now);
      if pid in user.permissions {
        access := access[Key(AccessBanned, "all", user.id) := IntValue(now)];
        refresh := refresh[Key(RefreshBanned, "all", user.id) := IntValue(now)];
      }
      // `user.permissions.remove(p)`, for a holder
      detached := detached + [Detach(user, pid)];
      i := i + 1;
    }
    assert users[..i] == users;
  }

  /** The loop of `update`: collect both ban markers for every holder. */
  method CollectBans(users: seq<UserRow>, pid: Uuid, now: int)
    returns (access: map<Key, Value>, refresh: map<Key, Value>)
    ensures access == BanMap(AccessBanned, Holders(users, pid), now)
    ensures refresh == BanMap(RefreshBanned, Holders(users, pid), now)
  {
    access := map[];
    refresh := map[];
    var i := 0;
    while i < |users|
      invariant 0 <= i <= |users|
      invariant access == BanMap(AccessBanned, Holders(users[..i], pid), now)
      invariant refresh == BanMap(RefreshBanned, Holders(users[..i], pid), now)
    {
      BanStep(AccessBanned, users, i, pid, now);
      BanStep(RefreshBanned, users, i, pid, now);
      if pid in users[i].permissions {
        access := access[Key(AccessBanned, "all", users[i].id) := IntValue(now)];
        refresh := refresh[Key(RefreshBanned, "all", users[i].id) := IntValue(now)];
      }
      i := i + 1;
    }
    assert users[..i] == users;
  }

  /** One more scanned user adds its marker to the dict exactly when it holds
      `pid`. */
  lemma BanStep(prefix: string, users: seq<UserRow>, i: nat, pid: Uuid, now: int)
    requires i < |users|
    ensures BanMap(prefix, Holders(users[..i + 1], pid), now) ==
      if pid in users[i].permissions
      then BanMap(prefix, Holders(users[..i], pid), now)[Key(prefix, "all", users[i].id) := IntValue(now)]
      else BanMap(prefix, Holders(users[..i], pid), now)
  {
    HoldersSnoc(users, i, pid);
    if pid in users[i].permissions {
      BanMapAdd(prefix, Holders(users[..i], pid), users[i].id, now);
    }
  }

  // ---- the service ----

  class PermissionManagementService {
    const redis: RedisService
    const session: Session
    const cfg: JwtConfig

    constructor (redis: RedisService, session: Session, cfg: JwtConfig)
      ensures this.redis == redis && this.session == session && this.cfg == cfg
    {
      this.redis := redis;
      this.session := session;
      this.cfg := cfg;
    }

    function Current(): State
      reads session, redis
    {
      State(session.db, redis.store)
    }

    method Create(np: NewPermission, newId: Uuid) returns (r: Result<PermissionRow>)
      modifies session
      ensures Step(r, Current()) == CreateSpec(old(Current()), np, newId)
    {
      var db := session.db;
      if First(Named(db.permissions, np.name)).Some? {
        return Err(PermissionNameTaken);
      }
      if |np.name| > NameLength || !DescriptionFits(np.description) {
        return Err(DataTooLong);
      }
      if newId in PermissionIds(db) {
        return Err(UniqueViolation);
      }
      var row := PermissionRow(newId, np.name, np.description);
      session.db := db.(permissions := db.permissions + [row]);
      r := Ok(row);
    }

    method Delete(sel: PermissionSelector, now: int) returns (r: Result<()>)
      modifies session, redis
      ensures Step(r, Current()) == DeleteSpec(old(Current()), sel, now, cfg)
    {
      if Blank(sel) {
        return Err(NotEnoughInfo);
      }
      var db := session.db;
      var found := FindPermission(db, sel);
      if found.Err? {
        return Err(found.error);
      }
      var p := found.value;
      var detached, access, refresh := DetachHolders(db.users, p.id, now);
      redis.PipeSet(access, cfg.accessExpires);
      redis.PipeSet(refresh, cfg.refreshExpires);
      session.db := Db(detached, WithoutPermission(db.permissions, p.id));
      r := Ok(());
    }

    method Update(sel: PermissionSelector, change: PermissionChange, now: int) returns (r: Result<PermissionRow>)
      modifies session, redis
      ensures Step(r, Current()) == UpdateSpec(old(Current()), sel, change, now, cfg)
    {
      if Blank(sel) || BlankChange(change) {
        return Err(NotEnoughInfo);
      }
      var db := session.db;
      var matched := Matching(db.permissions, sel);
      if matched == [] {
        return Err(PermissionMissing);
      }
      if !ChangeFits(change) {
        return Err(DataTooLong);
      }
      if change.name.Some? && (|matched| > 1 || NameUsedElsewhere(db.permissions, sel, change.name.value)) {
        return Err(PermissionNameTaken);
      }
      if |matched| > 1 {
        return Err(MultipleRows);
      }
      var p := Apply(matched[0], change);
      var access, refresh := CollectBans(db.users, p.id, now);
      redis.PipeSet(access, cfg.accessExpires);
      redis.PipeSet(refresh, cfg.refreshExpires);
      session.db := db.(permissions := ReplacePermission(db.permissions, p));
      r := Ok(p);
    }

    /** `get_all`: every row, in table order. */
    method GetAll() returns (r: seq<PermissionRow>)
      ensures |r| == |session.db.permissions|
      ensures forall p :: p in r <==> p in session.db.permissions
    {
      r := session.db.permissions;
    }

    method Assign(psel: PermissionSelector, usel: UserSelector, now: int) returns (r: Result<UserView>)
      modifies session, redis
      ensures Step(r, Current()) == AssignSpec(old(Current()), psel, usel, now, cfg)
    {
      if Blank(psel) || BlankUser(usel) {
        return Err(NotEnoughInfo);
      }
      var db := session.db;
      var foundPermission := FindPermission(db, psel);
      if foundPermission.Err? {
        return Err(foundPermission.error);
      }
      var p := foundPermission.value;
      var foundUser := FindUser(db, usel);
      if foundUser.Err? {
        return Err(foundUser.error);
      }
      var u := foundUser.value;
      if p.id in u.permissions {
        return Err(AlreadyHolds);
      }
      var u' := WithPermission(u, p.id);
      session.db := db.(users := ReplaceUser(db.users, u'));
      redis.Set(Key(AccessBanned, "all", u.id), IntValue(now), cfg.accessExpires);
      redis.Set(Key(RefreshBanned, "all", u.id), IntValue(now), cfg.refreshExpires);
      r := Ok(View(session.db, u'));
    }

    method TakeAway(psel: PermissionSelector, usel: UserSelector, now: int) returns (r: Result<UserView>)
      modifies session, redis
      ensures Step(r, Current()) == TakeAwaySpec(old(Current()), psel, usel, now, cfg)
    {
      if Blank(psel) || BlankUser(usel) {
        return Err(NotEnoughInfo);
      }
      var db := session.db;
      var foundPermission := FindPermission(db, psel);
      if foundPermission.Err? {
        return Err(foundPermission.error);
      }
      var p := foundPermission.value;
      var foundUser := FindUser(db, usel);
      if foundUser.Err? {
        return Err(foundUser.error);
      }
      var u := foundUser.value;
      if p.id !in u.permissions {
        return Err(DoesNotHold);
      }
      var u' := u.(permissions := RemoveFirst(u.permissions, p.id));
      session.db := db.(users := ReplaceUser(db.users, u'));
      redis.Set(Key(AccessBanned, "all", u.id), IntValue(now), cfg.accessExpires);
      redis.Set(Key(RefreshBanned, "all", u.id), IntValue(now), cfg.refreshExpires);
      r := Ok(View(session.db, u'));
    }

    /** `get_user_permissions`: the rows of the permissions a live user holds,
        in the order of its list. */
    method GetUserPermissions(sel: UserSelector) returns (r: Result<seq<PermissionRow>>)
      ensures BlankUser(sel) ==> r == Err(NotEnoughInfo)
      ensures r.Ok? <==> !BlankUser(sel) && FindUser(session.db, sel).Ok?
      ensures !BlankUser(sel) && FindUser(session.db, sel).Err? ==> r == Err(FindUser(session.db, sel).error)
      ensures r.Ok? ==> r.value == View(session.db, FindUser(session.db, sel).value).permissions
    {
      if BlankUser(sel) {
        return Err(NotEnoughInfo);
      }
      var found := FindUser(session.db, sel);
      if found.Err? {
        return Err(found.error);
      }
      r := Ok(Resolve(session.db.permissions, found.value.permissions));
    }
  }

  // ---- properties of the operations ----

  /** A user row as another read sees it after an update of that row in place
      (same id, login and deleted flag): the selector finds the updated row. */
  lemma FindUserAfterReplace(db: Db, sel: UserSelector, u: UserRow, u': UserRow)
    requires Valid(db) && FindUser(db, sel) == Ok(u)
    requires u'.id == u.id && u'.login == u.login && u'.isDeleted == u.isDeleted
    requires NoDuplicates(u'.permissions) && forall q :: q in u'.permissions ==> q in PermissionIds(db)
    ensures FindUser(db.(users := ReplaceUser(db.users, u')), sel) == Ok(u')
  {
    var db' := db.(users := ReplaceUser(db.users, u'));
    ReplaceUserValid(db, u, u');
    assert DistinctBy(db'.users, UserId);
    forall y | y in db'.users && UserFilter(sel)(y) ensures y == u' {
      var i :| 0 <= i < |db'.users| && db'.users[i] == y;
      assert db.users[i] in db.users;
    }
    var k :| 0 <= k < |db.users| && db.users[k] == u;
    assert db'.users[k] == u';
    OneFindsUnique(db'.users, UserFilter(sel), UserId, u', UserMissing);
  }

  /** `create` keeps the schema's guarantees. */
  lemma CreateKeepsValid(st: State, np: NewPermission, newId: Uuid)
    requires Valid(st.db)
    ensures Valid(CreateSpec(st, np, newId).next.db)
  {
    var r := CreateSpec(st, np, newId);
    if r.result.Ok? {
      var ps := r.next.db.permissions;
      forall i, j | 0 <= i < j < |ps| ensures ps[i].id != ps[j].id && ps[i].name != ps[j].name {
        if j == |ps| - 1 {
          assert ps[i] in st.db.permissions;
        }
      }
      assert PermissionIds(st.db) <= PermissionIds(r.next.db);
    }
  }

  /** A selector whose id picks one row and whose name picks another is
      ambiguous: `.one()` raises, which no handler turns into an answer, and
      nothing changes. */
  lemma AmbiguousSelectorFails(st: State, p1: PermissionRow, p2: PermissionRow, usel: UserSelector, now: int, cfg: JwtConfig)
    requires p1 in st.db.permissions && p2 in st.db.permissions && p1 != p2
    requires !BlankUser(usel)
    ensures var sel := PermissionSelector(Some(p1.id), Some(p2.name));
      && FindPermission(st.db, sel) == Err(MultipleRows)
      && DeleteSpec(st, sel, now, cfg) == Step(Err(MultipleRows), st)
      && AssignSpec(st, sel, usel, now, cfg) == Step(Err(MultipleRows), st)
      && TakeAwaySpec(st, sel, usel, now, cfg) == Step(Err(MultipleRows), st)
  {
    var sel := PermissionSelector(Some(p1.id), Some(p2.name));
    TwoRowsNotOne(Matching(st.db.permissions, sel), p1, p2, PermissionMissing);
  }

  /** After `delete`: the row is gone, nobody holds it, every other
      association is as before, and every former holder has both global
      markers set to `now` with the configured lifetimes, so each of its tokens
      issued before `now` is refused. */
  lemma DeleteRevokes(st: State, sel: PermissionSelector, now: int, cfg: JwtConfig, p: PermissionRow)
    requires Valid(st.db)
    requires !Blank(sel) && FindPermission(st.db, sel) == Ok(p)
    ensures var next := DeleteSpec(st, sel, now, cfg).next;
      && Valid(next.db)
      && PermissionIds(next.db) == PermissionIds(st.db) - {p.id}
      && Holders(next.db.users, p.id) == {}
      && |next.db.users| == |st.db.users|
      && (forall i, q :: 0 <= i < |st.db.users| ==>
            next.db.users[i].id == st.db.users[i].id
            && (q in next.db.users[i].permissions <==> q in st.db.users[i].permissions && q != p.id))
      && (forall u :: u in Holders(st.db.users, p.id) ==>
            && next.store[Key(AccessBanned, "all", u)] == Entry(OneTuple(IntValue(now)), cfg.accessExpires)
            && next.store[Key(RefreshBanned, "all", u)] == Entry(OneTuple(IntValue(now)), cfg.refreshExpires))
      && (forall d: TokenData ::
            (d.userId in Holders(st.db.users, p.id) && d.iat < now && (d.nameToken == "access" || d.nameToken == "refresh"))
            ==> CheckBanned(next.store, d).Fail?)
  {
    DeletePermissionValid(st.db, p.id);
    BanUsersWrites(st.store, Holders(st.db.users, p.id), now, cfg);
    BanUsersBansAll(st.store, Holders(st.db.users, p.id), now, cfg);
  }

  /** A new name already carried by a row the selector does not pick is
      reported as taken, and nothing changes. */
  lemma UpdateNameCollision(st: State, sel: PermissionSelector, change: PermissionChange, now: int, cfg: JwtConfig, q: PermissionRow)
    requires !Blank(sel) && change.name.Some? && ChangeFits(change)
    requires exists p :: p in st.db.permissions && Picks(sel, p)
    requires q in st.db.permissions && !Picks(sel, q) && q.name == change.name.value
    ensures UpdateSpec(st, sel, change, now, cfg) == Step(Err(PermissionNameTaken), st)
  {
    var p :| p in st.db.permissions && Picks(sel, p);
    assert p in Matching(st.db.permissions, sel);
  }

  /** After `update`: only the requested columns of the one matched row
      change, and no association changes. */
  lemma UpdateChangesOnlyRequested(st: State, sel: PermissionSelector, change: PermissionChange, now: int, cfg: JwtConfig)
    requires Valid(st.db)
    requires UpdateSpec(st, sel, change, now, cfg).result.Ok?
    ensures var r := UpdateSpec(st, sel, change, now, cfg);
      var p := FindPermission(st.db, sel).value;
      && r.result.value.id == p.id
      && r.result.value.name == (if change.name.Some? then change.name.value else p.name)
      && r.result.value.description == (if change.description.Some? then change.description else p.description)
      && r.next.db.users == st.db.users
      && |r.next.db.permissions| == |st.db.permissions|
      && (forall i :: 0 <= i < |st.db.permissions| ==>
            r.next.db.permissions[i] == if st.db.permissions[i] == p then r.result.value else st.db.permissions[i])
  {
    var r := UpdateSpec(st, sel, change, now, cfg);
    var p := Matching(st.db.permissions, sel)[0];
    var ps := st.db.permissions;
    assert FindPermission(st.db, sel) == Ok(p);
    forall i | 0 <= i < |ps| ensures r.next.db.permissions[i] == if ps[i] == p then r.result.value else ps[i] {
      if ps[i].id == p.id {
        SameIdSameRow(st.db, ps[i], p);
      }
    }
  }

  /** `update` keeps the schema's guarantees: the renamed row collides with no
      other row. */
  lemma UpdateKeepsValid(st: State, sel: PermissionSelector, change: PermissionChange, now: int, cfg: JwtConfig)
    requires Valid(st.db)
    ensures Valid(UpdateSpec(st, sel, change, now, cfg).next.db)
  {
    var r := UpdateSpec(st, sel, change, now, cfg);
    if r.result.Ok? {
      var p := Matching(st.db.permissions, sel)[0];
      assert FindPermission(st.db, sel) == Ok(p);
      forall q | q in st.db.permissions && q != p ensures q.name != r.result.value.name {
        assert q !in Matching(st.db.permissions, sel);
      }
      ReplacePermissionValid(st.db, p, r.result.value);
    }
  }

  /** After `update` every holder of the permission has both global markers
      set to `now`, so each of its tokens issued before `now` is refused. */
  lemma UpdateBansHolders(st: State, sel: PermissionSelector, change: PermissionChange, now: int, cfg: JwtConfig, p: PermissionRow)
    requires UpdateSpec(st, sel, change, now, cfg).result.Ok? && FindPermission(st.db, sel) == Ok(p)
    ensures var next := UpdateSpec(st, sel, change, now, cfg).next;
      && (forall u :: u in Holders(st.db.users, p.id) ==>
            && next.store[Key(AccessBanned, "all", u)] == Entry(OneTuple(IntValue(now)), cfg.accessExpires)
            && next.store[Key(RefreshBanned, "all", u)] == Entry(OneTuple(IntValue(now)), cfg.refreshExpires))
      && (forall d: TokenData ::
            (d.userId in Holders(st.db.users, p.id) && d.iat < now && (d.nameToken == "access" || d.nameToken == "refresh"))
            ==> CheckBanned(next.store, d).Fail?)
  {
    BanUsersWrites(st.store, Holders(st.db.users, p.id), now, cfg);
    BanUsersBansAll(st.store, Holders(st.db.users, p.id), now, cfg);
  }

  /** The new list `assign` builds has no duplicate and names existing rows. */
  lemma GrantedListValid(db: Db, u: UserRow, p: PermissionRow)
    requires Valid(db) && u in db.users && p in db.permissions && p.id !in u.permissions
    ensures NoDuplicates(u.permissions + [p.id])
    ensures forall q :: q in u.permissions + [p.id] ==> q in PermissionIds(db)
  {
    var l := u.permissions + [p.id];
    forall i, j | 0 <= i < j < |l| ensures l[i] != l[j] {
      if j == |u.permissions| {
        assert l[i] == u.permissions[i];
      }
    }
  }

  /** After `assign`: the user's list grows by exactly that permission at its
      end and no other row changes. */
  lemma AssignGrants(st: State, psel: PermissionSelector, usel: UserSelector, now: int, cfg: JwtConfig)
    requires Valid(st.db)
    requires AssignSpec(st, psel, usel, now, cfg).result.Ok?
    ensures var r := AssignSpec(st, psel, usel, now, cfg);
      var p := FindPermission(st.db, psel).value;
      var u := FindUser(st.db, usel).value;
      && Valid(r.next.db)
      && r.next.db.permissions == st.db.permissions
      && |r.next.db.users| == |st.db.users|
      && (forall i :: 0 <= i < |st.db.users| ==>
            r.next.db.users[i] == if st.db.users[i] == u then u.(permissions := u.permissions + [p.id]) else st.db.users[i])
      && (forall q :: q in u.permissions + [p.id] <==> q in u.permissions || q == p.id)
  {
    var p := FindPermission(st.db, psel).value;
    var u := FindUser(st.db, usel).value;
    GrantedListValid(st.db, u, p);
    ReplaceUserValid(st.db, u, WithPermission(u, p.id));
  }

  /** `assign` answers with the user's permission rows, the new one last. */
  lemma AssignAnswer(st: State, psel: PermissionSelector, usel: UserSelector, now: int, cfg: JwtConfig)
    requires Valid(st.db)
    requires AssignSpec(st, psel, usel, now, cfg).result.Ok?
    ensures var v := AssignSpec(st, psel, usel, now, cfg).result.value;
      var p := FindPermission(st.db, psel).value;
      var u := FindUser(st.db, usel).value;
      && v.id == u.id && v.login == u.login
      && |v.permissions| == |u.permissions| + 1
      && v.permissions[|u.permissions|] == p
      && forall i :: 0 <= i < |u.permissions| ==> v.permissions[i].id == u.permissions[i]
  {
    var v := AssignSpec(st, psel, usel, now, cfg).result.value;
    var p := FindPermission(st.db, psel).value;
    var u := FindUser(st.db, usel).value;
    GrantedListValid(st.db, u, p);
    ResolveComplete(st.db.permissions, u.permissions + [p.id]);
    SameIdSameRow(st.db, v.permissions[|u.permissions|], p);
  }

  /** `assign` and `take_away` set both global markers of the user to `now`,
      so each of its tokens issued before `now` is refused. */
  lemma AssignAndTakeAwayBan(st: State, psel: PermissionSelector, usel: UserSelector, now: int, cfg: JwtConfig)
    requires AssignSpec(st, psel, usel, now, cfg).result.Ok? || TakeAwaySpec(st, psel, usel, now, cfg).result.Ok?
    ensures var u := FindUser(st.db, usel).value;
      var next := if AssignSpec(st, psel, usel, now, cfg).result.Ok?
        then AssignSpec(st, psel, usel, now, cfg).next else TakeAwaySpec(st, psel, usel, now, cfg).next;
      && next.store[Key(AccessBanned, "all", u.id)] == Entry(OneTuple(IntValue(now)), cfg.accessExpires)
      && next.store[Key(RefreshBanned, "all", u.id)] == Entry(OneTuple(IntValue(now)), cfg.refreshExpires)
      && (forall d: TokenData ::
            (d.userId == u.id && d.iat < now && (d.nameToken == "access" || d.nameToken == "refresh"))
            ==> CheckBanned(next.store, d).Fail?)
  {
    var u := FindUser(st.db, usel).value;
    BanUserWrites(st.store, u.id, now, cfg);
    BanUserBansAll(st.store, u.id, now, cfg);
  }

  /** After `take_away`: the user no longer holds the permission and keeps
      every other one, no other row changes, and the answer no longer lists
      it. */
  lemma TakeAwayRevokes(st: State, psel: PermissionSelector, usel: UserSelector, now: int, cfg: JwtConfig)
    requires Valid(st.db)
    requires TakeAwaySpec(st, psel, usel, now, cfg).result.Ok?
    ensures var r := TakeAwaySpec(st, psel, usel, now, cfg);
      var p := FindPermission(st.db, psel).value;
      var u := FindUser(st.db, usel).value;
      && Valid(r.next.db)
      && r.next.db.permissions == st.db.permissions
      && |r.next.db.users| == |st.db.users|
      && (forall i :: 0 <= i < |st.db.users| ==>
            r.next.db.users[i] == if st.db.users[i] == u then u.(permissions := RemoveFirst(u.permissions, p.id)) else st.db.users[i])
      && (forall q :: q in RemoveFirst(u.permissions, p.id) <==> q in u.permissions && q != p.id)
      && |r.result.value.permissions| == |u.permissions| - 1
      && (forall v :: v in r.result.value.permissions ==> v.id != p.id)
  {
    var r := TakeAwaySpec(st, psel, usel, now, cfg);
    var p := FindPermission(st.db, psel).value;
    var u := FindUser(st.db, usel).value;
    var u' := u.(permissions := RemoveFirst(u.permissions, p.id));
    RemoveFirstNoDuplicates(u.permissions, p.id);
    ReplaceUserValid(st.db, u, u');
    ResolveComplete(st.db.permissions, u'.permissions);
    forall v | v in r.result.value.permissions ensures v.id != p.id {
      var i :| 0 <= i < |r.result.value.permissions| && r.result.value.permissions[i] == v;
      assert v.id == u'.permissions[i] && u'.permissions[i] in u'.permissions;
    }
  }

  /** Two `take_away` calls in a row: the second answers "does not hold" and
      changes nothing. */
  lemma TakeAwayTwice(st: State, psel: PermissionSelector, usel: UserSelector, now: int, later: int, cfg: JwtConfig)
    requires Valid(st.db)
    requires TakeAwaySpec(st, psel, usel, now, cfg).result.Ok?
    ensures var next := TakeAwaySpec(st, psel, usel, now, cfg).next;
      TakeAwaySpec(next, psel, usel, later, cfg) == Step(Err(DoesNotHold), next)
  {
    var next := TakeAwaySpec(st, psel, usel, now, cfg).next;
    var p := FindPermission(st.db, psel).value;
    var u := FindUser(st.db, usel).value;
    var u' := u.(permissions := RemoveFirst(u.permissions, p.id));
    RemoveFirstNoDuplicates(u.permissions, p.id);
    assert forall q :: q in u'.permissions ==> q in PermissionIds(st.db);
    FindUserAfterReplace(st.db, usel, u, u');
    assert FindPermission(next.db, psel) == Ok(p);
  }

  /** Two `assign` calls in a row: the second answers "already holds" and
      changes nothing. */
  lemma AssignTwice(st: State, psel: PermissionSelector, usel: UserSelector, now: int, later: int, cfg: JwtConfig)
    requires Valid(st.db)
    requires AssignSpec(st, psel, usel, now, cfg).result.Ok?
    ensures var next := AssignSpec(st, psel, usel, now, cfg).next;
      AssignSpec(next, psel, usel, later, cfg) == Step(Err(AlreadyHolds), next)
  {
    var next := AssignSpec(st, psel, usel, now, cfg).next;
    var p := FindPermission(st.db, psel).value;
    var u := FindUser(st.db, usel).value;
    GrantedListValid(st.db, u, p);
    FindUserAfterReplace(st.db, usel, u, WithPermission(u, p.id));
    assert FindPermission(next.db, psel) == Ok(p);
  }

  /** `get_user_permissions` lists exactly the ids the user holds, in order,
      each as its stored row. */
  lemma ListedPermissionsAreHeld(db: Db, sel: UserSelector)
    requires Valid(db) && FindUser(db, sel).Ok?
    ensures var u := FindUser(db, sel).value;
      var listed := View(db, u).permissions;
      && |listed| == |u.permissions|
      && forall i :: 0 <= i < |listed| ==> listed[i].id == u.permissions[i] && listed[i] in db.permissions
  {
    var u := FindUser(db, sel).value;
    forall q | q in u.permissions ensures exists p :: p in db.permissions && p.id == q {
      assert q in PermissionIds(db);
    }
    ResolveComplete(db.permissions, u.permissions);
  }
}
