/** The older permission administration under "rights" naming
    (src/services/rights_management_service.py).  It runs the same machine over
    the same tables, with two differences the model keeps: `create` looks the
    name up with `.one()` instead of `.first()`, and every failure it means to
    report is raised as `ResponseError(message)`, a call with one argument to
    a constructor that takes two, so Python raises TypeError in its place.
    The service names `RightOrm`, `CreateRightModel` and `UserOrm.rights`,
    which the schema does not define; the model reads them as the permission
    table, the permission model and a user's `permissions`. */
module RightsManagement {
  import opened Ids
  import opened Errors
  import opened Results
  import opened Query
  import opened Models
  import opened Redis
  import opened Tokens
  import opened JwtService
  import opened PermissionManagement

  /** The failures the service itself raises, as opposed to those a library
      raises through it. */
  predicate Handled(e: Error)
  {
    e in {NotEnoughInfo, PermissionMissing, PermissionNameTaken, UserMissing, AlreadyHolds, DoesNotHold}
  }

  /** `raise ResponseError(message)`: what actually propagates. */
  function Raise(e: Error): (r: Error)
    ensures Handled(e) ==> r == TypeErrorOnRaise(e)
    ensures !Handled(e) ==> r == e
  {
    if Handled(e) then TypeErrorOnRaise(e) else e
  }

  /** A step of the permission machine with its handled failure raised the
      way this service raises it. */
  function Reraise<T>(s: Step<T, State>): (r: Step<T, State>)
    ensures r.next == s.next
    ensures r.result.Ok? <==> s.result.Ok?
    ensures s.result.Ok? ==> r.result == s.result
    ensures s.result.Err? ==> r.result.error == Raise(s.result.error)
  {
    if s.result.Err? then Step(Err(Raise(s.result.error)), s.next) else s
  }

  /** `create`: `.one()` on the name lookup; only NoResultFound leads to the
      insert. */
  function RightsCreateSpec(st: State, np: NewPermission, newId: Uuid): (r: Step<PermissionRow, State>)
    ensures r.result.Ok? ==> forall p :: p in st.db.permissions ==> p.name != np.name
    ensures r.result.Err? ==> r.next == st
  {
    match One(Named(st.db.permissions, np.name), PermissionMissing)
    case Ok(_) => Step(Err(Raise(PermissionNameTaken)), st)
    case Err(e) => if e == PermissionMissing then Insert(st, np, newId) else Step(Err(e), st)
  }

  class RightsManagementService {
    const redis: RedisService
    const session: Session
    const cfg: JwtConfig

    constructor (redis: RedisService, session: Session, cfg: JwtConfig)
      ensures this.redis == redis && this.session == session && this.cfg == cfg
    {
      this.redis := redis;
      this.session := session;
      this.cfg := cfg;
    }

    function Current(): State
      reads session, redis
    {
      State(session.db, redis.store)
    }

    method Create(np: NewPermission, newId: Uuid) returns (r: Result<PermissionRow>)
      modifies session
      ensures Step(r, Current()) == RightsCreateSpec(old(Current()), np, newId)
    {
      var db := session.db;
      var found := One(Named(db.permissions, np.name), PermissionMissing);
      if found.Ok? {
        return Err(Raise(PermissionNameTaken));
      }
      if found.error != PermissionMissing {
        return Err(found.error);
      }
      if |np.name| > NameLength || !DescriptionFits(np.description) {
        return Err(DataTooLong);
      }
      if newId in PermissionIds(db) {
        return Err(UniqueViolation);
      }
      var row := PermissionRow(newId, np.name, np.description);
      session.db := db.(permissions := db.permissions + [row]);
      r := Ok(row);
    }

    method Delete(sel: PermissionSelector, now: int) returns (r: Result<()>)
      modifies session, redis
      ensures Step(r, Current()) == Reraise(DeleteSpec(old(Current()), sel, now, cfg))
    {
      if Blank(sel) {
        return Err(Raise(NotEnoughInfo));
      }
      var db := session.db;
      var found := FindPermission(db, sel);
      if found.Err? {
        return Err(Raise(found.error));
      }
      var p := found.value;
      var detached, access, refresh := DetachHolders(db.users, p.id, now);
      redis.PipeSet(access, cfg.accessExpires);
      redis.PipeSet(refresh, cfg.refreshExpires);
      session.db := Db(detached, WithoutPermission(db.permissions, p.id));
      r := Ok(());
    }

    method Update(sel: PermissionSelector, change: PermissionChange, now: int) returns (r: Result<PermissionRow>)
      modifies session, redis
      ensures Step(r, Current()) == Reraise(UpdateSpec(old(Current()), sel, change, now, cfg))
    {
      if Blank(sel) || BlankChange(change) {
        return Err(Raise(NotEnoughInfo));
      }
      var db := session.db;
      var matched := Matching(db.permissions, sel);
      if matched == [] {
        return Err(Raise(PermissionMissing));
      }
      if !ChangeFits(change) {
        return Err(DataTooLong);
      }
      if change.name.Some? && (|matched| > 1 || NameUsedElsewhere(db.permissions, sel, change.name.value)) {
        return Err(Raise(PermissionNameTaken));
      }
      if |matched| > 1 {
        return Err(MultipleRows);
      }
      var p := Apply(matched[0], change);
      var access, refresh := CollectBans(db.users, p.id, now);
      redis.PipeSet(access, cfg.accessExpires);
      redis.PipeSet(refresh, cfg.refreshExpires);
      session.db := db.(permissions := ReplacePermission(db.permissions, p));
      r := Ok(p);
    }

    /** `get_all`: every row, in table order. */
    method GetAll() returns (r: seq<PermissionRow>)
      ensures |r| == |session.db.permissions|
      ensures forall p :: p in r <==> p in session.db.permissions
    {
      r := session.db.permissions;
    }

    method Assign(psel: PermissionSelector, usel: UserSelector, now: int) returns (r: Result<UserView>)
      modifies session, redis
      ensures Step(r, Current()) == Reraise(AssignSpec(old(Current()), psel, usel, now, cfg))
    {
      if Blank(psel) || BlankUser(usel) {
        return Err(Raise(NotEnoughInfo));
      }
      var db := session.db;
      var foundRight := FindPermission(db, psel);
      if foundRight.Err? {
        return Err(Raise(foundRight.error));
      }
      var p := foundRight.value;
      var foundUser := FindUser(db, usel);
      if foundUser.Err? {
        return Err(Raise(foundUser.error));
      }
      var u := foundUser.value;
      if p.id in u.permissions {
        return Err(Raise(AlreadyHolds));
      }
      var u' := WithPermission(u, p.id);
      session.db := db.(users := ReplaceUser(db.users, u'));
      redis.Set(Key(AccessBanned, "all", u.id), IntValue(now), cfg.accessExpires);
      redis.Set(Key(RefreshBanned, "all", u.id), IntValue(now), cfg.refreshExpires);
      r := Ok(View(session.db, u'));
    }

    method TakeAway(psel: PermissionSelector, usel: UserSelector, now: int) returns (r: Result<UserView>)
      modifies session, redis
      ensures Step(r, Current()) == Reraise(TakeAwaySpec(old(Current()), psel, usel, now, cfg))
    {
      if Blank(psel) || BlankUser(usel) {
        return Err(Raise(NotEnoughInfo));
      }
      var db := session.db;
      var foundRight := FindPermission(db, psel);
      if foundRight.Err? {
        return Err(Raise(foundRight.error));
      }
      var p := foundRight.value;
      var foundUser := FindUser(db, usel);
      if foundUser.Err? {
        return Err(Raise(foundUser.error));
      }
      var u := foundUser.value;
      if p.id !in u.permissions {
        return Err(Raise(DoesNotHold));
      }
      var u' := u.(permissions := RemoveFirst(u.permissions, p.id));
      session.db := db.(users := ReplaceUser(db.users, u'));
      redis.Set(Key(AccessBanned, "all", u.id), IntValue(now), cfg.accessExpires);
      redis.Set(Key(RefreshBanned, "all", u.id), IntValue(now), cfg.refreshExpires);
      r := Ok(View(session.db, u'));
    }

    /** `get_user_rights`: the rows of the rights a live user holds, in the
        order of its list. */
    method GetUserRights(sel: UserSelector) returns (r: Result<seq<PermissionRow>>)
      ensures BlankUser(sel) ==> r == Err(TypeErrorOnRaise(NotEnoughInfo))
      ensures r.Ok? <==> !BlankUser(sel) && FindUser(session.db, sel).Ok?
      ensures !BlankUser(sel) && FindUser(session.db, sel) == Err(UserMissing) ==> r == Err(TypeErrorOnRaise(UserMissing))
      ensures !BlankUser(sel) && FindUser(session.db, sel) == Err(MultipleRows) ==> r == Err(MultipleRows)
      ensures r.Ok? ==> r.value == View(session.db, FindUser(session.db, sel).value).permissions
    {
      if BlankUser(sel) {
        return Err(Raise(NotEnoughInfo));
      }
      var found := FindUser(session.db, sel);
      if found.Err? {
        return Err(Raise(found.error));
      }
      r := Ok(Resolve(session.db.permissions, found.value.permissions));
    }
  }

  // ---- properties ----

  /** With unique names, `.one()` and `.first()` on the name lookup agree, so
      this service's `create` is the permission service's with the "already
      exists" failure raised as TypeError. */
  lemma RightsCreateAgrees(st: State, np: NewPermission, newId: Uuid)
    requires Valid(st.db)
    ensures RightsCreateSpec(st, np, newId) == Reraise(CreateSpec(st, np, newId))
  {
    var ps := st.db.permissions;
    forall i, j | 0 <= i < j < |ps| && NameFilter(np.name)(ps[i]) ensures !NameFilter(np.name)(ps[j]) {
      assert ps[i].name != ps[j].name;
    }
    OneAgreesWithFirst(ps, NameFilter(np.name), PermissionMissing);
  }

  /** Without unique names (two rows already named alike), this `create`
      fails with an uncaught MultipleResultsFound where the permission
      service answers "already exists". */
  lemma RightsCreateOnDuplicateNames(st: State, np: NewPermission, newId: Uuid, p1: PermissionRow, p2: PermissionRow)
    requires p1 in st.db.permissions && p2 in st.db.permissions && p1 != p2
    requires p1.name == np.name && p2.name == np.name
    ensures RightsCreateSpec(st, np, newId) == Step(Err(MultipleRows), st)
    ensures CreateSpec(st, np, newId) == Step(Err(PermissionNameTaken), st)
  {
    var named := Named(st.db.permissions, np.name);
    assert p1 in named && p2 in named;
    TwoRowsNotOne(named, p1, p2, PermissionMissing);
  }

  /** No failure this service means to report reaches its caller as such:
      each arrives as TypeError, so the 421 handler never sees one. */
  lemma NoHandledFailureEscapes<T>(s: Step<T, State>)
    ensures Reraise(s).result.Err? ==> !Handled(Reraise(s).result.error)
  {
  }
}
