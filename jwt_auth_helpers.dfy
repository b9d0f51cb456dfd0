/** The authorization rule (src/jwt_auth_helpers.py `check_permissions`): the
    permission ids a token carries against the ids that the configured
    permission names currently resolve to. */
module AuthHelpers {
  import opened Ids
  import opened Errors
  import opened Results
  import opened Models

  /** `set(map(UUID, access.get("permissions", [])))`: a token without the
      claim carries no permission. */
  function TokenPermissions(claim: Option<seq<Uuid>>): (held: set<Uuid>)
    ensures claim.None? ==> held == {}
    ensures claim.Some? ==> forall id :: id in held <==> id in claim.value
  {
    match claim
    case None => {}
    case Some(ids) => set id | id in ids
  }

  /** The ids of the stored permissions whose name is configured as required. */
  function RequiredIds(all: seq<PermissionRow>, names: set<string>): (ids: set<Uuid>)
    ensures forall id :: id in ids <==> exists p :: p in all && p.name in names && p.id == id
  {
    set p | p in all && p.name in names :: p.id
  }

  /** `check_permissions`: 403 when the token carries no permission at all or
      misses one of the required ids.  `all` is what `get_all` returns now;
      `names` is the configured name set. */
  function CheckPermissions(claim: Option<seq<Uuid>>, all: seq<PermissionRow>, names: set<string>): (r: Outcome)
    ensures r.Pass? <==> TokenPermissions(claim) != {} && RequiredIds(all, names) <= TokenPermissions(claim)
    ensures r.Fail? ==> r.error == NotEnoughRights
  {
    var held := TokenPermissions(claim);
    var required := RequiredIds(all, names);
    if held == {} || exists id :: id in required && id !in held then Fail(NotEnoughRights) else Pass
  }

  /** An empty (or missing) permission claim is refused even when nothing is
      required. */
  lemma EmptyTokenForbidden(claim: Option<seq<Uuid>>, all: seq<PermissionRow>, names: set<string>)
    requires claim.None? || claim == Some([])
    ensures CheckPermissions(claim, all, names) == Fail(NotEnoughRights)
  {
    assert TokenPermissions(claim) == {};
  }

  /** A configured name that no stored permission has imposes nothing: the
      verdict is the same as with that name dropped. */
  lemma UnknownNameImposesNothing(claim: Option<seq<Uuid>>, all: seq<PermissionRow>, names: set<string>, extra: string)
    requires forall p :: p in all ==> p.name != extra
    ensures CheckPermissions(claim, all, names + {extra}) == CheckPermissions(claim, all, names)
  {
    assert RequiredIds(all, names + {extra}) == RequiredIds(all, names);
  }

  /** Requiring more names can only take access away. */
  lemma MoreNamesStricter(claim: Option<seq<Uuid>>, all: seq<PermissionRow>, names: set<string>, more: set<string>)
    requires names <= more
    requires CheckPermissions(claim, all, more).Pass?
    ensures CheckPermissions(claim, all, names).Pass?
  {
    assert RequiredIds(all, names) <= RequiredIds(all, more);
  }

  /** A token that lacks the id of a stored permission whose name is required
      is refused: a permission granted after the token was issued does not
      count until a new token carries it. */
  lemma StaleSnapshotRefused(claim: Option<seq<Uuid>>, all: seq<PermissionRow>, names: set<string>, p: PermissionRow)
    requires p in all && p.name in names
    requires claim.Some? && p.id !in claim.value
    ensures CheckPermissions(claim, all, names) == Fail(NotEnoughRights)
  {
    assert p.id in RequiredIds(all, names);
  }

  /** When a required permission is no longer stored (deleted), a token that
      carries any permission and every other required id passes again. */
  lemma RequirementFollowsStore(claim: Option<seq<Uuid>>, all: seq<PermissionRow>, names: set<string>)
    requires TokenPermissions(claim) != {}
    requires forall p :: p in all && p.name in names ==> p.id in TokenPermissions(claim)
    ensures CheckPermissions(claim, all, names) == Pass
  {
  }
}
