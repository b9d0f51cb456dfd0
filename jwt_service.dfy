/** The revocation engine (src/services/jwt_service.py): `check_banned` over the
    revocation store, the access-token record it is given, and the two ways the
    other components write ban markers. */
module JwtService {
  import opened Ids
  import opened Errors
  import opened Results
  import opened Redis
  import opened Tokens

  const AccessBanned: string := "access_banned"
  const RefreshBanned: string := "refresh_banned"

  /** `f"{name_token}_banned"` */
  function BannedPrefix(tokenType: string): (prefix: string)
    ensures tokenType == "access" ==> prefix == AccessBanned
    ensures tokenType == "refresh" ==> prefix == RefreshBanned
  {
    tokenType + "_banned"
  }

  /** `<type>_banned:<user>:<jti>`: the marker for one token. */
  function IndividualKey(tokenType: string, userId: Uuid, jti: Uuid): Key
  {
    Key(BannedPrefix(tokenType), userId, jti)
  }

  /** `<type>_banned:all:<user>`: the cutoff for all of a user's tokens of a type. */
  function GlobalKey(tokenType: string, userId: Uuid): Key
  {
    Key(BannedPrefix(tokenType), "all", userId)
  }

  /** Independent statement of when a token counts as revoked, read straight
      off the stored entries: its own marker holds None or exactly the token
      string, or the user's global marker holds None or an int cutoff later than
      the token's issue time.  No marker at all means not revoked. */
  predicate Revoked(store: Store, d: TokenData)
  {
    var own := IndividualKey(d.nameToken, d.userId, d.jti);
    var all := GlobalKey(d.nameToken, d.userId);
    || (own in store && store[own].data.item in {NoneValue, StrValue(d.token)})
    || (all in store && store[all].data.item == NoneValue)
    || (all in store && store[all].data.item.IntValue? && store[all].data.item.i > d.iat)
  }

  /** `check_banned`: raises 401 "<type> token banned" exactly when the token is
      revoked.  The two reads short-circuit as in the source; an absent key
      reads as None, which is neither the plug, nor the token string, nor an int. */
  function CheckBanned(store: Store, data: TokenData): (r: Outcome)
    ensures r.Fail? <==> Revoked(store, data)
    ensures r.Fail? ==> r.error == TokenBanned(data.nameToken)
  {
    var prefix := BannedPrefix(data.nameToken);
    var banned := Get(store, Key(prefix, data.userId, data.jti));
    if banned == Plug || banned == Found(StrValue(data.token)) then
      Fail(TokenBanned(data.nameToken))
    else
      var bannedAll := Get(store, Key(prefix, "all", data.userId));
      if bannedAll == Plug || (bannedAll.Found? && bannedAll.value.IntValue? && bannedAll.value.i > data.iat) then
        Fail(TokenBanned(data.nameToken))
      else
        Pass
  }

  /** `get_access_token_data`: the record `check_banned` is given for the access
      token of the current request. */
  function AccessTokenData(token: string, raw: RawToken): (d: TokenData)
    ensures d.nameToken == "access" && d.token == token
    ensures d.userId == raw.sub && d.jti == raw.jti && d.iat == raw.iat
  {
    TokenData(raw.sub, "access", token, raw.jti, raw.iat, raw.exp, raw.permissions)
  }

  // ---- write side: the markers other components set ----

  /** The two `set` calls that ban every token of a user issued before `now`:
      both global markers hold `now`, with the configured lifetimes as expiry. */
  function BanUser(store: Store, userId: Uuid, now: int, cfg: JwtConfig): (r: Store)
    ensures r.Keys == store.Keys + {GlobalKey("access", userId), GlobalKey("refresh", userId)}
  {
    var s := Put(store, Key(AccessBanned, "all", userId), IntValue(now), cfg.accessExpires);
    Put(s, Key(RefreshBanned, "all", userId), IntValue(now), cfg.refreshExpires)
  }

  /** The dict `{Key(prefix, "all", u): now for u in users}` built before a
      `pipe_set`. */
  function BanMap(prefix: string, users: set<Uuid>, now: int): (m: map<Key, Value>)
    ensures forall u :: u in users ==> Key(prefix, "all", u) in m && m[Key(prefix, "all", u)] == IntValue(now)
    ensures forall k :: k in m ==> k.prefixGeneral == prefix && k.prefixLocal == "all" && k.key in users
  {
    map k | k in GlobalKeys(prefix, users) :: IntValue(now)
  }

  function GlobalKeys(prefix: string, users: set<Uuid>): (keys: set<Key>)
  {
    set u | u in users :: Key(prefix, "all", u)
  }

  /** Adding one user to the dict adds exactly that user's marker. */
  lemma BanMapAdd(prefix: string, users: set<Uuid>, u: Uuid, now: int)
    ensures BanMap(prefix, users + {u}, now) == BanMap(prefix, users, now)[Key(prefix, "all", u) := IntValue(now)]
  {
    assert GlobalKeys(prefix, users + {u}) == GlobalKeys(prefix, users) + {Key(prefix, "all", u)};
  }

  /** The two `pipe_set` calls that ban every listed user at once. */
  function BanUsers(store: Store, users: set<Uuid>, now: int, cfg: JwtConfig): (r: Store)
  {
    PutAll(PutAll(store, BanMap(AccessBanned, users, now), cfg.accessExpires), BanMap(RefreshBanned, users, now), cfg.refreshExpires)
  }

  // ---- properties ----

  /** Permissive reading: with neither marker present a token is not banned. */
  lemma NoMarkersNotBanned(store: Store, d: TokenData)
    requires IndividualKey(d.nameToken, d.userId, d.jti) !in store
    requires GlobalKey(d.nameToken, d.userId) !in store
    ensures CheckBanned(store, d) == Pass
  {
  }

  /** An int cutoff strictly after the issue time bans; one equal to it does
      not (when the token's own marker does not ban it either). */
  lemma CutoffDecides(store: Store, d: TokenData, cutoff: int)
    requires GlobalKey(d.nameToken, d.userId) in store
    requires store[GlobalKey(d.nameToken, d.userId)].data.item == IntValue(cutoff)
    requires IndividualKey(d.nameToken, d.userId, d.jti) !in store
    ensures CheckBanned(store, d).Fail? <==> cutoff > d.iat
  {
  }

  /** A global marker that is not an int never bans through the cutoff branch. */
  lemma NonIntCutoffNeverBans(store: Store, d: TokenData, s: string)
    requires GlobalKey(d.nameToken, d.userId) in store
    requires store[GlobalKey(d.nameToken, d.userId)].data.item == StrValue(s)
    requires IndividualKey(d.nameToken, d.userId, d.jti) !in store
    ensures CheckBanned(store, d) == Pass
  {
  }

  /** A key that exists but holds None reads as the plug, and the plug bans. */
  lemma StoredNoneBans(store: Store, d: TokenData, k: Key)
    requires k == IndividualKey(d.nameToken, d.userId, d.jti) || k == GlobalKey(d.nameToken, d.userId)
    requires k in store && store[k].data.item == NoneValue
    ensures CheckBanned(store, d) == Fail(TokenBanned(d.nameToken))
  {
  }

  /** The individual marker bans exactly the token string it holds. */
  lemma IndividualMarkerBansItsToken(store: Store, d: TokenData, held: string)
    requires IndividualKey(d.nameToken, d.userId, d.jti) in store
    requires store[IndividualKey(d.nameToken, d.userId, d.jti)].data.item == StrValue(held)
    requires GlobalKey(d.nameToken, d.userId) !in store
    ensures CheckBanned(store, d).Fail? <==> held == d.token
  {
  }

  /** A token's verdict depends only on entries under its own type's prefix, so
      access markers and refresh markers never affect each other. */
  lemma OnlyOwnPrefixMatters(store: Store, store': Store, d: TokenData)
    requires forall k: Key :: k.prefixGeneral == BannedPrefix(d.nameToken) ==>
               (k in store <==> k in store') && (k in store ==> store[k] == store'[k])
    ensures CheckBanned(store, d) == CheckBanned(store', d)
  {
    assert Get(store, IndividualKey(d.nameToken, d.userId, d.jti)) == Get(store', IndividualKey(d.nameToken, d.userId, d.jti));
    assert Get(store, GlobalKey(d.nameToken, d.userId)) == Get(store', GlobalKey(d.nameToken, d.userId));
  }

  lemma PrefixesDisjoint()
    ensures BannedPrefix("access") != BannedPrefix("refresh")
    ensures AccessBanned != RefreshBanned
  {
    assert AccessBanned[0] != RefreshBanned[0];
  }

  /** After `BanUser(u, now)`, every access or refresh token of `u` issued
      before `now` is banned, whatever the store held before. */
  lemma BanUserRevokes(store: Store, userId: Uuid, now: int, cfg: JwtConfig, d: TokenData)
    requires d.userId == userId && d.iat < now
    requires d.nameToken == "access" || d.nameToken == "refresh"
    ensures CheckBanned(BanUser(store, userId, now, cfg), d).Fail?
  {
    var s := BanUser(store, userId, now, cfg);
    PrefixesDisjoint();
    UuidShape(userId);
    assert IndividualKey(d.nameToken, d.userId, d.jti) != GlobalKey(d.nameToken, userId);
    assert s[GlobalKey(d.nameToken, userId)].data.item == IntValue(now);
  }

  /** The same for the batched form: every listed user is banned. */
  lemma BanUsersRevokes(store: Store, users: set<Uuid>, now: int, cfg: JwtConfig, d: TokenData)
    requires d.userId in users && d.iat < now
    requires d.nameToken == "access" || d.nameToken == "refresh"
    ensures CheckBanned(BanUsers(store, users, now, cfg), d).Fail?
  {
    var s := BanUsers(store, users, now, cfg);
    PrefixesDisjoint();
    var g := GlobalKey(d.nameToken, d.userId);
    if d.nameToken == "access" {
      assert g in BanMap(AccessBanned, users, now);
      assert g !in BanMap(RefreshBanned, users, now);
    } else {
      assert g in BanMap(RefreshBanned, users, now);
    }
    assert s[g].data.item == IntValue(now);
  }

  /** `BanUser` writes both global markers of the user, holding `now` with the
      configured lifetimes, and changes no other entry. */
  lemma BanUserWrites(store: Store, userId: Uuid, now: int, cfg: JwtConfig)
    ensures BanUser(store, userId, now, cfg)[Key(AccessBanned, "all", userId)] == Entry(OneTuple(IntValue(now)), cfg.accessExpires)
    ensures BanUser(store, userId, now, cfg)[Key(RefreshBanned, "all", userId)] == Entry(OneTuple(IntValue(now)), cfg.refreshExpires)
    ensures forall k :: k in store && k != Key(AccessBanned, "all", userId) && k != Key(RefreshBanned, "all", userId) ==>
      BanUser(store, userId, now, cfg)[k] == store[k]
  {
    PrefixesDisjoint();
  }

  /** The two pipelines write both global markers of every listed user,
      holding `now` with the configured lifetimes, and no other key. */
  lemma BanUsersWrites(store: Store, users: set<Uuid>, now: int, cfg: JwtConfig)
    ensures BanUsers(store, users, now, cfg).Keys == store.Keys + GlobalKeys(AccessBanned, users) + GlobalKeys(RefreshBanned, users)
    ensures forall u :: u in users ==>
      && BanUsers(store, users, now, cfg)[Key(AccessBanned, "all", u)] == Entry(OneTuple(IntValue(now)), cfg.accessExpires)
      && BanUsers(store, users, now, cfg)[Key(RefreshBanned, "all", u)] == Entry(OneTuple(IntValue(now)), cfg.refreshExpires)
    ensures forall k :: k in store && k !in GlobalKeys(AccessBanned, users) && k !in GlobalKeys(RefreshBanned, users) ==>
      BanUsers(store, users, now, cfg)[k] == store[k]
  {
    PrefixesDisjoint();
    var a := BanMap(AccessBanned, users, now);
    var b := BanMap(RefreshBanned, users, now);
    assert a.Keys == GlobalKeys(AccessBanned, users);
    assert b.Keys == GlobalKeys(RefreshBanned, users);
    forall u | u in users
      ensures BanUsers(store, users, now, cfg)[Key(AccessBanned, "all", u)] == Entry(OneTuple(IntValue(now)), cfg.accessExpires)
    {
      assert Key(AccessBanned, "all", u) !in b;
    }
  }

  /** `BanUser` refuses every access and refresh token of the user issued
      before `now`. */
  lemma BanUserBansAll(store: Store, userId: Uuid, now: int, cfg: JwtConfig)
    ensures forall d: TokenData :: d.userId == userId && d.iat < now && (d.nameToken == "access" || d.nameToken == "refresh") ==>
      CheckBanned(BanUser(store, userId, now, cfg), d).Fail?
  {
    forall d: TokenData | d.userId == userId && d.iat < now && (d.nameToken == "access" || d.nameToken == "refresh")
      ensures CheckBanned(BanUser(store, userId, now, cfg), d).Fail?
    {
      BanUserRevokes(store, userId, now, cfg, d);
    }
  }

  /** `BanUsers` refuses every access and refresh token issued before `now` to
      any listed user. */
  lemma BanUsersBansAll(store: Store, users: set<Uuid>, now: int, cfg: JwtConfig)
    ensures forall d: TokenData :: d.userId in users && d.iat < now && (d.nameToken == "access" || d.nameToken == "refresh") ==>
      CheckBanned(BanUsers(store, users, now, cfg), d).Fail?
  {
    forall d: TokenData | d.userId in users && d.iat < now && (d.nameToken == "access" || d.nameToken == "refresh")
      ensures CheckBanned(BanUsers(store, users, now, cfg), d).Fail?
    {
      BanUsersRevokes(store, users, now, cfg, d);
    }
  }

  /** Banning a user leaves every other user's verdicts as they were. */
  lemma BanUserLeavesOthers(store: Store, userId: Uuid, now: int, cfg: JwtConfig, d: TokenData)
    requires d.userId != userId
    ensures CheckBanned(BanUser(store, userId, now, cfg), d) == CheckBanned(store, d)
  {
    UuidShape(d.userId);
    var s := BanUser(store, userId, now, cfg);
    assert Get(s, IndividualKey(d.nameToken, d.userId, d.jti)) == Get(store, IndividualKey(d.nameToken, d.userId, d.jti));
    assert Get(s, GlobalKey(d.nameToken, d.userId)) == Get(store, GlobalKey(d.nameToken, d.userId));
  }
}
