/** The revocation store: `Key`, its string form, and `RedisService`'s
    get / set / pipe_set over a key-value map (src/services/redis_service.py). */
module Redis {

  /** A structured key (a frozen dataclass, so equality is structural). */
  datatype Key = Key(prefixGeneral: string, prefixLocal: string, key: string)

  /** `str(Key)`: the Redis key the entry is really stored under. */
  function KeyString(k: Key): (s: string)
    ensures |s| == |k.prefixGeneral| + |k.prefixLocal| + |k.key| + 2
    ensures s[|k.prefixGeneral|] == ':' && s[|k.prefixGeneral| + 1 + |k.prefixLocal|] == ':'
  {
    k.prefixGeneral + ":" + k.prefixLocal + ":" + k.key
  }

  /** The Python values this system stores: an int cutoff, a string, or None. */
  datatype Value = NoneValue | IntValue(i: int) | StrValue(s: string)

  /** `pickle_dumps((value,))`: every value is stored wrapped in a 1-tuple. */
  datatype Pickled = OneTuple(item: Value)

  /** A stored entry and the expiry (seconds) it was written with. */
  datatype Entry = Entry(data: Pickled, expire: int)

  type Store = map<Key, Entry>

  /** What `RedisService.get(key, default)` hands back: `None` for an absent key,
      the caller's `default` (the plug) for a stored None, else the value. */
  datatype Fetched = Missing | Plug | Found(value: Value)

  function Get(store: Store, key: Key): (r: Fetched)
    ensures r == Missing <==> key !in store
    ensures r.Found? ==> r.value != NoneValue
  {
    if key !in store then Missing
    else
      var result := store[key].data.item;
      if result == NoneValue then Plug else Found(result)
  }

  /** The store after `set(key, value, expire)`. */
  function Put(store: Store, key: Key, value: Value, expire: int): (r: Store)
    ensures r.Keys == store.Keys + {key}
  {
    store[key := Entry(OneTuple(value), expire)]
  }

  /** The store after `pipe_set(map, expire)`: every entry of the map, all with
      the same expiry. */
  function PutAll(store: Store, m: map<Key, Value>, expire: int): (r: Store)
    ensures r.Keys == store.Keys + m.Keys
  {
    store + map k | k in m :: Entry(OneTuple(m[k]), expire)
  }

  /** What reading back a value written by set or pipe_set yields. */
  function ReadBack(v: Value): Fetched
  {
    if v == NoneValue then Plug else Found(v)
  }

  class RedisService {
    var store: Store

    constructor (initial: Store)
      ensures store == initial
    {
      store := initial;
    }

    method Set(key: Key, value: Value, expire: int)
      modifies this
      ensures store == Put(old(store), key, value, expire)
    {
      store := store[key := Entry(OneTuple(value), expire)];
    }

    /** One pipeline: the entries are queued one by one and executed together. */
    method PipeSet(m: map<Key, Value>, expire: int)
      modifies this
      ensures store == PutAll(old(store), m, expire)
    {
      var pending := m.Keys;
      while pending != {}
        invariant pending <= m.Keys
        invariant store == PutAll(old(store), m - pending, expire)
        decreases pending
      {
        var k :| k in pending;
        store := store[k := Entry(OneTuple(m[k]), expire)];
        pending := pending - {k};
      }
      assert m - pending == m;
    }
  }

  /** Position of the first ':' in `s` (`|s|` when there is none). */
  function ColonIndex(s: string): (n: nat)
    ensures n <= |s|
    ensures n < |s| ==> s[n] == ':'
    ensures ':' !in s[..n]
  {
    if s == [] || s[0] == ':' then 0
    else
      var n := 1 + ColonIndex(s[1..]);
      assert s[..n] == [s[0]] + s[1..][..n - 1];
      n
  }

  lemma {:induction false} ColonIndexOfJoin(x: string, y: string)
    requires ':' !in x
    ensures ColonIndex(x + ":" + y) == |x|
  {
    if x != [] {
      assert (x + ":" + y)[1..] == x[1..] + ":" + y;
      ColonIndexOfJoin(x[1..], y);
    }
  }

  /** Splitting `x + ":" + y` at its first ':' recovers `x` when `x` has none. */
  lemma SplitAtColon(x: string, y: string, u: string, v: string)
    requires ':' !in x && ':' !in u
    requires x + ":" + y == u + ":" + v
    ensures x == u && y == v
  {
    var s := x + ":" + y;
    ColonIndexOfJoin(x, y);
    ColonIndexOfJoin(u, v);
    assert x == s[..|x|] == u;
    assert y == s[|x| + 1..] == v;
  }

  /** `str(Key)` loses nothing when the first two parts contain no ':', so a map
      keyed by `Key` and Redis' own string-keyed store agree on such keys. */
  lemma KeyStringInjective(k1: Key, k2: Key)
    requires ':' !in k1.prefixGeneral && ':' !in k1.prefixLocal
    requires ':' !in k2.prefixGeneral && ':' !in k2.prefixLocal
    requires KeyString(k1) == KeyString(k2)
    ensures k1 == k2
  {
    var a1, b1 := k1.prefixGeneral, k1.prefixLocal + ":" + k1.key;
    var a2, b2 := k2.prefixGeneral, k2.prefixLocal + ":" + k2.key;
    assert KeyString(k1) == a1 + ":" + b1;
    assert KeyString(k2) == a2 + ":" + b2;
    SplitAtColon(a1, b1, a2, b2);
    SplitAtColon(k1.prefixLocal, k1.key, k2.prefixLocal, k2.key);
  }

  /** Two keys with colon-free first parts and different structure never share
      a Redis key. */
  lemma DistinctKeysDistinctStrings(k1: Key, k2: Key)
    requires ':' !in k1.prefixGeneral && ':' !in k1.prefixLocal
    requires ':' !in k2.prefixGeneral && ':' !in k2.prefixLocal
    requires k1 != k2
    ensures KeyString(k1) != KeyString(k2)
  {
    if KeyString(k1) == KeyString(k2) {
      KeyStringInjective(k1, k2);
    }
  }

  /** set then get on the same key gives the value back (a stored None reads as
      the plug), unwrapping the 1-tuple it was stored in. */
  lemma GetAfterPut(store: Store, key: Key, value: Value, expire: int)
    ensures Get(Put(store, key, value, expire), key) == ReadBack(value)
  {
  }

  /** set on one key does not change what get returns for another. */
  lemma GetPutOther(store: Store, key: Key, other: Key, value: Value, expire: int)
    requires other != key
    ensures Get(Put(store, key, value, expire), other) == Get(store, other)
  {
  }

  /** pipe_set writes exactly the keys of its map, with the values of the map,
      and no other keys. */
  lemma GetAfterPutAll(store: Store, m: map<Key, Value>, expire: int, key: Key)
    ensures key in m ==> Get(PutAll(store, m, expire), key) == ReadBack(m[key])
    ensures key in m ==> PutAll(store, m, expire)[key].expire == expire
    ensures key !in m ==> Get(PutAll(store, m, expire), key) == Get(store, key)
  {
  }
}
