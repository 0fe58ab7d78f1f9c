/**
 * The liveness flag of a terminal: a key `TERMINAL_ALIVE_<id>` in the shared expiring cache.
 * Time is an explicit `now`; the cache keeps, per key, the instant at which the key expires.
 */
module Liveness {

  const AliveKeyPrefix := "TERMINAL_ALIVE_"

  /** The time-to-live `set_alive` uses when none is given, in seconds. */
  const DefaultTtl := 120

  /** The cache key of a terminal's liveness flag. */
  function AliveKey(id: string): (k: string)
    ensures |k| == |AliveKeyPrefix| + |id|
    ensures k[..|AliveKeyPrefix|] == AliveKeyPrefix && k[|AliveKeyPrefix|..] == id
  {
    AliveKeyPrefix + id
  }

  /** Two terminals share a liveness key only if they share an id. */
  lemma AliveKeyInjective(a: string, b: string)
    ensures AliveKey(a) == AliveKey(b) <==> a == b
  {
    if AliveKey(a) == AliveKey(b) {
      assert a == AliveKey(a)[|AliveKeyPrefix|..];
    }
  }

  /** `cache.get(key, False)`: the stored flag while the key has not expired, otherwise the default. */
  function CacheGet(expiry: map<string, int>, key: string, now: int): bool {
    key in expiry && now < expiry[key]
  }

  /** `cache.set(key, True, ttl)` at time `now`: the key expires `ttl` seconds later. */
  function CacheSet(expiry: map<string, int>, key: string, now: int, ttl: int): (m: map<string, int>)
    ensures m.Keys == expiry.Keys + {key}
  {
    expiry[key := now + ttl]
  }

  /** After a set, the key reads true exactly until `now + ttl`; other keys read as before. */
  lemma SetThenGet(expiry: map<string, int>, key: string, other: string, now: int, ttl: int, t: int)
    ensures CacheGet(CacheSet(expiry, key, now, ttl), key, t) <==> t < now + ttl
    ensures other != key ==>
      CacheGet(CacheSet(expiry, key, now, ttl), other, t) == CacheGet(expiry, other, t)
  {
  }

  /** An absent key, or one whose expiry has passed, reads as false. */
  lemma AbsentOrExpiredIsFalse(expiry: map<string, int>, key: string, now: int)
    requires key !in expiry || expiry[key] <= now
    ensures !CacheGet(expiry, key, now)
  {
  }

  /** The shared expiring key/value store, reduced to the expiry instant of each present key. */
  class Cache {
    var expiry: map<string, int>

    constructor ()
      ensures expiry == map[]
    {
      expiry := map[];
    }

    function Get(key: string, now: int): bool
      reads this
    {
      CacheGet(expiry, key, now)
    }

    method Set(key: string, now: int, ttl: int)
      modifies this
      ensures expiry == CacheSet(old(expiry), key, now, ttl)
      ensures forall t :: Get(key, t) <==> t < now + ttl
      ensures forall k, t :: k != key ==> Get(k, t) == old(Get(k, t))
    {
      expiry := expiry[key := now + ttl];
    }
  }
}
