/**
 * RedisCache: a key/value store whose entries carry the expiry they were set
 * with. Every backend failure is swallowed: `online` says whether the backend
 * answers, and when it does not, get yields None, set and delete false and
 * delete_pattern 0, and nothing changes.
 */
module Cache {
  import opened Common

  /** A stored value with the expire_seconds it was written with. */
  datatype Entry<V> = Entry(value: V, ttl: int)

  /** The default of set's expire_seconds. */
  const DefaultTtl := 300
  /** Idempotency records live for 24 hours. */
  const IdempotencyTtl := 86400
  const IdempotencyPrefix := "idempotency:"

  /**
   * Redis glob matching for the patterns the application passes: a trailing
   * '*' matches every key that starts with the rest of the pattern; a pattern
   * without one matches only itself.
   */
  predicate Matches(pattern: string, key: string): (b: bool)
    ensures (forall i :: 0 <= i < |pattern| ==> pattern[i] != '*') ==> (b <==> key == pattern)
    ensures (b && |pattern| >= 1 && pattern[|pattern| - 1] == '*') ==>
      |key| >= |pattern| - 1 && forall i :: 0 <= i < |pattern| - 1 ==> key[i] == pattern[i]
  {
    if |pattern| >= 1 && pattern[|pattern| - 1] == '*' then pattern[..|pattern| - 1] <= key else key == pattern
  }

  /** KEYS pattern. */
  function MatchingKeys<V>(store: map<string, Entry<V>>, pattern: string): (keys: set<string>)
    ensures forall k :: k in keys ==> k in store
  {
    set k | k in store && Matches(pattern, k)
  }

  function IdempotencyKey(key: string): (k: string)
    ensures IdempotencyPrefix <= k && k[|IdempotencyPrefix|..] == key
  {
    IdempotencyPrefix + key
  }

  /** Idempotency records of different client keys never share a cache entry. */
  lemma IdempotencyKeyInjective(a: string, b: string)
    requires IdempotencyKey(a) == IdempotencyKey(b)
    ensures a == b
  {
    assert a == IdempotencyKey(a)[|IdempotencyPrefix|..];
  }

  class RedisCache<V> {
    var store: map<string, Entry<V>>
    /** Whether the Redis backend answers; when false every call fails inside and is swallowed. */
    var online: bool

    constructor (online: bool)
      ensures store == map[] && this.online == online
    {
      store := map[];
      this.online := online;
    }

    /** What `get` would return for key in the current state. */
    function Lookup(key: string): (r: Option<V>)
      reads this
      ensures r.Some? <==> online && key in store
      ensures r.Some? ==> r.value == store[key].value
    {
      if online && key in store then Some(store[key].value) else None
    }

    /** get: the stored value, or None on a miss or a backend error. */
    method Get(key: string) returns (r: Option<V>)
      ensures r.Some? <==> online && key in store
      ensures r.Some? ==> r.value == store[key].value
    {
      if !online {
        return None;
      }
      if key in store {
        r := Some(store[key].value);
      } else {
        r := None;
      }
    }

    /**
     * setex: overwrite key with value and the given expiry. Redis refuses an
     * expiry that is not positive, and that error is swallowed like a backend
     * failure: false, and nothing is written.
     */
    method Set(key: string, value: V, expireSeconds: int) returns (ok: bool)
      modifies this`store
      ensures ok == (online && expireSeconds > 0)
      ensures store == if ok then old(store)[key := Entry(value, expireSeconds)] else old(store)
      ensures ok ==> Lookup(key) == Some(value) && store[key].ttl == expireSeconds
      ensures forall k :: k != key ==> Lookup(k) == old(Lookup(k))
    {
      if !online || expireSeconds <= 0 {
        return false;
      }
      store := store[key := Entry(value, expireSeconds)];
      ok := true;
    }

    /** delete: true iff the key existed; afterwards it is absent and every other key is as it was. */
    method Delete(key: string) returns (deleted: bool)
      modifies this`store
      ensures deleted <==> online && key in old(store)
      ensures store == if online then old(store) - {key} else old(store)
      ensures online ==> key !in store
      ensures forall k :: k != key ==> Lookup(k) == old(Lookup(k))
    {
      if !online {
        return false;
      }
      deleted := key in store;
      store := store - {key};
    }

    /**
     * delete_pattern: fetch the keys that match, delete them all, and return how
     * many went; keys that do not match keep their entries.
     */
    method DeletePattern(pattern: string) returns (n: int)
      modifies this`store
      ensures n == if online then |MatchingKeys(old(store), pattern)| else 0
      ensures store == if online then old(store) - MatchingKeys(old(store), pattern) else old(store)
      ensures online ==> forall k :: k in store <==> k in old(store) && !Matches(pattern, k)
      ensures forall k :: !Matches(pattern, k) ==> Lookup(k) == old(Lookup(k))
    {
      if !online {
        return 0;
      }
      var keys := MatchingKeys(store, pattern);
      if keys != {} {
        store := store - keys;
        n := |keys|;
      } else {
        n := 0;
      }
    }

    /** get_idempotency: the response recorded under the client's key. */
    method GetIdempotency(key: string) returns (r: Option<V>)
      ensures r == Lookup(IdempotencyKey(key))
    {
      r := Get(IdempotencyKey(key));
    }

    /** set_idempotency: record the response under the client's key for 24 hours. */
    method SetIdempotency(key: string, response: V) returns (ok: bool)
      modifies this`store
      ensures ok == online
      ensures store == if online then old(store)[IdempotencyKey(key) := Entry(response, IdempotencyTtl)] else old(store)
      ensures ok ==> Lookup(IdempotencyKey(key)) == Some(response)
    {
      ok := Set(IdempotencyKey(key), response, IdempotencyTtl);
    }
  }
}
