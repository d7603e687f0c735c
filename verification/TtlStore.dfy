/** A key-value store whose entries expire.  An entry is live up to and including its expiry instant,
  * in the in-memory dictionary of redis_cache.py and on a Redis server alike. */
module TtlStore {
  import opened Prelude

  datatype Entry<+V> = Entry(value: V, expiresAt: real)

  type Store<K(==), +V> = map<K, Entry<V>>

  predicate Live<K, V>(s: Store<K, V>, k: K, now: real) {
    k in s && now <= s[k].expiresAt
  }

  function Lookup<K, V>(s: Store<K, V>, k: K, now: real): Option<V> {
    if Live(s, k, now) then Some(s[k].value) else None
  }

  function Put<K, V>(s: Store<K, V>, k: K, ttl: int, v: V, now: real): Store<K, V> {
    s[k := Entry(v, now + ttl as real)]
  }

  /** Drops the one entry if it has expired. */
  function Evict<K, V>(s: Store<K, V>, k: K, now: real): Store<K, V> {
    if k in s && now > s[k].expiresAt then s - {k} else s
  }

  /** Drops every expired entry. */
  function Purge<K, V>(s: Store<K, V>, now: real): Store<K, V> {
    map k | k in s && now <= s[k].expiresAt :: s[k]
  }
}
