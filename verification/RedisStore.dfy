/** The part of Redis that idempotency uses: values with an optional expiry, in milliseconds. */
module RedisStore {
  import opened Optional

  datatype Entry<V> = Entry(value: V, until: Option<int>)

  predicate Live<V>(e: Entry<V>, now: int) {
    e.until.None? || now < e.until.value
  }

  function Get<K, V>(store: map<K, Entry<V>>, k: K, now: int): Option<V> {
    if k in store && Live(store[k], now) then Some(store[k].value) else None
  }

  /** A ttl of 0 seconds stores the value without an expiry. */
  function Expiry(now: int, ttlSeconds: nat): Option<int> {
    if ttlSeconds == 0 then None else Some(now + 1000 * ttlSeconds)
  }

  function Put<K, V>(store: map<K, Entry<V>>, k: K, v: V, ttlSeconds: nat, now: int): map<K, Entry<V>> {
    store[k := Entry(v, Expiry(now, ttlSeconds))]
  }

  function PutIfAbsent<K, V>(store: map<K, Entry<V>>, k: K, v: V, ttlSeconds: nat, now: int): map<K, Entry<V>> {
    if Get(store, k, now).Some? then store else Put(store, k, v, ttlSeconds, now)
  }

  /** A value is read back until its TTL is over, for ever if it has none; no other key is touched. */
  lemma ReadBackUntil<K, V>(store: map<K, Entry<V>>, k: K, v: V, ttlSeconds: nat, at: int, other: K, now: int)
    ensures Get(Put(store, k, v, ttlSeconds, at), k, now) ==
            if ttlSeconds == 0 || now < at + 1000 * ttlSeconds then Some(v) else None
    ensures other != k ==> Get(Put(store, k, v, ttlSeconds, at), other, now) == Get(store, other, now)
    ensures PutIfAbsent(store, k, v, ttlSeconds, at) ==
            if k in store && (store[k].until.None? || at < store[k].until.value) then store
            else Put(store, k, v, ttlSeconds, at)
  {
  }

  class RedisService<V> {
    var store: map<(string, string), Entry<V>>

    constructor ()
      ensures store == map[]
    {
      store := map[];
    }

    method Lookup(k: (string, string), now: int) returns (v: Option<V>)
      ensures v == Get(store, k, now)
    {
      v := None;
      if k in store {
        if store[k].until.None? || now < store[k].until.value {
          v := Some(store[k].value);
        }
      }
    }

    method Set(k: (string, string), v: V, ttlSeconds: nat, now: int)
      modifies this
      ensures store == Put(old(store), k, v, ttlSeconds, now)
    {
      if ttlSeconds != 0 {
        store := store[k := Entry(v, Some(now + 1000 * ttlSeconds))];
      } else {
        store := store[k := Entry(v, None)];
      }
    }

    method SetNX(k: (string, string), v: V, ttlSeconds: nat, now: int) returns (ok: bool)
      modifies this
      ensures ok <==> Get(old(store), k, now).None?
      ensures store == PutIfAbsent(old(store), k, v, ttlSeconds, now)
    {
      var existing := Lookup(k, now);
      ok := existing.None?;
      if ok {
        Set(k, v, ttlSeconds, now);
      }
    }

    method Del(k: (string, string))
      modifies this
      ensures store == old(store) - {k}
    {
      store := store - {k};
    }
  }
}
