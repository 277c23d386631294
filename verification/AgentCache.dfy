/** The read cache for agents: entries with an expiry, bounded in number. Backend reads
    happen outside its lock, so a miss and the fill that follows are separate steps. */
module AgentCache {
  import opened Wrappers

  datatype Key = Key(namespace: string, name: string)

  datatype Entry<V> = Entry(expiresAt: int, value: V)

  type Cache<V> = map<Key, Entry<V>>

  /** The entry that answers a request now. */
  function Hit<V>(cache: Cache<V>, key: Key, now: int): Option<V> {
    if key in cache && cache[key].expiresAt > now then Some(cache[key].value) else None
  }

  /** The cache after a request: an expired entry under the key is gone. */
  function AfterLookup<V>(cache: Cache<V>, key: Key, now: int): Cache<V> {
    if Hit(cache, key, now).Some? then cache else cache - {key}
  }

  /** The entries that have not expired. */
  function Live<V>(cache: Cache<V>, now: int): Cache<V> {
    map k | k in cache && cache[k].expiresAt > now :: cache[k]
  }

  /** `_prune_agent_read_cache`: of the live entries as many as fit are kept, and nothing that
      was dropped expires later than something kept. Which of several entries with the same
      expiry goes is left open. */
  ghost predicate Pruned<V>(before: Cache<V>, after: Cache<V>, now: int, maxEntries: nat) {
    var live := Live(before, now);
    && after.Keys <= live.Keys
    && (forall k :: k in after ==> after[k] == live[k])
    && |after| == (if |live| <= maxEntries then |live| else maxEntries)
    && (forall j, k :: j in live && j !in after && k in after ==> live[j].expiresAt <= after[k].expiresAt)
  }

  /** The keys an invalidation names; a part that is not given matches everything. */
  predicate Matches(key: Key, name: Option<string>, namespace: Option<string>) {
    && (name.Some? ==> key.name == name.value)
    && (namespace.Some? ==> key.namespace == namespace.value)
  }

  /** Both parts that are given are those of the key. */
  predicate Names(name: Option<string>, namespace: Option<string>, key: Key) {
    name in {None, Some(key.name)} && namespace in {None, Some(key.namespace)}
  }

  function Invalidated<V>(cache: Cache<V>, name: Option<string>, namespace: Option<string>): Cache<V> {
    map k | k in cache && !Matches(k, name, namespace) :: cache[k]
  }

  class AgentReadCache<V(==)> {
    const ttl: nat
    const maxEntries: nat
    var cache: Cache<V>

    constructor (ttl: nat, maxEntries: nat)
      requires ttl > 0 && maxEntries >= 1
      ensures cache == map[] && this.ttl == ttl && this.maxEntries == maxEntries
    {
      this.ttl, this.maxEntries := ttl, maxEntries;
      cache := map[];
    }

    /** The first locked section of `read_agent_cached`. */
    method Lookup(key: Key, now: int) returns (hit: Option<V>)
      modifies this
      ensures hit == Hit(old(cache), key, now)
      ensures cache == AfterLookup(old(cache), key, now)
    {
      if key in cache {
        var entry := cache[key];
        if entry.expiresAt > now {
          return Some(entry.value);
        }
        cache := cache - {key};
      }
      assert key !in old(cache) ==> old(cache) - {key} == old(cache);
      return None;
    }

    /** The second: the fetched agent is stored, and the cache is pruned. */
    method Fill(key: Key, value: V, now: int)
      modifies this
      ensures Pruned(old(cache)[key := Entry(now + ttl, value)], cache, now, maxEntries)
    {
      cache := cache[key := Entry(now + ttl, value)];
      Prune(now);
    }

    method Oldest() returns (key: Key)
      requires cache != map[]
      ensures key in cache && forall k :: k in cache ==> cache[key].expiresAt <= cache[k].expiresAt
    {
      var rest := cache.Keys;
      key :| key in cache;
      while rest != {}
        invariant rest <= cache.Keys && key in cache
        invariant forall k :: k in cache && k !in rest ==> cache[key].expiresAt <= cache[k].expiresAt
        decreases rest
      {
        var k :| k in rest;
        if cache[k].expiresAt < cache[key].expiresAt {
          key := k;
        }
        rest := rest - {k};
      }
    }

    /** `_prune_agent_read_cache` */
    method Prune(now: int)
      modifies this
      ensures Pruned(old(cache), cache, now, maxEntries)
    {
      ghost var live := Live(cache, now);
      cache := map k | k in cache && cache[k].expiresAt > now :: cache[k];
      while |cache| > maxEntries
        invariant cache.Keys <= live.Keys && forall k :: k in cache ==> cache[k] == live[k]
        invariant forall j, k :: j in live && j !in cache && k in cache ==> live[j].expiresAt <= cache[k].expiresAt
        invariant if |live| <= maxEntries then cache == live else |cache| >= maxEntries
        decreases |cache|
      {
        var oldest := Oldest();
        assert |cache - {oldest}| == |cache| - 1 by {
          assert (cache - {oldest}).Keys == cache.Keys - {oldest};
        }
        cache := cache - {oldest};
      }
    }

    /** `invalidate_agent_read_cache` */
    method Invalidate(name: Option<string>, namespace: Option<string>)
      modifies this
      ensures cache == Invalidated(old(cache), name, namespace)
      ensures forall k :: k in cache ==> k in old(cache) && !Names(name, namespace, k)
      ensures forall k :: k in old(cache) && !Names(name, namespace, k) ==> k in cache
      ensures forall k :: k in cache ==> cache[k] == old(cache)[k]
    {
      if name.None? && namespace.None? {
        cache := map[];
        return;
      }
      var matching := set k | k in cache && Matches(k, name, namespace);
      cache := cache - matching;
    }
  }
}
