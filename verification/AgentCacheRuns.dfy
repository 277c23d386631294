/** The agent cache among concurrent requests, fetches and writes. */
module AgentCacheRuns {
  import opened Wrappers
  import opened Sequences
  import opened AgentCache

  /** A request that missed. `read` is what it read from the backend, once it has; `missed`
      are the gateway's writes to its key since then. */
  datatype Fetch<V> = Fetch(key: Key, read: Option<V>, missed: set<nat>)

  datatype State<V> = State(
    ttl: nat,
    maxEntries: nat,
    backend: map<Key, V>,
    cache: Cache<V>,
    fetches: map<nat, Fetch<V>>,
    nextFetch: nat,
    pending: map<nat, Key>,
    nextWrite: nat,
    now: int)

  /** `Write` with no value is a delete. A write by the gateway is followed, as a step of its
      own, by the invalidation of its key. */
  datatype Event<V> =
    | Tick(elapsed: nat)
    | Request(key: Key)
    | BackendRead(fetch: nat)
    | FetchStore(fetch: nat, kept: Cache<V>)
    | Write(key: Key, value: Option<V>)
    | WriteInvalidate(write: nat)
    | ExternalWrite(key: Key, value: Option<V>)
    | Invalidate(name: Option<string>, namespace: Option<string>)

  function Init<V>(ttl: nat, maxEntries: nat, backend: map<Key, V>, now: int): State<V> {
    State(ttl, maxEntries, backend, map[], map[], 0, map[], 0, now)
  }

  function Changed<V>(backend: map<Key, V>, key: Key, value: Option<V>): map<Key, V> {
    match value
    case Some(v) => backend[key := v]
    case None => backend - {key}
  }

  function Filled<V>(s: State<V>, f: nat): Cache<V>
    requires f in s.fetches && s.fetches[f].read.Some?
  {
    s.cache[s.fetches[f].key := Entry(s.now + s.ttl, s.fetches[f].read.value)]
  }

  ghost predicate Enabled<V>(s: State<V>, e: Event<V>) {
    match e
    case BackendRead(f) => f in s.fetches && s.fetches[f].read.None?
    case FetchStore(f, kept) =>
      f in s.fetches && s.fetches[f].read.Some? && Pruned(Filled(s, f), kept, s.now, s.maxEntries)
    case WriteInvalidate(w) => w in s.pending
    case _ => true
  }

  ghost function Apply<V>(s: State<V>, e: Event<V>): State<V>
    requires Enabled(s, e)
  {
    match e
    case Tick(elapsed) => s.(now := s.now + elapsed)
    case Request(k) =>
      if Hit(s.cache, k, s.now).Some? then s else
      s.(cache := AfterLookup(s.cache, k, s.now),
         fetches := s.fetches[s.nextFetch := Fetch(k, None, {})],
         nextFetch := s.nextFetch + 1)
    case BackendRead(f) =>
      var k := s.fetches[f].key;
      if k in s.backend then s.(fetches := s.fetches[f := Fetch(k, Some(s.backend[k]), {})])
      else s.(fetches := s.fetches - {f})
    case FetchStore(f, kept) => s.(cache := kept, fetches := s.fetches - {f})
    case Write(k, value) =>
      s.(backend := Changed(s.backend, k, value),
         fetches := map f | f in s.fetches :: MissedBy(s.fetches[f], k, s.nextWrite),
         pending := s.pending[s.nextWrite := k],
         nextWrite := s.nextWrite + 1)
    case WriteInvalidate(w) =>
      s.(cache := Invalidated(s.cache, Some(s.pending[w].name), Some(s.pending[w].namespace)),
         pending := s.pending - {w})
    case ExternalWrite(k, value) => s.(backend := Changed(s.backend, k, value))
    case Invalidate(name, namespace) => s.(cache := Invalidated(s.cache, name, namespace))
  }

  function MissedBy<V>(f: Fetch<V>, k: Key, w: nat): Fetch<V> {
    if f.key == k && f.read.Some? then f.(missed := f.missed + {w}) else f
  }

  /** `states` is a run over `events`. */
  ghost predicate IsRun<V(!new)>(states: seq<State<V>>, events: seq<Event<V>>) {
    && |states| == |events| + 1
    && forall i :: 0 <= i < |events| ==> StepAt(states, events, i)
  }

  ghost predicate StepAt<V>(states: seq<State<V>>, events: seq<Event<V>>, i: int)
    requires |states| == |events| + 1 && 0 <= i < |events|
  {
    Enabled(states[i], events[i]) && states[i + 1] == Apply(states[i], events[i])
  }

  // ---------------------------------------------------------------------------
  // Size
  // ---------------------------------------------------------------------------

  lemma SmallerCache<V>(a: Cache<V>, b: Cache<V>)
    requires a.Keys <= b.Keys
    ensures |a| <= |b|
  {
    assert b.Keys == a.Keys + (b.Keys - a.Keys);
    assert |a| == |a.Keys| && |b| == |b.Keys|;
  }

  /** The cache never holds more than its maximum. */
  lemma {:induction false} SizeIsBounded<V(!new)>(states: seq<State<V>>, events: seq<Event<V>>, n: nat)
    requires IsRun(states, events) && n <= |events| && states[0].cache == map[]
    ensures |states[n].cache| <= states[n].maxEntries && states[n].maxEntries == states[0].maxEntries
    ensures states[n].ttl == states[0].ttl && states[0].now <= states[n].now
  {
    if n > 0 {
      SizeIsBounded(states, events, n - 1);
      assert StepAt(states, events, n - 1);
      if !events[n - 1].FetchStore? {
        SmallerCache(states[n].cache, states[n - 1].cache);
      }
    }
  }

  // ---------------------------------------------------------------------------
  // Where a hit comes from
  // ---------------------------------------------------------------------------

  /** At step `i` fetch `f` read `v` from the backend for `k`. */
  ghost predicate ReadAt<V>(states: seq<State<V>>, events: seq<Event<V>>, i: nat, f: nat, k: Key, v: V)
    requires |states| == |events| + 1
  {
    && i < |events| && events[i] == BackendRead(f)
    && f in states[i].fetches && states[i].fetches[f].key == k
    && k in states[i].backend && states[i].backend[k] == v
  }

  /** The entry was read from the backend at some step and stored at a later one, from which
      its expiry counts. */
  ghost predicate CameFrom<V>(states: seq<State<V>>, events: seq<Event<V>>, n: nat, k: Key, e: Entry<V>)
    requires |states| == |events| + 1 && n <= |events|
  {
    exists i: nat, j: nat, f: nat ::
      i < j < n && ReadAt(states, events, i, f, k, e.value) && events[j].FetchStore? && events[j].fetch == f
      && e.expiresAt == states[j].now + states[j].ttl
  }

  ghost predicate WasRead<V>(states: seq<State<V>>, events: seq<Event<V>>, n: nat, f: nat, k: Key, v: V)
    requires |states| == |events| + 1 && n <= |events|
  {
    exists i: nat :: i < n && ReadAt(states, events, i, f, k, v)
  }

  ghost predicate FetchesTraced<V>(states: seq<State<V>>, events: seq<Event<V>>, n: nat)
    requires |states| == |events| + 1 && n <= |events|
  {
    var s := states[n];
    forall f :: f in s.fetches && s.fetches[f].read.Some? ==>
      WasRead(states, events, n, f, s.fetches[f].key, s.fetches[f].read.value)
  }

  ghost predicate EntriesTraced<V>(states: seq<State<V>>, events: seq<Event<V>>, n: nat)
    requires |states| == |events| + 1 && n <= |events|
  {
    var s := states[n];
    forall k :: k in s.cache ==> CameFrom(states, events, n, k, s.cache[k])
  }

  lemma TracesLast<V>(states: seq<State<V>>, events: seq<Event<V>>, n: nat)
    requires |states| == |events| + 1 && n < |events|
    ensures forall f, k, v :: WasRead(states, events, n, f, k, v) ==> WasRead(states, events, n + 1, f, k, v)
    ensures forall k, e :: CameFrom(states, events, n, k, e) ==> CameFrom(states, events, n + 1, k, e)
  {
  }

  lemma FetchesStayTraced<V(!new)>(states: seq<State<V>>, events: seq<Event<V>>, n: nat)
    requires IsRun(states, events) && n < |events| && FetchesTraced(states, events, n)
    ensures FetchesTraced(states, events, n + 1)
  {
    assert StepAt(states, events, n);
    TracesLast(states, events, n);
    var s, s' := states[n], states[n + 1];
    forall f | f in s'.fetches && s'.fetches[f].read.Some?
      ensures WasRead(states, events, n + 1, f, s'.fetches[f].key, s'.fetches[f].read.value)
    {
      if events[n] == BackendRead(f) {
        assert ReadAt(states, events, n, f, s'.fetches[f].key, s'.fetches[f].read.value);
      } else {
        assert f in s.fetches && s.fetches[f].key == s'.fetches[f].key && s.fetches[f].read == s'.fetches[f].read;
      }
    }
  }

  lemma EntriesStayTraced<V(!new)>(states: seq<State<V>>, events: seq<Event<V>>, n: nat)
    requires IsRun(states, events) && n < |events|
    requires FetchesTraced(states, events, n) && EntriesTraced(states, events, n)
    ensures EntriesTraced(states, events, n + 1)
  {
    assert StepAt(states, events, n);
    TracesLast(states, events, n);
    var s, s' := states[n], states[n + 1];
    forall k | k in s'.cache ensures CameFrom(states, events, n + 1, k, s'.cache[k]) {
      if events[n].FetchStore? && k == s.fetches[events[n].fetch].key {
        var f := events[n].fetch;
        var v := s.fetches[f].read.value;
        assert s'.cache[k] == Filled(s, f)[k] == Entry(s.now + s.ttl, v);
        var i: nat :| i < n && ReadAt(states, events, i, f, k, v);
      } else {
        assert k in s.cache && s'.cache[k] == s.cache[k];
      }
    }
  }

  lemma {:induction false} EverythingIsTraced<V(!new)>(states: seq<State<V>>, events: seq<Event<V>>, n: nat)
    requires IsRun(states, events) && n <= |events|
    requires states[0].cache == map[] && states[0].fetches == map[]
    ensures FetchesTraced(states, events, n) && EntriesTraced(states, events, n)
  {
    if n > 0 {
      EverythingIsTraced(states, events, n - 1);
      FetchesStayTraced(states, events, n - 1);
      EntriesStayTraced(states, events, n - 1);
    }
  }

  /** Every hit returns a value that the backend held when it was read for that key, and that
      was stored less than the lifetime of an entry ago. */
  lemma HitWasHeldByBackend<V(!new)>(states: seq<State<V>>, events: seq<Event<V>>, n: nat, k: Key)
    requires IsRun(states, events) && n <= |events|
    requires states[0].cache == map[] && states[0].fetches == map[]
    requires Hit(states[n].cache, k, states[n].now).Some?
    ensures exists i: nat, j: nat, f: nat ::
      i < j < n && ReadAt(states, events, i, f, k, Hit(states[n].cache, k, states[n].now).value)
      && events[j].FetchStore? && events[j].fetch == f && states[n].now - states[j].now < states[j].ttl
  {
    EverythingIsTraced(states, events, n);
    var e := states[n].cache[k];
    var i: nat, j: nat, f: nat :| i < j < n && ReadAt(states, events, i, f, k, e.value)
      && events[j].FetchStore? && events[j].fetch == f && e.expiresAt == states[j].now + states[j].ttl;
  }

  // ---------------------------------------------------------------------------
  // Coherence with the gateway's own writes
  // ---------------------------------------------------------------------------

  ghost predicate Current<V>(s: State<V>, k: Key, v: V) {
    k in s.backend && s.backend[k] == v
  }

  ghost predicate WritePending<V>(s: State<V>, k: Key) {
    exists w :: w in s.pending && s.pending[w] == k
  }

  ghost predicate FetchCoherent<V>(s: State<V>, f: nat)
    requires f in s.fetches
  {
    var fetch := s.fetches[f];
    && (fetch.read.Some? ==> Current(s, fetch.key, fetch.read.value) || fetch.missed != {})
    && (forall w :: w in fetch.missed ==> w < s.nextWrite && (w in s.pending ==> s.pending[w] == fetch.key))
  }

  /** An entry that differs from the backend is about to be invalidated. */
  ghost predicate Coherent<V>(s: State<V>) {
    && (forall k :: k in s.cache ==> Current(s, k, s.cache[k].value) || WritePending(s, k))
    && (forall f :: f in s.fetches ==> f < s.nextFetch && FetchCoherent(s, f))
    && (forall w :: w in s.pending ==> w < s.nextWrite)
  }

  /** What a fetch may store: it missed no write since it read, or what it stores is evicted at
      once, or the value was written back, or an invalidation of the key is still to come. */
  ghost predicate MayStore<V>(s: State<V>, f: nat, kept: Cache<V>)
    requires f in s.fetches && s.fetches[f].read.Some?
  {
    var fetch := s.fetches[f];
    || fetch.missed == {}
    || fetch.key !in kept
    || Current(s, fetch.key, fetch.read.value)
    || WritePending(s, fetch.key)
  }

  ghost predicate StoresWell<V>(s: State<V>, e: Event<V>) {
    e.FetchStore? && Enabled(s, e) ==> MayStore(s, e.fetch, e.kept)
  }

  lemma StoreKeepsOthers<V>(s: State<V>, e: Event<V>, k: Key)
    requires Coherent(s) && Enabled(s, e) && e.FetchStore? && k != s.fetches[e.fetch].key && k in Apply(s, e).cache
    ensures Current(Apply(s, e), k, Apply(s, e).cache[k].value) || WritePending(Apply(s, e), k)
  {
    var s' := Apply(s, e);
    assert s'.cache[k] == s.cache[k];
    if !Current(s, k, s.cache[k].value) {
      var w :| w in s.pending && s.pending[w] == k;
      assert w in s'.pending;
    }
  }

  /** A store keeps the cache coherent exactly if it may. */
  lemma StoreIsCoherentIff<V>(s: State<V>, e: Event<V>)
    requires Coherent(s) && Enabled(s, e) && e.FetchStore?
    ensures Coherent(Apply(s, e)) <==> MayStore(s, e.fetch, e.kept)
  {
    var s' := Apply(s, e);
    var fetch := s.fetches[e.fetch];
    assert FetchCoherent(s, e.fetch);
    assert fetch.key in e.kept ==> e.kept[fetch.key] == Filled(s, e.fetch)[fetch.key];
    assert WritePending(s', fetch.key) <==> WritePending(s, fetch.key);
    if MayStore(s, e.fetch, e.kept) {
      forall k | k in s'.cache ensures Current(s', k, s'.cache[k].value) || WritePending(s', k) {
        if k != fetch.key { StoreKeepsOthers(s, e, k); }
      }
      forall f | f in s'.fetches ensures FetchCoherent(s', f) {
        assert FetchCoherent(s, f);
      }
    }
  }

  lemma WriteIsCoherent<V>(s: State<V>, e: Event<V>)
    requires Coherent(s) && e.Write?
    ensures Coherent(Apply(s, e))
  {
    var s' := Apply(s, e);
    forall k | k in s'.cache ensures Current(s', k, s'.cache[k].value) || WritePending(s', k) {
      if k == e.key {
        assert s'.pending[s.nextWrite] == k;
      } else if !Current(s, k, s.cache[k].value) {
        var w :| w in s.pending && s.pending[w] == k;
        assert s'.pending[w] == k;
      }
    }
    forall f | f in s'.fetches ensures FetchCoherent(s', f) {
      assert FetchCoherent(s, f);
    }
  }

  lemma InvalidateIsCoherent<V>(s: State<V>, e: Event<V>)
    requires Coherent(s) && Enabled(s, e) && (e.WriteInvalidate? || e.Invalidate?)
    ensures Coherent(Apply(s, e))
  {
    var s' := Apply(s, e);
    forall k | k in s'.cache ensures Current(s', k, s'.cache[k].value) || WritePending(s', k) {
      if !Current(s, k, s.cache[k].value) {
        var w :| w in s.pending && s.pending[w] == k;
        assert e.WriteInvalidate? ==> w != e.write;
        assert s'.pending[w] == k;
      }
    }
    forall f | f in s'.fetches ensures FetchCoherent(s', f) {
      assert FetchCoherent(s, f);
    }
  }

  lemma RequestIsCoherent<V>(s: State<V>, e: Event<V>)
    requires Coherent(s) && Enabled(s, e) && (e.Tick? || e.Request? || e.BackendRead?)
    ensures Coherent(Apply(s, e))
  {
    var s' := Apply(s, e);
    assert s'.pending == s.pending && s'.backend == s.backend;
    forall k | k in s'.cache ensures Current(s', k, s'.cache[k].value) || WritePending(s', k) {
      if !Current(s, k, s.cache[k].value) {
        var w :| w in s.pending && s.pending[w] == k;
        assert s'.pending[w] == k;
      }
    }
    forall f | f in s'.fetches ensures FetchCoherent(s', f) {
      if f in s.fetches {
        assert FetchCoherent(s, f);
      }
    }
  }

  /** Only the gateway writes. */
  ghost predicate OwnWrites<V(!new)>(events: seq<Event<V>>) {
    forall i :: 0 <= i < |events| ==> !events[i].ExternalWrite?
  }

  ghost predicate AllStoreWell<V(!new)>(states: seq<State<V>>, events: seq<Event<V>>, n: nat)
    requires |states| == |events| + 1 && n <= |events|
  {
    forall i :: 0 <= i < n ==> StoresWell(states[i], events[i])
  }

  lemma StepIsCoherent<V>(s: State<V>, e: Event<V>)
    requires Coherent(s) && Enabled(s, e) && !e.ExternalWrite? && StoresWell(s, e)
    ensures Coherent(Apply(s, e))
  {
    match e
    case FetchStore(_, _) => StoreIsCoherentIff(s, e);
    case Write(_, _) => WriteIsCoherent(s, e);
    case WriteInvalidate(_) => InvalidateIsCoherent(s, e);
    case Invalidate(_, _) => InvalidateIsCoherent(s, e);
    case _ => RequestIsCoherent(s, e);
  }

  lemma {:induction false} RunIsCoherent<V(!new)>(states: seq<State<V>>, events: seq<Event<V>>, n: nat)
    requires IsRun(states, events) && OwnWrites(events) && n <= |events| && Coherent(states[0])
    requires AllStoreWell(states, events, n)
    ensures Coherent(states[n])
  {
    if n > 0 {
      RunIsCoherent(states, events, n - 1);
      assert StepAt(states, events, n - 1);
      StepIsCoherent(states[n - 1], events[n - 1]);
    }
  }

  /** Every hit equals the backend, unless the gateway is between a write to its key and the
      invalidation. */
  ghost predicate HitsAreCurrent<V(!new)>(s: State<V>) {
    forall k :: Hit(s.cache, k, s.now).Some? && !WritePending(s, k) ==> Current(s, k, Hit(s.cache, k, s.now).value)
  }

  /** A store that it may not make is seen by the next request. */
  lemma BadStoreIsSeen<V(!new)>(s: State<V>, e: Event<V>)
    requires Enabled(s, e) && !StoresWell(s, e) && s.ttl > 0
    ensures !HitsAreCurrent(Apply(s, e))
  {
    var s' := Apply(s, e);
    var k := s.fetches[e.fetch].key;
    assert s'.cache[k] == Filled(s, e.fetch)[k];
    assert Hit(s'.cache, k, s'.now).Some?;
    assert !WritePending(s', k) && !Current(s', k, s'.cache[k].value);
  }

  lemma {:induction false} TtlStays<V(!new)>(states: seq<State<V>>, events: seq<Event<V>>, n: nat)
    requires IsRun(states, events) && n <= |events|
    ensures states[n].ttl == states[0].ttl
  {
    if n > 0 {
      TtlStays(states, events, n - 1);
      assert StepAt(states, events, n - 1);
    }
  }

  /** Over every run in which only the gateway writes: hits are current at every step if and
      only if no fetch stores what it may not. */
  lemma HitsAreCurrentIff<V(!new)>(states: seq<State<V>>, events: seq<Event<V>>)
    requires IsRun(states, events) && OwnWrites(events) && Coherent(states[0]) && states[0].ttl > 0
    ensures (forall n :: 0 <= n < |states| ==> HitsAreCurrent(states[n])) <==> AllStoreWell(states, events, |events|)
  {
    if AllStoreWell(states, events, |events|) {
      forall n | 0 <= n < |states| ensures HitsAreCurrent(states[n]) {
        RunIsCoherent(states, events, n);
      }
    } else {
      var i :| 0 <= i < |events| && !StoresWell(states[i], events[i]);
      assert StepAt(states, events, i);
      TtlStays(states, events, i);
      BadStoreIsSeen(states[i], events[i]);
      assert !HitsAreCurrent(states[i + 1]);
    }
  }

  /** The fetch stores before any write that it missed has been invalidated. */
  ghost predicate Timely<V>(s: State<V>, e: Event<V>) {
    e.FetchStore? && e.fetch in s.fetches ==> s.fetches[e.fetch].missed <= s.pending.Keys
  }

  lemma TimelyStoresWell<V>(s: State<V>, e: Event<V>)
    requires Coherent(s) && Timely(s, e)
    ensures StoresWell(s, e)
  {
    if e.FetchStore? && Enabled(s, e) && s.fetches[e.fetch].missed != {} {
      var w :| w in s.fetches[e.fetch].missed;
      assert FetchCoherent(s, e.fetch);
      assert s.pending[w] == s.fetches[e.fetch].key;
    }
  }

  lemma {:induction false} TimelyRunsStoreWell<V(!new)>(states: seq<State<V>>, events: seq<Event<V>>, n: nat)
    requires IsRun(states, events) && OwnWrites(events) && Coherent(states[0]) && n <= |events|
    requires forall i :: 0 <= i < |events| ==> Timely(states[i], events[i])
    ensures AllStoreWell(states, events, n)
  {
    if n > 0 {
      TimelyRunsStoreWell(states, events, n - 1);
      RunIsCoherent(states, events, n - 1);
      TimelyStoresWell(states[n - 1], events[n - 1]);
      OneMoreStoresWell(states, events, n - 1);
    }
  }

  lemma OneMoreStoresWell<V(!new)>(states: seq<State<V>>, events: seq<Event<V>>, n: nat)
    requires |states| == |events| + 1 && n < |events|
    requires AllStoreWell(states, events, n) && StoresWell(states[n], events[n])
    ensures AllStoreWell(states, events, n + 1)
  {
  }

  /** In particular hits are current if no fetch spans a write and its invalidation. */
  lemma OrderlyHitsAreCurrent<V(!new)>(states: seq<State<V>>, events: seq<Event<V>>, n: nat)
    requires IsRun(states, events) && OwnWrites(events) && Coherent(states[0]) && n <= |events|
    requires forall i :: 0 <= i < |events| ==> Timely(states[i], events[i])
    ensures HitsAreCurrent(states[n])
  {
    TimelyRunsStoreWell(states, events, n);
    RunIsCoherent(states, events, n);
  }

  lemma SpanningFetchMisses<V>(ttl: nat, maxEntries: nat, k: Key, before: V, after: V)
    ensures var s0 := Init(ttl, maxEntries, map[k := before], 0);
            var s2 := Apply(Apply(s0, Request(k)), BackendRead(0));
            s2 == s0.(fetches := map[0 := Fetch(k, Some(before), {})], nextFetch := 1)
  {
  }

  lemma WriteOverFetch<V>(s: State<V>, k: Key, before: V, after: V)
    requires s.fetches == map[0 := Fetch(k, Some(before), {})] && s.pending == map[] && s.nextWrite == 0
    requires s.cache == map[] && s.backend == map[k := before]
    ensures var s1 := Apply(s, Write(k, Some(after)));
            Enabled(s1, WriteInvalidate(0)) &&
            Apply(s1, WriteInvalidate(0)) ==
              s.(backend := map[k := after], fetches := map[0 := Fetch(k, Some(before), {0})], nextWrite := 1)
  {
    var s1 := Apply(s, Write(k, Some(after)));
    var missed: set<nat> := {};
    assert missed + {0} == {0};
    assert MissedBy(s.fetches[0], k, 0) == Fetch(k, Some(before), {0});
    assert s1.fetches == map[0 := Fetch(k, Some(before), {0})];
    assert s1.pending == map[0 := k] && s1.pending - {0} == map[];
    assert Invalidated(s1.cache, Some(k.name), Some(k.namespace)) == map[];
  }

  lemma StoreServes<V>(s: State<V>, k: Key, before: V) returns (kept: Cache<V>)
    requires s.ttl > 0 && s.maxEntries >= 1 && s.cache == map[] && s.pending == map[]
    requires s.fetches == map[0 := Fetch(k, Some(before), {0})]
    ensures Enabled(s, FetchStore(0, kept))
    ensures var s' := Apply(s, FetchStore(0, kept));
            Hit(s'.cache, k, s'.now) == Some(before) && !WritePending(s', k) && s'.backend == s.backend
  {
    kept := map[k := Entry(s.now + s.ttl, before)];
    assert Filled(s, 0) == kept && Live(kept, s.now) == kept;
  }

  /** A fetch that does span them leaves the old value behind, with nothing left to remove it
      before it expires. */
  lemma SpanningFetchServesOldValue<V>(ttl: nat, maxEntries: nat, k: Key, before: V, after: V) returns (kept: Cache<V>)
    requires ttl > 0 && maxEntries >= 1
    ensures var s0 := Init(ttl, maxEntries, map[k := before], 0);
            var s2 := Apply(Apply(s0, Request(k)), BackendRead(0));
            var s4 := Apply(Apply(s2, Write(k, Some(after))), WriteInvalidate(0));
            Enabled(s4, FetchStore(0, kept)) &&
            var s5 := Apply(s4, FetchStore(0, kept));
            Hit(s5.cache, k, s5.now) == Some(before) && Current(s5, k, after) && !WritePending(s5, k)
  {
    var s0 := Init(ttl, maxEntries, map[k := before], 0);
    var s2 := Apply(Apply(s0, Request(k)), BackendRead(0));
    SpanningFetchMisses(ttl, maxEntries, k, before, after);
    WriteOverFetch(s2, k, before, after);
    kept := StoreServes(Apply(Apply(s2, Write(k, Some(after))), WriteInvalidate(0)), k, before);
  }

  /** What a fetch stores and keeps is a hit for exactly the lifetime of an entry, if nothing else
      happens. */
  lemma KeptIsServedForItsLifetime<V>(s: State<V>, f: nat, kept: Cache<V>, elapsed: nat)
    requires Enabled(s, FetchStore(f, kept)) && s.fetches[f].key in kept
    ensures var s' := Apply(Apply(s, FetchStore(f, kept)), Tick(elapsed));
            Hit(s'.cache, s.fetches[f].key, s'.now) == if elapsed < s.ttl then s.fetches[f].read else None
  {
    assert kept[s.fetches[f].key] == Filled(s, f)[s.fetches[f].key];
  }

  /** The fetch is kept if the lifetime is positive and the other live entries leave room. */
  lemma StoredIsKept<V>(s: State<V>, f: nat, kept: Cache<V>)
    requires Enabled(s, FetchStore(f, kept)) && s.ttl > 0 && |Live(Filled(s, f), s.now)| <= s.maxEntries
    ensures s.fetches[f].key in kept
  {
    var live := Live(Filled(s, f), s.now);
    assert s.fetches[f].key in live;
    SubsetOfSameSize(kept.Keys, live.Keys);
  }
}
