/** The in-memory limiter of webhook calls. Only admitted calls are recorded, and when more
    than ten thousand keys are known the whole table is dropped. */
module WebhookLimiter {
  import opened RateWindows

  const MAX_KEYS := 10000

  /** An admitted call and the limit it was admitted under. */
  datatype Admission = Admission(key: string, time: real, limit: int)

  function TimesOf(log: seq<Admission>, key: string): seq<real> {
    if log == [] then [] else
    var last := log[|log| - 1];
    TimesOf(log[..|log| - 1], key) + (if last.key == key then [last.time] else [])
  }

  lemma TimesSnoc(log: seq<Admission>, a: Admission, key: string)
    ensures TimesOf(log + [a], key) == TimesOf(log, key) + (if a.key == key then [a.time] else [])
  {
    assert (log + [a])[..|log|] == log;
  }

  /** Each admission found fewer than its limit in the window behind it. */
  ghost predicate PacedAt(log: seq<Admission>, window: real, i: int)
    requires 0 <= i < |log|
  {
    |After(TimesOf(log[..i], log[i].key), log[i].time - window)| < log[i].limit
  }

  ghost predicate Paced(log: seq<Admission>, window: real) {
    forall i :: 0 <= i < |log| ==> PacedAt(log, window, i)
  }

  class WebhookRateLimiter {
    const window: real
    var state: map<string, seq<real>>
    /** What was admitted since the table was last dropped, and the last clock reading. */
    ghost var log: seq<Admission>
    ghost var clock: real

    constructor (window: real, ghost now: real)
      ensures Valid() && log == [] && clock == now && this.window == window
    {
      this.window := window;
      state := map[];
      log, clock := [], now;
    }

    function Stamps(key: string): seq<real>
      reads this`state
    {
      if key in state then state[key] else []
    }

    ghost predicate Valid()
      reads this
    {
      && Paced(log, window)
      && forall key :: StandsFor(Stamps(key), log, key, clock, window)
    }

    /** `check_webhook_rate_limit` without Redis. It answers as the admissions since the last
        drop do; a refusal leaves the table as it was. */
    method CheckRateLimit(key: string, limit: int, now: real) returns (admitted: bool)
      requires Valid() && clock <= now
      modifies this
      ensures Valid() && clock == now
      ensures admitted <==> |After(old(TimesOf(log, key)), now - window)| < limit
      ensures !admitted ==> log == old(log) && state == old(state)
      ensures admitted ==> log == (if |old(state).Keys + {key}| > 10000 then [] else old(log) + [Admission(key, now, limit)])
    {
      var recent := After(Stamps(key), now - window);
      StandsForLater(Stamps(key), log, key, clock, now, window);
      admitted := |recent| < limit;
      if !admitted {
        Tick(now);
        return;
      }
      Insert(key, recent, limit, now);
      if |state| > MAX_KEYS {
        state := map[];
        log := [];
      }
    }

    ghost method Tick(now: real)
      requires Valid() && clock <= now
      modifies this`clock
      ensures Valid() && clock == now
    {
      forall k ensures StandsFor(Stamps(k), log, k, now, window) {
        StandsForLater(Stamps(k), log, k, clock, now, window);
      }
      clock := now;
    }

    method Insert(key: string, recent: seq<real>, ghost limit: int, now: real)
      requires Valid() && clock <= now
      requires recent == After(Stamps(key), now - window) && |recent| < limit
      modifies this
      ensures Valid() && clock == now && log == old(log) + [Admission(key, now, limit)]
      ensures state.Keys == old(state).Keys + {key}
    {
      ghost var a := Admission(key, now, limit);
      StandsForLater(Stamps(key), log, key, clock, now, window);
      state := state[key := recent + [now]];
      log, clock := log + [a], now;
      PacedSnoc(old(log), a, window);
      forall k ensures StandsFor(Stamps(k), log, k, clock, window) {
        StandsForAdmitted(old(Stamps(k)), old(log), k, old(clock), a, window);
        assert k != key ==> Stamps(k) == old(Stamps(k));
      }
    }
  }

  ghost predicate StandsFor(stamps: seq<real>, log: seq<Admission>, key: string, clock: real, window: real) {
    After(stamps, clock - window) == After(TimesOf(log, key), clock - window)
  }

  lemma StandsForLater(stamps: seq<real>, log: seq<Admission>, key: string, clock: real, now: real, window: real)
    requires StandsFor(stamps, log, key, clock, window) && clock <= now
    ensures StandsFor(stamps, log, key, now, window)
  {
    AfterLater(stamps, clock - window, now - window);
    AfterLater(TimesOf(log, key), clock - window, now - window);
  }

  lemma StandsForAdmitted(stamps: seq<real>, log: seq<Admission>, key: string, clock: real, a: Admission, window: real)
    requires StandsFor(stamps, log, key, clock, window) && clock <= a.time
    ensures StandsFor(if a.key == key then After(stamps, a.time - window) + [a.time] else stamps, log + [a], key, a.time, window)
  {
    StandsForLater(stamps, log, key, clock, a.time, window);
    TimesSnoc(log, a, key);
    if a.key == key {
      AfterSnoc(TimesOf(log, key), a.time, a.time - window);
      AfterSnoc(After(stamps, a.time - window), a.time, a.time - window);
      AfterLater(stamps, a.time - window, a.time - window);
    } else {
      assert TimesOf(log, key) + [] == TimesOf(log, key);
    }
  }

  lemma PacedSnoc(log: seq<Admission>, a: Admission, window: real)
    requires Paced(log, window) && |After(TimesOf(log, a.key), a.time - window)| < a.limit
    ensures Paced(log + [a], window)
  {
    var log' := log + [a];
    forall i | 0 <= i < |log'| ensures PacedAt(log', window, i) {
      if i < |log| {
        assert PacedAt(log, window, i);
        assert log'[..i] == log[..i];
      } else {
        assert log'[..i] == log;
      }
    }
  }

  lemma CountHalfOpenSnoc(ts: seq<real>, last: real, start: real, length: real)
    ensures CountHalfOpen(ts + [last], start, length) ==
            CountHalfOpen(ts, start, length) + (if start <= last < start + length then 1 else 0)
  {
    assert (ts + [last])[..|ts|] == ts;
  }

  /** While the table is not dropped, no half-open window holds more admissions of a key than
      the largest limit they were admitted under. */
  lemma {:induction false} WindowHoldsAtMostLimit(log: seq<Admission>, window: real, key: string, limit: nat, start: real)
    requires Paced(log, window)
    requires forall i :: 0 <= i < |log| && log[i].key == key ==> log[i].limit <= limit
    ensures CountHalfOpen(TimesOf(log, key), start, window) <= limit
  {
    if log != [] {
      var init, last := log[..|log| - 1], log[|log| - 1];
      forall i | 0 <= i < |init| ensures PacedAt(init, window, i) {
        assert PacedAt(log, window, i);
        assert log[..i] == init[..i];
      }
      WindowHoldsAtMostLimit(init, window, key, limit, start);
      if last.key == key {
        CountHalfOpenSnoc(TimesOf(init, key), last.time, start, window);
        if start <= last.time < start + window {
          assert PacedAt(log, window, |log| - 1);
          HalfOpenWithinAfter(TimesOf(init, key), start, window, last.time);
        }
      } else {
        assert TimesOf(init, key) + [] == TimesOf(init, key);
      }
    }
  }
}
