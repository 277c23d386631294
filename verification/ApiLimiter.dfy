/** The sliding-window limiter of the API routes. Asking is recorded like calling, and the
    invocation route records an admitted call a second time. */
module ApiLimiter {
  import opened RateWindows

  const WINDOW := 60.0

  datatype Call = Call(key: string, time: real)

  /** The times of everything recorded under a key. */
  function TimesOf(log: seq<Call>, key: string): seq<real> {
    if log == [] then [] else
    var last := log[|log| - 1];
    TimesOf(log[..|log| - 1], key) + (if last.key == key then [last.time] else [])
  }

  lemma TimesSnoc(log: seq<Call>, call: Call, key: string)
    ensures TimesOf(log + [call], key) == TimesOf(log, key) + (if call.key == key then [call.time] else [])
  {
    assert (log + [call])[..|log|] == log;
  }

  /** The loop that pops stale entries off the head of a bucket. */
  method PopStale(bucket0: seq<real>, windowStart: real) returns (bucket: seq<real>)
    requires Sorted(bucket0)
    ensures bucket == From(bucket0, windowStart)
  {
    bucket := bucket0;
    while bucket != [] && bucket[0] < windowStart
      invariant Sorted(bucket)
      invariant From(bucket, windowStart) == From(bucket0, windowStart)
      decreases |bucket|
    {
      DropHead(bucket, windowStart);
      bucket := bucket[1..];
    }
    AllFrom(bucket, windowStart);
  }

  lemma {:induction false} DropHead(ts: seq<real>, start: real)
    requires ts != [] && ts[0] < start
    ensures From(ts[1..], start) == From(ts, start)
  {
    if |ts| > 1 {
      DropHead(ts[..|ts| - 1], start);
      assert ts[1..][..|ts| - 2] == ts[..|ts| - 1][1..];
    } else {
      assert ts[..0] == [];
    }
  }

  lemma {:induction false} AllFrom(ts: seq<real>, start: real)
    requires Sorted(ts) && (ts != [] ==> ts[0] >= start)
    ensures From(ts, start) == ts
  {
    if ts != [] {
      AllFrom(ts[..|ts| - 1], start);
    }
  }

  /** The bucket stands for everything recorded under its key. */
  ghost predicate StandsFor(bucket: seq<real>, log: seq<Call>, key: string, clock: real) {
    && Sorted(bucket) && AtMost(bucket, clock)
    && From(bucket, clock - WINDOW) == From(TimesOf(log, key), clock - WINDOW)
  }

  lemma StandsForLater(bucket: seq<real>, log: seq<Call>, key: string, clock: real, now: real)
    requires StandsFor(bucket, log, key, clock) && clock <= now
    ensures StandsFor(bucket, log, key, now)
  {
    FromLater(bucket, clock - WINDOW, now - WINDOW);
    FromLater(TimesOf(log, key), clock - WINDOW, now - WINDOW);
  }

  /** Pruned and with the call appended, the bucket is everything of the last minute. */
  lemma StandsForRecorded(bucket: seq<real>, log: seq<Call>, key: string, clock: real, now: real)
    requires StandsFor(bucket, log, key, clock) && clock <= now
    ensures From(bucket, now - WINDOW) + [now] == From(TimesOf(log + [Call(key, now)], key), now - WINDOW)
    ensures StandsFor(From(bucket, now - WINDOW) + [now], log + [Call(key, now)], key, now)
  {
    StandsForLater(bucket, log, key, clock, now);
    TimesSnoc(log, Call(key, now), key);
    FromSnoc(TimesOf(log, key), now, now - WINDOW);
    RecordedIsFresh(bucket, now);
  }

  lemma RecordedIsFresh(bucket: seq<real>, now: real)
    requires Sorted(bucket) && AtMost(bucket, now)
    ensures var b := From(bucket, now - WINDOW) + [now];
            Sorted(b) && AtMost(b, now) && From(b, now - WINDOW) == b
  {
    FromKeepsOrder(bucket, now - WINDOW, now);
    SortedSnoc(From(bucket, now - WINDOW), now);
    FromLater(bucket, now - WINDOW, now - WINDOW);
    FromSnoc(From(bucket, now - WINDOW), now, now - WINDOW);
  }

  lemma SortedSnoc(ts: seq<real>, last: real)
    requires Sorted(ts) && AtMost(ts, last)
    ensures Sorted(ts + [last]) && AtMost(ts + [last], last)
  {
  }

  lemma {:induction false} FromKeepsOrder(ts: seq<real>, start: real, bound: real)
    requires Sorted(ts) && AtMost(ts, bound)
    ensures Sorted(From(ts, start)) && AtMost(From(ts, start), bound)
  {
    if ts != [] {
      var last := ts[|ts| - 1];
      FromKeepsOrder(ts[..|ts| - 1], start, last);
    }
  }

  class ApiRateLimiter {
    var buckets: map<string, seq<real>>
    /** Everything recorded so far, and the last clock reading. */
    ghost var log: seq<Call>
    ghost var clock: real

    constructor (ghost now: real)
      ensures Valid() && log == [] && clock == now
    {
      buckets := map[];
      log, clock := [], now;
    }

    function Bucket(key: string): seq<real>
      reads this`buckets
    {
      if key in buckets then buckets[key] else []
    }

    ghost predicate Valid()
      reads this
    {
      forall key :: StandsFor(Bucket(key), log, key, clock)
    }

    /** Prunes the bucket and records the call in it. */
    method Record(key: string, now: real)
      requires Valid() && clock <= now
      modifies this
      ensures Valid() && log == old(log) + [Call(key, now)] && clock == now
      ensures Bucket(key) == From(TimesOf(log, key), now - WINDOW)
    {
      var bucket := PopStale(Bucket(key), now - WINDOW);
      StandsForRecorded(Bucket(key), log, key, clock, now);
      buckets := buckets[key := bucket + [now]];
      log, clock := log + [Call(key, now)], now;
      forall k ensures StandsFor(Bucket(k), log, k, clock) {
        if k != key {
          assert Bucket(k) == old(Bucket(k));
          StandsForLater(old(Bucket(k)), old(log), k, old(clock), now);
          TimesSnoc(old(log), Call(key, now), k);
          assert TimesOf(log, k) == TimesOf(old(log), k);
        }
      }
    }

    /** `api_rate_limited`: more than the threshold recorded in the last minute, this question
        and denied ones included. */
    method ApiRateLimited(key: string, threshold: int, now: real) returns (limited: bool)
      requires Valid() && clock <= now
      modifies this
      ensures Valid() && log == old(log) + [Call(key, now)] && clock == now
      ensures limited <==> |From(TimesOf(log, key), now - 60.0)| > threshold
    {
      Record(key, now);
      limited := |Bucket(key)| > threshold;
    }

    /** `note_api_request` */
    method NoteApiRequest(key: string, now: real)
      requires Valid() && clock <= now
      modifies this
      ensures Valid() && log == old(log) + [Call(key, now)] && clock == now
    {
      Record(key, now);
    }

    /** The guard of the invocation route: ask, and if admitted record the call once more. */
    method AdmitInvocation(key: string, threshold: int, askedAt: real, notedAt: real) returns (admitted: bool)
      requires Valid() && clock <= askedAt <= notedAt
      modifies this
      ensures Valid()
      ensures admitted == Serve(old(TimesOf(log, key)), threshold, true, Request(askedAt, notedAt)).admitted
      ensures TimesOf(log, key) == Serve(old(TimesOf(log, key)), threshold, true, Request(askedAt, notedAt)).times
    {
      TimesSnoc(log, Call(key, askedAt), key);
      var limited := ApiRateLimited(key, threshold, askedAt);
      admitted := !limited;
      if admitted {
        TimesSnoc(log, Call(key, notedAt), key);
        NoteApiRequest(key, notedAt);
      }
    }
  }

  // ---------------------------------------------------------------------------
  // Runs of one key
  // ---------------------------------------------------------------------------

  datatype Request = Request(askedAt: real, notedAt: real)

  datatype Served = Served(times: seq<real>, admitted: bool)

  /** A request on the recorded times of its key; `noting` tells whether the route records an
      admitted call again. */
  function Serve(times: seq<real>, threshold: int, noting: bool, r: Request): Served {
    var asked := times + [r.askedAt];
    if |From(asked, r.askedAt - WINDOW)| > threshold then Served(asked, false)
    else Served(if noting then asked + [r.notedAt] else asked, true)
  }

  datatype Run = Run(times: seq<real>, admitted: seq<real>)

  function RunOf(requests: seq<Request>, threshold: int, noting: bool): Run {
    if requests == [] then Run([], []) else
    var before := RunOf(requests[..|requests| - 1], threshold, noting);
    var r := requests[|requests| - 1];
    var served := Serve(before.times, threshold, noting, r);
    Run(served.times, before.admitted + (if served.admitted then [r.askedAt] else []))
  }

  predicate InOrder(requests: seq<Request>) {
    && (forall i :: 0 <= i < |requests| ==> requests[i].askedAt <= requests[i].notedAt)
    && (forall i, j :: 0 <= i < j < |requests| ==> requests[i].notedAt <= requests[j].askedAt)
  }

  function Cost(noting: bool): nat {
    if noting then 2 else 1
  }

  /** A run by its last request. */
  lemma RunStep(requests: seq<Request>, threshold: int, noting: bool) returns (before: Run, served: Served)
    requires requests != []
    ensures before == RunOf(requests[..|requests| - 1], threshold, noting)
    ensures served == Serve(before.times, threshold, noting, requests[|requests| - 1])
    ensures RunOf(requests, threshold, noting).times == served.times
    ensures RunOf(requests, threshold, noting).admitted ==
            before.admitted + (if served.admitted then [requests[|requests| - 1].askedAt] else [])
  {
    before := RunOf(requests[..|requests| - 1], threshold, noting);
    served := Serve(before.times, threshold, noting, requests[|requests| - 1]);
  }

  lemma ServeRecords(times: seq<real>, threshold: int, noting: bool, r: Request, start: real)
    requires r.askedAt <= r.notedAt
    ensures var served := Serve(times, threshold, noting, r);
            |From(served.times, start)| >= |From(times, start)| + (if served.admitted && r.askedAt >= start then Cost(noting) else 0)
  {
    FromSnoc(times, r.askedAt, start);
    FromSnoc(times + [r.askedAt], r.notedAt, start);
  }

  /** Every admitted request left `Cost` entries not before its own time. */
  lemma {:induction false} AdmittedAreRecorded(requests: seq<Request>, threshold: int, noting: bool, start: real)
    requires InOrder(requests)
    ensures Cost(noting) * |From(RunOf(requests, threshold, noting).admitted, start)|
         <= |From(RunOf(requests, threshold, noting).times, start)|
  {
    if requests != [] {
      var r := requests[|requests| - 1];
      var before, served := RunStep(requests, threshold, noting);
      AdmittedAreRecorded(requests[..|requests| - 1], threshold, noting, start);
      ServeRecords(before.times, threshold, noting, r, start);
      FromSnoc(before.admitted, r.askedAt, start);
      assert before.admitted + [] == before.admitted;
    }
  }

  lemma CountClosedSnoc(ts: seq<real>, last: real, start: real, length: real)
    ensures CountClosed(ts + [last], start, length) ==
            CountClosed(ts, start, length) + (if start <= last <= start + length then 1 else 0)
  {
    assert (ts + [last])[..|ts|] == ts;
  }

  lemma ServedHadRoom(times: seq<real>, threshold: int, noting: bool, r: Request)
    requires Serve(times, threshold, noting, r).admitted
    ensures |From(times, r.askedAt - WINDOW)| + 1 <= threshold
  {
    FromSnoc(times, r.askedAt, r.askedAt - WINDOW);
  }

  /** How much of the threshold is left for a request admitted inside a window. */
  lemma AdmittedHadRoom(times: seq<real>, threshold: int, noting: bool, r: Request, start: real)
    requires Serve(times, threshold, noting, r).admitted && start <= r.askedAt <= start + WINDOW
    ensures |From(times, start)| + 1 <= threshold
  {
    ServedHadRoom(times, threshold, noting, r);
    FromLater(times, r.askedAt - WINDOW, start);
  }

  /** The requests admitted in the window before one that is admitted too. */
  lemma AdmittedBefore(init: seq<Request>, threshold: nat, noting: bool, r: Request, start: real)
    requires InOrder(init) && start <= r.askedAt <= start + WINDOW
    requires Serve(RunOf(init, threshold, noting).times, threshold, noting, r).admitted
    ensures var admitted := CountClosed(RunOf(init, threshold, noting).admitted, start, WINDOW);
            if noting then 2 * admitted + 1 <= threshold else admitted + 1 <= threshold
  {
    var before := RunOf(init, threshold, noting);
    AdmittedAreRecorded(init, threshold, noting, start);
    ClosedWithinFrom(before.admitted, start, WINDOW);
    AdmittedHadRoom(before.times, threshold, noting, r, start);
  }

  /** A route that only asks admits at most the threshold in any closed minute. The invocation
      route counts an admitted call twice, so it admits at most half the threshold, rounded up. */
  lemma {:induction false} AdmittedPerMinute(requests: seq<Request>, threshold: nat, noting: bool, start: real)
    requires InOrder(requests) && threshold >= 1
    ensures var admitted := CountClosed(RunOf(requests, threshold, noting).admitted, start, 60.0);
            if noting then admitted <= (threshold + 1) / 2 else admitted <= threshold
  {
    if requests != [] {
      var init, r := requests[..|requests| - 1], requests[|requests| - 1];
      var before, served := RunStep(requests, threshold, noting);
      AdmittedPerMinute(init, threshold, noting, start);
      CountClosedSnoc(before.admitted, r.askedAt, start, WINDOW);
      assert before.admitted + [] == before.admitted;
      if served.admitted && start <= r.askedAt <= start + WINDOW {
        AdmittedBefore(init, threshold, noting, r, start);
      }
    }
  }

  /** Requests at one instant. */
  function Burst(n: nat): (r: seq<Request>)
    ensures |r| == n && forall i :: 0 <= i < n ==> r[i] == Request(0.0, 0.0)
  {
    if n == 0 then [] else Burst(n - 1) + [Request(0.0, 0.0)]
  }

  lemma RoomForOne(run: Run, threshold: int, noting: bool, served: Served)
    requires |run.times| < threshold && served == Serve(run.times, threshold, noting, Request(0.0, 0.0))
    ensures served.admitted && |served.times| == |run.times| + Cost(noting)
    ensures CountClosed(run.admitted + [0.0], 0.0, WINDOW) == CountClosed(run.admitted, 0.0, WINDOW) + 1
  {
    FromIsShorter(run.times + [0.0], 0.0 - WINDOW);
    CountClosedSnoc(run.admitted, 0.0, 0.0, WINDOW);
  }

  ghost predicate AllAdmitted(run: Run, n: nat, noting: bool) {
    |run.times| == (if noting then 2 * n else n) && CountClosed(run.admitted, 0.0, WINDOW) == n
  }

  lemma {:induction false} BurstRun(n: nat, threshold: nat, noting: bool)
    requires if noting then n <= (threshold + 1) / 2 else n <= threshold
    ensures AllAdmitted(RunOf(Burst(n), threshold, noting), n, noting)
  {
    if n > 0 {
      BurstRun(n - 1, threshold, noting);
      var before, served := RunStep(Burst(n), threshold, noting);
      assert Burst(n)[..n - 1] == Burst(n - 1);
      RoomForOne(before, threshold, noting, served);
    }
  }

  /** Both bounds are reached: that many requests at one instant are all admitted. */
  lemma BurstIsAdmitted(n: nat, threshold: nat, noting: bool)
    requires if noting then n <= (threshold + 1) / 2 else n <= threshold
    ensures InOrder(Burst(n))
    ensures CountClosed(RunOf(Burst(n), threshold, noting).admitted, 0.0, 60.0) == n
  {
    BurstRun(n, threshold, noting);
  }

  lemma {:induction false} FromIsShorter(ts: seq<real>, start: real)
    ensures |From(ts, start)| <= |ts|
  {
    if ts != [] {
      FromIsShorter(ts[..|ts| - 1], start);
    }
  }
}
