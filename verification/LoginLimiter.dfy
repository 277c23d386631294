/** The login limiter of the gateway: a sliding window of failures per key and, once a
    streak of failures is long enough, a wait that doubles with each further failure. */
module LoginLimiter {

  datatype Limits = Limits(attempts: nat, window: nat, base: nat, maxBackoff: nat)

  /** The four settings are clamped to at least one when they are read. */
  predicate Configured(c: Limits) {
    c.attempts >= 1 && c.window >= 1 && c.base >= 1 && c.maxBackoff >= 1
  }

  /** One call of `note_login_attempt`. */
  datatype Note = Note(key: string, success: bool, time: int)

  /** The times of the failures noted for a key since its last success. */
  function Failures(log: seq<Note>, key: string): seq<int> {
    if log == [] then [] else
    var last := log[|log| - 1];
    var earlier := Failures(log[..|log| - 1], key);
    if last.key != key then earlier else if last.success then [] else earlier + [last.time]
  }

  /** Those of the times that lie in the closed window that ends now. */
  function Within(times: seq<int>, now: int, window: nat): (r: seq<int>)
    ensures |r| <= |times|
  {
    if times == [] then [] else
    var last := times[|times| - 1];
    Within(times[..|times| - 1], now, window) + (if now - last <= window then [last] else [])
  }

  function Pow2(n: nat): nat {
    if n == 0 then 1 else 2 * Pow2(n - 1)
  }

  function Min(a: nat, b: nat): nat {
    if a <= b then a else b
  }

  /** The wait after the `k`-th failure in a row. */
  function Backoff(c: Limits, k: nat): nat
    requires k >= c.attempts
  {
    Min(c.base * Pow2(k - c.attempts), c.maxBackoff)
  }

  /** The limiter's answer in terms of everything that was ever noted. */
  predicate Limited(c: Limits, log: seq<Note>, key: string, now: int) {
    var fs := Failures(log, key);
    || |Within(fs, now, c.window)| >= c.attempts
    || (|fs| >= c.attempts && |fs| > 0 && now - fs[|fs| - 1] < Backoff(c, |fs|))
  }

  /** How many of the times are at most a window ago. */
  function Recent(times: seq<int>, now: int, window: nat): nat {
    if times == [] then 0 else
    Recent(times[..|times| - 1], now, window) + (if times[|times| - 1] >= now - window then 1 else 0)
  }

  /** The wait doubles with each failure of the streak after the first `attempts`, up to the
      configured maximum. */
  function Wait(c: Limits, k: nat): nat
    requires k >= c.attempts
  {
    var doubled := if k == c.attempts then c.base else 2 * Wait(c, k - 1);
    if doubled <= c.maxBackoff then doubled else c.maxBackoff
  }

  /** A key is held back while the window holds as many failures as are allowed, or while the wait
      since its last failure has not passed; and no longer. */
  predicate HeldBack(c: Limits, log: seq<Note>, key: string, now: int) {
    var fs := Failures(log, key);
    || Recent(fs, now, c.window) >= c.attempts
    || (fs != [] && |fs| >= c.attempts && now < fs[|fs| - 1] + Wait(c, |fs|))
  }

  lemma {:induction false} RecentIsWithin(times: seq<int>, now: int, window: nat)
    ensures |Within(times, now, window)| == Recent(times, now, window)
  {
    if times != [] {
      RecentIsWithin(times[..|times| - 1], now, window);
    }
  }

  lemma TwiceAsLong(base: nat, p: nat)
    ensures base * (2 * p) == 2 * (base * p)
  {
  }

  lemma {:induction false} BackoffIsWait(c: Limits, k: nat)
    requires Configured(c) && k >= c.attempts
    ensures Backoff(c, k) == Wait(c, k)
    decreases k
  {
    if k > c.attempts {
      BackoffIsWait(c, k - 1);
      TwiceAsLong(c.base, Pow2(k - 1 - c.attempts));
    }
  }

  lemma LimitedIffHeldBack(c: Limits, log: seq<Note>, key: string, now: int)
    requires Configured(c)
    ensures Limited(c, log, key, now) <==> HeldBack(c, log, key, now)
  {
    RecentIsWithin(Failures(log, key), now, c.window);
    if |Failures(log, key)| >= c.attempts { BackoffIsWait(c, |Failures(log, key)|); }
  }

  lemma {:induction false} WaitIsCapped(c: Limits, k: nat)
    requires Configured(c) && k >= c.attempts
    ensures Wait(c, k) <= c.maxBackoff
    ensures c.base >= c.maxBackoff ==> Wait(c, k) == c.maxBackoff
  {
    if k > c.attempts { WaitIsCapped(c, k - 1); }
  }

  lemma {:induction false} NoneRecent(times: seq<int>, now: int, window: nat)
    requires forall i :: 0 <= i < |times| ==> times[i] < now - window
    ensures Recent(times, now, window) == 0
  {
    if times != [] { NoneRecent(times[..|times| - 1], now, window); }
  }

  /** However long the streak, a key is let go once more than a window and at least the maximal
      wait have passed since its last failure. */
  lemma QuietLetsGo(c: Limits, log: seq<Note>, key: string, now: int)
    requires Configured(c)
    requires forall i :: 0 <= i < |Failures(log, key)| ==>
               Failures(log, key)[i] < now - c.window && Failures(log, key)[i] <= now - c.maxBackoff
    ensures !Limited(c, log, key, now)
  {
    var fs := Failures(log, key);
    LimitedIffHeldBack(c, log, key, now);
    NoneRecent(fs, now, c.window);
    if |fs| >= c.attempts { WaitIsCapped(c, |fs|); }
  }

  /** The failures noted for a key, and none of its successes. */
  function FailedNotes(log: seq<Note>, key: string): seq<int> {
    if log == [] then [] else
    FailedNotes(log[..|log| - 1], key) +
      (if log[|log| - 1].key == key && !log[|log| - 1].success then [log[|log| - 1].time] else [])
  }

  /** `log[n]` is a success of the key and the last one. */
  predicate LastSuccess(log: seq<Note>, key: string, n: nat) {
    n < |log| && log[n].key == key && log[n].success && NoSuccess(log[n + 1..], key)
  }

  predicate NoSuccess(log: seq<Note>, key: string) {
    forall i :: 0 <= i < |log| && log[i].key == key ==> !log[i].success
  }

  lemma {:induction false} WholeStreak(log: seq<Note>, key: string)
    requires NoSuccess(log, key)
    ensures Failures(log, key) == FailedNotes(log, key)
  {
    if log != [] {
      WholeStreak(log[..|log| - 1], key);
    }
  }

  /** The streak is what failed since the last success, wherever that was. */
  lemma {:induction false} StreakSinceSuccess(log: seq<Note>, key: string, n: nat)
    requires LastSuccess(log, key, n)
    ensures Failures(log, key) == FailedNotes(log[n + 1..], key)
  {
    var m := |log| - 1;
    if n < m {
      assert log[n + 1..][..m - n - 1] == log[..m][n + 1..];
      var behind := log[..m][n + 1..];
      forall i | 0 <= i < |behind| && behind[i].key == key ensures !behind[i].success {
        assert behind[i] == log[n + 1..][i];
      }
      StreakSinceSuccess(log[..m], key, n);
      assert log[n + 1..][m - n - 1] == log[m];
    }
  }

  lemma {:induction false} WithinLater(times: seq<int>, now: int, later: int, window: nat)
    requires now <= later
    ensures Within(Within(times, now, window), later, window) == Within(times, later, window)
  {
    if times != [] {
      var init, last := times[..|times| - 1], times[|times| - 1];
      WithinLater(init, now, later, window);
      if now - last <= window {
        WithinSnoc(Within(init, now, window), last, later, window);
      } else {
        assert Within(init, now, window) + [] == Within(init, now, window);
      }
    }
  }

  lemma WithinSnoc(times: seq<int>, last: int, now: int, window: nat)
    ensures Within(times + [last], now, window) == Within(times, now, window) + (if now - last <= window then [last] else [])
  {
    assert (times + [last])[..|times|] == times;
  }

  lemma FailuresSnoc(log: seq<Note>, n: Note, key: string)
    ensures Failures(log + [n], key) ==
            if n.key != key then Failures(log, key) else if n.success then [] else Failures(log, key) + [n.time]
  {
    assert (log + [n])[..|log|] == log;
  }

  /** What the limiter keeps about a key: pruned failure times, length of the streak, time of
      its last failure. */
  datatype KeyState = KeyState(attempts: seq<int>, streak: nat, last: int)

  /** The state stands for the whole log, as far as any question from `clock` on goes. */
  ghost predicate StandsFor(st: KeyState, c: Limits, log: seq<Note>, key: string, clock: int) {
    var fs := Failures(log, key);
    && Within(st.attempts, clock, c.window) == Within(fs, clock, c.window)
    && st.streak == |fs|
    && (fs != [] ==> st.last == fs[|fs| - 1])
  }

  lemma StandsForLater(st: KeyState, c: Limits, log: seq<Note>, key: string, clock: int, now: int)
    requires StandsFor(st, c, log, key, clock) && clock <= now
    ensures StandsFor(st, c, log, key, now)
    ensures StandsFor(st.(attempts := Within(st.attempts, now, c.window)), c, log, key, now)
  {
    WithinLater(st.attempts, clock, now, c.window);
    WithinLater(Failures(log, key), clock, now, c.window);
    WithinLater(st.attempts, now, now, c.window);
  }

  /** How a note changes the state of its own key. */
  function Noted(st: KeyState, success: bool, now: int): KeyState {
    if success then KeyState([], 0, 0) else KeyState(st.attempts + [now], st.streak + 1, now)
  }

  lemma StandsForNoted(st: KeyState, c: Limits, log: seq<Note>, key: string, clock: int, n: Note)
    requires StandsFor(st, c, log, key, clock) && clock <= n.time
    ensures StandsFor(if n.key == key then Noted(st, n.success, n.time) else st, c, log + [n], key, n.time)
  {
    StandsForLater(st, c, log, key, clock, n.time);
    FailuresSnoc(log, n, key);
    WithinSnoc(st.attempts, n.time, n.time, c.window);
    WithinSnoc(Failures(log, key), n.time, n.time, c.window);
  }

  ghost predicate AllStandFor(states: imap<string, KeyState>, c: Limits, log: seq<Note>, clock: int) {
    forall k :: k in states && StandsFor(states[k], c, log, k, clock)
  }

  lemma AllNoted(before: imap<string, KeyState>, after: imap<string, KeyState>, c: Limits, log: seq<Note>, clock: int, n: Note)
    requires clock <= n.time
    requires AllStandFor(before, c, log, clock) && forall k :: k in after
    requires forall k :: after[k] == if k == n.key then Noted(before[k], n.success, n.time) else before[k]
    ensures AllStandFor(after, c, log + [n], n.time)
  {
    forall k ensures StandsFor(after[k], c, log + [n], k, n.time) {
      StandsForNoted(before[k], c, log, k, clock, n);
    }
  }

  class LoginLimiter {
    const c: Limits
    var attempts: map<string, seq<int>>
    var consecutive: map<string, nat>
    var lastAttempt: map<string, int>
    /** Everything noted so far, and the last clock reading. */
    ghost var log: seq<Note>
    ghost var clock: int

    constructor (c: Limits, ghost now: int)
      requires Configured(c)
      ensures Valid() && log == [] && clock == now && this.c == c
    {
      this.c := c;
      attempts, consecutive, lastAttempt := map[], map[], map[];
      log, clock := [], now;
    }

    function Get(key: string): KeyState
      reads this`attempts, this`consecutive, this`lastAttempt
    {
      KeyState(if key in attempts then attempts[key] else [],
               if key in consecutive then consecutive[key] else 0,
               if key in lastAttempt then lastAttempt[key] else 0)
    }

    ghost predicate Valid()
      reads this
    {
      Configured(c) && AllStandFor(States(), c, log, clock)
    }

    /** `login_rate_limited`: prunes what it looks at, and answers as the whole log would. */
    method LoginRateLimited(key: string, now: int) returns (limited: bool)
      requires Valid() && clock <= now
      modifies this
      ensures Valid() && log == old(log) && clock == now
      ensures limited == Limited(c, log, key, now) == HeldBack(c, log, key, now)
    {
      LimitedIffHeldBack(c, log, key, now);
      var st := Get(key);
      assert st == States()[key];
      StandsForLater(st, c, log, key, clock, now);
      var recent := Within(st.attempts, now, c.window);
      Prune(key, recent, now);
      if |recent| >= c.attempts {
        return true;
      }
      if st.streak >= c.attempts && now - st.last < Backoff(c, st.streak) {
        return true;
      }
      return false;
    }

    method Prune(key: string, recent: seq<int>, ghost now: int)
      requires Valid() && clock <= now
      requires recent == Within(Get(key).attempts, now, c.window)
      modifies this
      ensures Valid() && log == old(log) && clock == now
    {
      ghost var before, read := States(), clock;
      clock := now;
      attempts := attempts[key := recent];
      forall k ensures StandsFor(States()[k], c, log, k, clock) {
        StandsForLater(before[k], c, log, k, read, now);
      }
    }

    /** The dictionary changes of `note_login_attempt`. */
    method Change(key: string, success: bool, now: int)
      modifies this`attempts, this`consecutive, this`lastAttempt
      ensures Get(key) == Noted(old(Get(key)), success, now)
      ensures forall k :: k != key ==> Get(k) == old(Get(k))
    {
      if success {
        attempts := attempts - {key};
        consecutive := consecutive - {key};
        lastAttempt := lastAttempt - {key};
      } else {
        attempts := attempts[key := (if key in attempts then attempts[key] else []) + [now]];
        lastAttempt := lastAttempt[key := now];
        consecutive := consecutive[key := (if key in consecutive then consecutive[key] else 0) + 1];
      }
    }

    /** `note_login_attempt` */
    method NoteLoginAttempt(key: string, success: bool, now: int)
      requires Valid() && clock <= now
      modifies this
      ensures Valid() && log == old(log) + [Note(key, success, now)] && clock == now
    {
      ghost var before, noted, read := States(), log, clock;
      log, clock := log + [Note(key, success, now)], now;
      Change(key, success, now);
      AllNoted(before, States(), c, noted, read, Note(key, success, now));
      assert AllStandFor(States(), c, log, clock);
    }

    /** The states of all keys. */
    ghost function States(): imap<string, KeyState>
      reads this`attempts, this`consecutive, this`lastAttempt
    {
      imap key: string | true :: Get(key)
    }
  }
}
