/** Login attempts as the routes make them: the check and the note are steps of their own, with
    the verification of the password between them, so that attempts overlap. What the limiter
    guarantees depends on how many attempts of a key are in flight at once. */
module LoginRuns {
  import opened LoginLimiter

  /** `Ask` is the check: unless it answers that the key is limited, an attempt begins.
      `Answer` notes the result of an attempt; some attempts end without a note. */
  datatype Step =
    | Ask(key: string, time: int)
    | Answer(attempt: nat, success: bool, time: int)
    | Leave(attempt: nat)

  /** Everything noted, and the attempts in flight with their keys. */
  datatype State = State(log: seq<Note>, open: map<nat, string>, next: nat, now: int)

  function Init(now: int): State {
    State([], map[], 0, now)
  }

  predicate Enabled(s: State, step: Step) {
    match step
    case Ask(_, time) => s.now <= time
    case Answer(a, _, time) => a in s.open && s.now <= time
    case Leave(a) => a in s.open
  }

  function Apply(c: Limits, s: State, step: Step): State
    requires Enabled(s, step)
  {
    match step
    case Ask(key, time) =>
      if Limited(c, s.log, key, time) then s.(now := time)
      else s.(open := s.open[s.next := key], next := s.next + 1, now := time)
    case Answer(a, success, time) =>
      s.(log := s.log + [Note(s.open[a], success, time)], open := s.open - {a}, now := time)
    case Leave(a) => s.(open := s.open - {a})
  }

  /** The attempts of a key that are in flight. */
  function Open(s: State, key: string): set<nat> {
    OfKey(s.open, key)
  }

  function OfKey(open: map<nat, string>, key: string): set<nat> {
    set a | a in open && open[a] == key
  }

  /** `states` is a run over `steps` in which never more than `m` attempts of the key are in
      flight. */
  ghost predicate IsRun(c: Limits, states: seq<State>, steps: seq<Step>, key: string, m: nat) {
    && Configured(c)
    && |states| == |steps| + 1
    && states[0] == Init(states[0].now)
    && forall i :: 0 <= i < |steps| ==> StepAt(c, states, steps, key, m, i)
  }

  ghost predicate StepAt(c: Limits, states: seq<State>, steps: seq<Step>, key: string, m: nat, i: int)
    requires |states| == |steps| + 1 && 0 <= i < |steps|
  {
    Enabled(states[i], steps[i]) && states[i + 1] == Apply(c, states[i], steps[i]) && |Open(states[i + 1], key)| <= m
  }

  /** The failures of the current streak of a key at the end of a run. */
  function Streak(states: seq<State>, key: string): seq<int>
    requires states != []
  {
    Failures(states[|states| - 1].log, key)
  }

  // ---------------------------------------------------------------------------
  // Times
  // ---------------------------------------------------------------------------

  predicate Sorted(ts: seq<int>) {
    forall i, j :: 0 <= i < j < |ts| ==> ts[i] <= ts[j]
  }

  predicate AtMost(ts: seq<int>, bound: int) {
    forall i :: 0 <= i < |ts| ==> ts[i] <= bound
  }

  /** How many of the times lie in the closed window from `start` to `start + length`. */
  function CountIn(ts: seq<int>, start: int, length: nat): nat {
    if ts == [] then 0 else
    var last := ts[|ts| - 1];
    CountIn(ts[..|ts| - 1], start, length) + (if start <= last <= start + length then 1 else 0)
  }

  lemma {:induction false} CountSpans(ts: seq<int>, start: int, length: nat) returns (first: nat, last: nat)
    requires CountIn(ts, start, length) > 0
    ensures first + CountIn(ts, start, length) - 1 <= last < |ts|
    ensures start <= ts[first] && ts[last] <= start + length
  {
    var n := |ts| - 1;
    if start <= ts[n] <= start + length {
      first, last := n, n;
      if CountIn(ts[..n], start, length) > 0 {
        var l;
        first, l := CountSpans(ts[..n], start, length);
      }
    } else {
      first, last := CountSpans(ts[..n], start, length);
    }
  }

  lemma {:induction false} AllWithin(ts: seq<int>, now: int, window: nat, from: nat)
    requires Sorted(ts) && from <= |ts|
    requires from < |ts| ==> now - ts[from] <= window
    ensures |Within(ts, now, window)| >= |ts| - from
  {
    if from < |ts| {
      AllWithin(ts[..|ts| - 1], now, window, from);
    }
  }

  // ---------------------------------------------------------------------------
  // How attempts in flight hold back a streak
  // ---------------------------------------------------------------------------

  /** Until `wait` has passed since the failure number `i` (from zero), the failures of the
      streak and the attempts in flight make at most `i + gap`. */
  predicate Held(fs: seq<int>, open: nat, now: int, i: nat, wait: nat, gap: nat)
    requires i < |fs|
  {
    now - fs[i] < wait ==> |fs| + open <= i + gap
  }

  /** The failure `gap` places after number `i` comes at least `wait` later. */
  predicate Apart(fs: seq<int>, i: nat, wait: nat, gap: nat)
    requires i < |fs|
  {
    i + gap < |fs| ==> fs[i + gap] - fs[i] >= wait
  }

  /** What the window demands of failure number `i`. */
  predicate WindowHeldAt(c: Limits, m: nat, fs: seq<int>, open: nat, now: int, i: nat)
    requires c.attempts >= 1 && i < |fs|
  {
    var wait, gap := c.window + 1, c.attempts - 1 + m;
    Held(fs, open, now, i, wait, gap) && Apart(fs, i, wait, gap)
  }

  /** What the backoff demands of it, if the streak had reached the limit with it. */
  predicate BackoffHeldAt(c: Limits, m: nat, fs: seq<int>, open: nat, now: int, i: nat)
    requires c.attempts >= 1 && c.attempts - 1 <= i < |fs|
  {
    var wait := Backoff(c, i + 1);
    Held(fs, open, now, i, wait, m) && Apart(fs, i, wait, m)
  }

  ghost predicate WindowHeld(c: Limits, m: nat, fs: seq<int>, open: nat, now: int)
    requires c.attempts >= 1
  {
    forall i :: 0 <= i < |fs| ==> WindowHeldAt(c, m, fs, open, now, i)
  }

  ghost predicate BackoffHeld(c: Limits, m: nat, fs: seq<int>, open: nat, now: int)
    requires c.attempts >= 1
  {
    forall i :: c.attempts - 1 <= i < |fs| ==> BackoffHeldAt(c, m, fs, open, now, i)
  }

  ghost predicate Inv(c: Limits, m: nat, s: State, key: string)
    requires c.attempts >= 1
  {
    var fs := Failures(s.log, key);
    && Sorted(fs) && AtMost(fs, s.now)
    && |Open(s, key)| <= m
    && (forall a :: a in s.open ==> a < s.next)
    && WindowHeld(c, m, fs, |Open(s, key)|, s.now)
    && BackoffHeld(c, m, fs, |Open(s, key)|, s.now)
  }

  /** Time passes and attempts end without a failure. */
  lemma HeldLater(c: Limits, m: nat, fs: seq<int>, open: nat, now: int, open': nat, later: int)
    requires c.attempts >= 1 && open' <= open && now <= later
    requires WindowHeld(c, m, fs, open, now) && BackoffHeld(c, m, fs, open, now)
    ensures WindowHeld(c, m, fs, open', later) && BackoffHeld(c, m, fs, open', later)
  {
    forall i | 0 <= i < |fs|
      ensures WindowHeldAt(c, m, fs, open', later, i)
    {
      assert WindowHeldAt(c, m, fs, open, now, i);
    }
    forall i | c.attempts - 1 <= i < |fs|
      ensures BackoffHeldAt(c, m, fs, open', later, i)
    {
      assert BackoffHeldAt(c, m, fs, open, now, i);
    }
  }

  /** One attempt in flight fails: the failure takes its place. */
  lemma HeldWhenNoted(fs: seq<int>, open: nat, now: int, time: int, i: nat, wait: nat, gap: nat)
    requires i < |fs| && now <= time && open >= 1 && AtMost(fs, now)
    requires Held(fs, open, now, i, wait, gap) && Apart(fs, i, wait, gap)
    ensures Held(fs + [time], open - 1, time, i, wait, gap) && Apart(fs + [time], i, wait, gap)
  {
  }

  lemma WindowHeldWhenNoted(c: Limits, m: nat, fs: seq<int>, open: nat, now: int, time: int)
    requires c.attempts >= 1 && now <= time && 1 <= open <= m && AtMost(fs, now)
    requires WindowHeld(c, m, fs, open, now)
    ensures WindowHeld(c, m, fs + [time], open - 1, time)
  {
    var fs', open' := fs + [time], open - 1;
    forall i | 0 <= i < |fs'|
      ensures WindowHeldAt(c, m, fs', open', time, i)
    {
      if i < |fs| {
        assert WindowHeldAt(c, m, fs, open, now, i);
        HeldWhenNoted(fs, open, now, time, i, c.window + 1, c.attempts - 1 + m);
      }
    }
  }

  lemma BackoffHeldWhenNoted(c: Limits, m: nat, fs: seq<int>, open: nat, now: int, time: int)
    requires c.attempts >= 1 && now <= time && 1 <= open <= m && AtMost(fs, now)
    requires BackoffHeld(c, m, fs, open, now)
    ensures BackoffHeld(c, m, fs + [time], open - 1, time)
  {
    var fs', open' := fs + [time], open - 1;
    forall i | c.attempts - 1 <= i < |fs'|
      ensures BackoffHeldAt(c, m, fs', open', time, i)
    {
      if i < |fs| {
        assert BackoffHeldAt(c, m, fs, open, now, i);
        HeldWhenNoted(fs, open, now, time, i, Backoff(c, i + 1), m);
      }
    }
  }

  lemma {:induction false} BackoffGrows(c: Limits, j: nat, k: nat)
    requires Configured(c) && c.attempts <= j <= k
    ensures Backoff(c, j) <= Backoff(c, k)
    decreases k
  {
    if j < k {
      BackoffGrows(c, j, k - 1);
      TwiceAsLong(c.base, Pow2(k - 1 - c.attempts));
    }
  }

  /** A check that answers no found few failures in the window, and the backoff over. */
  lemma HeldWhenAsked(c: Limits, m: nat, fs: seq<int>, open: nat, now: int, time: int)
    requires Configured(c) && now <= time && Sorted(fs) && open + 1 <= m
    requires |Within(fs, time, c.window)| < c.attempts
    requires |fs| >= c.attempts ==> time - fs[|fs| - 1] >= Backoff(c, |fs|)
    requires WindowHeld(c, m, fs, open, now) && BackoffHeld(c, m, fs, open, now)
    ensures WindowHeld(c, m, fs, open + 1, time) && BackoffHeld(c, m, fs, open + 1, time)
  {
    var open' := open + 1;
    forall i | 0 <= i < |fs|
      ensures WindowHeldAt(c, m, fs, open', time, i)
    {
      assert WindowHeldAt(c, m, fs, open, now, i);
      if time - fs[i] <= c.window {
        AllWithin(fs, time, c.window, i);
      }
    }
    forall i | c.attempts - 1 <= i < |fs|
      ensures BackoffHeldAt(c, m, fs, open', time, i)
    {
      assert BackoffHeldAt(c, m, fs, open, now, i);
      BackoffGrows(c, i + 1, |fs|);
      assert fs[i] <= fs[|fs| - 1];
    }
  }

  // ---------------------------------------------------------------------------
  // Every step keeps it
  // ---------------------------------------------------------------------------

  lemma OneMoreOpen(open: map<nat, string>, a: nat, k: string, key: string)
    requires a !in open
    ensures |OfKey(open[a := k], key)| == |OfKey(open, key)| + (if k == key then 1 else 0)
  {
    assert open[a := k] - {a} == open;
    OneLessOpen(open[a := k], a, key);
  }

  lemma OneLessOpen(open: map<nat, string>, a: nat, key: string)
    requires a in open
    ensures |OfKey(open - {a}, key)| == |OfKey(open, key)| - (if open[a] == key then 1 else 0)
    ensures open[a] == key ==> |OfKey(open, key)| >= 1
  {
    if open[a] == key {
      assert a in OfKey(open, key);
      assert OfKey(open - {a}, key) == OfKey(open, key) - {a};
    } else {
      assert OfKey(open - {a}, key) == OfKey(open, key);
    }
  }

  lemma AskKeepsInv(c: Limits, m: nat, s: State, step: Step, key: string)
    requires Configured(c) && Inv(c, m, s, key) && step.Ask? && Enabled(s, step)
    requires |Open(Apply(c, s, step), key)| <= m
    ensures Inv(c, m, Apply(c, s, step), key)
  {
    var fs := Failures(s.log, key);
    var open := |Open(s, key)|;
    if Limited(c, s.log, step.key, step.time) {
      HeldLater(c, m, fs, open, s.now, open, step.time);
    } else {
      OneMoreOpen(s.open, s.next, step.key, key);
      if step.key == key {
        HeldWhenAsked(c, m, fs, open, s.now, step.time);
      } else {
        HeldLater(c, m, fs, open, s.now, open, step.time);
      }
    }
  }

  lemma AnswerKeepsInv(c: Limits, m: nat, s: State, step: Step, key: string)
    requires Configured(c) && Inv(c, m, s, key) && step.Answer? && Enabled(s, step)
    ensures Inv(c, m, Apply(c, s, step), key)
  {
    var s' := Apply(c, s, step);
    var fs := Failures(s.log, key);
    var open := |Open(s, key)|;
    FailuresSnoc(s.log, Note(s.open[step.attempt], step.success, step.time), key);
    OneLessOpen(s.open, step.attempt, key);
    if s.open[step.attempt] != key {
      HeldLater(c, m, fs, open, s.now, open, step.time);
    } else if !step.success {
      WindowHeldWhenNoted(c, m, fs, open, s.now, step.time);
      BackoffHeldWhenNoted(c, m, fs, open, s.now, step.time);
    }
  }

  lemma LeaveKeepsInv(c: Limits, m: nat, s: State, step: Step, key: string)
    requires Configured(c) && Inv(c, m, s, key) && step.Leave? && Enabled(s, step)
    ensures Inv(c, m, Apply(c, s, step), key)
  {
    OneLessOpen(s.open, step.attempt, key);
    HeldLater(c, m, Failures(s.log, key), |Open(s, key)|, s.now, |Open(Apply(c, s, step), key)|, s.now);
  }

  lemma {:induction false} RunKeepsInv(c: Limits, states: seq<State>, steps: seq<Step>, key: string, m: nat, n: nat)
    requires IsRun(c, states, steps, key, m) && n <= |steps|
    ensures Inv(c, m, states[n], key)
  {
    if n == 0 {
      assert Open(states[0], key) == {};
    } else {
      RunKeepsInv(c, states, steps, key, m, n - 1);
      assert StepAt(c, states, steps, key, m, n - 1);
      match steps[n - 1]
      case Ask(_, _) => AskKeepsInv(c, m, states[n - 1], steps[n - 1], key);
      case Answer(_, _, _) => AnswerKeepsInv(c, m, states[n - 1], steps[n - 1], key);
      case Leave(_) => LeaveKeepsInv(c, m, states[n - 1], steps[n - 1], key);
    }
  }

  // ---------------------------------------------------------------------------
  // Attempts that begin
  // ---------------------------------------------------------------------------

  /** The window holds fewer failures than allowed, and the wait since the last one has passed. */
  predicate Free(c: Limits, fs: seq<int>, time: int)
    requires c.attempts >= 1
  {
    Recent(fs, time, c.window) < c.attempts && (|fs| >= c.attempts ==> time >= fs[|fs| - 1] + Wait(c, |fs|))
  }

  /** A check lets an attempt begin if and only if the window holds fewer failures of the streak
      than allowed, and the wait since its last failure has passed. */
  lemma AskOpensIff(c: Limits, s: State, key: string, time: int)
    requires Configured(c) && s.now <= time
    ensures Apply(c, s, Ask(key, time)).log == s.log
    ensures Apply(c, s, Ask(key, time)).open ==
            if Free(c, Failures(s.log, key), time) then s.open[s.next := key] else s.open
  {
    LimitedIffHeldBack(c, s.log, key, time);
  }

  /** More than a window and at least the maximal wait have passed since the last failure. */
  predicate Quiet(c: Limits, fs: seq<int>, time: int) {
    fs == [] || (time - fs[|fs| - 1] > c.window && time - fs[|fs| - 1] >= c.maxBackoff)
  }

  /** In every run an attempt can begin once the key has been quiet for more than a window and at
      least the maximal wait. */
  lemma QuietAttemptBegins(c: Limits, states: seq<State>, steps: seq<Step>, key: string, m: nat, time: int)
    requires IsRun(c, states, steps, key, m) && states[|steps|].now <= time
    requires Quiet(c, Streak(states, key), time)
    ensures var s := states[|steps|]; Apply(c, s, Ask(key, time)).open == s.open[s.next := key]
  {
    RunKeepsInv(c, states, steps, key, m, |steps|);
    QuietLetsGo(c, states[|steps|].log, key, time);
  }

  // ---------------------------------------------------------------------------
  // The bounds
  // ---------------------------------------------------------------------------

  /** With at most `m` attempts in flight, any failure is more than a window before the one
      `attempts + m - 1` places after it, and from the limit on at least a backoff before the
      one `m` places after it. */
  lemma StreaksAreSpaced(c: Limits, states: seq<State>, steps: seq<Step>, key: string, m: nat, i: nat)
    requires IsRun(c, states, steps, key, m) && i < |Streak(states, key)|
    ensures Apart(Streak(states, key), i, c.window + 1, c.attempts - 1 + m)
    ensures i >= c.attempts - 1 ==> Apart(Streak(states, key), i, Backoff(c, i + 1), m)
  {
    RunKeepsInv(c, states, steps, key, m, |steps|);
    var s := states[|steps|];
    assert WindowHeldAt(c, m, Streak(states, key), |Open(s, key)|, s.now, i);
    if i >= c.attempts - 1 {
      assert BackoffHeldAt(c, m, Streak(states, key), |Open(s, key)|, s.now, i);
    }
  }

  /** No closed window holds more failures of one streak than that. */
  lemma WindowHoldsAtMost(c: Limits, states: seq<State>, steps: seq<Step>, key: string, m: nat, start: int)
    requires IsRun(c, states, steps, key, m)
    ensures CountIn(Streak(states, key), start, c.window) <= c.attempts - 1 + m
  {
    var fs := Streak(states, key);
    RunKeepsInv(c, states, steps, key, m, |steps|);
    if CountIn(fs, start, c.window) > c.attempts - 1 + m {
      var first, last := CountSpans(fs, start, c.window);
      StreaksAreSpaced(c, states, steps, key, m, first);
      assert false;
    }
  }

  /** The waits before every `m`-th failure of a streak that has reached the limit. */
  function Waits(c: Limits, m: nat, j: nat): nat {
    if j == 0 then 0 else Waits(c, m, j - 1) + Min(c.base * Pow2((j - 1) * m), c.maxBackoff)
  }

  /** From the failure that reaches the limit to the one `j * m` places after it at least the
      sum of `j` waits passes, each for `m` more failures. */
  lemma {:induction false} BackoffAddsUp(c: Limits, states: seq<State>, steps: seq<Step>, key: string, m: nat, j: nat)
    requires IsRun(c, states, steps, key, m) && c.attempts + j * m <= |Streak(states, key)|
    ensures var fs := Streak(states, key); fs[c.attempts - 1 + j * m] - fs[c.attempts - 1] >= Waits(c, m, j)
  {
    if j > 0 {
      assert j * m == (j - 1) * m + m;
      BackoffAddsUp(c, states, steps, key, m, j - 1);
      StreaksAreSpaced(c, states, steps, key, m, c.attempts - 1 + (j - 1) * m);
    }
  }

  lemma {:induction false} Pow2Sum(a: nat, b: nat)
    ensures Pow2(a + b) == Pow2(a) * Pow2(b)
  {
    if b > 0 {
      Pow2Sum(a, b - 1);
      assert Pow2(a) * Pow2(b) == Pow2(a) * (2 * Pow2(b - 1)) == 2 * (Pow2(a) * Pow2(b - 1));
    }
  }

  lemma {:induction false} Pow2Grows(a: nat, b: nat)
    requires a <= b
    ensures 1 <= Pow2(a) <= Pow2(b)
  {
    if a < b { Pow2Grows(a, b - 1); } else if a > 0 { Pow2Grows(a - 1, b - 1); }
  }

  lemma Scaled(base: nat, p: nat, q: nat)
    requires p <= q
    ensures base * p <= base * q
  {
  }

  lemma OneMoreTime(j: nat, m: nat)
    requires j > 0
    ensures j * m == (j - 1) * m + m
  {
  }

  lemma OneMoreWait(c: Limits, m: nat, j: nat)
    requires j > 0 && c.base * Pow2((j - 1) * m) <= c.maxBackoff
    ensures Waits(c, m, j) == Waits(c, m, j - 1) + c.base * Pow2((j - 1) * m)
  {
  }

  lemma EarlierIsShorter(c: Limits, m: nat, j: nat)
    requires j > 1
    ensures c.base * Pow2((j - 2) * m) <= c.base * Pow2((j - 1) * m)
  {
    OneMoreTime(j - 1, m);
    Pow2Grows((j - 2) * m, (j - 1) * m);
    Scaled(c.base, Pow2((j - 2) * m), Pow2((j - 1) * m));
  }

  /** Below the cap the waits are a geometric series: for attempts one at a time they add up to
      `base * (2^j - 1)`. */
  lemma {:induction false} WaitsBelowCap(c: Limits, m: nat, j: nat)
    requires j > 0 ==> c.base * Pow2((j - 1) * m) <= c.maxBackoff
    ensures Waits(c, m, j) * (Pow2(m) - 1) == c.base * (Pow2(j * m) - 1)
  {
    if j > 0 {
      if j > 1 { EarlierIsShorter(c, m, j); }
      WaitsBelowCap(c, m, j - 1);
      OneMoreWait(c, m, j);
      OneMoreTime(j, m);
      Pow2Sum((j - 1) * m, m);
      GeometricStep(Waits(c, m, j - 1), c.base, Pow2((j - 1) * m), Pow2(m));
    }
  }

  lemma GeometricStep(sum: nat, base: nat, p: nat, q: nat)
    requires sum * (q - 1) == base * (p - 1)
    ensures (sum + base * p) * (q - 1) == base * (p * q - 1)
  {
    var bp := base * p;
    assert (sum + bp) * (q - 1) == sum * (q - 1) + bp * (q - 1);
    assert bp * (q - 1) == bp * q - bp;
    assert bp * q == base * (p * q);
  }
}
