/** The bounds of the login limiter are met, and exactly when the limits themselves hold. */
module LoginBounds {
  import opened LoginLimiter
  import opened LoginRuns

  lemma FailedNotesSnoc(log: seq<Note>, n: Note, key: string)
    ensures FailedNotes(log + [n], key) == FailedNotes(log, key) + (if n.key == key && !n.success then [n.time] else [])
  {
    assert (log + [n])[..|log|] == log;
  }

  /** The failures of a key at the end of a run. */
  function Noted(states: seq<State>, key: string): seq<int>
    requires states != []
  {
    FailedNotes(states[|states| - 1].log, key)
  }

  // ---------------------------------------------------------------------------
  // Runs at one instant
  // ---------------------------------------------------------------------------

  function Zeros(n: nat): (r: seq<int>)
    ensures |r| == n
  {
    if n == 0 then [] else Zeros(n - 1) + [0]
  }

  lemma {:induction false} CountZeros(n: nat, window: nat)
    ensures CountIn(Zeros(n), 0, window) == n
  {
    if n > 0 {
      CountZeros(n - 1, window);
      assert Zeros(n)[..n - 1] == Zeros(n - 1);
    }
  }

  /** A run at time zero that leads to `fails` failures of the streak, `total` in all, with
      `waiting` attempts in flight. */
  ghost predicate Stage(c: Limits, states: seq<State>, steps: seq<Step>, key: string, m: nat, fails: nat, waiting: nat, total: nat) {
    && IsRun(c, states, steps, key, m)
    && states[|steps|].now == 0
    && (forall a :: a in states[|steps|].open ==> a < states[|steps|].next)
    && |Open(states[|steps|], key)| == waiting
    && Streak(states, key) == Zeros(fails)
    && Noted(states, key) == Zeros(total)
  }

  lemma Extended(c: Limits, states: seq<State>, steps: seq<Step>, key: string, m: nat, step: Step)
    requires IsRun(c, states, steps, key, m)
    requires Enabled(states[|steps|], step) && |Open(Apply(c, states[|steps|], step), key)| <= m
    ensures IsRun(c, states + [Apply(c, states[|steps|], step)], steps + [step], key, m)
  {
    var states', steps' := states + [Apply(c, states[|steps|], step)], steps + [step];
    forall i | 0 <= i < |steps'| ensures StepAt(c, states', steps', key, m, i) {
      if i < |steps| {
        assert StepAt(c, states, steps, key, m, i);
      }
    }
  }

  lemma FirstStage(c: Limits, key: string, m: nat) returns (states: seq<State>, steps: seq<Step>)
    requires Configured(c)
    ensures Stage(c, states, steps, key, m, 0, 0, 0)
  {
    states, steps := [Init(0)], [];
    assert Open(Init(0), key) == {};
  }

  /** Below the limit one more attempt can begin. */
  lemma MoreAsked(c: Limits, states: seq<State>, steps: seq<Step>, key: string, m: nat, fails: nat, waiting: nat, total: nat)
    returns (states': seq<State>, steps': seq<Step>)
    requires Stage(c, states, steps, key, m, fails, waiting, total) && fails < c.attempts && waiting < m
    ensures Stage(c, states', steps', key, m, fails, waiting + 1, total)
  {
    var s := states[|steps|];
    var step := Ask(key, 0);
    assert !Limited(c, s.log, key, 0);
    OneMoreOpen(s.open, s.next, key, key);
    Extended(c, states, steps, key, m, step);
    states', steps' := states + [Apply(c, s, step)], steps + [step];
  }

  /** One of the attempts in flight is noted. */
  lemma MoreAnswered(c: Limits, states: seq<State>, steps: seq<Step>, key: string, m: nat, fails: nat, waiting: nat, total: nat,
                     success: bool)
    returns (states': seq<State>, steps': seq<Step>)
    requires Stage(c, states, steps, key, m, fails, waiting, total) && waiting > 0
    ensures if success then Stage(c, states', steps', key, m, 0, waiting - 1, total)
            else Stage(c, states', steps', key, m, fails + 1, waiting - 1, total + 1)
  {
    var s := states[|steps|];
    assert Open(s, key) != {};
    var a :| a in Open(s, key);
    var step := Answer(a, success, 0);
    FailuresSnoc(s.log, Note(key, success, 0), key);
    FailedNotesSnoc(s.log, Note(key, success, 0), key);
    OneLessOpen(s.open, a, key);
    assert |Open(s, key)| <= m by { RunKeepsInv(c, states, steps, key, m, |steps|); }
    Extended(c, states, steps, key, m, step);
    states', steps' := states + [Apply(c, s, step)], steps + [step];
  }

  /** Failures one after the other, up to the limit. */
  lemma {:induction false} OneAtATime(c: Limits, key: string, m: nat, n: nat) returns (states: seq<State>, steps: seq<Step>)
    requires Configured(c) && m >= 1 && n <= c.attempts
    ensures Stage(c, states, steps, key, m, n, 0, n)
  {
    if n == 0 {
      states, steps := FirstStage(c, key, m);
    } else {
      states, steps := OneAtATime(c, key, m, n - 1);
      states, steps := MoreAsked(c, states, steps, key, m, n - 1, 0, n - 1);
      states, steps := MoreAnswered(c, states, steps, key, m, n - 1, 1, n - 1, false);
    }
  }

  /** One failure short of the limit, `w` attempts pass the check together. */
  lemma {:induction false} Crowd(c: Limits, key: string, m: nat, w: nat) returns (states: seq<State>, steps: seq<Step>)
    requires Configured(c) && m >= 1 && w <= m
    ensures Stage(c, states, steps, key, m, c.attempts - 1, w, c.attempts - 1)
  {
    if w == 0 {
      states, steps := OneAtATime(c, key, m, c.attempts - 1);
    } else {
      states, steps := Crowd(c, key, m, w - 1);
      states, steps := MoreAsked(c, states, steps, key, m, c.attempts - 1, w - 1, c.attempts - 1);
    }
  }

  /** Then `f` of them fail. */
  lemma {:induction false} CrowdFails(c: Limits, key: string, m: nat, f: nat) returns (states: seq<State>, steps: seq<Step>)
    requires Configured(c) && m >= 1 && f <= m
    ensures Stage(c, states, steps, key, m, c.attempts - 1 + f, m - f, c.attempts - 1 + f)
  {
    if f == 0 {
      states, steps := Crowd(c, key, m, m);
    } else {
      states, steps := CrowdFails(c, key, m, f - 1);
      var n := c.attempts - 1 + f - 1;
      states, steps := MoreAnswered(c, states, steps, key, m, n, m - f + 1, n, false);
    }
  }

  /** The window bound is met for every number of attempts in flight. */
  lemma WindowBoundIsMet(c: Limits, key: string, m: nat) returns (states: seq<State>, steps: seq<Step>)
    requires Configured(c) && m >= 1
    ensures IsRun(c, states, steps, key, m)
    ensures CountIn(Streak(states, key), 0, c.window) == c.attempts - 1 + m
    ensures Streak(states, key) == Zeros(c.attempts - 1 + m)
  {
    states, steps := CrowdFails(c, key, m, m);
    CountZeros(c.attempts - 1 + m, c.window);
  }

  // ---------------------------------------------------------------------------
  // When the limits themselves hold
  // ---------------------------------------------------------------------------

  /** In every run no window holds more failures of a streak than the limit. */
  ghost predicate WindowLimitHolds(c: Limits, key: string, m: nat) {
    forall states, steps, start :: IsRun(c, states, steps, key, m) ==>
      CountIn(Streak(states, key), start, c.window) <= c.attempts
  }

  /** In every run each failure beyond the limit comes at least the backoff after the one before. */
  ghost predicate BackoffHolds(c: Limits, key: string, m: nat)
    requires c.attempts >= 1
  {
    forall states, steps :: IsRun(c, states, steps, key, m) ==> BacksOff(c, Streak(states, key))
  }

  ghost predicate BacksOff(c: Limits, fs: seq<int>)
    requires c.attempts >= 1
  {
    forall i :: c.attempts - 1 <= i < |fs| ==> BacksOffAt(c, fs, i)
  }

  predicate BacksOffAt(c: Limits, fs: seq<int>, i: nat)
    requires c.attempts >= 1 && c.attempts - 1 <= i < |fs|
  {
    Apart(fs, i, Backoff(c, i + 1), 1)
  }

  /** Both limits hold exactly if no two attempts of a key are ever in flight together. */
  lemma LimitsHoldIffOneAtATime(c: Limits, key: string, m: nat)
    requires Configured(c)
    ensures WindowLimitHolds(c, key, m) <==> m <= 1
    ensures BackoffHolds(c, key, m) <==> m <= 1
  {
    if m <= 1 {
      forall states, steps, start | IsRun(c, states, steps, key, m)
        ensures CountIn(Streak(states, key), start, c.window) <= c.attempts
      {
        WindowHoldsAtMost(c, states, steps, key, m, start);
      }
      forall states, steps | IsRun(c, states, steps, key, m) ensures BacksOff(c, Streak(states, key)) {
        OneAtATimeBacksOff(c, states, steps, key, m);
      }
    } else {
      var states, steps := WindowBoundIsMet(c, key, m);
      TogetherNotBackedOff(c, c.attempts - 1 + m);
    }
  }

  lemma OneAtATimeBacksOff(c: Limits, states: seq<State>, steps: seq<Step>, key: string, m: nat)
    requires IsRun(c, states, steps, key, m) && m <= 1
    ensures BacksOff(c, Streak(states, key))
  {
    FewerInFlight(c, states, steps, key, m, 1);
    forall i | c.attempts - 1 <= i < |Streak(states, key)| ensures BacksOffAt(c, Streak(states, key), i) {
      StreaksAreSpaced(c, states, steps, key, 1, i);
    }
  }

  lemma TogetherNotBackedOff(c: Limits, n: nat)
    requires Configured(c) && n > c.attempts
    ensures !BacksOff(c, Zeros(n))
  {
    BackoffIsPositive(c, c.attempts);
    ZerosAt(n, c.attempts - 1);
    ZerosAt(n, c.attempts);
    assert !BacksOffAt(c, Zeros(n), c.attempts - 1);
  }

  lemma FewerInFlight(c: Limits, states: seq<State>, steps: seq<Step>, key: string, m: nat, n: nat)
    requires IsRun(c, states, steps, key, m) && m <= n
    ensures IsRun(c, states, steps, key, n)
  {
    forall i | 0 <= i < |steps| ensures StepAt(c, states, steps, key, n, i) {
      assert StepAt(c, states, steps, key, m, i);
    }
  }

  lemma BackoffIsPositive(c: Limits, k: nat)
    requires Configured(c) && k >= c.attempts
    ensures Backoff(c, k) >= 1
  {
    Pow2Grows(0, k - c.attempts);
    Scaled(c.base, 1, Pow2(k - c.attempts));
  }

  lemma {:induction false} ZerosAt(n: nat, i: nat)
    requires i < n
    ensures Zeros(n)[i] == 0
  {
    if i < n - 1 { ZerosAt(n - 1, i); }
  }

  // ---------------------------------------------------------------------------
  // Across successes
  // ---------------------------------------------------------------------------

  predicate GapAt(c: Limits, all: seq<int>, i: nat)
    requires i + 1 < |all|
  {
    all[i + 1] - all[i] > c.window
  }

  ghost predicate Gaps(c: Limits, all: seq<int>) {
    forall i :: 0 <= i < |all| - 1 ==> GapAt(c, all, i)
  }

  /** With a limit of one and one attempt at a time: until a window has passed since the last
      failure the key has neither an attempt in flight nor a success. */
  predicate Clear(c: Limits, all: seq<int>, fs: seq<int>, open: nat, now: int) {
    && open <= 1
    && AtMost(all, now)
    && (all != [] && now - all[|all| - 1] <= c.window ==> open == 0 && fs != [] && fs[|fs| - 1] == all[|all| - 1])
  }

  ghost predicate OneByOne(c: Limits, s: State, key: string) {
    var all := FailedNotes(s.log, key);
    && Sorted(all) && Gaps(c, all)
    && Clear(c, all, Failures(s.log, key), |Open(s, key)|, s.now)
    && (forall a :: a in s.open ==> a < s.next)
  }

  lemma LastWithin(fs: seq<int>, now: int, window: nat)
    requires fs != [] && now - fs[|fs| - 1] <= window
    ensures |Within(fs, now, window)| >= 1
  {
  }

  lemma ClearWhenAsked(c: Limits, all: seq<int>, fs: seq<int>, open: nat, now: int, time: int)
    requires c.attempts == 1 && now <= time && Clear(c, all, fs, open, now) && open == 0
    requires |Within(fs, time, c.window)| < c.attempts
    ensures Clear(c, all, fs, 1, time)
  {
    if all != [] && time - all[|all| - 1] <= c.window {
      LastWithin(fs, time, c.window);
    }
  }

  lemma GapsWhenNoted(c: Limits, all: seq<int>, fs: seq<int>, now: int, time: int)
    requires Sorted(all) && Gaps(c, all) && Clear(c, all, fs, 1, now) && now <= time
    ensures Sorted(all + [time]) && Gaps(c, all + [time]) && Clear(c, all + [time], fs + [time], 0, time)
  {
    var all' := all + [time];
    forall i | 0 <= i < |all'| - 1 ensures GapAt(c, all', i) {
      if i < |all| - 1 { assert GapAt(c, all, i); }
    }
  }

  lemma AskedOneByOne(c: Limits, s: State, step: Step, key: string)
    requires Configured(c) && c.attempts == 1 && OneByOne(c, s, key) && step.Ask? && Enabled(s, step)
    requires |Open(Apply(c, s, step), key)| <= 1
    ensures OneByOne(c, Apply(c, s, step), key)
  {
    if !Limited(c, s.log, step.key, step.time) {
      OneMoreOpen(s.open, s.next, step.key, key);
      if step.key == key {
        ClearWhenAsked(c, FailedNotes(s.log, key), Failures(s.log, key), |Open(s, key)|, s.now, step.time);
      }
    }
  }

  lemma AnsweredOneByOne(c: Limits, s: State, step: Step, key: string)
    requires Configured(c) && OneByOne(c, s, key) && step.Answer? && Enabled(s, step)
    ensures OneByOne(c, Apply(c, s, step), key)
  {
    var n := Note(s.open[step.attempt], step.success, step.time);
    var all, fs := FailedNotes(s.log, key), Failures(s.log, key);
    OneLessOpen(s.open, step.attempt, key);
    FailuresSnoc(s.log, n, key);
    FailedNotesSnoc(s.log, n, key);
    assert all + [] == all;
    if n.key == key && !n.success {
      GapsWhenNoted(c, all, fs, s.now, step.time);
    }
  }

  lemma LeftOneByOne(c: Limits, s: State, step: Step, key: string)
    requires Configured(c) && OneByOne(c, s, key) && step.Leave? && Enabled(s, step)
    ensures OneByOne(c, Apply(c, s, step), key)
  {
    OneLessOpen(s.open, step.attempt, key);
  }

  lemma {:induction false} RunIsOneByOne(c: Limits, states: seq<State>, steps: seq<Step>, key: string, n: nat)
    requires IsRun(c, states, steps, key, 1) && c.attempts == 1 && n <= |steps|
    ensures OneByOne(c, states[n], key)
  {
    if n == 0 {
      assert Open(states[0], key) == {};
    } else {
      RunIsOneByOne(c, states, steps, key, n - 1);
      assert StepAt(c, states, steps, key, 1, n - 1);
      match steps[n - 1]
      case Ask(_, _) => AskedOneByOne(c, states[n - 1], steps[n - 1], key);
      case Answer(_, _, _) => AnsweredOneByOne(c, states[n - 1], steps[n - 1], key);
      case Leave(_) => LeftOneByOne(c, states[n - 1], steps[n - 1], key);
    }
  }

  lemma TwoAreApart(c: Limits, all: seq<int>, i: nat, j: nat)
    requires i < j < |all| && Sorted(all) && GapAt(c, all, i)
    ensures all[j] - all[i] > c.window
  {
    assert all[i + 1] <= all[j];
  }

  /** Then no window holds two failures of the key, successes in between or not. */
  lemma OneFailurePerWindow(c: Limits, states: seq<State>, steps: seq<Step>, key: string, start: int)
    requires IsRun(c, states, steps, key, 1) && c.attempts == 1
    ensures CountIn(Noted(states, key), start, c.window) <= 1
  {
    RunIsOneByOne(c, states, steps, key, |steps|);
    var all := Noted(states, key);
    if CountIn(all, start, c.window) > 1 {
      var first, last := CountSpans(all, start, c.window);
      TwoAreApart(c, all, first, last);
      assert false;
    }
  }

  /** Otherwise a success can always clear the key while an attempt is noted as a failure, and
      one window holds as many failures as one likes. */
  lemma {:induction false} SuccessesClear(c: Limits, key: string, m: nat, n: nat) returns (states: seq<State>, steps: seq<Step>)
    requires Configured(c) && m >= 1 && (c.attempts >= 2 || m >= 2)
    ensures Stage(c, states, steps, key, m, 0, 0, n)
  {
    if n == 0 {
      states, steps := FirstStage(c, key, m);
    } else {
      states, steps := SuccessesClear(c, key, m, n - 1);
      states, steps := MoreAsked(c, states, steps, key, m, 0, 0, n - 1);
      if c.attempts >= 2 {
        states, steps := MoreAnswered(c, states, steps, key, m, 0, 1, n - 1, false);
        states, steps := MoreAsked(c, states, steps, key, m, 1, 0, n);
      } else {
        states, steps := MoreAsked(c, states, steps, key, m, 0, 1, n - 1);
        states, steps := MoreAnswered(c, states, steps, key, m, 0, 2, n - 1, false);
      }
      states, steps := MoreAnswered(c, states, steps, key, m, 1, 1, n, true);
    }
  }

  /** Some number bounds the failures of the key in any window of any run. */
  ghost predicate BoundedBy(c: Limits, key: string, m: nat, bound: nat) {
    forall states, steps, start :: IsRun(c, states, steps, key, m) ==>
      CountIn(Noted(states, key), start, c.window) <= bound
  }

  /** Counting successes in, there is a bound exactly for a limit of one and one attempt at a
      time, and then it is the limit. */
  lemma BoundedAcrossSuccessesIff(c: Limits, key: string, m: nat)
    requires Configured(c) && m >= 1
    ensures (exists bound :: BoundedBy(c, key, m, bound)) <==> c.attempts == 1 && m == 1
    ensures BoundedBy(c, key, m, c.attempts) <==> c.attempts == 1 && m == 1
  {
    if c.attempts == 1 && m == 1 {
      forall states, steps, start | IsRun(c, states, steps, key, m)
        ensures CountIn(Noted(states, key), start, c.window) <= c.attempts
      {
        OneFailurePerWindow(c, states, steps, key, start);
      }
      assert BoundedBy(c, key, m, c.attempts);
    } else {
      forall bound: nat ensures !BoundedBy(c, key, m, bound) {
        var states, steps := SuccessesClear(c, key, m, bound + 1);
        CountZeros(bound + 1, c.window);
        assert CountIn(Noted(states, key), 0, c.window) == bound + 1;
      }
    }
  }
}
