/** Times of calls in the order they were made, and the windows the limiters look at. */
module RateWindows {

  predicate Sorted(ts: seq<real>) {
    forall i, j :: 0 <= i < j < |ts| ==> ts[i] <= ts[j]
  }

  predicate AtMost(ts: seq<real>, bound: real) {
    forall i :: 0 <= i < |ts| ==> ts[i] <= bound
  }

  /** The times not before `start`. */
  function From(ts: seq<real>, start: real): seq<real> {
    if ts == [] then [] else
    var last := ts[|ts| - 1];
    From(ts[..|ts| - 1], start) + (if last < start then [] else [last])
  }

  /** The times after `start`. */
  function After(ts: seq<real>, start: real): seq<real> {
    if ts == [] then [] else
    var last := ts[|ts| - 1];
    After(ts[..|ts| - 1], start) + (if last <= start then [] else [last])
  }

  lemma FromSnoc(ts: seq<real>, last: real, start: real)
    ensures From(ts + [last], start) == From(ts, start) + (if last < start then [] else [last])
  {
    assert (ts + [last])[..|ts|] == ts;
  }

  lemma AfterSnoc(ts: seq<real>, last: real, start: real)
    ensures After(ts + [last], start) == After(ts, start) + (if last <= start then [] else [last])
  {
    assert (ts + [last])[..|ts|] == ts;
  }

  lemma {:induction false} FromLater(ts: seq<real>, start: real, later: real)
    requires start <= later
    ensures From(From(ts, start), later) == From(ts, later)
    ensures |From(ts, later)| <= |From(ts, start)|
  {
    if ts != [] {
      var init, last := ts[..|ts| - 1], ts[|ts| - 1];
      FromLater(init, start, later);
      FromSnoc(From(init, start), last, later);
      assert From(init, start) + [] == From(init, start);
    }
  }

  lemma {:induction false} AfterLater(ts: seq<real>, start: real, later: real)
    requires start <= later
    ensures After(After(ts, start), later) == After(ts, later)
  {
    if ts != [] {
      var init, last := ts[..|ts| - 1], ts[|ts| - 1];
      AfterLater(init, start, later);
      AfterSnoc(After(init, start), last, later);
      assert After(init, start) + [] == After(init, start);
    }
  }

  /** How many lie in the closed window from `start` on. */
  function CountClosed(ts: seq<real>, start: real, length: real): nat {
    if ts == [] then 0 else
    var last := ts[|ts| - 1];
    CountClosed(ts[..|ts| - 1], start, length) + (if start <= last <= start + length then 1 else 0)
  }

  /** How many lie in the window that includes its start and not its end. */
  function CountHalfOpen(ts: seq<real>, start: real, length: real): nat {
    if ts == [] then 0 else
    var last := ts[|ts| - 1];
    CountHalfOpen(ts[..|ts| - 1], start, length) + (if start <= last < start + length then 1 else 0)
  }

  lemma {:induction false} ClosedWithinFrom(ts: seq<real>, start: real, length: real)
    ensures CountClosed(ts, start, length) <= |From(ts, start)|
  {
    if ts != [] {
      ClosedWithinFrom(ts[..|ts| - 1], start, length);
    }
  }

  /** A half-open window of the given length that ends after `now` is covered by what is
      younger than that length now. */
  lemma {:induction false} HalfOpenWithinAfter(ts: seq<real>, start: real, length: real, now: real)
    requires now < start + length
    ensures CountHalfOpen(ts, start, length) <= |After(ts, now - length)|
  {
    if ts != [] {
      HalfOpenWithinAfter(ts[..|ts| - 1], start, length, now);
    }
  }
}
