/** The one-for-one supervisor's sliding window, supervisor/supervisor.go. */
module Supervisor {

  datatype Decision = Restart | Escalate

  /** The stamps strictly after the cutoff, in order. */
  function After(ts: seq<int>, cutoff: int): (r: seq<int>) {
    if ts == [] then []
    else After(ts[..|ts| - 1], cutoff) + if ts[|ts| - 1] > cutoff then [ts[|ts| - 1]] else []
  }

  /** What the supervisor remembers after deciding at the times `ts`. */
  function Stamps(ts: seq<int>, window: int): seq<int> {
    if ts == [] then []
    else
      var now := ts[|ts| - 1];
      After(Stamps(ts[..|ts| - 1], window), now - window) + [now]
  }

  function Verdict(ts: seq<int>, window: int, max: int): Decision {
    if |Stamps(ts, window)| > max then Escalate else Restart
  }

  ghost predicate Sorted(ts: seq<int>) { forall i, j :: 0 <= i <= j < |ts| ==> ts[i] <= ts[j] }

  lemma {:induction false} AfterAfter(ts: seq<int>, a: int, b: int)
    requires a <= b
    ensures After(After(ts, a), b) == After(ts, b)
  {
    if ts != [] {
      var kept := After(ts[..|ts| - 1], a);
      AfterAfter(ts[..|ts| - 1], a, b);
      if ts[|ts| - 1] > a { AfterAppend(kept, ts[|ts| - 1], b); } else { assert After(ts, a) == kept; }
    }
  }

  lemma AfterAppend(ts: seq<int>, x: int, c: int)
    ensures After(ts + [x], c) == After(ts, c) + if x > c then [x] else []
  {
    assert (ts + [x])[..|ts|] == ts;
  }

  /** Forgetting at every decision loses nothing: with clock readings that never go
      back, the stamps are the past decisions inside the window ending now, and this one. */
  lemma {:induction false} StampsAreWindow(ts: seq<int>, window: int)
    requires Sorted(ts) && ts != []
    ensures var n := |ts| - 1; Stamps(ts, window) == After(ts[..n], ts[n] - window) + [ts[n]]
  {
    var n := |ts| - 1;
    if n > 0 {
      var before := ts[..n];
      StampsAreWindow(before, window);
      MoveWindow(before[..n - 1], before[n - 1], before[n - 1] - window, ts[n] - window);
      assert before == before[..n - 1] + [before[n - 1]];
    }
  }

  lemma MoveWindow(ts: seq<int>, x: int, cut: int, later: int)
    requires cut <= later
    ensures After(After(ts, cut) + [x], later) == After(ts + [x], later)
  {
    AfterAppend(After(ts, cut), x, later);
    AfterAppend(ts, x, later);
    AfterAfter(ts, cut, later);
  }

  /** The decisions whose time lies strictly after the cutoff, by position. */
  function Inside(ts: seq<int>, cutoff: int): set<nat> { set i: nat | i < |ts| && ts[i] > cutoff }

  lemma {:induction false} AfterCounts(ts: seq<int>, cutoff: int)
    ensures |After(ts, cutoff)| == |Inside(ts, cutoff)|
  {
    if ts != [] {
      var n := |ts| - 1;
      AfterCounts(ts[..n], cutoff);
      assert Inside(ts, cutoff) == Inside(ts[..n], cutoff) + if ts[n] > cutoff then {n} else {};
      assert n !in Inside(ts[..n], cutoff);
    }
  }

  /** Restart exactly when at most `max` decisions, counting this one, fall in the window. */
  lemma RestartIffWithinBudget(ts: seq<int>, window: int, max: int)
    requires Sorted(ts) && ts != []
    ensures Verdict(ts, window, max) == Restart <==>
      |Inside(ts[..|ts| - 1], ts[|ts| - 1] - window)| + 1 <= max
  {
    StampsAreWindow(ts, window);
    AfterCounts(ts[..|ts| - 1], ts[|ts| - 1] - window);
  }

  /** Restarts among the decisions taken in the half-open interval (a, b]. */
  function RestartsIn(ts: seq<int>, window: int, max: int, a: int, b: int): nat {
    if ts == [] then 0
    else
      var n := |ts| - 1;
      RestartsIn(ts[..n], window, max, a, b)
      + if a < ts[n] <= b && Verdict(ts, window, max) == Restart then 1 else 0
  }

  lemma {:induction false} RestartsAreDecisions(ts: seq<int>, window: int, max: int, a: int, b: int, cutoff: int)
    requires cutoff <= a
    ensures RestartsIn(ts, window, max, a, b) <= |After(ts, cutoff)|
  {
    if ts != [] { RestartsAreDecisions(ts[..|ts| - 1], window, max, a, b, cutoff); }
  }

  /** No interval of the window's length ever holds more than `max` restarts. */
  lemma {:induction false} AtMostMaxRestarts(ts: seq<int>, window: int, max: int, a: int, b: int)
    requires Sorted(ts) && b - a <= window
    ensures RestartsIn(ts, window, max, a, b) <= if max < 0 then 0 else max
  {
    if ts != [] {
      var n := |ts| - 1;
      assert Sorted(ts[..n]);
      AtMostMaxRestarts(ts[..n], window, max, a, b);
      if a < ts[n] <= b && Verdict(ts, window, max) == Restart {
        RestartIffWithinBudget(ts, window, max);
        AfterCounts(ts[..n], ts[n] - window);
        RestartsAreDecisions(ts[..n], window, max, a, b, ts[n] - window);
      }
    }
  }

  class OneForOne {
    const max: int
    const window: int
    var stamps: seq<int>
    /** All clock readings so far. */
    ghost var readings: seq<int>

    ghost predicate Valid()
      reads this
    {
      stamps == Stamps(readings, window)
    }

    constructor (max: int, window: int)
      ensures Valid() && readings == [] && this.max == max && this.window == window
    {
      this.max, this.window, stamps, readings := max, window, [], [];
    }

    method Decide(now: int) returns (d: Decision)
      requires Valid()
      modifies this
      ensures Valid() && readings == old(readings) + [now]
      ensures d == Verdict(readings, window, max)
    {
      var cutoff := now - window;
      var keep := [];
      var i := 0;
      while i < |stamps|
        invariant 0 <= i <= |stamps|
        invariant keep == After(stamps[..i], cutoff)
      {
        assert stamps[..i + 1][..i] == stamps[..i];
        if stamps[i] > cutoff { keep := keep + [stamps[i]]; }
        i := i + 1;
      }
      assert stamps[..i] == stamps;
      stamps := keep + [now];
      readings := readings + [now];
      assert readings[..|readings| - 1] == old(readings);
      d := if |stamps| > max then Escalate else Restart;
    }
  }
}
