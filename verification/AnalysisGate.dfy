/**
 * `AnalysisScheduler`: the greedy rate gate in front of every detector. Times and
 * intervals are nanosecond counts.
 */
module AnalysisGate {
  import opened Prelude

  datatype GateError = InvalidAnalysisRate

  const NANOS_PER_SECOND := 1_000_000_000

  /** One second divided by the rate, rounded to the nearest nanosecond. */
  function IntervalNanos(framesPerSecond: nat): nat
    requires framesPerSecond > 0
  {
    (2 * NANOS_PER_SECOND + framesPerSecond) / (2 * framesPerSecond)
  }

  /** No whole number of nanoseconds is closer to the exact interval. */
  lemma {:induction false} IntervalIsNearest(framesPerSecond: nat)
    requires framesPerSecond > 0
    ensures 2 * (IntervalNanos(framesPerSecond) * framesPerSecond) <= 2 * NANOS_PER_SECOND + framesPerSecond
    ensures 2 * (IntervalNanos(framesPerSecond) * framesPerSecond) > 2 * NANOS_PER_SECOND - framesPerSecond
  {
    var n := 2 * NANOS_PER_SECOND + framesPerSecond;
    var q := n / (2 * framesPerSecond);
    assert q * (2 * framesPerSecond) <= n < q * (2 * framesPerSecond) + 2 * framesPerSecond;
    assert q * (2 * framesPerSecond) == 2 * (q * framesPerSecond);
  }

  predicate Admits(interval: nat, last: Option<nat>, t: nat) {
    last.None? || SaturatingSub(t, last.value) >= interval
  }

  class AnalysisScheduler {
    const interval: nat
    var lastAnalysis: Option<nat>

    constructor (interval: nat)
      ensures this.interval == interval && lastAnalysis == None
    {
      this.interval := interval;
      lastAnalysis := None;
    }

    static method New(framesPerSecond: nat) returns (r: Result<AnalysisScheduler, GateError>)
      ensures r.Ok? <==> 1 <= framesPerSecond <= 10
      ensures r.Ok? ==> fresh(r.value) && r.value.interval == IntervalNanos(framesPerSecond)
                        && r.value.interval > 0 && r.value.lastAnalysis == None
    {
      if !(1 <= framesPerSecond <= 10) { return Err(InvalidAnalysisRate); }
      var scheduler := new AnalysisScheduler(IntervalNanos(framesPerSecond));
      return Ok(scheduler);
    }

    method ShouldAnalyze(t: nat) returns (admitted: bool)
      modifies this
      ensures admitted == Admits(interval, old(lastAnalysis), t)
      ensures lastAnalysis == if admitted then Some(t) else old(lastAnalysis)
    {
      if lastAnalysis.None? || SaturatingSub(t, lastAnalysis.value) >= interval {
        lastAnalysis := Some(t);
        return true;
      }
      return false;
    }
  }

  // ------------------------------------------------------------------- runs

  /** The gate's memory after a run. */
  function GateRun(interval: nat, times: seq<nat>): Option<nat> {
    if times == [] then None
    else
      var (last, t) := (GateRun(interval, times[..|times| - 1]), times[|times| - 1]);
      if Admits(interval, last, t) then Some(t) else last
  }

  /** Positions of the admitted frames. */
  function Picks(interval: nat, times: seq<nat>): (p: seq<nat>)
    ensures forall k :: 0 <= k < |p| ==> p[k] < |times|
  {
    if times == [] then []
    else
      var init := times[..|times| - 1];
      Picks(interval, init) +
      if Admits(interval, GateRun(interval, init), times[|times| - 1]) then [|times| - 1] else []
  }

  /** The memory is the time of the last admitted frame. */
  lemma {:induction false} GateRemembersLastPick(interval: nat, times: seq<nat>)
    ensures var p := Picks(interval, times);
            GateRun(interval, times) == if p == [] then None else Some(times[p[|p| - 1]])
    ensures times != [] ==> Picks(interval, times) != []
  {
    if times == [] {
    } else {
      GateRemembersLastPick(interval, times[..|times| - 1]);
    }
  }

  predicate Monotone(times: seq<nat>) {
    forall i, j :: 0 <= i <= j < |times| ==> times[i] <= times[j]
  }

  /** A choice of frames, in order, with at least one interval between neighbours. */
  ghost predicate Spaced(interval: nat, times: seq<nat>, sel: seq<nat>) {
    && (forall k :: 0 <= k < |sel| ==> sel[k] < |times|)
    && (forall k :: 0 < k < |sel| ==> sel[k - 1] < sel[k] && times[sel[k]] >= times[sel[k - 1]] + interval)
  }

  lemma {:induction false} PicksAreSpaced(interval: nat, times: seq<nat>)
    requires interval > 0
    ensures Spaced(interval, times, Picks(interval, times))
  {
    if times != [] {
      var n := |times| - 1;
      var init := times[..n];
      PicksAreSpaced(interval, init);
      GateRemembersLastPick(interval, init);
      assert times == init + [times[n]];
      SpacedPush(interval, init, times[n], Picks(interval, init));
    }
  }

  lemma {:induction false} SpacedPush(interval: nat, init: seq<nat>, t: nat, p: seq<nat>)
    requires Spaced(interval, init, p) && interval > 0
    ensures Spaced(interval, init + [t], p)
    ensures p == [] || SaturatingSub(t, init[p[|p| - 1]]) >= interval ==> Spaced(interval, init + [t], p + [|init|])
  {
    var (times, q) := (init + [t], p + [|init|]);
    forall k | 0 < k < |p| ensures p[k - 1] < p[k] && times[p[k]] >= times[p[k - 1]] + interval {
      assert times[p[k]] == init[p[k]] && times[p[k - 1]] == init[p[k - 1]];
    }
    forall k | 0 <= k < |p| ensures q[k] == p[k] {
    }
  }

  lemma {:induction false} SpacedPrefix(interval: nat, times: seq<nat>, sel: seq<nat>)
    requires Spaced(interval, times, sel) && times != []
    ensures sel != [] ==> Spaced(interval, times, sel[..|sel| - 1])
    ensures sel != [] && sel[|sel| - 1] == |times| - 1 ==> Spaced(interval, times[..|times| - 1], sel[..|sel| - 1])
    ensures (sel == [] || sel[|sel| - 1] < |times| - 1) ==> Spaced(interval, times[..|times| - 1], sel)
  {
    forall k | 0 <= k < |sel| ensures sel[k] <= sel[|sel| - 1] - (|sel| - 1 - k) {
      Ascending(interval, times, sel, k);
    }
  }

  lemma {:induction false} Ascending(interval: nat, times: seq<nat>, sel: seq<nat>, k: nat)
    requires Spaced(interval, times, sel) && k < |sel|
    ensures sel[k] <= sel[|sel| - 1] - (|sel| - 1 - k)
    decreases |sel| - k
  {
    if k < |sel| - 1 { Ascending(interval, times, sel, k + 1); }
  }

  /** Greedy stays ahead: no spaced choice is longer, and none of equal length ends earlier. */
  lemma {:induction false} GreedyStaysAhead(interval: nat, times: seq<nat>, sel: seq<nat>)
    requires Monotone(times) && Spaced(interval, times, sel)
    ensures |sel| <= |Picks(interval, times)|
    ensures |sel| == |Picks(interval, times)| && sel != []
        ==> GateRun(interval, times) != None && GateRun(interval, times).value <= times[sel[|sel| - 1]]
  {
    if times == [] {
    } else {
      var (init, t) := (times[..|times| - 1], times[|times| - 1]);
      SpacedPrefix(interval, times, sel);
      GateRemembersLastPick(interval, init);
      GateRemembersLastPick(interval, times);
      if sel != [] && sel[|sel| - 1] == |init| {
        GreedyStaysAhead(interval, init, sel[..|sel| - 1]);
        assert GateRun(interval, times).value <= t;
      } else {
        GreedyStaysAhead(interval, init, sel);
      }
    }
  }

  /** On monotone times the gate admits a largest spaced set of frames. */
  lemma {:induction false} GateIsOptimal(interval: nat, times: seq<nat>, sel: seq<nat>)
    requires interval > 0 && Monotone(times)
    ensures Spaced(interval, times, Picks(interval, times))
    ensures Spaced(interval, times, sel) ==> |sel| <= |Picks(interval, times)|
  {
    PicksAreSpaced(interval, times);
    if Spaced(interval, times, sel) { GreedyStaysAhead(interval, times, sel); }
  }

  /** With time running backwards it may not: one late frame shuts out two early ones. */
  lemma {:induction false} GateCanLoseOutOfOrder(interval: nat)
    requires interval > 0
    ensures var times := [2 * interval, 0, interval];
            Spaced(interval, times, [1, 2]) && |Picks(interval, times)| == 1
  {
    var times := [2 * interval, 0, interval];
    assert times[..2] == [2 * interval, 0] && times[..2][..1] == [2 * interval] && times[..2][..1][..0] == [];
    assert GateRun(interval, times[..2][..1]) == Some(2 * interval);
    assert GateRun(interval, times[..2]) == Some(2 * interval);
    assert Picks(interval, times[..2][..1]) == [0];
    assert Picks(interval, times[..2]) == [0] + [];
    assert Picks(interval, times) == [0] + [] + [];
  }

  // ------------------------------------------------------------ gating twice

  /** At least one interval between neighbours, as in any subsequence of admitted times. */
  ghost predicate Apart(interval: nat, times: seq<nat>) {
    forall k :: 0 < k < |times| ==> times[k] >= times[k - 1] + interval
  }

  /** A gate rejects nothing of a stream whose neighbours are an interval apart. */
  lemma {:induction false} ApartIsAdmitted(interval: nat, times: seq<nat>)
    requires Apart(interval, times)
    ensures |Picks(interval, times)| == |times|
    ensures times != [] ==> GateRun(interval, times) == Some(times[|times| - 1])
  {
    if times == [] {
    } else {
      ApartIsAdmitted(interval, times[..|times| - 1]);
    }
  }

  function Select<T>(s: seq<T>, at: seq<nat>): (r: seq<T>)
    requires forall k :: 0 <= k < |at| ==> at[k] < |s|
    ensures |r| == |at| && forall k :: 0 <= k < |at| ==> r[k] == s[at[k]]
  {
    seq(|at|, k requires 0 <= k < |at| => s[at[k]])
  }

  lemma {:induction false} SpacedGap(interval: nat, times: seq<nat>, sel: seq<nat>, a: nat, b: nat)
    requires Spaced(interval, times, sel) && a < b < |sel|
    ensures times[sel[b]] >= times[sel[a]] + interval
    decreases b
  {
    if a < b - 1 { SpacedGap(interval, times, sel, a, b - 1); }
  }

  /**
   * A second gate with the same interval, started at any admitted frame and shown any later
   * subsequence of the admitted frames, rejects nothing.
   */
  lemma {:induction false} SecondGateRejectsNothing(interval: nat, times: seq<nat>, sub: seq<nat>)
    requires interval > 0
    requires forall k :: 0 <= k < |sub| ==> sub[k] < |Picks(interval, times)|
    requires forall k :: 0 < k < |sub| ==> sub[k - 1] < sub[k]
    ensures var shown := Select(Select(times, Picks(interval, times)), sub);
            |Picks(interval, shown)| == |shown|
  {
    var picks := Picks(interval, times);
    PicksAreSpaced(interval, times);
    var shown := Select(Select(times, picks), sub);
    forall k | 0 < k < |shown| ensures shown[k] >= shown[k - 1] + interval {
      SpacedGap(interval, times, picks, sub[k - 1], sub[k]);
    }
    ApartIsAdmitted(interval, shown);
  }
}
