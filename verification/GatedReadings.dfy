/**
 * The rapid-increase rule behind the analysis gate: admitted frames come in time order
 * whatever order frames arrive in, so the rule's deque is always its window.
 */
module GatedReadings {
  import opened Prelude
  import opened Observations
  import opened AnalysisGate
  import opened RapidIncrease

  const NANOS_PER_MILLI := 1_000_000
  const U64_MAX := 0xffff_ffff_ffff_ffff

  /** The millisecond timestamp of an observation, from the nanoseconds of its frame. */
  function Millis(nanos: nat): nat {
    if nanos / NANOS_PER_MILLI < U64_MAX then nanos / NANOS_PER_MILLI else U64_MAX
  }

  /** Observation k was made on the admitted frame `frames[k]`, in the order of the frames. */
  ghost predicate TakenAt(interval: nat, times: seq<nat>, frames: seq<nat>, os: seq<Observation>) {
    && |frames| == |os|
    && (forall k :: 0 <= k < |os| ==> frames[k] < |Picks(interval, times)|
                                      && os[k].timestampMs == Millis(times[Picks(interval, times)[frames[k]]]))
    && (forall k, l :: 0 <= k <= l < |os| ==> frames[k] <= frames[l])
  }

  ghost predicate InTimeOrder(os: seq<Observation>) {
    forall k, l :: 0 <= k <= l < |os| ==> os[k].timestampMs <= os[l].timestampMs
  }

  lemma {:induction false} MillisKeepOrder(a: nat, b: nat)
    requires a <= b
    ensures Millis(a) <= Millis(b)
  {
    assert a / NANOS_PER_MILLI <= b / NANOS_PER_MILLI;
  }

  /** Observations on admitted frames are in time order, even if the frames were not. */
  lemma {:induction false} GatedAreInOrder(interval: nat, times: seq<nat>, frames: seq<nat>, os: seq<Observation>)
    requires interval > 0 && TakenAt(interval, times, frames, os)
    ensures InTimeOrder(os)
  {
    var picks := Picks(interval, times);
    PicksAreSpaced(interval, times);
    forall k, l | 0 <= k <= l < |os| ensures os[k].timestampMs <= os[l].timestampMs {
      if frames[k] < frames[l] { SpacedGap(interval, times, picks, frames[k], frames[l]); }
      MillisKeepOrder(times[picks[frames[k]]], times[picks[frames[l]]]);
    }
  }

  lemma {:induction false} PointsInOrder(c: RapidConfig, os: seq<Observation>)
    requires InTimeOrder(os)
    ensures Ordered(Points(c, os))
    ensures forall i :: 0 <= i < |Points(c, os)| ==> exists k :: 0 <= k < |os| && Points(c, os)[i].at == os[k].timestampMs
  {
    if os == [] {
    } else {
      var n := |os| - 1;
      var init := os[..n];
      PointsInOrder(c, init);
      var (before, ps) := (Points(c, init), Points(c, os));
      forall i | 0 <= i < |ps| ensures exists k :: 0 <= k < |os| && ps[i].at == os[k].timestampMs && (i < |before| ==> k < n) {
        if i < |before| {
          assert ps[i] == before[i];
          var k :| 0 <= k < |init| && before[i].at == init[k].timestampMs;
          assert os[k] == init[k];
        } else {
          assert ps[i].at == os[n].timestampMs;
        }
      }
      forall i, j | 0 <= i <= j < |ps| ensures ps[i].at <= ps[j].at {
        if j < |before| {
          assert before[i].at <= before[j].at;
        } else {
          var k :| 0 <= k < |os| && ps[i].at == os[k].timestampMs;
          assert os[k].timestampMs <= os[n].timestampMs;
        }
      }
    }
  }

  /**
   * Whatever the arrival order of the frames, a rule that sees observations of admitted
   * frames keeps exactly its accepted readings of the last `withinMs`, and emits exactly at
   * those that rise over them while every earlier emission is a cooldown old.
   */
  lemma {:induction false} GatedWindowIsExact(c: RapidConfig, interval: nat, times: seq<nat>, frames: seq<nat>, os: seq<Observation>)
    requires interval > 0 && c.minimumDelta > 0.0 && TakenAt(interval, times, frames, os)
    ensures var ps := Points(c, os);
      && ObservedRun(c, os).history == Since(ps, Cutoff(c, ps))
      && MarksLatest(ps, Emissions(c, ps), ObservedRun(c, os).lastEmit)
    ensures os != [] && ReadValue(c, os[|os| - 1]).Some? ==>
      var (ps, n) := (Points(c, os), |os| - 1);
      ps != [] && (RapidStep(c, ObservedRun(c, os[..n]), os[n]).1.Some? <==> Emissions(c, ps)[|ps| - 1])
  {
    GatedAreInOrder(interval, times, frames, os);
    PointsInOrder(c, os);
    ObservedRunIsPointRun(c, os);
    WindowRefinesHistory(c, Points(c, os));
    if os != [] && ReadValue(c, os[|os| - 1]).Some? {
      var init := os[..|os| - 1];
      ObservedRunIsPointRun(c, init);
      assert Points(c, os)[..|Points(c, os)| - 1] == Points(c, init);
    }
  }
}
