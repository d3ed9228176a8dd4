/**
 * Counting arguments about whole runs of `NumericRule`: how many readings must leave the
 * hysteresis band before the rule may change state again, and why a majority vote settles.
 */
module Hysteresis {
  import opened Prelude
  import opened Automaton
  import opened Observations
  import opened TemporalRules
  import opened TemporalSafety

  /** One reading that passed the rule's status and confidence checks. */
  datatype Reading = Reading(now: nat, value: real)

  function Readings(c: NumericConfig, os: seq<Observation>): seq<Reading> {
    if os == [] then []
    else
      Readings(c, os[..|os| - 1]) + Accepted(c, os[|os| - 1])
  }

  function ObservedRun(c: NumericConfig, os: seq<Observation>): Memory {
    if os == [] then FRESH else NumericStep(c, ObservedRun(c, os[..|os| - 1]), os[|os| - 1]).0
  }

  /** The complete history of a run over accepted readings. */
  function NumericLog(c: NumericConfig, rs: seq<Reading>): (log: seq<Entry>)
    ensures |log| == |rs|
  {
    if rs == [] then []
    else
      var log := NumericLog(c, rs[..|rs| - 1]);
      var r := rs[|rs| - 1];
      log + [Reference(c.timing, log, Sample(r.now, InsideBand(c, Current(log), r.value)))]
  }

  lemma {:induction false} LogOfPushed(c: NumericConfig, rs: seq<Reading>, r: Reading)
    ensures var log := NumericLog(c, rs);
            NumericLog(c, rs + [r])
            == log + [Reference(c.timing, log, Sample(r.now, InsideBand(c, Current(log), r.value)))]
  {
    assert (rs + [r])[..|rs|] == rs;
  }

  function Accepted(c: NumericConfig, o: Observation): seq<Reading> {
    if Accepts(c, o) then [Reading(o.timestampMs, o.value.number)] else []
  }

  lemma {:induction false} ObserveRefines(c: NumericConfig, m: Memory, rs: seq<Reading>, o: Observation)
    requires Remembers(c.timing, m, NumericLog(c, rs))
    ensures Remembers(c.timing, NumericStep(c, m, o).0, NumericLog(c, rs + Accepted(c, o)))
  {
    if Accepts(c, o) {
      LogOfPushed(c, rs, Reading(o.timestampMs, o.value.number));
      StepRefines(c.timing, m, NumericLog(c, rs), Sample(o.timestampMs, InsideBand(c, m.state, o.value.number)));
    } else {
      assert rs + [] == rs;
    }
  }

  /** The rule object remembers the history of its accepted readings and nothing else. */
  lemma {:induction false} ObservedRunRefines(c: NumericConfig, os: seq<Observation>)
    ensures Remembers(c.timing, ObservedRun(c, os), NumericLog(c, Readings(c, os)))
  {
    if os == [] {
    } else {
      var init := os[..|os| - 1];
      ObservedRunRefines(c, init);
      ObserveRefines(c, ObservedRun(c, init), Readings(c, init), os[|os| - 1]);
    }
  }

  /** `log` is a history of the automaton whose match bits are the hysteresis tests of `rs`. */
  ghost predicate Describes(c: NumericConfig, rs: seq<Reading>, log: seq<Entry>) {
    && |log| == |rs|
    && IsHistory(c.timing, log)
    && forall k :: 0 <= k < |rs| ==> log[k].matched == InsideBand(c, log[k].before, rs[k].value)
  }

  lemma {:induction false} NumericLogDescribes(c: NumericConfig, rs: seq<Reading>)
    ensures Describes(c, rs, NumericLog(c, rs))
  {
    if rs == [] {
    } else {
      var (init, r) := (rs[..|rs| - 1], rs[|rs| - 1]);
      NumericLogDescribes(c, init);
      var log := NumericLog(c, init);
      var e := Reference(c.timing, log, Sample(r.now, InsideBand(c, Current(log), r.value)));
      ExtendHistory(c.timing, log, e);
      assert NumericLog(c, rs) == log + [e];
    }
  }

  // ----------------------------------------------------- counting in windows

  lemma {:induction false} CountOfSuffix(bits: seq<bool>, k: nat, b: bool)
    requires k <= |bits|
    ensures Count(bits[k..], b) <= Count(bits, b)
  {
    if k < |bits| {
      var init := bits[..|bits| - 1];
      assert bits[k..][..|bits| - k - 1] == init[k..];
      CountOfSuffix(init, k, b);
    }
  }

  lemma {:induction false} CountBothBits(bits: seq<bool>, b: bool)
    ensures Count(bits, b) + Count(bits, !b) == |bits|
  {
    if bits == [] {
    } else {
      CountBothBits(bits[..|bits| - 1], b);
    }
  }

  /** Sliding a window forward over `more` adds at most the matching bits of `more`. */
  lemma {:induction false} CountInLaterWindow(bits: seq<bool>, more: seq<bool>, capacity: nat, b: bool)
    ensures Count(Newest(bits + more, capacity), b) <= Count(Newest(bits, capacity), b) + Count(more, b)
  {
    if more == [] {
      assert bits + more == bits;
    } else {
      var (init, last) := (more[..|more| - 1], more[|more| - 1]);
      CountInLaterWindow(bits, init, capacity, b);
      assert bits + more == (bits + init) + [last];
      var window := Newest(bits + init, capacity);
      NewestOfPushedBit(bits + init, last, capacity);
      CountOfSuffix(window + [last], Max(0, |window| + 1 - capacity), b);
      assert (window + [last])[..|window|] == window;
    }
  }

  lemma {:induction false} NewestOfPushedBit(bits: seq<bool>, bit: bool, capacity: nat)
    ensures Newest(bits + [bit], capacity) == Newest(Newest(bits, capacity) + [bit], capacity)
  {}

  // ------------------------------------------------- between two state changes

  predicate Switches(log: seq<Entry>, k: nat)
    requires k < |log|
  {
    log[k].after != log[k].before
  }

  /** Strictly past the threshold that argues against the given side. */
  predicate Beyond(c: NumericConfig, active: bool, value: real) {
    if active then value > c.leaveAbove else value < c.enterBelow
  }

  function BeyondCount(c: NumericConfig, rs: seq<Reading>, active: bool, lo: nat, hi: nat): nat
    requires lo <= hi <= |rs|
  {
    if lo == hi then 0
    else BeyondCount(c, rs, active, lo, hi - 1) + if Beyond(c, active, rs[hi - 1].value) then 1 else 0
  }

  lemma {:induction false} StateBetweenSwitches(c: Timing, log: seq<Entry>, i: nat, k: nat)
    requires IsHistory(c, log) && i < k <= |log|
    requires forall j :: i < j < k ==> !Switches(log, j)
    ensures log[k - 1].after == log[i].after
    decreases k
  {
    if k > i + 1 {
      EntryFacts(c, log, k - 1);
      StateBetweenSwitches(c, log, i, k - 1);
      assert !Switches(log, k - 1);
    }
  }

  /** While the rule sits on one side, opposing votes are exactly the readings beyond. */
  lemma {:induction false} OpposingVotes(c: NumericConfig, rs: seq<Reading>, bits: seq<bool>, active: bool, lo: nat, hi: nat)
    requires lo <= hi <= |rs| == |bits|
    requires forall j :: lo <= j < hi ==> bits[j] == InsideBand(c, Some(active), rs[j].value)
    ensures Count(bits[lo..hi], !active) == BeyondCount(c, rs, active, lo, hi)
  {
    if lo < hi {
      OpposingVotes(c, rs, bits, active, lo, hi - 1);
      assert bits[lo..hi][..hi - 1 - lo] == bits[lo..hi - 1];
    }
  }

  /** A majority for one bit at i and for the other at j needs many opposing bits in between. */
  lemma {:induction false} VotesTurned(bits: seq<bool>, i: nat, j: nat, required: nat, capacity: nat, b: bool)
    requires i < j < |bits|
    requires Count(Newest(bits[..i + 1], capacity), b) >= required
    requires Count(Newest(bits[..j + 1], capacity), !b) >= required
    ensures Count(bits[i + 1..j + 1], !b) >= 2 * required - capacity
  {
    assert bits[..j + 1] == bits[..i + 1] + bits[i + 1..j + 1];
    CountInLaterWindow(bits[..i + 1], bits[i + 1..j + 1], capacity, !b);
    CountBothBits(Newest(bits[..i + 1], capacity), b);
  }

  lemma {:induction false} BitsOfPrefix(log: seq<Entry>, k: nat)
    requires k <= |log|
    ensures Bits(log[..k]) == Bits(log)[..k]
  {
    var (short, long) := (Bits(log[..k]), Bits(log));
    forall i | 0 <= i < k ensures short[i] == long[i] {
      assert log[..k][i] == log[i];
    }
  }

  lemma {:induction false} SideBetweenSwitches(c: Timing, log: seq<Entry>, i: nat, j: nat)
    requires IsHistory(c, log) && i < j < |log|
    requires forall k :: i < k < j ==> !Switches(log, k)
    ensures forall k :: i < k <= j ==> log[k].before == log[i].after
  {
    forall k | i < k <= j ensures log[k].before == log[i].after {
      StateBetweenSwitches(c, log, i, k);
      EntryFacts(c, log, k);
    }
  }

  lemma {:induction false} VotesAt(c: Timing, log: seq<Entry>, k: nat)
    requires IsHistory(c, log) && k < |log| && Switches(log, k)
    ensures log[k].after.Some? && (log[k].before.Some? ==> log[k].before.value != log[k].after.value)
    ensures Count(Newest(Bits(log)[..k + 1], c.sampleWindow), log[k].after.value) >= c.requiredSamples
  {
    SwitchHasVotes(c, log, k);
    BitsOfPrefix(log, k + 1);
  }

  /**
   * Between two consecutive state changes at least `2 * requiredSamples - sampleWindow`
   * readings lay strictly beyond the threshold of the side being left.
   */
  lemma {:induction false} ReadingsBetweenSwitches(c: NumericConfig, rs: seq<Reading>, log: seq<Entry>, i: nat, j: nat)
    requires Describes(c, rs, log) && i < j < |rs|
    requires Switches(log, i) && Switches(log, j)
    requires forall k :: i < k < j ==> !Switches(log, k)
    ensures log[i].after.Some? && log[j].after == Some(!log[i].after.value)
    ensures BeyondCount(c, rs, log[i].after.value, i + 1, j + 1)
            >= 2 * c.timing.requiredSamples - c.timing.sampleWindow
  {
    VotesAt(c.timing, log, i);
    VotesAt(c.timing, log, j);
    SideBetweenSwitches(c.timing, log, i, j);
    var active := log[i].after.value;
    var bits := Bits(log);
    VotesTurned(bits, i, j, c.timing.requiredSamples, c.timing.sampleWindow, active);
    OpposingVotes(c, rs, bits, active, i + 1, j + 1);
  }

  // --------------------------------------------------------- staying in the band

  predicate InBand(c: NumericConfig, value: real) {
    c.enterBelow <= value <= c.leaveAbove
  }

  lemma {:induction false} InBandNeverBeyond(c: NumericConfig, rs: seq<Reading>, active: bool, lo: nat, hi: nat)
    requires lo <= hi <= |rs|
    requires forall k :: lo <= k < hi ==> InBand(c, rs[k].value)
    ensures BeyondCount(c, rs, active, lo, hi) == 0
  {
    if lo < hi { InBandNeverBeyond(c, rs, active, lo, hi - 1); }
  }

  /** Readings i+1..k stay in the band although the state changed at i and changes again at k. */
  ghost predicate FlipsInBand(c: NumericConfig, rs: seq<Reading>, log: seq<Entry>, i: nat, k: nat) {
    && Describes(c, rs, log)
    && i < k < |rs|
    && Switches(log, i)
    && Switches(log, k)
    && forall j :: i < j <= k ==> InBand(c, rs[j].value)
  }

  /** With a strict majority vote, a signal that stays in the band after a change keeps the state for ever. */
  lemma {:induction false} MajoritySettlesInBand(c: NumericConfig, rs: seq<Reading>, log: seq<Entry>, i: nat, k: nat)
    requires 2 * c.timing.requiredSamples > c.timing.sampleWindow
    ensures !FlipsInBand(c, rs, log, i, k)
    decreases k
  {
    if FlipsInBand(c, rs, log, i, k) {
      if j :| i < j < k && Switches(log, j) {
        MajoritySettlesInBand(c, rs, log, i, j);
      } else {
        ReadingsBetweenSwitches(c, rs, log, i, k);
        InBandNeverBeyond(c, rs, log[i].after.value, i + 1, k + 1);
      }
    }
  }
}
