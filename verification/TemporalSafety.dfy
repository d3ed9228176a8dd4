/**
 * What every run of the debouncing automaton keeps. The statements are about histories
 * (`Automaton.History`), which `Automaton.RunRefines` equates with the incremental
 * automaton, so they hold of `TemporalRule`, `NumericRule` and `CompositeRule` alike.
 */
module TemporalSafety {
  import opened Prelude
  import opened Automaton

  ghost predicate IsHistory(c: Timing, log: seq<Entry>) {
    forall k :: 0 <= k < |log| ==> FollowsHistory(c, log, k)
  }

  ghost predicate FollowsHistory(c: Timing, log: seq<Entry>, k: nat)
    requires k < |log|
  {
    log[k] == Reference(c, log[..k], Sample(log[k].now, log[k].matched))
  }

  lemma {:induction false} ExtendHistory(c: Timing, log: seq<Entry>, e: Entry)
    requires IsHistory(c, log)
    requires e == Reference(c, log, Sample(e.now, e.matched))
    ensures IsHistory(c, log + [e])
  {
    var all := log + [e];
    forall k | 0 <= k < |all| ensures FollowsHistory(c, all, k) {
      if k < |log| {
        assert FollowsHistory(c, log, k);
        assert all[..k] == log[..k];
      } else {
        assert all[..k] == log;
      }
    }
  }

  /** The history of every run is a history. */
  lemma {:induction false} HistoryIsHistory(c: Timing, ss: seq<Sample>)
    ensures IsHistory(c, History(c, ss))
  {
    if ss == [] {
    } else {
      var init := ss[..|ss| - 1];
      HistoryIsHistory(c, init);
      var (log, s) := (History(c, init), ss[|ss| - 1]);
      ExtendHistory(c, log, Reference(c, log, s));
    }
  }

  predicate Orderly(log: seq<Entry>) {
    forall i, j :: 0 <= i <= j < |log| ==> log[i].now <= log[j].now
  }

  /** Every entry starts in the state its predecessor left, and says what it decided. */
  lemma {:induction false} EntryFacts(c: Timing, log: seq<Entry>, k: nat)
    requires IsHistory(c, log) && k < |log|
    ensures log[k].before == if k == 0 then None else log[k - 1].after
    ensures log[k].before == Current(log[..k])
    ensures log[k].proposal == Proposal(c, log[..k], log[k].matched)
    ensures log[k].after != log[k].before ==> log[k].after == log[k].proposal && log[k].proposal.Some?
    ensures log[k].proposal.Some? ==> log[k].proposal != log[k].before
    ensures IsBoundary(log[k]) <==> log[k].after != log[k].before && (log[k].before.Some? || c.emitInitial)
    ensures IsBoundary(log[k]) ==> log[k].after == Some(log[k].emitted == Some(Entered))
    ensures log[k].emitted == Some(Updated) ==> log[k].before == log[k].after == Some(true)
  {
    assert FollowsHistory(c, log, k);
  }

  lemma {:induction false} PrefixIsHistory(c: Timing, log: seq<Entry>, k: nat)
    requires IsHistory(c, log) && k <= |log|
    ensures IsHistory(c, log[..k])
  {
    forall i | 0 <= i < k ensures FollowsHistory(c, log[..k], i) {
      assert FollowsHistory(c, log, i);
      assert log[..k][..i] == log[..i];
    }
  }

  lemma {:induction false} LastBoundaryIs(log: seq<Entry>) returns (i: int)
    ensures LastBoundary(log).None? ==> i == -1
    ensures LastBoundary(log).Some? ==> 0 <= i < |log| && IsBoundary(log[i]) && LastBoundary(log).value == log[i].now
    ensures forall j :: i < j < |log| ==> !IsBoundary(log[j])
  {
    if log == [] { i := -1; }
    else if IsBoundary(log[|log| - 1]) { i := |log| - 1; }
    else { i := LastBoundaryIs(log[..|log| - 1]); }
  }

  lemma {:induction false} LastMarkIs(log: seq<Entry>) returns (i: int)
    ensures LastMark(log).None? ==> i == -1
    ensures LastMark(log).Some? ==> 0 <= i < |log| && IsMark(log[i]) && LastMark(log).value == log[i].now
    ensures forall j :: i < j < |log| ==> !IsMark(log[j])
  {
    if log == [] { i := -1; }
    else if IsMark(log[|log| - 1]) { i := |log| - 1; }
    else { i := LastMarkIs(log[..|log| - 1]); }
  }

  /** After an Entered or Left the state stays what it announced until the next one. */
  lemma {:induction false} StateSinceBoundary(c: Timing, log: seq<Entry>, i: nat, k: nat)
    requires IsHistory(c, log) && i < k <= |log|
    requires IsBoundary(log[i])
    requires forall j :: i < j < k ==> !IsBoundary(log[j])
    ensures log[k - 1].after == Some(log[i].emitted == Some(Entered))
    decreases k
  {
    EntryFacts(c, log, k - 1);
    if k > i + 1 {
      StateSinceBoundary(c, log, i, k - 1);
    }
  }

  /** Entered and Left strictly alternate and are at least the cooldown apart, on every run. */
  lemma {:induction false} BoundariesAlternate(c: Timing, log: seq<Entry>, i: nat, j: nat)
    requires IsHistory(c, log) && i < j < |log|
    requires IsBoundary(log[i]) && IsBoundary(log[j])
    requires forall k :: i < k < j ==> !IsBoundary(log[k])
    ensures log[i].emitted != log[j].emitted
    ensures SaturatingSub(log[j].now, log[i].now) >= c.cooldown
  {
    StateSinceBoundary(c, log, i, j);
    EntryFacts(c, log, j);
    var last := LastBoundaryIs(log[..j]);
    assert log[..j][i] == log[i];
    assert last >= i;
    assert last == i;
    assert FollowsHistory(c, log, j);
    assert MaySwitch(c, log[..j], log[j].now, log[j].proposal.value);
  }

  function Boundaries(log: seq<Entry>): nat {
    if log == [] then 0
    else Boundaries(log[..|log| - 1]) + if IsBoundary(log[|log| - 1]) then 1 else 0
  }

  /** A run of n Entered and Left events lasts at least n - 1 cooldowns. */
  lemma {:induction false} BoundaryRate(c: Timing, log: seq<Entry>)
    requires IsHistory(c, log) && Orderly(log)
    ensures Boundaries(log) > 0 ==> LastBoundary(log).Some?
    ensures Boundaries(log) > 0
         ==> (Boundaries(log) - 1) * c.cooldown <= LastBoundary(log).value - log[0].now
  {
    if log == [] {
    } else {
      var (init, last) := (log[..|log| - 1], log[|log| - 1]);
      PrefixIsHistory(c, log, |init|);
      BoundaryRate(c, init);
      var i := LastBoundaryIs(init);
      if !IsBoundary(last) {
        assert Boundaries(log) == Boundaries(init) && LastBoundary(log) == LastBoundary(init);
      } else if Boundaries(init) == 0 {
        assert Boundaries(log) == 1 && LastBoundary(log) == Some(last.now);
      } else {
        BoundariesAlternate(c, log, i, |log| - 1);
        OneMoreSpan(Boundaries(init) - 1, c.cooldown);
        assert last.now >= LastBoundary(init).value + c.cooldown;
        assert Boundaries(log) == Boundaries(init) + 1 && LastBoundary(log) == Some(last.now);
      }
    }
  }

  lemma {:induction false} OneMoreSpan(n: nat, span: nat)
    ensures (n + 1) * span == n * span + span
  {}

  /** Samples `j` to `k` all propose `target` and span at least the stability time. */
  predicate StableStretch(c: Timing, log: seq<Entry>, j: nat, k: nat, target: bool)
    requires k < |log|
  {
    && j <= k
    && (forall i :: j <= i <= k ==> log[i].proposal == Some(target))
    && SaturatingSub(log[k].now, log[j].now) >= c.stableFor
  }

  /**
   * The state switches to `target` at sample k exactly when a stretch of samples ending
   * at k proposes it for the stability time and every earlier Entered or Left is a
   * cooldown old (no cooldown applies to the very first state).
   */
  lemma {:induction false} SwitchesExactlyWhen(c: Timing, log: seq<Entry>, k: nat, target: bool)
    requires IsHistory(c, log) && Orderly(log) && k < |log|
    ensures log[k].after == Some(target) != log[k].before
       <==> (exists j: nat :: StableStretch(c, log, j, k, target))
            && (log[k].before.None?
                || forall i :: 0 <= i < k && IsBoundary(log[i]) ==> log[k].now - log[i].now >= c.cooldown)
  {
    EntryFacts(c, log, k);
    assert FollowsHistory(c, log, k);
    var past := log[..k];
    var start := StretchStart(past, target);
    var last := LastBoundaryIs(past);
    forall i | 0 <= i < k && IsBoundary(log[i]) ensures i <= last {
      assert past[i] == log[i];
    }
    if log[k].after == Some(target) != log[k].before {
      assert MaySwitch(c, past, log[k].now, target);
      forall i | start <= i <= k ensures log[i].proposal == Some(target) {
        assert i < k ==> past[i] == log[i];
      }
      assert StableStretch(c, log, start, k, target);
    }
    if j: nat :| StableStretch(c, log, j, k, target) {
      assert start <= j;
      assert StretchTime(past, log[k].now, target) == log[start].now;
    }
  }

  lemma {:induction false} DesiredExactly(c: Timing, state: Option<bool>, votes: seq<bool>)
    ensures var (yes, no) := (Count(votes, true) >= c.requiredSamples, Count(votes, false) >= c.requiredSamples);
      var proposal := if Desired(c, state, votes) == state then None else Desired(c, state, votes);
      && (proposal == Some(true) <==> state != Some(true) && yes)
      && (proposal == Some(false) <==> no && (state == Some(true) || (state == None && !yes)))
  {
    match state
    case None =>
    case Some(active) => if active {} else {}
  }

  /** A sample proposes the other side exactly when that side has the required votes among the
      newest samples; while nothing is decided, the positive side comes first. */
  lemma {:induction false} ProposesExactlyWhen(c: Timing, log: seq<Entry>, k: nat, votes: seq<bool>)
    requires IsHistory(c, log) && k < |log| && votes == Newest(Bits(log[..k + 1]), c.sampleWindow)
    ensures var (yes, no) := (Count(votes, true) >= c.requiredSamples, Count(votes, false) >= c.requiredSamples);
      && (log[k].proposal == Some(true) <==> log[k].before != Some(true) && yes)
      && (log[k].proposal == Some(false) <==> no && (log[k].before == Some(true) || (log[k].before == None && !yes)))
  {
    EntryFacts(c, log, k);
    EvidenceRefines(c, log[..k], log[k]);
    assert log[..k] + [log[k]] == log[..k + 1];
    DesiredExactly(c, log[k].before, votes);
  }

  /** A switch is backed by at least `requiredSamples` of the newest accepted samples. */
  lemma {:induction false} SwitchHasVotes(c: Timing, log: seq<Entry>, k: nat)
    requires IsHistory(c, log) && k < |log|
    requires log[k].after != log[k].before
    ensures log[k].after.Some?
    ensures Count(Newest(Bits(log[..k + 1]), c.sampleWindow), log[k].after.value) >= c.requiredSamples
  {
    EntryFacts(c, log, k);
    EvidenceRefines(c, log[..k], log[k]);
    assert log[..k] + [log[k]] == log[..k + 1];
  }

  lemma {:induction false} ActiveSinceMark(c: Timing, log: seq<Entry>, k: nat) returns (i: int)
    requires IsHistory(c, log) && k <= |log|
    ensures -1 <= i < k
    ensures i == -1 ==> Current(log[..k]).None?
    ensures i >= 0 ==> IsMark(log[i]) && log[i].after == Current(log[..k])
    ensures forall j :: i < j < k ==> !IsMark(log[j])
  {
    if k == 0 { return -1; }
    EntryFacts(c, log, k - 1);
    if IsMark(log[k - 1]) { return k - 1; }
    i := ActiveSinceMark(c, log, k - 1);
  }

  /**
   * An Updated is emitted exactly when refreshes are on, the rule is active, the votes do
   * not ask to leave, and every earlier activation or Updated is an interval old.
   */
  lemma {:induction false} UpdatedExactlyWhen(c: Timing, log: seq<Entry>, k: nat)
    requires IsHistory(c, log) && Orderly(log) && k < |log|
    ensures log[k].emitted == Some(Updated)
       <==> c.updateInterval.Some? && log[k].before == Some(true) && log[k].proposal.None?
            && forall i :: 0 <= i < k && IsMark(log[i]) ==> log[k].now - log[i].now >= c.updateInterval.value
    ensures log[k].emitted == Some(Updated)
        ==> exists i :: 0 <= i < k && IsMark(log[i]) && log[i].after == Some(true)
                        && forall j :: i < j < k ==> !IsMark(log[j])
  {
    EntryFacts(c, log, k);
    assert FollowsHistory(c, log, k);
    var past := log[..k];
    var last := LastMarkIs(past);
    var i := ActiveSinceMark(c, log, k);
    forall j | 0 <= j < k && IsMark(log[j]) ensures j <= last {
      assert past[j] == log[j];
    }
    if i >= 0 { assert past[i] == log[i]; }
    assert last == i;
  }

  lemma {:induction false} TwoSampleRun(c: Timing, a: Sample, b: Sample)
    ensures Emissions(c, [a, b]) == [Step(c, FRESH, a).1, Step(c, Step(c, FRESH, a).0, b).1]
  {
    assert [a, b][..1] == [a] && [a][..0] == [];
    assert Emissions(c, [a]) == [Step(c, FRESH, a).1];
    assert Run(c, [a]) == Step(c, FRESH, a).0;
  }

  /** With a window of one sample, the newest bit alone decides. */
  lemma {:induction false} SingleVote(c: Timing, state: Option<bool>, evidence: seq<bool>, bit: bool)
    requires c.requiredSamples == c.sampleWindow == 1
    ensures Newest(evidence + [bit], 1) == [bit]
    ensures Desired(c, state, [bit]) == Some(bit)
  {
    assert [bit][..0] == [];
    assert Count([bit], bit) == 1 && Count([bit], !bit) == 0;
  }

  /** The state changes here for the first time. */
  ghost predicate FirstChange(log: seq<Entry>, s: nat) {
    s < |log| && log[s].after != log[s].before && forall j :: 0 <= j < s ==> log[j].after == log[j].before
  }

  ghost predicate FirstEvent(log: seq<Entry>, k: nat) {
    k < |log| && IsBoundary(log[k]) && forall j :: 0 <= j < k ==> !IsBoundary(log[j])
  }

  lemma {:induction false} UnchangedUntil(c: Timing, log: seq<Entry>, s: nat, k: nat)
    requires IsHistory(c, log) && s <= k <= |log|
    requires forall j :: s <= j < k ==> log[j].after == log[j].before
    ensures s < k ==> log[k - 1].after == (if s == 0 then None else log[s - 1].after)
    decreases k
  {
    if s == k {
    } else {
      UnchangedUntil(c, log, s, k - 1);
      EntryFacts(c, log, k - 1);
    }
  }

  /** Whether the first Entered or Left of a run is a Left: exactly if the first state is not
      the one that `emitInitial` names. An inactive first state is announced as Left when it
      is announced; an active one that is not announced can only be left. */
  lemma {:induction false} FirstEventIsLeftExactly(c: Timing, log: seq<Entry>, s: nat, k: nat)
    requires IsHistory(c, log) && FirstChange(log, s) && FirstEvent(log, k)
    ensures log[k].emitted == Some(Left) <==> log[s].after != Some(c.emitInitial)
  {
    EntryFacts(c, log, s);
    EntryFacts(c, log, k);
    UnchangedUntil(c, log, 0, s);
    assert s <= k;
    if c.emitInitial {
      assert k == s;
    } else {
      assert s < k;
      forall j | s < j < k ensures log[j].after == log[j].before {
        EntryFacts(c, log, j);
        SomeSince(c, log, s, j);
      }
      UnchangedUntil(c, log, s + 1, k);
    }
  }

  /** Once there is a state there always is one. */
  lemma {:induction false} SomeSince(c: Timing, log: seq<Entry>, s: nat, k: nat)
    requires IsHistory(c, log) && s < k < |log| && log[s].after.Some?
    ensures log[k].before.Some?
    decreases k
  {
    EntryFacts(c, log, k);
    EntryFacts(c, log, k - 1);
    if k > s + 1 { SomeSince(c, log, s, k - 1); }
  }

  lemma {:induction false} OneSampleRun(c: Timing, a: Sample)
    ensures Emissions(c, [a]) == [Step(c, FRESH, a).1]
  {
    assert [a][..0] == [];
  }

  predicate SingleSample(c: Timing) {
    c.requiredSamples == c.sampleWindow == 1 && c.stableFor == 0
  }

  /** With a window of one sample and no waiting a step follows the sample at once. */
  lemma {:induction false} SingleStep(c: Timing, m: Memory, s: Sample)
    requires SingleSample(c)
    ensures var voted := m.(evidence := [s.matched]);
      Step(c, m, s) == if m.state == Some(s.matched) then Hold(c, voted.(candidate := None), s.now)
                       else Propose(c, voted, s.now, s.matched)
  {
    SingleVote(c, m.state, m.evidence, s.matched);
  }

  lemma {:induction false} SilentThenLeft(c: Timing, a: Sample, b: Sample)
    requires SingleSample(c) && !c.emitInitial && a.matched && !b.matched && b.now == a.now + c.cooldown
    ensures Step(c, FRESH, a).1 == None && Step(c, Step(c, FRESH, a).0, b).1 == Some(Left)
  {
    SingleStep(c, FRESH, a);
    var active := Memory(Some(true), [true], None, None, Some(a.now));
    assert Propose(c, FRESH.(evidence := [true]), a.now, true) == (active, None);
    SingleStep(c, active, b);
    assert Propose(c, active.(evidence := [false]), b.now, false).1 == Some(Left);
  }

  lemma {:induction false} AnnouncedInactive(c: Timing, a: Sample)
    requires SingleSample(c) && c.emitInitial && !a.matched
    ensures Step(c, FRESH, a).1 == Some(Left)
  {
    SingleStep(c, FRESH, a);
  }

  /** Both ways to a first Left: silently active and then left, and announced inactive. */
  lemma {:induction false} FirstEventCanBeLeft(c: Timing, a: Sample, b: Sample)
    requires SingleSample(c) && a.matched && !b.matched && b.now == a.now + c.cooldown
    ensures !c.emitInitial ==> Emissions(c, [a, b]) == [None, Some(Left)]
    ensures c.emitInitial ==> Emissions(c, [b]) == [Some(Left)]
  {
    if c.emitInitial {
      OneSampleRun(c, b);
      AnnouncedInactive(c, b);
    } else {
      TwoSampleRun(c, a, b);
      SilentThenLeft(c, a, b);
    }
  }

  // ------------------------------------------------------------ of every run

  predicate IsEvent(e: Option<Signal>) {
    e == Some(Entered) || e == Some(Left)
  }

  lemma {:induction false} OutcomesAt(log: seq<Entry>, k: nat)
    requires k < |log|
    ensures |Outcomes(log)| == |log| && Outcomes(log)[k] == log[k].emitted
  {
    OutcomesLength(log);
    if k < |log| - 1 {
      OutcomesLength(log[..|log| - 1]);
      OutcomesAt(log[..|log| - 1], k);
    } else {
      OutcomesLength(log[..|log| - 1]);
    }
  }

  lemma {:induction false} OutcomesLength(log: seq<Entry>)
    ensures |Outcomes(log)| == |log|
  {
    if log == [] {
    } else {
      OutcomesLength(log[..|log| - 1]);
    }
  }

  lemma {:induction false} HistoryTimes(c: Timing, ss: seq<Sample>, k: nat)
    requires k < |ss|
    ensures History(c, ss)[k].now == ss[k].now
  {
    if k < |ss| - 1 { HistoryTimes(c, ss[..|ss| - 1], k); }
  }

  /** Over what any run emits: Entered and Left strictly alternate, and consecutive ones are
      at least the cooldown apart. */
  lemma {:induction false} EmissionsAlternate(c: Timing, ss: seq<Sample>, i: nat, j: nat)
    requires i < j < |ss| && IsEvent(Emissions(c, ss)[i]) && IsEvent(Emissions(c, ss)[j])
    requires forall k :: i < k < j ==> !IsEvent(Emissions(c, ss)[k])
    ensures Emissions(c, ss)[i] != Emissions(c, ss)[j]
    ensures SaturatingSub(ss[j].now, ss[i].now) >= c.cooldown
  {
    var log := History(c, ss);
    RunRefines(c, ss);
    HistoryIsHistory(c, ss);
    HistoryTimes(c, ss, i);
    HistoryTimes(c, ss, j);
    OutcomesAt(log, i);
    OutcomesAt(log, j);
    forall k | i < k < j ensures !IsBoundary(log[k]) {
      OutcomesAt(log, k);
      assert !IsEvent(Emissions(c, ss)[k]);
    }
    BoundariesAlternate(c, log, i, j);
  }

  // ------------------------------------------------- the last event of a history

  datatype Event = Event(signal: Signal, at: nat)

  function LastEvent(log: seq<Entry>): Option<Event> {
    if log == [] then None
    else
      var e := log[|log| - 1];
      if IsBoundary(e) then Some(Event(e.emitted.value, e.now)) else LastEvent(log[..|log| - 1])
  }

  lemma {:induction false} LastEventIs(log: seq<Entry>) returns (i: int)
    ensures LastEvent(log).None? ==> i == -1
    ensures LastEvent(log).Some? ==>
      0 <= i < |log| && IsBoundary(log[i]) && LastEvent(log).value == Event(log[i].emitted.value, log[i].now)
    ensures forall j :: i < j < |log| ==> !IsBoundary(log[j])
  {
    if log == [] { i := -1; }
    else if IsBoundary(log[|log| - 1]) { i := |log| - 1; }
    else { i := LastEventIs(log[..|log| - 1]); }
  }

  lemma {:induction false} AlternatesWithLast(c: Timing, log: seq<Entry>, e: Entry)
    requires IsHistory(c, log + [e]) && IsBoundary(e) && LastEvent(log).Some?
    ensures e.emitted != Some(LastEvent(log).value.signal)
    ensures SaturatingSub(e.now, LastEvent(log).value.at) >= c.cooldown
  {
    var i := LastEventIs(log);
    var all := log + [e];
    forall k | i < k < |log| ensures !IsBoundary(all[k]) {
      assert all[k] == log[k];
    }
    BoundariesAlternate(c, all, i, |log|);
  }
}
