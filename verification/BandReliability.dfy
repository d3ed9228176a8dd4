/**
 * Exactly which numeric rules keep their state for as long as the signal stays between
 * the two thresholds. Every other rule has a run inside the band that changes state again.
 */
module BandReliability {
  import opened Prelude
  import opened Automaton
  import opened Observations
  import opened TemporalRules
  import opened TemporalSafety
  import opened Hysteresis

  /** No run that stays inside the band after a state change ever changes state again. */
  ghost predicate Reliable(c: NumericConfig) {
    forall rs, log, i: nat, k: nat :: !FlipsInBand(c, rs, log, i, k)
  }

  /** A majority, or one vote of two whose changes must be stable or never have to wait. */
  predicate Settles(t: Timing) {
    || 2 * t.requiredSamples > t.sampleWindow
    || (t.requiredSamples == 1 && t.sampleWindow == 2 && (t.stableFor > 0 || t.cooldown == 0))
  }

  // -------------------------------------------------------- one vote of two settles

  /** A flip right inside the band needs a newest vote that already disagrees with the state. */
  lemma {:induction false} FlipNeedsStaleVote(c: NumericConfig, rs: seq<Reading>, log: seq<Entry>, i: nat, k: nat)
    requires FlipsInBand(c, rs, log, i, k) && forall j :: i < j < k ==> !Switches(log, j)
    requires c.timing.requiredSamples == 1 && c.timing.sampleWindow == 2
    ensures k == i + 1 && log[i].after == Some(!log[i].matched)
  {
    VotesAt(c.timing, log, i);
    VotesAt(c.timing, log, k);
    SideBetweenSwitches(c.timing, log, i, k);
    var active := log[i].after.value;
    assert forall j :: i < j <= k ==> log[j].matched == active;
    assert Newest(Bits(log)[..k + 1], 2) == [log[k - 1].matched, active];
    CountOfOneAndTwo(log[k - 1].matched, active, !active);
  }

  /** A proposal right after a change is new, so it cannot have been stable. */
  lemma {:induction false} ChangeRestartsStability(c: Timing, log: seq<Entry>, k: nat)
    requires IsHistory(c, log) && 0 < k < |log| && c.stableFor > 0 && Switches(log, k - 1)
    ensures !Switches(log, k)
  {
    EntryFacts(c, log, k - 1);
    EntryFacts(c, log, k);
    assert FollowsHistory(c, log, k);
    var (past, proposal) := (log[..k], log[k].proposal);
    assert past[k - 1] == log[k - 1];
    if proposal.Some? {
      assert StretchStart(past, proposal.value) == k;
    }
  }

  lemma {:induction false} VotesOfTwo(log: seq<Entry>, matched: bool)
    requires log != []
    ensures Newest(Bits(log) + [matched], 2) == [log[|log| - 1].matched, matched]
  {}

  lemma {:induction false} CountOfOneAndTwo(a: bool, b: bool, x: bool)
    ensures Count([a], x) == if a == x then 1 else 0
    ensures Count([a, b], x) == (if a == x then 1 else 0) + if b == x then 1 else 0
  {
    assert [a][..0] == [] && [a, b][..1] == [a];
    assert Count([a], x) == Count([], x) + if a == x then 1 else 0;
  }

  /** One vote of two always asks for the newest vote. */
  lemma {:induction false} NewestIsDesired(c: Timing, votes: seq<bool>, last: bool, bit: bool)
    requires c.requiredSamples == 1
    requires votes == [last, bit]
    ensures Desired(c, Some(last), votes) == Some(bit)
  {
    CountOfOneAndTwo(last, bit, true);
    CountOfOneAndTwo(last, bit, false);
  }

  /** Without waiting times the state is what the votes ask for. */
  lemma {:induction false} InstantEntry(c: Timing, log: seq<Entry>, k: nat)
    requires IsHistory(c, log) && k < |log| && c.stableFor == 0 && c.cooldown == 0
    ensures log[k].after
         == Desired(c, Current(log[..k]), Newest(Bits(log[..k]) + [log[k].matched], c.sampleWindow))
  {
    assert FollowsHistory(c, log, k);
  }

  lemma {:induction false} NewestDecides(c: Timing, log: seq<Entry>, k: nat)
    requires IsHistory(c, log) && k < |log|
    requires c.requiredSamples == 1 && c.sampleWindow == 2 && c.stableFor == 0 && c.cooldown == 0
    ensures log[k].after == Some(log[k].matched)
  {
    var (past, bit) := (log[..k], log[k].matched);
    InstantEntry(c, log, k);
    if k == 0 {
      CountOfOneAndTwo(bit, bit, true);
      CountOfOneAndTwo(bit, bit, false);
      assert Newest(Bits(past) + [bit], 2) == [bit];
    } else {
      NewestDecides(c, log, k - 1);
      VotesOfTwo(past, bit);
      NewestIsDesired(c, [log[k - 1].matched, bit], log[k - 1].matched, bit);
    }
  }

  /** One vote of two never flips in the band if changes need stability or none has to wait. */
  lemma {:induction false} OneOfTwoSettlesInBand(c: NumericConfig, rs: seq<Reading>, log: seq<Entry>, i: nat, k: nat)
    requires c.timing.requiredSamples == 1 && c.timing.sampleWindow == 2
    requires c.timing.stableFor > 0 || c.timing.cooldown == 0
    ensures !FlipsInBand(c, rs, log, i, k)
    decreases k
  {
    if FlipsInBand(c, rs, log, i, k) {
      if j :| i < j < k && Switches(log, j) {
        OneOfTwoSettlesInBand(c, rs, log, i, j);
      } else {
        FlipNeedsStaleVote(c, rs, log, i, k);
        if c.timing.stableFor > 0 {
          ChangeRestartsStability(c.timing, log, k);
        } else {
          NewestDecides(c.timing, log, i);
        }
      }
    }
  }

  // ------------------------------------------------------------ runs over readings

  /** The memory after a run over accepted readings. */
  function NumericRun(c: NumericConfig, rs: seq<Reading>): Memory {
    if rs == [] then FRESH
    else
      var (m, r) := (NumericRun(c, rs[..|rs| - 1]), rs[|rs| - 1]);
      Step(c.timing, m, Sample(r.now, InsideBand(c, m.state, r.value))).0
  }

  lemma {:induction false} NumericRunRefines(c: NumericConfig, rs: seq<Reading>)
    ensures Remembers(c.timing, NumericRun(c, rs), NumericLog(c, rs))
  {
    if rs == [] {
    } else {
      var (init, r) := (rs[..|rs| - 1], rs[|rs| - 1]);
      NumericRunRefines(c, init);
      var m := NumericRun(c, init);
      StepRefines(c.timing, m, NumericLog(c, init), Sample(r.now, InsideBand(c, m.state, r.value)));
    }
  }

  lemma {:induction false} LogOfPrefix(c: NumericConfig, rs: seq<Reading>, k: nat)
    requires k <= |rs|
    ensures NumericLog(c, rs[..k]) == NumericLog(c, rs)[..k]
  {
    if k < |rs| {
      var init := rs[..|rs| - 1];
      assert init[..k] == rs[..k];
      LogOfPrefix(c, init, k);
    } else {
      assert rs[..k] == rs;
    }
  }

  lemma {:induction false} StateAfter(c: NumericConfig, rs: seq<Reading>, k: nat)
    requires 0 < k <= |rs|
    ensures NumericRun(c, rs[..k]).state == NumericLog(c, rs)[k - 1].after
  {
    NumericRunRefines(c, rs[..k]);
    LogOfPrefix(c, rs, k);
    RememberedState(c.timing, NumericRun(c, rs[..k]), NumericLog(c, rs), k);
  }

  lemma {:induction false} RememberedState(c: Timing, m: Memory, log: seq<Entry>, k: nat)
    requires 0 < k <= |log| && Remembers(c, m, log[..k])
    ensures m.state == log[k - 1].after
  {}

  /** The next reading changes the state. */
  predicate Turns(c: NumericConfig, rs: seq<Reading>, r: Reading) {
    NumericRun(c, rs).state != NumericRun(c, rs + [r]).state
  }

  lemma {:induction false} StatesAround(c: NumericConfig, rs: seq<Reading>, k: nat)
    requires k < |rs| && NumericRun(c, rs[..k]).state != NumericRun(c, rs[..k + 1]).state
    ensures Switches(NumericLog(c, rs), k)
  {
    NumericLogDescribes(c, rs);
    EntryFacts(c.timing, NumericLog(c, rs), k);
    StateAfter(c, rs, k + 1);
    if k > 0 { StateAfter(c, rs, k); } else { assert rs[..0] == []; }
  }

  lemma {:induction false} TurnSwitches(c: NumericConfig, all: seq<Reading>, rs: seq<Reading>, r: Reading)
    requires rs + [r] <= all && Turns(c, rs, r)
    ensures Switches(NumericLog(c, all), |rs|)
  {
    assert all[..|rs|] == (rs + [r])[..|rs|] == rs;
    assert all[..|rs| + 1] == rs + [r];
    StatesAround(c, all, |rs|);
  }

  lemma {:induction false} FlipOnNext(c: NumericConfig, rs: seq<Reading>, change: Reading, last: Reading)
    requires Turns(c, rs, change) && Turns(c, rs + [change], last) && InBand(c, last.value)
    ensures var all := rs + [change] + [last];
            FlipsInBand(c, all, NumericLog(c, all), |rs|, |rs| + 1)
  {
    var all := rs + [change] + [last];
    NumericLogDescribes(c, all);
    TurnSwitches(c, all, rs, change);
    TurnSwitches(c, all, rs + [change], last);
  }

  lemma {:induction false} FlipAfterNext(c: NumericConfig, rs: seq<Reading>, change: Reading, mid: Reading, last: Reading)
    requires Turns(c, rs, change) && Turns(c, rs + [change] + [mid], last)
    requires InBand(c, mid.value) && InBand(c, last.value)
    ensures var all := rs + [change] + [mid] + [last];
            FlipsInBand(c, all, NumericLog(c, all), |rs|, |rs| + 2)
  {
    var kept := rs + [change] + [mid];
    var all := kept + [last];
    NumericLogDescribes(c, all);
    assert all[|rs| + 1] == mid && all[|rs| + 2] == last;
    assert rs + [change] <= all by { assert all[..|rs| + 1] == rs + [change]; }
    TurnSwitches(c, all, rs, change);
    TurnSwitches(c, all, kept, last);
    FlipsAround(c, all, NumericLog(c, all), |rs|);
  }

  lemma {:induction false} FlipsAround(c: NumericConfig, rs: seq<Reading>, log: seq<Entry>, i: nat)
    requires i + 3 == |rs| && Describes(c, rs, log)
    requires Switches(log, i) && Switches(log, i + 2)
    requires InBand(c, rs[i + 1].value) && InBand(c, rs[i + 2].value)
    ensures FlipsInBand(c, rs, log, i, i + 2)
  {}

  // ------------------------------------------------------- one reading at a time

  /** What the next decision depends on. */
  datatype Poll = Poll(
    state: Option<bool>,
    evidence: seq<bool>,
    candidate: Option<Candidate>,
    lastTransition: Option<nat>)

  function PollOf(m: Memory): Poll {
    Poll(m.state, m.evidence, m.candidate, m.lastTransition)
  }

  function PollAfter(c: NumericConfig, rs: seq<Reading>): Poll {
    PollOf(NumericRun(c, rs))
  }

  function Votes(c: NumericConfig, p: Poll, value: real): seq<bool> {
    Newest(p.evidence + [InsideBand(c, p.state, value)], c.timing.sampleWindow)
  }

  predicate Waits(t: Timing, p: Poll, now: nat, since: nat) {
    SaturatingSub(now, since) < t.stableFor || (p.state.Some? && !Elapsed(p.lastTransition, now, t.cooldown))
  }

  function Since(p: Poll, target: bool, now: nat): nat {
    if p.candidate.Some? && p.candidate.value.target == target then p.candidate.value.since else now
  }

  lemma {:induction false} RunOfPushed(c: NumericConfig, rs: seq<Reading>, r: Reading)
    ensures var m := NumericRun(c, rs);
            NumericRun(c, rs + [r]) == Step(c.timing, m, Sample(r.now, InsideBand(c, m.state, r.value))).0
  {
    assert (rs + [r])[..|rs|] == rs;
  }

  /** The votes do not ask for another state. */
  lemma {:induction false} QuietReading(c: NumericConfig, rs: seq<Reading>, p: Poll, r: Reading)
    requires PollAfter(c, rs) == p && Desired(c.timing, p.state, Votes(c, p, r.value)) == p.state
    ensures PollAfter(c, rs + [r]) == p.(evidence := Votes(c, p, r.value), candidate := None)
  {
    RunOfPushed(c, rs, r);
  }

  /** They do, but the change has to wait. */
  lemma {:induction false} WaitingReading(c: NumericConfig, rs: seq<Reading>, p: Poll, r: Reading, target: bool)
    requires PollAfter(c, rs) == p
    requires Desired(c.timing, p.state, Votes(c, p, r.value)) == Some(target) != p.state
    requires Waits(c.timing, p, r.now, Since(p, target, r.now))
    ensures PollAfter(c, rs + [r])
         == p.(evidence := Votes(c, p, r.value), candidate := Some(Candidate(target, Since(p, target, r.now))))
  {
    RunOfPushed(c, rs, r);
  }

  /** They do, and the state changes. */
  lemma {:induction false} DecisiveReading(c: NumericConfig, rs: seq<Reading>, p: Poll, r: Reading, target: bool)
    requires PollAfter(c, rs) == p
    requires Desired(c.timing, p.state, Votes(c, p, r.value)) == Some(target) != p.state
    requires !Waits(c.timing, p, r.now, Since(p, target, r.now))
    ensures PollAfter(c, rs + [r])
         == Poll(Some(target), Votes(c, p, r.value), None,
                 if p.state.None? && !c.timing.emitInitial then p.lastTransition else Some(r.now))
  {
    RunOfPushed(c, rs, r);
  }

  function Low(c: NumericConfig, now: nat): Reading { Reading(now, c.enterBelow - 1.0) }

  function High(c: NumericConfig, now: nat): Reading { Reading(now, c.leaveAbove + 1.0) }

  function Mid(c: NumericConfig, now: nat): Reading { Reading(now, c.enterBelow) }

  function Side(c: NumericConfig, bit: bool, now: nat): Reading {
    if bit then Low(c, now) else High(c, now)
  }

  /** Outside the band the reading is the vote; inside, the state is. */
  lemma {:induction false} VoteOfReading(c: NumericConfig, state: Option<bool>, bit: bool, now: nat)
    requires c.enterBelow <= c.leaveAbove
    ensures InsideBand(c, state, Side(c, bit, now).value) == bit
    ensures InsideBand(c, state, Mid(c, now).value) <==> state == Some(true)
    ensures InBand(c, Mid(c, now).value)
  {}

  // ------------------------------------------------- counting in the opening votes

  function Repeat(bit: bool, n: nat): (bits: seq<bool>)
    ensures |bits| == n
    ensures forall i :: 0 <= i < n ==> bits[i] == bit
  {
    if n == 0 then [] else Repeat(bit, n - 1) + [bit]
  }

  lemma {:induction false} CountOfPushed(bits: seq<bool>, bit: bool, b: bool)
    ensures Count(bits + [bit], b) == Count(bits, b) + if bit == b then 1 else 0
  {
    assert (bits + [bit])[..|bits|] == bits;
  }

  lemma {:induction false} CountRepeat(bits: seq<bool>, bit: bool, n: nat, b: bool)
    ensures Count(bits + Repeat(bit, n), b) == Count(bits, b) + if bit == b then n else 0
  {
    if n == 0 {
      assert bits + Repeat(bit, 0) == bits;
    } else {
      CountRepeat(bits, bit, n - 1, b);
      var init := bits + Repeat(bit, n - 1);
      CountOfPushed(init, bit, b);
      assert bits + Repeat(bit, n) == init + [bit];
    }
  }

  lemma {:induction false} CountWithFirst(first: bool, rest: seq<bool>, b: bool)
    ensures Count([first] + rest, b) == Count(rest, b) + if first == b then 1 else 0
  {
    if rest == [] {
      CountOfOneAndTwo(first, first, b);
      assert [first] + rest == [first];
    } else {
      CountWithFirst(first, rest[..|rest| - 1], b);
      assert ([first] + rest)[..|rest|] == [first] + rest[..|rest| - 1];
    }
  }

  /** Positive votes, then negative ones. */
  function Split(yes: nat, no: nat): (bits: seq<bool>)
    ensures |bits| == yes + no
    ensures forall i :: 0 <= i < yes ==> bits[i]
  {
    Repeat(true, yes) + Repeat(false, no)
  }

  lemma {:induction false} CountSplit(yes: nat, no: nat)
    ensures Count(Split(yes, no), true) == yes && Count(Split(yes, no), false) == no
  {
    CountRepeat([], true, yes, true);
    CountRepeat([], true, yes, false);
    assert [] + Repeat(true, yes) == Repeat(true, yes);
    CountRepeat(Repeat(true, yes), false, no, true);
    CountRepeat(Repeat(true, yes), false, no, false);
  }

  /** A positive vote pushes out at most one positive one, so every negative one stays. */
  lemma {:induction false} NegativeVotesStay(votes: seq<bool>, capacity: nat) returns (next: seq<bool>)
    requires 0 < |votes| <= capacity && (|votes| == capacity ==> votes[0])
    ensures next == Newest(votes + [true], capacity)
    ensures Count(next, false) == Count(votes, false) && 0 < |next| <= capacity
    ensures votes[0] && (|votes| == capacity ==> |votes| > 1 && votes[1]) ==> next[0]
  {
    next := Newest(votes + [true], capacity);
    CountOfPushed(votes, true, false);
    if |votes| == capacity {
      assert votes + [true] == [true] + next;
      CountWithFirst(true, next, false);
    }
  }

  // ---------------------------------------------------------- the opening of a run

  /** Readings at time 0 that cast the given votes. */
  function Opening(c: NumericConfig, bits: seq<bool>): (rs: seq<Reading>)
    ensures |rs| == |bits|
  {
    if bits == [] then [] else Opening(c, bits[..|bits| - 1]) + [Side(c, bits[|bits| - 1], 0)]
  }

  /** These votes settle nothing: too few on either side, or a positive majority that waits. */
  predicate Unsettled(t: Timing, bits: seq<bool>) {
    && Count(bits, false) < t.requiredSamples
    && (Count(bits, true) >= t.requiredSamples ==> t.stableFor > 0)
  }

  function OpeningPoll(t: Timing, bits: seq<bool>): Poll {
    Poll(None, bits, if Count(bits, true) >= t.requiredSamples then Some(Candidate(true, 0)) else None, None)
  }

  lemma {:induction false} OpeningRun(c: NumericConfig, bits: seq<bool>)
    requires ValidNumeric(c) && |bits| <= c.timing.sampleWindow && Unsettled(c.timing, bits)
    ensures PollAfter(c, Opening(c, bits)) == OpeningPoll(c.timing, bits)
  {
    if bits == [] {
    } else {
      var (init, last) := (bits[..|bits| - 1], bits[|bits| - 1]);
      assert bits == init + [last];
      OpeningRun(c, init);
      OpeningReading(c, Opening(c, init), init, last);
    }
  }

  lemma {:induction false} OpeningReading(c: NumericConfig, rs: seq<Reading>, bits: seq<bool>, bit: bool)
    requires ValidNumeric(c) && |bits| < c.timing.sampleWindow && Unsettled(c.timing, bits + [bit])
    requires PollAfter(c, rs) == OpeningPoll(c.timing, bits)
    ensures PollAfter(c, rs + [Side(c, bit, 0)]) == OpeningPoll(c.timing, bits + [bit])
  {
    var (p, r) := (OpeningPoll(c.timing, bits), Side(c, bit, 0));
    VoteOfReading(c, None, bit, 0);
    CountOfPushed(bits, bit, true);
    CountOfPushed(bits, bit, false);
    assert Votes(c, p, r.value) == bits + [bit];
    if Count(bits + [bit], true) >= c.timing.requiredSamples {
      WaitingReading(c, rs, p, r, true);
    } else {
      QuietReading(c, rs, p, r);
    }
  }

  // ---------------------------------------------------------------- the flips

  /** Votes short of a majority that leave room for a stale side behind an in-band reading. */
  predicate Minority(t: Timing) {
    2 * t.requiredSamples <= t.sampleWindow && t.sampleWindow > 2
  }

  /** The rule is in the given state, and the negative votes still reach what is required. */
  predicate Contested(c: NumericConfig, rs: seq<Reading>, p: Poll, active: bool) {
    && PollAfter(c, rs) == p
    && p.state == Some(active)
    && p.candidate.None?
    && 0 < |p.evidence| <= c.timing.sampleWindow
    && Count(p.evidence, false) == c.timing.requiredSamples
  }

  /** One more reading above the band behind opening votes that settle nothing. */
  lemma {:induction false} AfterOpening(c: NumericConfig, yes: nat, no: nat, now: nat)
      returns (rs: seq<Reading>, p: Poll, votes: seq<bool>)
    requires ValidNumeric(c) && yes + no < c.timing.sampleWindow && no < c.timing.requiredSamples
    requires yes >= c.timing.requiredSamples ==> c.timing.stableFor > 0
    ensures PollAfter(c, rs) == p && p.state.None? && p.lastTransition.None?
    ensures p.candidate == if yes >= c.timing.requiredSamples then Some(Candidate(true, 0)) else None
    ensures votes == Votes(c, p, High(c, now).value) && |votes| == yes + no + 1
    ensures Count(votes, true) == yes && Count(votes, false) == no + 1
    ensures forall i :: 0 <= i < yes ==> votes[i]
  {
    var bits := Split(yes, no);
    CountSplit(yes, no);
    OpeningRun(c, bits);
    rs, p, votes := Opening(c, bits), OpeningPoll(c.timing, bits), bits + [false];
    VoteOfReading(c, None, false, now);
    CountOfPushed(bits, false, true);
    CountOfPushed(bits, false, false);
  }

  lemma {:induction false} BecomesInactive(c: NumericConfig) returns (rs: seq<Reading>, p: Poll)
    requires ValidNumeric(c) && Minority(c.timing) && c.timing.stableFor == 0
    ensures Contested(c, rs, p, false)
    ensures |p.evidence| == 2 * c.timing.requiredSamples - 1
    ensures Count(p.evidence, true) == c.timing.requiredSamples - 1
    ensures p.evidence[0] || c.timing.requiredSamples == 1
    ensures p.lastTransition.None? || p.lastTransition == Some(0)
  {
    var n := c.timing.requiredSamples;
    var start, idle, votes := AfterOpening(c, n - 1, n - 1, 0);
    DecisiveReading(c, start, idle, High(c, 0), false);
    rs := start + [High(c, 0)];
    p := PollAfter(c, rs);
  }

  lemma {:induction false} BecomesActive(c: NumericConfig, rs: seq<Reading>, p: Poll) returns (r: Reading, q: Poll)
    requires ValidNumeric(c) && Minority(c.timing) && c.timing.stableFor == 0
    requires Contested(c, rs, p, false) && |p.evidence| == 2 * c.timing.requiredSamples - 1
    requires Count(p.evidence, true) == c.timing.requiredSamples - 1
    requires p.lastTransition.None? || p.lastTransition == Some(0)
    ensures r == Low(c, c.timing.cooldown) && Contested(c, rs + [r], q, true)
    ensures |q.evidence| == |p.evidence| + 1 && q.evidence[0] == p.evidence[0]
    ensures q.lastTransition == Some(r.now)
  {
    r := Low(c, c.timing.cooldown);
    VoteOfReading(c, p.state, true, r.now);
    CountOfPushed(p.evidence, true, true);
    CountOfPushed(p.evidence, true, false);
    assert Votes(c, p, r.value) == p.evidence + [true];
    DecisiveReading(c, rs, p, r, true);
    q := PollAfter(c, rs + [r]);
  }

  /** An active rule takes an in-band reading for a positive vote and finds the negative ones. */
  lemma {:induction false} BandReading(c: NumericConfig, rs: seq<Reading>, p: Poll, r: Reading) returns (votes: seq<bool>)
    requires ValidNumeric(c) && r == Mid(c, r.now)
    requires PollAfter(c, rs) == p && p.state == Some(true)
    requires 0 < |p.evidence| <= c.timing.sampleWindow && (|p.evidence| == c.timing.sampleWindow ==> p.evidence[0])
    requires Count(p.evidence, false) == c.timing.requiredSamples
    ensures votes == Votes(c, p, r.value) && Desired(c.timing, p.state, votes) == Some(false)
    ensures Count(votes, false) == c.timing.requiredSamples && 0 < |votes| <= c.timing.sampleWindow
    ensures p.evidence[0] && (|p.evidence| == c.timing.sampleWindow ==> |p.evidence| > 1 && p.evidence[1]) ==> votes[0]
    ensures |p.evidence| < c.timing.sampleWindow ==> |votes| == |p.evidence| + 1
  {
    VoteOfReading(c, p.state, true, r.now);
    votes := NegativeVotesStay(p.evidence, c.timing.sampleWindow);
  }

  lemma {:induction false} LeavesInBand(c: NumericConfig, rs: seq<Reading>, p: Poll, last: Reading)
    requires ValidNumeric(c) && last == Mid(c, last.now)
    requires PollAfter(c, rs) == p && p.state == Some(true)
    requires !Waits(c.timing, p, last.now, Since(p, false, last.now))
    requires 0 < |p.evidence| <= c.timing.sampleWindow && (|p.evidence| == c.timing.sampleWindow ==> p.evidence[0])
    requires Count(p.evidence, false) == c.timing.requiredSamples
    ensures Turns(c, rs, last)
  {
    var votes := BandReading(c, rs, p, last);
    DecisiveReading(c, rs, p, last, false);
  }

  /** Without a stability time the next reading in the band undoes the change. */
  lemma {:induction false} StaleMinorityFlips(c: NumericConfig) returns (rs: seq<Reading>, i: nat, k: nat)
    requires ValidNumeric(c) && Minority(c.timing) && c.timing.stableFor == 0
    ensures FlipsInBand(c, rs, NumericLog(c, rs), i, k)
  {
    var start, left := BecomesInactive(c);
    var low, entered := BecomesActive(c, start, left);
    var mid := Mid(c, 2 * c.timing.cooldown);
    LeavesInBand(c, start + [low], entered, mid);
    FlipOnNext(c, start, low, mid);
    rs, i, k := start + [low] + [mid], |start|, |start| + 1;
  }

  /** A stability time lets the other side gather votes behind a change that was already asked for. */
  lemma {:induction false} BecomesActiveLate(c: NumericConfig) returns (rs: seq<Reading>, r: Reading, p: Poll)
    requires ValidNumeric(c) && Minority(c.timing) && c.timing.stableFor > 0
    ensures NumericRun(c, rs).state == None
    ensures r == High(c, c.timing.stableFor) && Contested(c, rs + [r], p, true)
    ensures |p.evidence| == 2 * c.timing.requiredSamples && p.evidence[0]
    ensures c.timing.requiredSamples > 1 ==> p.evidence[1]
    ensures p.lastTransition.None? || p.lastTransition == Some(r.now)
  {
    var n := c.timing.requiredSamples;
    r := High(c, c.timing.stableFor);
    var idle, votes;
    rs, idle, votes := AfterOpening(c, n, n - 1, r.now);
    DecisiveReading(c, rs, idle, r, true);
    p := PollAfter(c, rs + [r]);
  }

  lemma {:induction false} ProposesToLeave(c: NumericConfig, rs: seq<Reading>, p: Poll, mid: Reading) returns (q: Poll)
    requires ValidNumeric(c) && mid == Mid(c, mid.now) && c.timing.stableFor > 0
    requires Contested(c, rs, p, true) && p.evidence[0]
    requires |p.evidence| == c.timing.sampleWindow ==> |p.evidence| > 1 && p.evidence[1]
    ensures PollAfter(c, rs + [mid]) == q && q.state == Some(true)
    ensures q.candidate == Some(Candidate(false, mid.now)) && q.lastTransition == p.lastTransition
    ensures 0 < |q.evidence| <= c.timing.sampleWindow && q.evidence[0]
    ensures Count(q.evidence, false) == c.timing.requiredSamples
  {
    var votes := BandReading(c, rs, p, mid);
    WaitingReading(c, rs, p, mid, false);
    q := PollAfter(c, rs + [mid]);
  }

  /** The first reading in the band proposes to undo the change, a later one does so. */
  lemma {:induction false} WaitingMinorityFlips(c: NumericConfig) returns (rs: seq<Reading>, i: nat, k: nat)
    requires ValidNumeric(c) && Minority(c.timing) && c.timing.stableFor > 0
    ensures FlipsInBand(c, rs, NumericLog(c, rs), i, k)
  {
    var start, high, entered := BecomesActiveLate(c);
    var since := c.timing.stableFor + c.timing.cooldown;
    var (mid, last) := (Mid(c, since), Mid(c, since + c.timing.stableFor));
    var before := start + [high];
    var proposed := ProposesToLeave(c, before, entered, mid);
    LeavesInBand(c, before + [mid], proposed, last);
    FlipAfterNext(c, start, high, mid, last);
    rs, i, k := before + [mid] + [last], |start|, |start| + 2;
  }

  // ------------------------------------------------- one vote of two and a cooldown

  /** One vote of two, at once but for the cooldown. */
  predicate Delayed(t: Timing) {
    t.requiredSamples == 1 && t.sampleWindow == 2 && t.stableFor == 0 && t.cooldown > 0
  }

  lemma {:induction false} VotesOfPair(p: Poll, bit: bool, vote: bool)
    requires p.evidence != [] && p.evidence[|p.evidence| - 1] == bit
    ensures Newest(p.evidence + [vote], 2) == [bit, vote]
  {}

  /** The state after a vote that differs from the one before it, once the cooldown is over. */
  lemma {:induction false} MixedVotes(c: NumericConfig, rs: seq<Reading>, p: Poll, r: Reading, vote: bool, active: bool)
    requires Delayed(c.timing) && PollAfter(c, rs) == p && p.state == Some(active)
    requires vote == InsideBand(c, p.state, r.value)
    requires p.evidence != [] && p.evidence[|p.evidence| - 1] == !vote
    ensures var q := PollAfter(c, rs + [r]);
            q.evidence == [!vote, vote]
            && (if Elapsed(p.lastTransition, r.now, c.timing.cooldown)
                then q.state == Some(!active) && q.lastTransition == Some(r.now)
                else q.state == p.state && q.lastTransition == p.lastTransition)
  {
    VotesOfPair(p, !vote, vote);
    CountOfOneAndTwo(!vote, vote, true);
    CountOfOneAndTwo(!vote, vote, false);
    if Elapsed(p.lastTransition, r.now, c.timing.cooldown) {
      DecisiveReading(c, rs, p, r, !active);
    } else {
      WaitingReading(c, rs, p, r, !active);
    }
  }

  lemma {:induction false} FirstHigh(c: NumericConfig) returns (p: Poll)
    requires ValidNumeric(c) && Delayed(c.timing)
    ensures p == PollAfter(c, [High(c, 0)])
    ensures p.state == Some(false) && p.evidence == [false] && (p.lastTransition.None? || p.lastTransition == Some(0))
  {
    var (fresh0, r) := (PollOf(FRESH), High(c, 0));
    VoteOfReading(c, None, false, 0);
    CountOfOneAndTwo(false, false, true);
    CountOfOneAndTwo(false, false, false);
    assert Votes(c, fresh0, r.value) == [false];
    assert [] + [r] == [r];
    DecisiveReading(c, [], fresh0, r, false);
    p := PollAfter(c, [r]);
  }

  /**
   * The change that the cooldown delays lands on a vote that already disagrees with it,
   * and the next reading in the band undoes it.
   */
  lemma {:induction false} DelayedSwitchFlips(c: NumericConfig) returns (rs: seq<Reading>, i: nat, k: nat)
    requires ValidNumeric(c) && Delayed(c.timing)
    ensures FlipsInBand(c, rs, NumericLog(c, rs), i, k)
  {
    var wait := c.timing.cooldown;
    var (r1, r2, r3, r4) := (Low(c, wait), High(c, wait), Low(c, 2 * wait), Mid(c, 3 * wait));
    var s0 := [High(c, 0)];
    var (s1, s2) := (s0 + [r1], s0 + [r1] + [r2]);
    var left := FirstHigh(c);
    VoteOfReading(c, Some(false), true, wait);
    VoteOfReading(c, Some(true), false, wait);
    VoteOfReading(c, Some(true), true, 2 * wait);
    VoteOfReading(c, Some(false), true, 3 * wait);
    MixedVotes(c, s0, left, r1, true, false);
    MixedVotes(c, s1, PollAfter(c, s1), r2, false, true);
    MixedVotes(c, s2, PollAfter(c, s2), r3, true, true);
    MixedVotes(c, s2 + [r3], PollAfter(c, s2 + [r3]), r4, false, false);
    FlipOnNext(c, s2, r3, r4);
    rs, i, k := s2 + [r3] + [r4], |s2|, |s2| + 1;
  }

  // ------------------------------------------------------------- the exact condition

  /** A rule that does not settle has a run that flips inside its band. */
  lemma {:induction false} UnsettledRuleFlips(c: NumericConfig) returns (rs: seq<Reading>, i: nat, k: nat)
    requires ValidNumeric(c) && !Settles(c.timing)
    ensures FlipsInBand(c, rs, NumericLog(c, rs), i, k)
  {
    if !Minority(c.timing) { rs, i, k := DelayedSwitchFlips(c); }
    else if c.timing.stableFor == 0 { rs, i, k := StaleMinorityFlips(c); }
    else { rs, i, k := WaitingMinorityFlips(c); }
  }

  /**
   * Rule by rule: a signal that stays in the band after a change keeps the state on every
   * run if and only if the vote is a majority, or it is one of two and either a change
   * must be stable or there is no cooldown.
   */
  lemma {:induction false} BandIsReliableExactly(c: NumericConfig)
    requires ValidNumeric(c)
    ensures Reliable(c) <==> Settles(c.timing)
  {
    if Settles(c.timing) {
      forall rs, log, i: nat, k: nat ensures !FlipsInBand(c, rs, log, i, k) {
        if 2 * c.timing.requiredSamples > c.timing.sampleWindow {
          MajoritySettlesInBand(c, rs, log, i, k);
        } else {
          OneOfTwoSettlesInBand(c, rs, log, i, k);
        }
      }
    } else {
      var rs, i, k := UnsettledRuleFlips(c);
    }
  }

  function Config(enterBelow: real, leaveAbove: real, timing: Timing): NumericConfig {
    NumericConfig(0, "", enterBelow, leaveAbove, 0.0, timing)
  }

  /** Votes that are reliable whatever the waiting times are the majorities. */
  lemma {:induction false} BandReliableExactlyForMajorities(required: nat, window: nat, enterBelow: real, leaveAbove: real)
    requires 0 < required <= window && enterBelow <= leaveAbove
    ensures 2 * required > window
       <==> forall stableFor, cooldown :: Reliable(Config(enterBelow, leaveAbove, Timing(required, window, stableFor, cooldown, true, None)))
  {
    forall stableFor, cooldown {
      BandIsReliableExactly(Config(enterBelow, leaveAbove, Timing(required, window, stableFor, cooldown, true, None)));
    }
    var delayed := Config(enterBelow, leaveAbove, Timing(required, window, 0, 1, true, None));
    assert Reliable(delayed) <==> Settles(delayed.timing);
  }
}
