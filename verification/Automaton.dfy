/**
 * The debouncing automaton that every temporal rule of the engine runs: a bounded
 * evidence deque with N-of-M voting, a stability candidate, a cooldown and
 * rate-limited updates.
 *
 * `Step` is one accepted sample. The second half of the module gives each remembered
 * field an independent meaning in terms of the whole sample history and proves that
 * the incremental fields always equal it.
 */
module Automaton {
  import opened Prelude

  datatype Signal = Entered | Updated | Left

  datatype Timing = Timing(
    requiredSamples: nat,
    sampleWindow: nat,
    stableFor: nat,
    cooldown: nat,
    emitInitial: bool,
    updateInterval: Option<nat>)

  predicate ValidTiming(c: Timing) {
    0 < c.requiredSamples <= c.sampleWindow && c.updateInterval != Some(0)
  }

  datatype Candidate = Candidate(target: bool, since: nat)

  datatype Memory = Memory(
    state: Option<bool>,
    evidence: seq<bool>,
    candidate: Option<Candidate>,
    lastTransition: Option<nat>,
    lastUpdate: Option<nat>)

  const FRESH := Memory(None, [], None, None, None)

  /** One accepted observation: its timestamp and its match bit. */
  datatype Sample = Sample(now: nat, matched: bool)

  // ---------------------------------------------------------------- voting

  function Count(bits: seq<bool>, b: bool): nat {
    if bits == [] then 0
    else Count(bits[..|bits| - 1], b) + if bits[|bits| - 1] == b then 1 else 0
  }

  function Newest(bits: seq<bool>, capacity: nat): seq<bool> {
    bits[Max(0, |bits| - capacity)..]
  }

  /** Which state the votes ask for; the state that does not hold yet wins a tie. */
  function Desired(c: Timing, state: Option<bool>, evidence: seq<bool>): Option<bool> {
    if Count(evidence, true) >= c.requiredSamples && state != Some(true) then Some(true)
    else if Count(evidence, false) >= c.requiredSamples && state != Some(false) then Some(false)
    else state
  }

  // ------------------------------------------------------------------ step

  predicate Elapsed(mark: Option<nat>, now: nat, span: nat) {
    mark.None? || SaturatingSub(now, mark.value) >= span
  }

  function Step(c: Timing, m: Memory, s: Sample): (Memory, Option<Signal>) {
    var evidence := Newest(m.evidence + [s.matched], c.sampleWindow);
    var desired := Desired(c, m.state, evidence);
    if desired == m.state || desired.None? then
      Hold(c, m.(evidence := evidence, candidate := None), s.now)
    else
      Propose(c, m.(evidence := evidence), s.now, desired.value)
  }

  /** The votes agree with the state: forget the candidate, perhaps refresh. */
  function Hold(c: Timing, m: Memory, now: nat): (Memory, Option<Signal>) {
    if m.state == Some(true) && c.updateInterval.Some? && m.lastUpdate.Some?
       && SaturatingSub(now, m.lastUpdate.value) >= c.updateInterval.value
    then (m.(lastUpdate := Some(now)), Some(Updated))
    else (m, None)
  }

  /** The votes ask for `target`: wait for stability and cooldown, then switch. */
  function Propose(c: Timing, m: Memory, now: nat, target: bool): (Memory, Option<Signal>) {
    var since := if m.candidate.Some? && m.candidate.value.target == target
                 then m.candidate.value.since else now;
    var waiting := m.(candidate := Some(Candidate(target, since)));
    if SaturatingSub(now, since) < c.stableFor then (waiting, None)
    else if m.state.Some? && !Elapsed(m.lastTransition, now, c.cooldown) then (waiting, None)
    else
      var switched := waiting.(state := Some(target), candidate := None, lastUpdate := Some(now));
      if m.state.None? && !c.emitInitial then (switched, None)
      else (switched.(lastTransition := Some(now)), Some(Boundary(target)))
  }

  function Boundary(target: bool): Signal {
    if target then Entered else Left
  }

  /** The memory after a run. */
  function Run(c: Timing, ss: seq<Sample>): Memory {
    if ss == [] then FRESH else Step(c, Run(c, ss[..|ss| - 1]), ss[|ss| - 1]).0
  }

  lemma {:induction false} RunOfPushed(c: Timing, ss: seq<Sample>, s: Sample)
    ensures Run(c, ss + [s]) == Step(c, Run(c, ss), s).0
  {
    assert (ss + [s])[..|ss|] == ss;
  }

  /** What each sample of the run emits. */
  function Emissions(c: Timing, ss: seq<Sample>): (out: seq<Option<Signal>>)
    ensures |out| == |ss|
  {
    if ss == [] then []
    else Emissions(c, ss[..|ss| - 1]) + [Step(c, Run(c, ss[..|ss| - 1]), ss[|ss| - 1]).1]
  }

  // ------------------------------- the same run, told from the whole history

  /** One line of the complete history: what was seen, proposed, decided and emitted. */
  datatype Entry = Entry(
    now: nat,
    matched: bool,
    proposal: Option<bool>,
    before: Option<bool>,
    after: Option<bool>,
    emitted: Option<Signal>)

  function Current(log: seq<Entry>): Option<bool> {
    if log == [] then None else log[|log| - 1].after
  }

  function Bits(log: seq<Entry>): (bits: seq<bool>)
    ensures |bits| == |log| && forall i :: 0 <= i < |log| ==> bits[i] == log[i].matched
  {
    if log == [] then [] else Bits(log[..|log| - 1]) + [log[|log| - 1].matched]
  }

  /** Start of the unbroken stretch of entries at the end of `log` that propose `target`. */
  function StretchStart(log: seq<Entry>, target: bool): (j: nat)
    ensures j <= |log|
    ensures forall i :: j <= i < |log| ==> log[i].proposal == Some(target)
    ensures j > 0 ==> log[j - 1].proposal != Some(target)
  {
    if log == [] || log[|log| - 1].proposal != Some(target) then |log|
    else StretchStart(log[..|log| - 1], target)
  }

  predicate IsBoundary(e: Entry) {
    e.emitted == Some(Entered) || e.emitted == Some(Left)
  }

  predicate IsMark(e: Entry) {
    e.after != e.before || e.emitted == Some(Updated)
  }

  /** Timestamp of the latest Entered or Left. */
  function LastBoundary(log: seq<Entry>): Option<nat> {
    if log == [] then None
    else if IsBoundary(log[|log| - 1]) then Some(log[|log| - 1].now)
    else LastBoundary(log[..|log| - 1])
  }

  /** Timestamp of the latest state change or Updated. */
  function LastMark(log: seq<Entry>): Option<nat> {
    if log == [] then None
    else if IsMark(log[|log| - 1]) then Some(log[|log| - 1].now)
    else LastMark(log[..|log| - 1])
  }

  /** The state the newest samples vote for against the current one, if any. */
  function Proposal(c: Timing, log: seq<Entry>, matched: bool): Option<bool> {
    var desired := Desired(c, Current(log), Newest(Bits(log) + [matched], c.sampleWindow));
    if desired == Current(log) then None else desired
  }

  /**
   * What the next sample must do, computed from the complete history instead of from
   * remembered fields: a change needs a proposal by the votes of the newest samples, a
   * stretch of samples at least `stableFor` long that all propose it, and a cooldown
   * since the latest Entered or Left.
   */
  function Reference(c: Timing, log: seq<Entry>, s: Sample): Entry {
    var before := Current(log);
    var proposal := Proposal(c, log, s.matched);
    var (after, emitted) :=
      if proposal.None? then (before, Refresh(c, log, s.now))
      else Decision(c, log, s.now, proposal.value);
    Entry(s.now, s.matched, proposal, before, after, emitted)
  }

  function Decision(c: Timing, log: seq<Entry>, now: nat, target: bool): (Option<bool>, Option<Signal>) {
    if !MaySwitch(c, log, now, target) then (Current(log), None)
    else (Some(target), if Current(log).None? && !c.emitInitial then None else Some(Boundary(target)))
  }

  function Refresh(c: Timing, log: seq<Entry>, now: nat): Option<Signal> {
    if Current(log) == Some(true) && c.updateInterval.Some? && LastMark(log).Some?
       && SaturatingSub(now, LastMark(log).value) >= c.updateInterval.value
    then Some(Updated) else None
  }

  function StretchTime(log: seq<Entry>, now: nat, target: bool): nat {
    var start := StretchStart(log, target);
    if start < |log| then log[start].now else now
  }

  predicate MaySwitch(c: Timing, log: seq<Entry>, now: nat, target: bool) {
    && SaturatingSub(now, StretchTime(log, now, target)) >= c.stableFor
    && (Current(log).None? || Elapsed(LastBoundary(log), now, c.cooldown))
  }

  function History(c: Timing, ss: seq<Sample>): (log: seq<Entry>)
    ensures |log| == |ss|
  {
    if ss == [] then []
    else
      var log := History(c, ss[..|ss| - 1]);
      log + [Reference(c, log, ss[|ss| - 1])]
  }

  function Outcomes(log: seq<Entry>): seq<Option<Signal>> {
    if log == [] then [] else Outcomes(log[..|log| - 1]) + [log[|log| - 1].emitted]
  }

  /** What each remembered field stands for. */
  ghost predicate Remembers(c: Timing, m: Memory, log: seq<Entry>) {
    && m.evidence == Newest(Bits(log), c.sampleWindow)
    && RemembersDecisions(m, log)
    && SwitchesToProposal(log)
  }

  ghost predicate RemembersDecisions(m: Memory, log: seq<Entry>) {
    && m.state == Current(log)
    && m.candidate == Pending(log)
    && m.lastTransition == LastBoundary(log)
    && m.lastUpdate == LastMark(log)
  }

  ghost predicate SwitchesToProposal(log: seq<Entry>) {
    log != [] && log[|log| - 1].after != log[|log| - 1].before
    ==> log[|log| - 1].after == log[|log| - 1].proposal
  }

  function Pending(log: seq<Entry>): Option<Candidate> {
    if log == [] || log[|log| - 1].proposal.None? || log[|log| - 1].after != log[|log| - 1].before then None
    else
      var target := log[|log| - 1].proposal.value;
      Some(Candidate(target, log[StretchStart(log, target)].now))
  }

  lemma {:induction false} EvidenceRefines(c: Timing, log: seq<Entry>, e: Entry)
    ensures Newest(Newest(Bits(log), c.sampleWindow) + [e.matched], c.sampleWindow)
         == Newest(Bits(log) + [e.matched], c.sampleWindow)
    ensures Bits(log + [e]) == Bits(log) + [e.matched]
  {
    assert (log + [e])[..|log|] == log;
  }

  /** How each history function reads one appended entry. */
  lemma {:induction false} Appended(log: seq<Entry>, e: Entry)
    ensures Current(log + [e]) == e.after
    ensures LastBoundary(log + [e]) == if IsBoundary(e) then Some(e.now) else LastBoundary(log)
    ensures LastMark(log + [e]) == if IsMark(e) then Some(e.now) else LastMark(log)
    ensures Pending(log + [e])
         == if e.proposal.None? || e.after != e.before then None
            else Some(Candidate(e.proposal.value, StretchTime(log, e.now, e.proposal.value)))
  {
    assert (log + [e])[..|log|] == log;
  }

  lemma {:induction false} HoldRefines(c: Timing, m: Memory, log: seq<Entry>, e: Entry)
    requires RemembersDecisions(m, log)
    requires e.proposal.None? && e.before == e.after == Current(log)
    requires e.emitted == Refresh(c, log, e.now)
    ensures var (m', out) := Hold(c, m.(candidate := None), e.now);
            out == e.emitted && m'.evidence == m.evidence && RemembersDecisions(m', log + [e])
  {
    Appended(log, e);
  }

  lemma {:induction false} CandidateRefines(log: seq<Entry>, now: nat, target: bool)
    requires SwitchesToProposal(log)
    requires Current(log) != Some(target)
    ensures var p := Pending(log);
            StretchTime(log, now, target)
            == if p.Some? && p.value.target == target then p.value.since else now
  {
    if log != [] && log[|log| - 1].proposal == Some(target) {
      assert log[|log| - 1].after == log[|log| - 1].before;
    }
  }

  lemma {:induction false} ProposeRefines(c: Timing, m: Memory, log: seq<Entry>, e: Entry)
    requires RemembersDecisions(m, log) && SwitchesToProposal(log)
    requires e.proposal.Some? && e.before == Current(log) != e.proposal
    requires (e.after, e.emitted) == Decision(c, log, e.now, e.proposal.value)
    ensures var (m', out) := Propose(c, m, e.now, e.proposal.value);
            out == e.emitted && m'.evidence == m.evidence && RemembersDecisions(m', log + [e])
  {
    var target := e.proposal.value;
    CandidateRefines(log, e.now, target);
    Appended(log, e);
    var since := StretchTime(log, e.now, target);
    if MaySwitch(c, log, e.now, target) {
      assert Propose(c, m, e.now, target).0.state == Some(target);
    } else {
      assert Propose(c, m, e.now, target) == (m.(candidate := Some(Candidate(target, since))), None);
    }
  }

  /** One incremental step does what the complete history demands and keeps the fields' meaning. */
  lemma {:induction false} StepRefines(c: Timing, m: Memory, log: seq<Entry>, s: Sample)
    requires Remembers(c, m, log)
    ensures Step(c, m, s).1 == Reference(c, log, s).emitted
    ensures Remembers(c, Step(c, m, s).0, log + [Reference(c, log, s)])
  {
    var e := Reference(c, log, s);
    EvidenceRefines(c, log, e);
    var voted := m.(evidence := Newest(m.evidence + [s.matched], c.sampleWindow));
    assert (log + [e])[|log|] == e && voted.evidence == Newest(Bits(log + [e]), c.sampleWindow);
    if e.proposal.None? {
      assert Step(c, m, s) == Hold(c, voted.(candidate := None), s.now);
      HoldRefines(c, voted, log, e);
    } else {
      assert Step(c, m, s) == Propose(c, voted, s.now, e.proposal.value);
      ProposeRefines(c, voted, log, e);
    }
  }

  /** Over every run the automaton emits, and remembers, exactly what the history demands. */
  lemma {:induction false} RunRefines(c: Timing, ss: seq<Sample>)
    ensures Remembers(c, Run(c, ss), History(c, ss))
    ensures Emissions(c, ss) == Outcomes(History(c, ss))
  {
    if ss == [] {
    } else {
      var init := ss[..|ss| - 1];
      RunRefines(c, init);
      var log := History(c, init);
      StepRefines(c, Run(c, init), log, ss[|ss| - 1]);
      assert History(c, ss)[..|log|] == log;
    }
  }
}
