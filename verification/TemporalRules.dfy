/**
 * `TemporalRule` and `NumericRule`, the two rule objects of the engine. Their `observe`
 * methods are written out separately in the source; both are proved here against the one
 * automaton of module `Automaton`.
 */
module TemporalRules {
  import opened Prelude
  import opened Automaton
  import opened Observations

  datatype EngineError = InvalidRule

  datatype ValuePredicate =
    | ExpectBoolean(expected: bool)
    | ExpectText(text: string)
    | ExpectContains(needle: string)

  datatype TemporalConfig = TemporalConfig(
    ruleId: RuleId,
    event: string,
    test: ValuePredicate,
    minimumConfidence: real,
    timing: Timing)

  datatype NumericConfig = NumericConfig(
    ruleId: RuleId,
    event: string,
    enterBelow: real,
    leaveAbove: real,
    minimumConfidence: real,
    timing: Timing)

  predicate ValidTemporal(c: TemporalConfig) {
    && 0.0 <= c.minimumConfidence <= 1.0
    && ValidTiming(c.timing)
    && (c.test.ExpectText? ==> c.test.text != "")
    && (c.test.ExpectContains? ==> c.test.needle != "")
  }

  predicate ValidNumeric(c: NumericConfig) {
    && c.enterBelow <= c.leaveAbove
    && 0.0 <= c.minimumConfidence <= 1.0
    && ValidTiming(c.timing)
  }

  function TypedMatch(p: ValuePredicate, v: Value): Option<bool> {
    match (p, v)
    case (ExpectBoolean(expected), Boolean(b)) => Some(b == expected)
    case (ExpectBoolean(expected), Number(x)) =>
      var b := NumericBoolean(x);
      if b.Some? then Some(b.value == expected) else None
    case (ExpectText(expected), Text(t)) => Some(t == expected)
    case (ExpectContains(needle), Text(t)) => Some(Contains(t, needle))
    case (_, _) => None
  }

  function TransitionValue(v: Value): real {
    match v
    case Number(x) => x
    case Boolean(b) => Truth(b)
    case _ => 0.0
  }

  function Truth(b: bool): real { if b then 1.0 else 0.0 }

  /** Attaches the rule's identity and the observed value to an emitted signal. */
  function Announce(id: RuleId, event: string, now: nat, value: real, confidence: real, e: Option<Signal>)
    : Option<Transition>
  {
    if e.None? then None else Some(Transition(id, event, now, e.value, value, confidence))
  }

  // ------------------------------------------------------- specifications

  /** An automaton step, dressed as a transition of the rule. */
  function MatchStep(c: TemporalConfig, m: Memory, now: nat, value: real, confidence: real, matched: bool)
    : (Memory, Option<Transition>)
  {
    var (m', e) := Step(c.timing, m, Sample(now, matched));
    (m', Announce(c.ruleId, c.event, now, value, confidence, e))
  }

  function TemporalStep(c: TemporalConfig, m: Memory, o: Observation): (Memory, Option<Transition>) {
    var matched := TypedMatch(c.test, o.value);
    if o.status != Valid || ConfidenceOr(o, 1.0) < c.minimumConfidence || matched.None? then (m, None)
    else MatchStep(c, m, o.timestampMs, TransitionValue(o.value), ConfidenceOr(o, 1.0), matched.value)
  }

  /** The hysteresis test: the threshold depends on the side the rule is on. */
  predicate InsideBand(c: NumericConfig, state: Option<bool>, value: real) {
    if state == Some(true) then value <= c.leaveAbove else value < c.enterBelow
  }

  predicate Accepts(c: NumericConfig, o: Observation) {
    o.status == Valid && o.value.Number? && o.confidence.Some? && o.confidence.value >= c.minimumConfidence
  }

  /** The same automaton, fed the hysteresis test as its match bit. */
  function NumericStep(c: NumericConfig, m: Memory, o: Observation): (Memory, Option<Transition>) {
    if !Accepts(c, o) then (m, None)
    else
      var (m', e) := Step(c.timing, m, Sample(o.timestampMs, InsideBand(c, m.state, o.value.number)));
      (m', Announce(c.ruleId, c.event, o.timestampMs, o.value.number, o.confidence.value, e))
  }

  // --------------------------------------------------------------- objects

  /** Drops the oldest votes until at most `capacity` remain. */
  method PushBounded(history: seq<bool>, bit: bool, capacity: nat) returns (r: seq<bool>)
    ensures r == Newest(history + [bit], capacity)
  {
    r := history + [bit];
    while |r| > capacity
      invariant |r| <= |history| + 1
      invariant |r| >= capacity || |r| == |history| + 1
      invariant r == (history + [bit])[|history| + 1 - |r|..]
    {
      r := r[1..];
    }
  }

  class TemporalRule {
    const config: TemporalConfig
    var state: Option<bool>
    var evidence: seq<bool>
    var candidate: Option<Candidate>
    var lastTransition: Option<nat>
    var lastUpdate: Option<nat>

    function Snapshot(): Memory
      reads this
    {
      Memory(state, evidence, candidate, lastTransition, lastUpdate)
    }

    constructor (config: TemporalConfig)
      ensures this.config == config && Snapshot() == FRESH
    {
      this.config := config;
      state, evidence, candidate, lastTransition, lastUpdate := None, [], None, None, None;
    }

    static method New(config: TemporalConfig) returns (r: Result<TemporalRule, EngineError>)
      ensures r.Ok? <==> ValidTemporal(config)
      ensures r.Ok? ==> fresh(r.value) && r.value.config == config && r.value.Snapshot() == FRESH
    {
      if !ValidTemporal(config) { return Err(InvalidRule); }
      var rule := new TemporalRule(config);
      return Ok(rule);
    }

    method ObserveMatch(now: nat, value: real, confidence: real, matched: bool)
      returns (t: Option<Transition>)
      modifies this
      ensures (Snapshot(), t) == MatchStep(config, old(Snapshot()), now, value, confidence, matched)
    {
      evidence := PushBounded(evidence, matched, config.timing.sampleWindow);
      var positive := Count(evidence, true) >= config.timing.requiredSamples;
      var negative := Count(evidence, false) >= config.timing.requiredSamples;
      var desired := if positive && state != Some(true) then Some(true)
                     else if negative && state != Some(false) then Some(false)
                     else state;
      if desired != state {
        if desired.None? { return None; }
        t := ConsiderSwitch(now, value, confidence, desired.value);
        return;
      }
      candidate := None;
      if state == Some(true) && config.timing.updateInterval.Some? && lastUpdate.Some?
         && SaturatingSub(now, lastUpdate.value) >= config.timing.updateInterval.value
      {
        lastUpdate := Some(now);
        return Some(Transition(config.ruleId, config.event, now, Updated, value, confidence));
      }
      return None;
    }

    /** The branch of `observe_match` in which the votes ask for another state. */
    method ConsiderSwitch(now: nat, value: real, confidence: real, desired: bool) returns (t: Option<Transition>)
      modifies this
      ensures var (m, e) := Propose(config.timing, old(Snapshot()), now, desired);
              Snapshot() == m && t == Announce(config.ruleId, config.event, now, value, confidence, e)
    {
      var since := now;
      if candidate.Some? && candidate.value.target == desired {
        since := candidate.value.since;
      } else {
        candidate := Some(Candidate(desired, now));
      }
      if SaturatingSub(now, since) < config.timing.stableFor { return None; }
      var previous := state;
      if previous.Some? && lastTransition.Some?
         && SaturatingSub(now, lastTransition.value) < config.timing.cooldown
      {
        return None;
      }
      state := Some(desired);
      candidate := None;
      lastUpdate := Some(now);
      if previous.None? && !config.timing.emitInitial { return None; }
      lastTransition := Some(now);
      return Some(Transition(config.ruleId, config.event, now, Boundary(desired), value, confidence));
    }

    method Observe(o: Observation) returns (t: Option<Transition>)
      modifies this
      ensures (Snapshot(), t) == TemporalStep(config, old(Snapshot()), o)
    {
      if o.status != Valid { return None; }
      var confidence := ConfidenceOr(o, 1.0);
      if confidence < config.minimumConfidence { return None; }
      var matched := TypedMatch(config.test, o.value);
      if matched.None? { return None; }
      t := ObserveMatch(o.timestampMs, TransitionValue(o.value), confidence, matched.value);
    }

    /** Entry point for a boolean computed elsewhere (the composite rule). */
    method ObserveBoolean(o: Observation, confidence: real, matched: bool) returns (t: Option<Transition>)
      modifies this
      ensures confidence < config.minimumConfidence ==> Snapshot() == old(Snapshot()) && t == None
      ensures confidence >= config.minimumConfidence ==>
                (Snapshot(), t) == MatchStep(config, old(Snapshot()), o.timestampMs, Truth(matched), confidence, matched)
    {
      if confidence < config.minimumConfidence { return None; }
      t := ObserveMatch(o.timestampMs, Truth(matched), confidence, matched);
    }
  }

  class NumericRule {
    const config: NumericConfig
    var state: Option<bool>
    var evidence: seq<bool>
    var candidate: Option<Candidate>
    var lastTransition: Option<nat>
    var lastUpdate: Option<nat>

    function Snapshot(): Memory
      reads this
    {
      Memory(state, evidence, candidate, lastTransition, lastUpdate)
    }

    constructor (config: NumericConfig)
      ensures this.config == config && Snapshot() == FRESH
    {
      this.config := config;
      state, evidence, candidate, lastTransition, lastUpdate := None, [], None, None, None;
    }

    static method New(config: NumericConfig) returns (r: Result<NumericRule, EngineError>)
      ensures r.Ok? <==> ValidNumeric(config)
      ensures r.Ok? ==> fresh(r.value) && r.value.config == config && r.value.Snapshot() == FRESH
    {
      if !ValidNumeric(config) { return Err(InvalidRule); }
      var rule := new NumericRule(config);
      return Ok(rule);
    }

    /** The hysteresis test of an accepted reading becomes the automaton's match bit. */
    method Observe(o: Observation) returns (t: Option<Transition>)
      modifies this
      ensures (Snapshot(), t) == NumericStep(config, old(Snapshot()), o)
    {
      if !Accepts(config, o) { return None; }
      var value := o.value.number;
      var inside := if state.Some? && state.value then value <= config.leaveAbove else value < config.enterBelow;
      t := Vote(o.timestampMs, value, o.confidence.value, inside);
    }

    /** The rest of `observe`, in its own branch order: it is the same automaton step. */
    method Vote(timestamp: nat, value: real, confidence: real, inside: bool) returns (t: Option<Transition>)
      modifies this
      ensures var (m, e) := Step(config.timing, old(Snapshot()), Sample(timestamp, inside));
              Snapshot() == m && t == Announce(config.ruleId, config.event, timestamp, value, confidence, e)
    {
      evidence := PushBounded(evidence, inside, config.timing.sampleWindow);
      var positive := Count(evidence, true) >= config.timing.requiredSamples;
      var negative := Count(evidence, false) >= config.timing.requiredSamples;
      var next := if positive && state != Some(true) then Some(true)
                  else if negative && state != Some(false) then Some(false)
                  else state;
      if next == state {
        candidate := None;
        if state == Some(true) && config.timing.updateInterval.Some? && lastUpdate.Some?
           && SaturatingSub(timestamp, lastUpdate.value) >= config.timing.updateInterval.value
        {
          lastUpdate := Some(timestamp);
          return Some(Transition(config.ruleId, config.event, timestamp, Updated, value, confidence));
        }
        return None;
      }
      if next.None? { return None; }
      t := ConsiderSwitch(timestamp, value, confidence, next.value);
    }

    /** The tail of `observe`, reached when the votes ask for another state. */
    method ConsiderSwitch(timestamp: nat, value: real, confidence: real, next: bool)
      returns (t: Option<Transition>)
      modifies this
      ensures var (m, e) := Propose(config.timing, old(Snapshot()), timestamp, next);
              Snapshot() == m && t == Announce(config.ruleId, config.event, timestamp, value, confidence, e)
    {
      var previous := state;
      var since := timestamp;
      if candidate.Some? && candidate.value.target == next {
        since := candidate.value.since;
      } else {
        candidate := Some(Candidate(next, timestamp));
      }
      if SaturatingSub(timestamp, since) < config.timing.stableFor { return None; }
      if previous.Some? && lastTransition.Some?
         && SaturatingSub(timestamp, lastTransition.value) < config.timing.cooldown
      {
        return None;
      }
      state := Some(next);
      candidate := None;
      lastUpdate := Some(timestamp);
      if previous.None? && !config.timing.emitInitial { return None; }
      lastTransition := Some(timestamp);
      return Some(Transition(config.ruleId, config.event, timestamp,
                             if next then Entered else Left, value, confidence));
    }
  }
}
