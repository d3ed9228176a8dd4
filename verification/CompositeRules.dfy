/**
 * `CompositeRule`: a conjunction or disjunction over the latest valid observation of each
 * element, debounced by an inner `TemporalRule`.
 */
module CompositeRules {
  import opened Prelude
  import opened Automaton
  import opened Observations
  import opened TemporalRules

  datatype Condition = Condition(element: ElementId, test: AtomicPredicate)

  datatype CompositeConfig = CompositeConfig(
    ruleId: RuleId,
    event: string,
    conditions: seq<Condition>,
    requireAll: bool,
    minimumConfidence: real,
    timing: Timing)

  const MAXIMUM_CONDITIONS := 16

  predicate ValidComposite(c: CompositeConfig) {
    0 < |c.conditions| <= MAXIMUM_CONDITIONS && ValidTemporal(Inner(c))
  }

  /** The configuration handed to the inner temporal rule. */
  function Inner(c: CompositeConfig): TemporalConfig {
    TemporalConfig(c.ruleId, c.event, ExpectBoolean(true), c.minimumConfidence, c.timing)
  }

  predicate Watches(c: CompositeConfig, e: ElementId) {
    exists i :: 0 <= i < |c.conditions| && c.conditions[i].element == e
  }

  // -------------------------------------------------------- specification

  type Latest = map<ElementId, Observation>

  function LeafMatch(condition: Condition, latest: Latest): Option<bool> {
    if condition.element in latest then AtomicMatches(condition.test, latest[condition.element].value) else None
  }

  predicate AllKnown(conditions: seq<Condition>, latest: Latest) {
    forall i :: 0 <= i < |conditions| ==> LeafMatch(conditions[i], latest).Some?
  }

  predicate Verdict(conditions: seq<Condition>, requireAll: bool, latest: Latest) {
    if requireAll then forall i :: 0 <= i < |conditions| ==> LeafMatch(conditions[i], latest) == Some(true)
    else exists i :: 0 <= i < |conditions| && LeafMatch(conditions[i], latest) == Some(true)
  }

  function Least(a: real, b: real): real { if b < a then b else a }

  /** The weakest confidence among the leaves, at most 1. */
  function WeakestConfidence(conditions: seq<Condition>, latest: Latest): real
    requires AllKnown(conditions, latest)
  {
    if conditions == [] then 1.0
    else
      var (init, last) := (conditions[..|conditions| - 1], conditions[|conditions| - 1]);
      assert LeafMatch(conditions[|conditions| - 1], latest).Some?;
      Least(WeakestConfidence(init, latest), ConfidenceOr(latest[last.element], 1.0))
  }

  datatype CompositeMemory = CompositeMemory(latest: Latest, inner: Memory)

  function Judge(c: CompositeConfig, s: CompositeMemory, o: Observation): (CompositeMemory, Option<Transition>)
    requires AllKnown(c.conditions, s.latest)
  {
    var (matched, confidence) :=
      (Verdict(c.conditions, c.requireAll, s.latest), WeakestConfidence(c.conditions, s.latest));
    if confidence < c.minimumConfidence then (s, None)
    else
      var (inner, t) := MatchStep(Inner(c), s.inner, o.timestampMs, Truth(matched), confidence, matched);
      (s.(inner := inner), t)
  }

  function CompositeStep(c: CompositeConfig, s: CompositeMemory, o: Observation)
    : (CompositeMemory, Option<Transition>)
  {
    if !Watches(c, o.element) then (s, None)
    else if o.status != Valid then (s.(latest := s.latest - {o.element}), None)
    else
      var s' := s.(latest := s.latest[o.element := o]);
      if AllKnown(c.conditions, s'.latest) then Judge(c, s', o) else (s', None)
  }

  // ---------------------------------------------------------------- object

  class CompositeRule {
    const config: CompositeConfig
    const temporal: TemporalRule
    var latest: Latest

    ghost predicate WellFormed() {
      temporal.config == Inner(config)
    }

    function Snapshot(): CompositeMemory
      reads this, temporal
    {
      CompositeMemory(latest, temporal.Snapshot())
    }

    constructor (config: CompositeConfig)
      ensures this.config == config && WellFormed() && fresh(temporal)
      ensures Snapshot() == CompositeMemory(map[], FRESH)
    {
      this.config := config;
      temporal := new TemporalRule(Inner(config));
      latest := map[];
    }

    static method New(config: CompositeConfig) returns (r: Result<CompositeRule, EngineError>)
      ensures r.Ok? <==> ValidComposite(config)
      ensures r.Ok? ==> fresh(r.value) && fresh(r.value.temporal) && r.value.WellFormed()
                        && r.value.config == config && r.value.Snapshot() == CompositeMemory(map[], FRESH)
    {
      if !ValidComposite(config) { return Err(InvalidRule); }
      var rule := new CompositeRule(config);
      return Ok(rule);
    }

    method Observe(o: Observation) returns (t: Option<Transition>)
      requires WellFormed()
      modifies this, temporal
      ensures (Snapshot(), t) == CompositeStep(config, old(Snapshot()), o)
    {
      if !exists i :: 0 <= i < |config.conditions| && config.conditions[i].element == o.element { return None; }
      if o.status != Valid {
        latest := latest - {o.element};
        return None;
      }
      latest := latest[o.element := o];
      var matched, confidence := config.requireAll, 1.0;
      for i := 0 to |config.conditions|
        invariant latest == old(latest)[o.element := o] && temporal.Snapshot() == old(temporal.Snapshot())
        invariant AllKnown(config.conditions[..i], latest)
        invariant matched == Verdict(config.conditions[..i], config.requireAll, latest)
        invariant confidence == WeakestConfidence(config.conditions[..i], latest)
      {
        var condition := config.conditions[i];
        assert config.conditions[..i + 1][..i] == config.conditions[..i];
        if condition.element !in latest {
          assert LeafMatch(config.conditions[i], latest).None?;
          return None;
        }
        var leaf := AtomicMatches(condition.test, latest[condition.element].value);
        assert LeafMatch(config.conditions[i], latest) == leaf;
        if leaf.None? { return None; }
        assert AllKnown(config.conditions[..i + 1], latest);
        VerdictOfPrefix(config.conditions, config.requireAll, latest, i);
        matched := if config.requireAll then matched && leaf.value else matched || leaf.value;
        confidence := Least(confidence, ConfidenceOr(latest[condition.element], 1.0));
      }
      assert config.conditions[..|config.conditions|] == config.conditions;
      t := temporal.ObserveBoolean(o, confidence, matched);
    }
  }

  lemma {:induction false} VerdictOfPrefix(conditions: seq<Condition>, requireAll: bool, latest: Latest, i: nat)
    requires i < |conditions|
    ensures var (before, leaf) := (Verdict(conditions[..i], requireAll, latest), LeafMatch(conditions[i], latest) == Some(true));
            Verdict(conditions[..i + 1], requireAll, latest) == if requireAll then before && leaf else before || leaf
  {
    var (short, long) := (conditions[..i], conditions[..i + 1]);
    assert forall j :: 0 <= j < i ==> short[j] == long[j];
    assert long[i] == conditions[i];
    if !requireAll && Verdict(short, requireAll, latest) {
      var j :| 0 <= j < i && LeafMatch(short[j], latest) == Some(true);
      assert LeafMatch(long[j], latest) == Some(true);
    }
  }

  // ------------------------------------------------- refinement of the history

  function CompositeRun(c: CompositeConfig, history: seq<Observation>): CompositeMemory {
    if history == [] then CompositeMemory(map[], FRESH)
    else CompositeStep(c, CompositeRun(c, history[..|history| - 1]), history[|history| - 1]).0
  }

  /** The element's last observation in the whole history, provided that one was valid. */
  function LastIfValid(history: seq<Observation>, e: ElementId): Option<Observation> {
    if history == [] then None
    else
      var o := history[|history| - 1];
      if o.element != e then LastIfValid(history[..|history| - 1], e)
      else if o.status == Valid then Some(o) else None
  }

  function Watched(c: CompositeConfig): set<ElementId> {
    set i | 0 <= i < |c.conditions| :: c.conditions[i].element
  }

  /** What `latest` must hold, read off the whole history. */
  function LatestOf(c: CompositeConfig, history: seq<Observation>): Latest {
    map e | e in Watched(c) && LastIfValid(history, e).Some? :: LastIfValid(history, e).value
  }

  /** The sample, if any, that `o` must hand to the inner rule given the latest values. */
  function Sampled(c: CompositeConfig, o: Observation, latest: Latest): seq<Sample> {
    if Watches(c, o.element) && o.status == Valid && AllKnown(c.conditions, latest)
       && WeakestConfidence(c.conditions, latest) >= c.minimumConfidence
    then [Sample(o.timestampMs, Verdict(c.conditions, c.requireAll, latest))] else []
  }

  /** The boolean stream the inner rule must have seen: one sample per valid watched
      observation at which every leaf is known and the weakest leaf is confident enough. */
  function Verdicts(c: CompositeConfig, history: seq<Observation>): seq<Sample> {
    if history == [] then []
    else Verdicts(c, history[..|history| - 1]) + Sampled(c, history[|history| - 1], LatestOf(c, history))
  }

  lemma {:induction false} LatestOfPushed(c: CompositeConfig, history: seq<Observation>, o: Observation)
    ensures LatestOf(c, history + [o]) ==
            if !Watches(c, o.element) then LatestOf(c, history)
            else if o.status == Valid then LatestOf(c, history)[o.element := o]
            else LatestOf(c, history) - {o.element}
  {
    assert (history + [o])[..|history|] == history;
    assert Watches(c, o.element) <==> o.element in Watched(c);
    forall e ensures LastIfValid(history + [o], e) ==
                     if o.element != e then LastIfValid(history, e)
                     else if o.status == Valid then Some(o) else None
    {}
  }

  /** One step, told by the latest values and the sample they give. */
  lemma {:induction false} StepOutcome(c: CompositeConfig, s: CompositeMemory, o: Observation, latest: Latest, ss: seq<Sample>)
    requires latest == if !Watches(c, o.element) then s.latest
                       else if o.status == Valid then s.latest[o.element := o]
                       else s.latest - {o.element}
    requires s.inner == Run(c.timing, ss)
    ensures CompositeStep(c, s, o).0 == CompositeMemory(latest, Run(c.timing, ss + Sampled(c, o, latest)))
  {
    if Sampled(c, o, latest) == [] {
      assert ss + [] == ss;
    } else {
      RunOfPushed(c.timing, ss, Sampled(c, o, latest)[0]);
    }
  }

  /**
   * After any stream `latest` holds exactly the watched elements whose last observation was
   * valid, and the inner automaton has run over exactly the verdict stream of the history.
   */
  lemma {:induction false} CompositeRefinesHistory(c: CompositeConfig, history: seq<Observation>)
    ensures CompositeRun(c, history) == CompositeMemory(LatestOf(c, history), Run(c.timing, Verdicts(c, history)))
  {
    if history == [] {
      assert LatestOf(c, history) == map[];
    } else {
      var (init, o) := (history[..|history| - 1], history[|history| - 1]);
      CompositeRefinesHistory(c, init);
      assert init + [o] == history;
      LatestOfPushed(c, init, o);
      StepOutcome(c, CompositeRun(c, init), o, LatestOf(c, history), Verdicts(c, init));
    }
  }
}
