/**
 * What configured rules mean: which values the predicates accept, and which vote an
 * observation casts for the rule that is built from a profile's event rule.
 */
module RuleMeaning {
  import opened Prelude
  import opened Automaton
  import opened Observations
  import opened TemporalRules
  import opened CompositeRules
  import opened RapidIncrease
  import opened RuleCoordination
  import Recognition

  // ------------------------------------------------------------- predicates

  /** `text` has `needle` somewhere in it. */
  ghost predicate HasInside(text: string, needle: string) {
    exists before, after :: text == before + needle + after
  }

  lemma {:induction false} ContainsExactly(text: string, needle: string)
    ensures Contains(text, needle) <==> HasInside(text, needle)
  {
    if Contains(text, needle) {
      var i :| 0 <= i <= |text| - |needle| && OccursAt(text, needle, i);
      assert text == text[..i] + needle + text[i + |needle|..];
    }
    if before, after :| text == before + needle + after {
      assert OccursAt(text, needle, |before|);
    }
  }

  /** A number that stands for a truth value, up to a machine epsilon. */
  predicate NearlyTruth(x: real, b: bool) {
    var gap := if b then x - 1.0 else x;
    -F64_EPSILON <= gap <= F64_EPSILON
  }

  /** The value satisfies the predicate. */
  ghost predicate Satisfies(p: AtomicPredicate, v: Value) {
    || (p.IsBoolean? && v.Boolean? && v.flag == p.expected)
    || (p.IsBoolean? && v.Number? && NearlyTruth(v.number, p.expected))
    || (p.TextEquals? && v == Text(p.text))
    || (p.TextContains? && v.Text? && HasInside(v.text, p.needle))
    || (p.NumericBelow? && v.Number? && v.number * 1000000.0 < p.thresholdMicros as real)
    || (p.NumericAbove? && v.Number? && v.number * 1000000.0 > p.thresholdMicros as real)
  }

  /** The value is of a kind that the predicate speaks of. */
  predicate Speaks(p: AtomicPredicate, v: Value) {
    match p
    case IsBoolean(_) => v.Boolean? || (v.Number? && (NearlyTruth(v.number, true) || NearlyTruth(v.number, false)))
    case TextEquals(_) => v.Text?
    case TextContains(_) => v.Text?
    case NumericBelow(_) => v.Number?
    case NumericAbove(_) => v.Number?
    case ConfidenceAbove(_) => false
  }

  /** A predicate has an answer exactly for values of its kind, and then the right one. */
  lemma {:induction false} AtomicMatchesExactly(p: AtomicPredicate, v: Value)
    ensures AtomicMatches(p, v).Some? <==> Speaks(p, v)
    ensures AtomicMatches(p, v).Some? ==> (AtomicMatches(p, v).value <==> Satisfies(p, v))
  {
    if p.TextContains? && v.Text? { ContainsExactly(v.text, p.needle); }
  }

  /** The same predicate of a single-element rule. */
  function Atomic(p: ValuePredicate): AtomicPredicate {
    match p
    case ExpectBoolean(expected) => IsBoolean(expected)
    case ExpectText(text) => TextEquals(text)
    case ExpectContains(needle) => TextContains(needle)
  }

  lemma {:induction false} TypedMatchesExactly(p: ValuePredicate, v: Value)
    ensures TypedMatch(p, v).Some? <==> Speaks(Atomic(p), v)
    ensures TypedMatch(p, v).Some? ==> (TypedMatch(p, v).value <==> Satisfies(Atomic(p), v))
  {
    AtomicMatchesExactly(Atomic(p), v);
  }

  /** A recognition condition reads the latest valid observation of its element; it can also
      test the confidence alone, and takes a missing confidence as certain. */
  lemma {:induction false} LeafReadsExactly(condition: Recognition.WeightedCondition, observations: Recognition.Evidence)
    ensures var leaf := Recognition.ReadLeaf(condition, observations);
      && (leaf.Some? <==>
            && condition.element in observations && observations[condition.element].status == Valid
            && (condition.test.ConfidenceAbove? || Speaks(condition.test, observations[condition.element].value)))
      && (leaf.Some? ==>
            var o := observations[condition.element];
            && leaf.value.confidence == (if o.confidence.Some? then o.confidence.value else 1.0)
            && (leaf.value.matched <==>
                  if condition.test.ConfidenceAbove?
                  then leaf.value.confidence * 1000000.0 > condition.test.thresholdMicros as real
                  else Satisfies(condition.test, o.value)))
  {
    if condition.element in observations { AtomicMatchesExactly(condition.test, observations[condition.element].value); }
  }

  // ------------------------------------------------------------- building

  /** Vote counts and waiting times that can be run. */
  predicate Countable(t: Timing) {
    1 <= t.requiredSamples <= t.sampleWindow && t.updateInterval != Some(0)
  }

  /** A rule is built exactly if its settings make sense for its kind. */
  lemma {:induction false} BuildsExactly(rule: EventRule, parse: string -> Option<real>)
    ensures RuntimeOf(rule, parse).Ok?
      <==> rule.test.RapidIncreaseOf?
           || (Countable(rule.timing) && 0.0 <= rule.minimumConfidence <= 1.0
               && (rule.test.NumericBelowRule? ==> rule.enterBelow <= rule.leaveAbove)
               && (rule.test.TextEqualsRule? ==> rule.test.text != "")
               && (rule.test.TextContainsRule? ==> rule.test.needle != "")
               && (rule.test.AllOf? || rule.test.AnyOf? ==> 1 <= |rule.test.conditions| <= 16))
  {}

  /** What a rule does with a vote: one automaton step, announced under the rule's name. */
  ghost predicate Casts(rule: EventRule, before: Memory, o: Observation, vote: bool, value: real, confidence: real,
                        after: Memory, t: Option<Transition>)
  {
    var (next, signal) := Step(rule.timing, before, Sample(o.timestampMs, vote));
    && after == next
    && t == (match signal case None => None
             case Some(s) => Some(Transition(rule.id, rule.event, o.timestampMs, s, value, confidence)))
  }

  /** The settings a numeric rule is built with. */
  function NumericOf(rule: EventRule): NumericConfig {
    NumericConfig(rule.id, rule.event, rule.enterBelow, rule.leaveAbove, rule.minimumConfidence, rule.timing)
  }

  /** A numeric rule votes on valid numbers of known and sufficient confidence, by its lower
      threshold while inactive and by its upper one while active. */
  lemma {:induction false} BuiltNumericVotes(rule: EventRule, parse: string -> Option<real>, m: Memory, o: Observation)
    requires rule.test.NumericBelowRule? && RuntimeOf(rule, parse).Ok?
    ensures RuntimeOf(rule, parse) == Ok(NumericRuntime(NumericOf(rule), FRESH))
    ensures var (after, t) := NumericStep(NumericOf(rule), m, o);
      if o.status == Valid && o.value.Number? && o.confidence.Some? && o.confidence.value >= rule.minimumConfidence
      then Casts(rule, m, o, if m.state == Some(true) then o.value.number <= rule.leaveAbove else o.value.number < rule.enterBelow,
                 o.value.number, o.confidence.value, after, t)
      else after == m && t == None
  {}

  /** The predicate that a single-element rule tests. */
  function Tested(test: RulePredicate): Option<ValuePredicate> {
    match test
    case BooleanRule(expected) => Some(ExpectBoolean(expected))
    case TextEqualsRule(text) => Some(ExpectText(text))
    case TextContainsRule(needle) => Some(ExpectContains(needle))
    case _ => None
  }

  function TypedOf(rule: EventRule): TemporalConfig
    requires Tested(rule.test).Some?
  {
    TemporalConfig(rule.id, rule.event, Tested(rule.test).value, rule.minimumConfidence, rule.timing)
  }

  /** A typed rule votes on valid values of its kind, taken as certain if no confidence is known. */
  lemma {:induction false} BuiltTypedVotes(rule: EventRule, parse: string -> Option<real>, m: Memory, o: Observation)
    requires Tested(rule.test).Some? && RuntimeOf(rule, parse).Ok?
    ensures RuntimeOf(rule, parse) == Ok(TypedRuntime(TypedOf(rule), FRESH))
    ensures var p := Atomic(Tested(rule.test).value);
      var confidence := if o.confidence.Some? then o.confidence.value else 1.0;
      var (after, t) := TemporalStep(TypedOf(rule), m, o);
      if o.status == Valid && confidence >= rule.minimumConfidence && Speaks(p, o.value)
      then Casts(rule, m, o, Satisfies(p, o.value), TransitionValue(o.value), confidence, after, t)
      else after == m && t == None
  {
    TypedMatchesExactly(Tested(rule.test).value, o.value);
  }

  // ------------------------------------------------------------- composites

  /** The condition has a latest valid value, of its kind. */
  predicate Answered(condition: Condition, latest: Latest) {
    condition.element in latest && Speaks(condition.test, latest[condition.element].value)
  }

  /** And that value satisfies it. */
  ghost predicate Holds(condition: Condition, latest: Latest) {
    Answered(condition, latest) && Satisfies(condition.test, latest[condition.element].value)
  }

  lemma {:induction false} LeafMatchesExactly(condition: Condition, latest: Latest)
    ensures LeafMatch(condition, latest).Some? <==> Answered(condition, latest)
    ensures LeafMatch(condition, latest) == Some(true) <==> Holds(condition, latest)
  {
    if condition.element in latest { AtomicMatchesExactly(condition.test, latest[condition.element].value); }
  }

  predicate AllAnswered(conditions: seq<Condition>, latest: Latest) {
    forall i :: 0 <= i < |conditions| ==> Answered(conditions[i], latest)
  }

  /** What the rule demands of its conditions: all of them, or some. */
  ghost predicate Demand(test: RulePredicate, latest: Latest) {
    if test.AllOf? then forall i :: 0 <= i < |test.conditions| ==> Holds(test.conditions[i], latest)
    else test.AnyOf? && exists i :: 0 <= i < |test.conditions| && Holds(test.conditions[i], latest)
  }

  /** The least of 1 and the confidences of the latest values. */
  ghost predicate IsWeakest(conditions: seq<Condition>, latest: Latest, x: real)
    requires AllAnswered(conditions, latest)
  {
    && x <= 1.0
    && (forall i :: 0 <= i < |conditions| ==> x <= ConfidenceAt(conditions, latest, i))
    && (x == 1.0 || exists i :: 0 <= i < |conditions| && x == ConfidenceAt(conditions, latest, i))
  }

  function ConfidenceAt(conditions: seq<Condition>, latest: Latest, i: nat): real
    requires AllAnswered(conditions, latest) && i < |conditions|
  {
    assert Answered(conditions[i], latest);
    ConfidenceOr(latest[conditions[i].element], 1.0)
  }

  lemma {:induction false} WeakestIsWeakest(conditions: seq<Condition>, latest: Latest)
    requires AllAnswered(conditions, latest) && AllKnown(conditions, latest)
    ensures IsWeakest(conditions, latest, WeakestConfidence(conditions, latest))
  {
    if conditions == [] {
    } else {
      var n := |conditions| - 1;
      var (init, last) := (conditions[..n], conditions[n]);
      forall i | 0 <= i < n ensures Answered(init[i], latest) && LeafMatch(init[i], latest).Some? {
        assert Answered(conditions[i], latest) && LeafMatch(conditions[i], latest).Some?;
      }
      WeakestIsWeakest(init, latest);
      assert forall i :: 0 <= i < n ==> ConfidenceAt(conditions, latest, i) == ConfidenceAt(init, latest, i);
      assert ConfidenceAt(conditions, latest, n) == ConfidenceOr(latest[last.element], 1.0);
      var x := WeakestConfidence(conditions, latest);
      if x == WeakestConfidence(init, latest) && x != 1.0 {
        var i :| 0 <= i < n && x == ConfidenceAt(init, latest, i);
        assert x == ConfidenceAt(conditions, latest, i);
      }
    }
  }

  lemma {:induction false} VerdictIsDemand(test: RulePredicate, latest: Latest)
    requires test.AllOf? || test.AnyOf?
    ensures AllKnown(test.conditions, latest) <==> AllAnswered(test.conditions, latest)
    ensures Verdict(test.conditions, test.AllOf?, latest) <==> Demand(test, latest)
  {
    forall i | 0 <= i < |test.conditions|
      ensures LeafMatch(test.conditions[i], latest).Some? <==> Answered(test.conditions[i], latest)
      ensures LeafMatch(test.conditions[i], latest) == Some(true) <==> Holds(test.conditions[i], latest)
    {
      LeafMatchesExactly(test.conditions[i], latest);
    }
  }

  /** The settings a composite rule is built with. */
  function CompositeOf(rule: EventRule): CompositeConfig
    requires rule.test.AllOf? || rule.test.AnyOf?
  {
    CompositeConfig(rule.id, rule.event, rule.test.conditions, rule.test.AllOf?, rule.minimumConfidence, rule.timing)
  }

  predicate Concerns(test: RulePredicate, e: ElementId)
    requires test.AllOf? || test.AnyOf?
  {
    exists i :: 0 <= i < |test.conditions| && test.conditions[i].element == e
  }

  /** What a composite rule does with the latest values, once all conditions are answered. */
  ghost predicate Judges(rule: EventRule, before: Memory, o: Observation, latest: Latest, after: Memory, t: Option<Transition>)
    requires (rule.test.AllOf? || rule.test.AnyOf?) && AllAnswered(rule.test.conditions, latest)
  {
    exists x :: IsWeakest(rule.test.conditions, latest, x)
      && if x < rule.minimumConfidence then after == before && t == None
         else Casts(rule, before, o, Demand(rule.test, latest), if Demand(rule.test, latest) then 1.0 else 0.0, x, after, t)
  }

  /**
   * An "all" rule votes whether all of its conditions hold, an "any" rule whether one does:
   * on every valid observation of an element of theirs after which all are answered, if the
   * weakest answer is confident enough. An invalid one is forgotten with what was known.
   */
  lemma {:induction false} BuiltCompositeVotes(
      rule: EventRule, parse: string -> Option<real>, s: CompositeMemory, o: Observation)
    requires (rule.test.AllOf? || rule.test.AnyOf?) && RuntimeOf(rule, parse).Ok?
    ensures RuntimeOf(rule, parse) == Ok(CompositeRuntime(CompositeOf(rule), CompositeMemory(map[], FRESH)))
    ensures var (after, t) := CompositeStep(CompositeOf(rule), s, o);
      && after.latest == (if !Concerns(rule.test, o.element) then s.latest
                          else if o.status == Valid then s.latest[o.element := o] else s.latest - {o.element})
      && if Concerns(rule.test, o.element) && o.status == Valid && AllAnswered(rule.test.conditions, after.latest)
         then Judges(rule, s.inner, o, after.latest, after.inner, t)
         else after.inner == s.inner && t == None
  {
    var latest := s.latest[o.element := o];
    assert Concerns(rule.test, o.element) <==> Watches(CompositeOf(rule), o.element);
    VerdictIsDemand(rule.test, latest);
    if Concerns(rule.test, o.element) && o.status == Valid && AllAnswered(rule.test.conditions, latest) {
      WeakestIsWeakest(rule.test.conditions, latest);
      JudgedAs(rule, CompositeMemory(latest, s.inner), o);
    }
  }

  lemma {:induction false} JudgedAs(rule: EventRule, s: CompositeMemory, o: Observation)
    requires rule.test.AllOf? || rule.test.AnyOf?
    requires AllAnswered(rule.test.conditions, s.latest) && AllKnown(rule.test.conditions, s.latest)
    ensures var (after, t) := Judge(CompositeOf(rule), s, o);
            after.latest == s.latest && Judges(rule, s.inner, o, s.latest, after.inner, t)
  {
    var x := WeakestConfidence(rule.test.conditions, s.latest);
    WeakestIsWeakest(rule.test.conditions, s.latest);
    VerdictIsDemand(rule.test, s.latest);
    var (after, t) := Judge(CompositeOf(rule), s, o);
    assert if x < rule.minimumConfidence then after.inner == s.inner && t == None
           else Casts(rule, s.inner, o, Demand(rule.test, s.latest), if Demand(rule.test, s.latest) then 1.0 else 0.0, x, after.inner, t);
  }

  /** `p` is at least `delta` above a reading that is at most `within` older. */
  ghost predicate RisesBy(earlier: seq<Point>, p: Point, within: nat, delta: nat) {
    exists j :: 0 <= j < |earlier| && earlier[j].at + within >= p.at && p.value >= earlier[j].value + delta as real
  }

  /** A rapid-increase rule is built with the profile's own limits. */
  lemma {:induction false} BuiltRapidRule(rule: EventRule, parse: string -> Option<real>, earlier: seq<Point>, p: Point)
    requires rule.test.RapidIncreaseOf?
    ensures RuntimeOf(rule, parse).Ok? && RuntimeOf(rule, parse).value.RapidRuntime?
    ensures var c := RuntimeOf(rule, parse).value.rapid;
      && (Rises(c, earlier, p) <==> RisesBy(earlier, p, rule.test.withinMs, rule.test.minimumDelta))
      && c.cooldownMs == rule.timing.cooldown && c.minimumConfidence == rule.minimumConfidence
      && c.ruleId == rule.id && c.event == rule.event && c.parse == parse
  {
    var c := RuntimeOf(rule, parse).value.rapid;
    if Rises(c, earlier, p) {
      var j :| 0 <= j < |earlier| && earlier[j].at >= SaturatingSub(p.at, c.withinMs)
               && p.value - earlier[j].value >= c.minimumDelta;
      assert earlier[j].at + rule.test.withinMs >= p.at;
    }
    if RisesBy(earlier, p, rule.test.withinMs, rule.test.minimumDelta) {
      var j :| 0 <= j < |earlier| && earlier[j].at + rule.test.withinMs >= p.at
               && p.value >= earlier[j].value + rule.test.minimumDelta as real;
      assert earlier[j].at >= SaturatingSub(p.at, c.withinMs);
    }
  }
}
