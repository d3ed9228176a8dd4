/**
 * Rule coordination in the daemon: each observation is offered only to the rules that the
 * dependency index lists for its element. The reference is the plain scan that offers
 * every observation to every rule in order.
 */
module RuleCoordination {
  import opened Prelude
  import opened Automaton
  import opened Observations
  import opened TemporalRules
  import opened CompositeRules
  import opened RapidIncrease
  import opened OrderedOffers

  /** The boxed rule object: which of the four rules it is, and its memory. */
  datatype Runtime =
    | NumericRuntime(numeric: NumericConfig, memory: Memory)
    | TypedRuntime(typed: TemporalConfig, memory: Memory)
    | CompositeRuntime(composite: CompositeConfig, composed: CompositeMemory)
    | RapidRuntime(rapid: RapidConfig, window: RapidMemory)

  datatype CoordinatedRule = CoordinatedRule(
    elementId: Option<ElementId>,
    dependencies: seq<ElementId>,
    runtime: Runtime)

  function RuntimeStep(r: Runtime, o: Observation): (Runtime, Option<Transition>) {
    match r
    case NumericRuntime(c, m) => var (m', t) := NumericStep(c, m, o); (NumericRuntime(c, m'), t)
    case TypedRuntime(c, m) => var (m', t) := TemporalStep(c, m, o); (TypedRuntime(c, m'), t)
    case CompositeRuntime(c, m) => var (m', t) := CompositeStep(c, m, o); (CompositeRuntime(c, m'), t)
    case RapidRuntime(c, m) => var (m', t) := RapidStep(c, m, o); (RapidRuntime(c, m'), t)
  }

  function Offer(rule: CoordinatedRule, o: Observation): (CoordinatedRule, Option<Transition>) {
    if rule.elementId.Some? && rule.elementId.value != o.element then (rule, None)
    else
      var (runtime, t) := RuntimeStep(rule.runtime, o);
      (rule.(runtime := runtime), t)
  }

  // ---------------------------------------------------------- construction

  datatype RulePredicate =
    | NumericBelowRule
    | BooleanRule(expected: bool)
    | TextEqualsRule(text: string)
    | TextContainsRule(needle: string)
    | AllOf(conditions: seq<Condition>)
    | AnyOf(conditions: seq<Condition>)
    | RapidIncreaseOf(minimumDelta: nat, withinMs: nat)

  datatype EventRule = EventRule(
    id: RuleId,
    element: ElementId,
    event: string,
    test: RulePredicate,
    enterBelow: real,
    leaveAbove: real,
    minimumConfidence: real,
    timing: Timing)

  function Conditions(p: RulePredicate): seq<Condition> {
    if p.AllOf? || p.AnyOf? then p.conditions else []
  }

  function Typed(rule: EventRule, p: ValuePredicate): Result<Runtime, EngineError> {
    var c := TemporalConfig(rule.id, rule.event, p, rule.minimumConfidence, rule.timing);
    if ValidTemporal(c) then Ok(TypedRuntime(c, FRESH)) else Err(InvalidRule)
  }

  function RuntimeOf(rule: EventRule, parse: string -> Option<real>): Result<Runtime, EngineError> {
    match rule.test
    case RapidIncreaseOf(delta, within) =>
      Ok(RapidRuntime(RapidConfig(rule.id, rule.event, delta as real, within, rule.timing.cooldown,
                                  rule.minimumConfidence, parse), RapidMemory([], None)))
    case NumericBelowRule =>
      var c := NumericConfig(rule.id, rule.event, rule.enterBelow, rule.leaveAbove,
                             rule.minimumConfidence, rule.timing);
      if ValidNumeric(c) then Ok(NumericRuntime(c, FRESH)) else Err(InvalidRule)
    case BooleanRule(expected) => Typed(rule, ExpectBoolean(expected))
    case TextEqualsRule(text) => Typed(rule, ExpectText(text))
    case TextContainsRule(needle) => Typed(rule, ExpectContains(needle))
    case _ =>
      var c := CompositeConfig(rule.id, rule.event, rule.test.conditions, rule.test.AllOf?,
                               rule.minimumConfidence, rule.timing);
      if ValidComposite(c) then Ok(CompositeRuntime(c, CompositeMemory(map[], FRESH))) else Err(InvalidRule)
  }

  predicate Covers(dependencies: seq<ElementId>, conditions: seq<Condition>) {
    forall i :: 0 <= i < |conditions| ==> conditions[i].element in dependencies
  }

  /** What building guarantees: no duplicate dependency, and every element the rule can
      react to is one. */
  ghost predicate WellBuilt(rule: CoordinatedRule) {
    && NoDuplicates(rule.dependencies)
    && (rule.elementId.Some? ==> rule.elementId.value in rule.dependencies)
    && (rule.elementId.None? ==> rule.runtime.CompositeRuntime?)
    && (rule.runtime.CompositeRuntime? ==> Covers(rule.dependencies, rule.runtime.composite.conditions))
  }

  method BuildCoordinatedRule(rule: EventRule, parse: string -> Option<real>)
    returns (r: Result<CoordinatedRule, EngineError>)
    ensures r.Ok? <==> RuntimeOf(rule, parse).Ok?
    ensures r.Ok? ==> WellBuilt(r.value) && r.value.runtime == RuntimeOf(rule, parse).value
    ensures r.Ok? ==> r.value.elementId == if rule.test.AllOf? || rule.test.AnyOf? then None else Some(rule.element)
    ensures r.Ok? ==> forall e :: (e in r.value.dependencies
              <==> e == rule.element || (exists i :: 0 <= i < |Conditions(rule.test)| && Conditions(rule.test)[i].element == e))
  {
    var dependencies := [rule.element];
    var conditions := Conditions(rule.test);
    for i := 0 to |conditions|
      invariant NoDuplicates(dependencies)
      invariant forall e :: (e in dependencies
                  <==> e == rule.element || (exists j :: 0 <= j < i && conditions[j].element == e))
    {
      var e := conditions[i].element;
      if e !in dependencies { dependencies := dependencies + [e]; }
    }
    var runtime := RuntimeOf(rule, parse);
    if runtime.Err? { return Err(runtime.error); }
    var elementId := if rule.test.AllOf? || rule.test.AnyOf? then None else Some(rule.element);
    return Ok(CoordinatedRule(elementId, dependencies, runtime.value));
  }

  // ------------------------------------------------------------------ index

  function Offering(o: Observation): CoordinatedRule -> (CoordinatedRule, Option<Transition>) {
    (rule: CoordinatedRule) => Offer(rule, o)
  }

  function DependsOn(e: ElementId): CoordinatedRule -> bool {
    (rule: CoordinatedRule) => e in rule.dependencies
  }

  /** The reference: every observation is offered to every rule, in order. */
  function ScanStream(rules: seq<CoordinatedRule>, os: seq<Observation>): (seq<CoordinatedRule>, seq<Transition>) {
    if os == [] then (rules, [])
    else
      var (before, ts) := ScanStream(rules, os[..|os| - 1]);
      var (after, more) := Scan(before, Offering(os[|os| - 1]));
      (after, ts + more)
  }

  type RuleIndex = map<ElementId, seq<nat>>

  function Lookup(indices: RuleIndex, e: ElementId): seq<nat> {
    if e in indices then indices[e] else []
  }

  ghost predicate Indexes(indices: RuleIndex, rules: seq<CoordinatedRule>) {
    forall e :: Lookup(indices, e) == Positions(rules, DependsOn(e))
  }

  ghost predicate AllWellBuilt(rules: seq<CoordinatedRule>) {
    forall i :: 0 <= i < |rules| ==> WellBuilt(rules[i])
  }

  /** Adds position `i` under each of the dependencies. */
  method AddDependencies(indices: RuleIndex, dependencies: seq<ElementId>, i: nat) returns (r: RuleIndex)
    requires NoDuplicates(dependencies)
    ensures forall e :: Lookup(r, e) == Lookup(indices, e) + if e in dependencies then [i] else []
  {
    r := indices;
    for j := 0 to |dependencies|
      invariant forall e :: Lookup(r, e) == Lookup(indices, e) + if e in dependencies[..j] then [i] else []
    {
      var e := dependencies[j];
      assert e !in dependencies[..j] && dependencies[..j + 1] == dependencies[..j] + [e];
      r := r[e := Lookup(r, e) + [i]];
    }
    assert dependencies[..|dependencies|] == dependencies;
  }

  method BuildRuleIndices(rules: seq<CoordinatedRule>) returns (indices: RuleIndex)
    requires AllWellBuilt(rules)
    ensures Indexes(indices, rules)
  {
    indices := map[];
    for i := 0 to |rules|
      invariant Indexes(indices, rules[..i])
    {
      assert rules[..i + 1][..i] == rules[..i];
      indices := AddDependencies(indices, rules[i].dependencies, i);
    }
    assert rules[..|rules|] == rules;
  }

  /** A rule that does not depend on the observed element ignores it. */
  lemma {:induction false} UnrelatedElementIsNoOp(rule: CoordinatedRule, o: Observation)
    requires WellBuilt(rule) && o.element !in rule.dependencies
    ensures Offer(rule, o) == (rule, None)
  {
    if rule.elementId.None? {
      assert !Watches(rule.runtime.composite, o.element);
    }
  }

  lemma {:induction false} UnrelatedAreNoOps(rules: seq<CoordinatedRule>, o: Observation)
    requires AllWellBuilt(rules)
    ensures IgnoredUnless(rules, DependsOn(o.element), Offering(o))
  {
    forall i | 0 <= i < |rules| && !DependsOn(o.element)(rules[i]) ensures Offering(o)(rules[i]) == (rules[i], None) {
      UnrelatedElementIsNoOp(rules[i], o);
    }
  }

  lemma {:induction false} OfferKeepsShape(rule: CoordinatedRule, o: Observation)
    requires WellBuilt(rule)
    ensures WellBuilt(Offer(rule, o).0) && Offer(rule, o).0.dependencies == rule.dependencies
  {}

  /** Offering an observation changes no dependency, so the index stays right for ever. */
  lemma {:induction false} ScanKeepsIndex(rules: seq<CoordinatedRule>, o: Observation, e: ElementId)
    requires AllWellBuilt(rules)
    ensures AllWellBuilt(Scan(rules, Offering(o)).0)
    ensures Positions(Scan(rules, Offering(o)).0, DependsOn(e)) == Positions(rules, DependsOn(e))
  {
    if rules == [] {
    } else {
      var (init, last) := (rules[..|rules| - 1], rules[|rules| - 1]);
      ScanKeepsIndex(init, o, e);
      OfferKeepsShape(last, o);
      assert Scan(rules, Offering(o)).0[..|init|] == Scan(init, Offering(o)).0;
    }
  }

  /** Through the index, one observation does exactly what the scan of all rules does. */
  lemma {:induction false} IndexRefinesScan(rules: seq<CoordinatedRule>, indices: RuleIndex, o: Observation)
    requires AllWellBuilt(rules) && Indexes(indices, rules)
    ensures Pass(rules, Lookup(indices, o.element), Offering(o)) == Scan(rules, Offering(o))
    ensures AllWellBuilt(Scan(rules, Offering(o)).0) && Indexes(indices, Scan(rules, Offering(o)).0)
  {
    UnrelatedAreNoOps(rules, o);
    PassIsScan(rules, DependsOn(o.element), Offering(o));
    forall e ensures Positions(Scan(rules, Offering(o)).0, DependsOn(e)) == Lookup(indices, e) {
      ScanKeepsIndex(rules, o, e);
    }
    ScanKeepsIndex(rules, o, o.element);
  }

  method ObserveIndexedRules(rules: array<CoordinatedRule>, indices: RuleIndex, o: Observation)
    returns (transitions: seq<Transition>)
    requires AllWellBuilt(rules[..]) && Indexes(indices, rules[..])
    modifies rules
    ensures (rules[..], transitions) == Scan(old(rules[..]), Offering(o))
  {
    transitions := [];
    ghost var before := rules[..];
    IndexRefinesScan(before, indices, o);
    if o.element !in indices { return; }
    var list := indices[o.element];
    for k := 0 to |list|
      invariant (rules[..], transitions) == Pass(before, list[..k], Offering(o))
    {
      ghost var now := (rules[..], transitions);
      var (rule, t) := Offering(o)(rules[list[k]]);
      rules[list[k]] := rule;
      transitions := transitions + Emitted(t);
      PassMore(before, list, k, Offering(o), now, (rules[..], transitions));
    }
    assert list[..|list|] == list;
  }

  /** A whole stream through one index built in advance: same transitions, same final rules. */
  method ObserveAll(rules: array<CoordinatedRule>, os: seq<Observation>) returns (transitions: seq<Transition>)
    requires AllWellBuilt(rules[..])
    modifies rules
    ensures (rules[..], transitions) == ScanStream(old(rules[..]), os)
  {
    var indices := BuildRuleIndices(rules[..]);
    transitions := [];
    for n := 0 to |os|
      invariant AllWellBuilt(rules[..]) && Indexes(indices, rules[..])
      invariant (rules[..], transitions) == ScanStream(old(rules[..]), os[..n])
    {
      assert os[..n + 1][..n] == os[..n];
      IndexRefinesScan(rules[..], indices, os[n]);
      var more := ObserveIndexedRules(rules, indices, os[n]);
      transitions := transitions + more;
    }
    assert os[..|os|] == os;
  }

  function Votes(rule: CoordinatedRule): nat {
    if rule.runtime.NumericRuntime? then |rule.runtime.memory.evidence| else 0
  }

  /** Without de-duplication an observation would be counted twice: the index needs it. */
  lemma {:induction false} DuplicateDependencyCountsTwice(c: NumericConfig, o: Observation)
    requires Accepts(c, o) && c.timing.sampleWindow >= 2
    ensures var rule := CoordinatedRule(Some(o.element), [o.element, o.element], NumericRuntime(c, FRESH));
            Votes(Pass([rule], [0, 0], Offering(o)).0[0]) == 2 && Votes(Scan([rule], Offering(o)).0[0]) == 1
  {
    var rule := CoordinatedRule(Some(o.element), [o.element, o.element], NumericRuntime(c, FRESH));
    assert [0, 0][..1] == [0] && [0][..0] == [] && [rule][..0] == [];
    OfferCountsOnce(c, rule, o);
    var once := Offer(rule, o).0;
    OfferCountsOnce(c, once, o);
    assert Pass([rule], [0], Offering(o)).0 == [rule][0 := once] == [once];
  }

  lemma {:induction false} OfferCountsOnce(c: NumericConfig, rule: CoordinatedRule, o: Observation)
    requires rule.runtime.NumericRuntime? && rule.runtime.numeric == c && rule.elementId == Some(o.element)
    requires Accepts(c, o) && c.timing.sampleWindow >= Votes(rule) + 1
    ensures var next := Offer(rule, o).0;
            next.runtime.NumericRuntime? && next.runtime.numeric == c && next.elementId == rule.elementId
            && Votes(next) == Votes(rule) + 1
  {}
}
