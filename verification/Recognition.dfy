/**
 * Recognition expressions: a weighted confidence used to rank scenes and overlays, and a
 * strict three-valued verdict used for target visibility.
 */
module Recognition {
  import opened Prelude
  import opened Observations

  datatype WeightedCondition = WeightedCondition(element: ElementId, test: AtomicPredicate, weight: real)

  datatype Expression = Expression(conditions: seq<WeightedCondition>, requireAll: bool)

  type Evidence = map<ElementId, Observation>

  // ---------------------------------------------------------- one condition

  datatype Leaf = Leaf(matched: bool, confidence: real)

  function ReadLeaf(c: WeightedCondition, observations: Evidence): Option<Leaf> {
    if c.element !in observations || observations[c.element].status != Valid then None
    else
      var o := observations[c.element];
      var confidence := ConfidenceOr(o, 1.0);
      if c.test.ConfidenceAbove? then Some(Leaf(confidence > Micros(c.test.thresholdMicros), confidence))
      else
        var matched := AtomicMatches(c.test, o.value);
        if matched.None? then None else Some(Leaf(matched.value, confidence))
  }

  // -------------------------------------------------------------- confidence

  function TotalWeight(cs: seq<WeightedCondition>): real {
    if cs == [] then 0.0 else TotalWeight(cs[..|cs| - 1]) + cs[|cs| - 1].weight
  }

  function MatchedWeight(cs: seq<WeightedCondition>, observations: Evidence): real {
    if cs == [] then 0.0
    else MatchedWeight(cs[..|cs| - 1], observations) + Part(cs[|cs| - 1], observations)
  }

  /** What one condition adds to the matched weight. */
  function Part(c: WeightedCondition, observations: Evidence): real {
    var leaf := ReadLeaf(c, observations);
    if leaf.Some? && leaf.value.matched then leaf.value.confidence * c.weight else 0.0
  }

  predicate AnyUnknown(cs: seq<WeightedCondition>, observations: Evidence) {
    exists i :: 0 <= i < |cs| && ReadLeaf(cs[i], observations).None?
  }

  function Clamp(x: real): real {
    if x < 0.0 then 0.0 else if x > 1.0 then 1.0 else x
  }

  /** Weights are not negative, and a conjunction has some weight to divide by. */
  ghost predicate Weighted(e: Expression) {
    && NonNegativeWeights(e.conditions)
    && (e.requireAll && e.conditions != [] ==> TotalWeight(e.conditions) > 0.0)
  }

  /** The quotient; a zero total only ever comes with a zero part, which is answered before. */
  function Share(part: real, total: real): real {
    if total == 0.0 then 0.0 else part / total
  }

  function Confidence(e: Expression, observations: Evidence): Option<real> {
    if e.conditions == [] then if e.requireAll then Some(1.0) else None
    else if e.requireAll && AnyUnknown(e.conditions, observations) then None
    else
      var matched := MatchedWeight(e.conditions, observations);
      if !e.requireAll && matched == 0.0 then Some(0.0)
      else Some(Clamp(Share(matched, TotalWeight(e.conditions))))
  }

  method RecognitionConfidence(e: Expression, observations: Evidence) returns (r: Option<real>)
    requires Weighted(e)
    ensures r == Confidence(e, observations)
  {
    var cs := e.conditions;
    if cs == [] { return if e.requireAll then Some(1.0) else None; }
    var totalWeight, matchedWeight := 0.0, 0.0;
    for i := 0 to |cs|
      invariant totalWeight == TotalWeight(cs[..i])
      invariant matchedWeight == MatchedWeight(cs[..i], observations)
      invariant e.requireAll ==> !AnyUnknown(cs[..i], observations)
    {
      assert cs[..i + 1][..i] == cs[..i];
      totalWeight := totalWeight + cs[i].weight;
      var leaf := ReadLeaf(cs[i], observations);
      if leaf.Some? {
        if leaf.value.matched { matchedWeight := matchedWeight + leaf.value.confidence * cs[i].weight; }
      } else if e.requireAll {
        return None;
      }
    }
    assert cs[..|cs|] == cs;
    if !e.requireAll && matchedWeight == 0.0 { return Some(0.0); }
    NoWeightNoMatch(cs, observations);
    r := Some(Clamp(matchedWeight / totalWeight));
  }

  /** Without negative weights a zero total leaves nothing to match. */
  lemma {:induction false} NoWeightNoMatch(cs: seq<WeightedCondition>, observations: Evidence)
    requires forall i :: 0 <= i < |cs| ==> cs[i].weight >= 0.0
    ensures TotalWeight(cs) >= 0.0
    ensures TotalWeight(cs) == 0.0 ==> MatchedWeight(cs, observations) == 0.0
  {
    if cs == [] {
    } else {
      NoWeightNoMatch(cs[..|cs| - 1], observations);
    }
  }

  // ------------------------------------------------ what the confidence means

  ghost predicate UnitConfidences(cs: seq<WeightedCondition>, observations: Evidence) {
    forall i :: 0 <= i < |cs| && ReadLeaf(cs[i], observations).Some?
      ==> 0.0 <= ReadLeaf(cs[i], observations).value.confidence <= 1.0
  }

  ghost predicate NonNegativeWeights(cs: seq<WeightedCondition>) {
    forall i :: 0 <= i < |cs| ==> cs[i].weight >= 0.0
  }

  predicate Certain(c: WeightedCondition, observations: Evidence) {
    ReadLeaf(c, observations) == Some(Leaf(true, 1.0))
  }

  predicate Supports(c: WeightedCondition, observations: Evidence) {
    var leaf := ReadLeaf(c, observations);
    leaf.Some? && leaf.value.matched && leaf.value.confidence > 0.0
  }

  /** Of the conditions that carry weight. */
  predicate AllCertain(cs: seq<WeightedCondition>, observations: Evidence) {
    forall i :: 0 <= i < |cs| ==> cs[i].weight > 0.0 ==> Certain(cs[i], observations)
  }

  predicate NoneSupports(cs: seq<WeightedCondition>, observations: Evidence) {
    forall i :: 0 <= i < |cs| ==> cs[i].weight > 0.0 ==> !Supports(cs[i], observations)
  }

  lemma {:induction false} MatchedIsPartOfTotal(cs: seq<WeightedCondition>, observations: Evidence)
    requires NonNegativeWeights(cs) && UnitConfidences(cs, observations)
    ensures 0.0 <= MatchedWeight(cs, observations) <= TotalWeight(cs)
    ensures MatchedWeight(cs, observations) == TotalWeight(cs) <==> AllCertain(cs, observations)
    ensures MatchedWeight(cs, observations) == 0.0 <==> NoneSupports(cs, observations)
  {
    if cs == [] {
    } else {
      var n := |cs| - 1;
      MatchedIsPartOfTotal(cs[..n], observations);
      PartOfOne(cs[n], observations);
      OneMore(cs, observations);
    }
  }

  lemma {:induction false} OneMore(cs: seq<WeightedCondition>, observations: Evidence)
    requires cs != []
    ensures var n := |cs| - 1;
      && (AllCertain(cs, observations)
          <==> AllCertain(cs[..n], observations) && (cs[n].weight > 0.0 ==> Certain(cs[n], observations)))
      && (NoneSupports(cs, observations)
          <==> NoneSupports(cs[..n], observations) && (cs[n].weight > 0.0 ==> !Supports(cs[n], observations)))
  {
    var n := |cs| - 1;
    assert forall i :: 0 <= i < n ==> cs[..n][i] == cs[i];
    if AllCertain(cs, observations) { assert cs[n].weight > 0.0 ==> Certain(cs[n], observations); }
    if NoneSupports(cs, observations) { assert cs[n].weight > 0.0 ==> !Supports(cs[n], observations); }
  }

  lemma {:induction false} PartOfOne(c: WeightedCondition, observations: Evidence)
    requires c.weight >= 0.0
    requires var leaf := ReadLeaf(c, observations); leaf.Some? ==> 0.0 <= leaf.value.confidence <= 1.0
    ensures 0.0 <= Part(c, observations) <= c.weight
    ensures Part(c, observations) == c.weight <==> (c.weight > 0.0 ==> Certain(c, observations))
    ensures Part(c, observations) == 0.0 <==> (c.weight > 0.0 ==> !Supports(c, observations))
  {
    var leaf := ReadLeaf(c, observations);
    if leaf.Some? && leaf.value.matched {
      ScaledPart(leaf.value.confidence, c.weight, Part(c, observations));
    }
  }

  lemma {:induction false} ScaledPart(x: real, w: real, part: real)
    requires 0.0 <= x <= 1.0 && w >= 0.0 && part == x * w
    ensures 0.0 <= part <= w && (part == w <==> w == 0.0 || x == 1.0) && (part == 0.0 <==> w == 0.0 || x == 0.0)
  {
    assert w - part == (1.0 - x) * w;
    assert (1.0 - x) * w >= 0.0;
  }

  /** With confidences in [0, 1] the clamp never acts: the confidence is the share of the
      weight that matched. It is one exactly if there is weight and every condition that
      carries some is certain, and zero exactly if none of those has support; it is absent
      exactly for a conjunction with an unknown condition. */
  lemma {:induction false} ConfidenceIsShare(e: Expression, observations: Evidence)
    requires e.conditions != [] && Weighted(e) && UnitConfidences(e.conditions, observations)
    ensures Confidence(e, observations).None? <==> e.requireAll && AnyUnknown(e.conditions, observations)
    ensures Confidence(e, observations).Some? ==>
      var r, cs := Confidence(e, observations).value, e.conditions;
      && 0.0 <= r <= 1.0 && r * TotalWeight(cs) == MatchedWeight(cs, observations)
      && (r == 1.0 <==> TotalWeight(cs) > 0.0 && AllCertain(cs, observations))
      && (r == 0.0 <==> NoneSupports(cs, observations))
  {
    var matched, total := MatchedWeight(e.conditions, observations), TotalWeight(e.conditions);
    MatchedIsPartOfTotal(e.conditions, observations);
    if total > 0.0 { ShareOf(matched, total); }
  }

  lemma {:induction false} ShareOf(part: real, total: real)
    requires 0.0 <= part <= total && total > 0.0
    ensures 0.0 <= part / total <= 1.0 && part / total * total == part
    ensures part / total == 1.0 <==> part == total
    ensures part / total == 0.0 <==> part == 0.0
  {
    var r := part / total;
    assert r * total == part;
    assert total - part == (1.0 - r) * total;
  }

  /** The ranking score and the strict verdict at the top: a conjunction of full confidence is
      settled true if and only if its conditions without weight match as well. */
  lemma {:induction false} FullConfidenceIsMatch(e: Expression, observations: Evidence)
    requires e.requireAll && e.conditions != [] && Weighted(e) && UnitConfidences(e.conditions, observations)
    requires Confidence(e, observations) == Some(1.0)
    ensures Settled(Verdicts(e.conditions, observations), true, true)
       <==> forall i :: 0 <= i < |e.conditions| && e.conditions[i].weight == 0.0
                        ==> Verdict(e.conditions[i], observations) == Some(true)
  {
    ConfidenceIsShare(e, observations);
    var (cs, vs) := (e.conditions, Verdicts(e.conditions, observations));
    forall i | 0 <= i < |vs| && cs[i].weight > 0.0 ensures vs[i] == Some(true) {
      assert Certain(cs[i], observations);
    }
    SettledWhen(vs, true, true);
    assert forall i :: 0 <= i < |vs| ==> vs[i] == Verdict(cs[i], observations);
  }

  // -------------------------------------------------------------- the verdict

  function Verdicts(cs: seq<WeightedCondition>, observations: Evidence): (vs: seq<Option<bool>>)
    ensures |vs| == |cs|
    ensures forall i :: 0 <= i < |cs| ==> vs[i] == Verdict(cs[i], observations)
  {
    seq(|cs|, i requires 0 <= i < |cs| => Verdict(cs[i], observations))
  }

  function Verdict(c: WeightedCondition, observations: Evidence): Option<bool> {
    var leaf := ReadLeaf(c, observations);
    if leaf.None? then None else Some(leaf.value.matched)
  }

  /** `full` keeps every known verdict and decides the unknown ones somehow. */
  ghost predicate Completes(full: seq<bool>, vs: seq<Option<bool>>) {
    |full| == |vs| && forall i :: 0 <= i < |vs| && vs[i].Some? ==> full[i] == vs[i].value
  }

  predicate Decide(full: seq<bool>, requireAll: bool) {
    if requireAll then forall i :: 0 <= i < |full| ==> full[i] else exists i :: 0 <= i < |full| && full[i]
  }

  /** The verdict is b whatever the missing observations will turn out to be. */
  ghost predicate Settled(vs: seq<Option<bool>>, requireAll: bool, b: bool) {
    forall full :: Completes(full, vs) ==> Decide(full, requireAll) == b
  }

  /** The loop over conditions: first decisive leaf wins, unknown leaves are remembered. */
  method RecognitionMatches(e: Expression, observations: Evidence) returns (r: Option<bool>)
    ensures forall b :: r == Some(b) <==> Settled(Verdicts(e.conditions, observations), e.requireAll, b)
  {
    var cs := e.conditions;
    ghost var vs := Verdicts(cs, observations);
    if cs == [] {
      SettledWhen(vs, e.requireAll, e.requireAll);
      SettledWhen(vs, e.requireAll, !e.requireAll);
      return Some(e.requireAll);
    }
    var unknown := false;
    for i := 0 to |cs|
      invariant unknown <==> exists j :: 0 <= j < i && vs[j].None?
      invariant forall j :: 0 <= j < i ==> vs[j] != Some(!e.requireAll)
    {
      var leaf := ReadLeaf(cs[i], observations);
      if leaf.Some? {
        if leaf.value.matched == !e.requireAll {
          assert vs[i] == Some(!e.requireAll);
          SettledWhen(vs, e.requireAll, e.requireAll);
          SettledWhen(vs, e.requireAll, !e.requireAll);
          return Some(!e.requireAll);
        }
      } else {
        unknown := true;
      }
    }
    SettledWhen(vs, e.requireAll, e.requireAll);
    SettledWhen(vs, e.requireAll, !e.requireAll);
    r := if unknown then None else Some(e.requireAll);
  }

  /** The connective's absorbing value needs one leaf; its neutral value needs all of them. */
  lemma {:induction false} SettledWhen(vs: seq<Option<bool>>, requireAll: bool, b: bool)
    ensures b != requireAll ==> (Settled(vs, requireAll, b) <==> exists i :: 0 <= i < |vs| && vs[i] == Some(b))
    ensures b == requireAll ==> (Settled(vs, requireAll, b) <==> forall i :: 0 <= i < |vs| ==> vs[i] == Some(b))
  {
    // the completion least favourable to b
    var worst := seq(|vs|, i requires 0 <= i < |vs| => if vs[i].Some? then vs[i].value else !b);
    assert Completes(worst, vs);
    if b != requireAll {
      if i :| 0 <= i < |vs| && vs[i] == Some(b) {
        forall full | Completes(full, vs) ensures Decide(full, requireAll) == b {
          assert full[i] == b;
        }
      } else {
        assert forall i :: 0 <= i < |vs| ==> worst[i] == !b by {
          forall i | 0 <= i < |vs| ensures worst[i] == !b {
            assert vs[i] != Some(b);
          }
        }
        assert Decide(worst, requireAll) != b;
      }
    } else {
      if i :| 0 <= i < |vs| && vs[i] != Some(b) {
        assert worst[i] == !b;
        assert Decide(worst, requireAll) != b;
      } else {
        forall full | Completes(full, vs) ensures Decide(full, requireAll) == b {
          assert forall i :: 0 <= i < |full| ==> full[i] == b by {
            forall i | 0 <= i < |full| ensures full[i] == b {
              assert vs[i] == Some(b);
            }
          }
        }
      }
    }
  }
}
