/**
 * What one sample answers, said of the answer itself: which scene is active afterwards,
 * when it is ambiguous, how candidates are ranked, and who is eligible over a whole run.
 */
module SceneChoice {
  import opened Prelude
  import Automaton
  import opened Recognition
  import opened StableSorting
  import opened SceneResolution
  import opened SceneHints

  /** Candidate k is eligible and no earlier one is. */
  predicate First(cs: seq<Candidate>, k: nat) {
    k < |cs| && cs[k].eligible && forall j :: 0 <= j < k ==> !cs[j].eligible
  }

  /** No eligible candidate is more confident. */
  predicate IsTop(cs: seq<Candidate>, k: nat)
    requires k < |cs|
  {
    cs[k].eligible && forall j :: 0 <= j < |cs| && cs[j].eligible ==> cs[j].confidence <= cs[k].confidence
  }

  /** Another eligible candidate comes within `margin` of candidate k. */
  predicate Rivalled(cs: seq<Candidate>, k: nat, margin: real)
    requires k < |cs|
  {
    exists j :: 0 <= j < |cs| && j != k && cs[j].eligible && cs[k].confidence - cs[j].confidence < margin
  }

  /** The ambiguity margin configured for the scene of a candidate. */
  predicate HasMargin(scenes: seq<Scene>, id: LayerId, margin: real) {
    exists i :: 0 <= i < |scenes| && scenes[i].layer.id == id && scenes[i].ambiguityMargin == margin
  }

  /** What a sample must answer, given the scene that was active before it. */
  ghost predicate Decided(scenes: seq<Scene>, before: Option<LayerId>, after: Option<LayerId>, answer: Resolution) {
    var cs := answer.candidates;
    && (answer.ambiguous
        <==> exists k: nat, margin :: First(cs, k) && HasMargin(scenes, cs[k].id, margin) && Rivalled(cs, k, margin))
    && (forall k: nat :: First(cs, k) ==> IsTop(cs, k))
    && (answer.ambiguous ==> after == before)
    && (!answer.ambiguous && (forall k :: 0 <= k < |cs| ==> !cs[k].eligible) ==> after == None)
    && (!answer.ambiguous ==> forall k: nat :: First(cs, k) ==> after == Some(cs[k].id))
    && AnswersActive(cs, after, answer.scene)
  }

  /** The answered scene is the eligible candidate of the active scene, if there is one. */
  predicate AnswersActive(cs: seq<Candidate>, active: Option<LayerId>, scene: Option<Resolved>) {
    && (forall k :: 0 <= k < |cs| && cs[k].eligible && active == Some(cs[k].id) ==>
          scene == Some(Resolved(cs[k].id, cs[k].name, cs[k].confidence)))
    && ((forall k :: 0 <= k < |cs| && cs[k].eligible ==> active != Some(cs[k].id)) ==> scene == None)
  }

  // ------------------------------------------------------------- the choice

  /** The eligible candidates of a list, with the place of each. */
  lemma {:induction false} FirstOfFiltered(cs: seq<Candidate>) returns (k: nat)
    requires Filter(cs, Eligible()) != []
    ensures First(cs, k) && Filter(cs, Eligible())[0] == cs[k]
    ensures |Filter(cs, Eligible())| >= 2 ==>
      exists j :: k < j < |cs| && cs[j].eligible && cs[j] == Filter(cs, Eligible())[1]
  {
    var n := |cs| - 1;
    var init := Filter(cs[..n], Eligible());
    if init == [] {
      k := n;
      forall j | 0 <= j < n ensures !cs[j].eligible { FilterMember(cs[..n], Eligible(), cs[..n][j]); }
    } else {
      k := FirstOfFiltered(cs[..n]);
      if |init| >= 2 {
        var j :| k < j < n && cs[..n][j].eligible && cs[..n][j] == init[1];
        assert cs[j] == Filter(cs, Eligible())[1];
      } else if cs[n].eligible {
        assert cs[n] == Filter(cs, Eligible())[1];
      }
    }
  }

  lemma {:induction false} NoneFiltered(cs: seq<Candidate>)
    ensures Filter(cs, Eligible()) == [] <==> forall k :: 0 <= k < |cs| ==> !cs[k].eligible
  {
    var es := Filter(cs, Eligible());
    if es != [] { FilterMember(cs, Eligible(), es[0]); }
    if k :| 0 <= k < |cs| && cs[k].eligible { FilterMember(cs, Eligible(), cs[k]); }
  }

  lemma {:induction false} SceneOfPosition(scenes: seq<Scene>, id: LayerId, margin: real)
    requires UniqueLayers(Layers(scenes)) && IsScene(scenes, id)
    ensures HasMargin(scenes, id, margin) <==> margin == MarginOf(scenes, id)
  {
    var n := |scenes| - 1;
    var layers := Layers(scenes);
    assert forall i :: 0 <= i <= n ==> layers[i] == scenes[i].layer;
    if scenes[n].layer.id != id {
      var i :| 0 <= i < |scenes| && scenes[i].layer.id == id;
      assert scenes[..n][i].layer.id == id;
      var init := Layers(scenes[..n]);
      forall j, k | 0 <= j < |init| && 0 <= k < |init| && init[j].id == init[k].id ensures j == k {
        assert layers[j] == init[j] && layers[k] == init[k];
      }
      SceneOfPosition(scenes[..n], id, margin);
      assert MarginOf(scenes, id) == MarginOf(scenes[..n], id);
      assert forall j :: 0 <= j < n ==> scenes[..n][j] == scenes[j];
    }
  }

  lemma {:induction false} PlaceInFiltered(cs: seq<Candidate>, j: nat) returns (l: nat)
    requires j < |cs| && cs[j].eligible
    ensures l < |Filter(cs, Eligible())| && Filter(cs, Eligible())[l] == cs[j]
  {
    FilterMember(cs, Eligible(), cs[j]);
    l :| 0 <= l < |Filter(cs, Eligible())| && Filter(cs, Eligible())[l] == cs[j];
  }

  lemma {:induction false} FirstIsTop(cs: seq<Candidate>, k: nat)
    requires Falling(Filter(cs, Eligible())) && First(cs, k)
    ensures IsTop(cs, k) && Filter(cs, Eligible()) != [] && Filter(cs, Eligible())[0] == cs[k]
  {
    var es := Filter(cs, Eligible());
    var l := PlaceInFiltered(cs, k);
    var first := FirstOfFiltered(cs);
    assert first == k;
    forall j | 0 <= j < |cs| && cs[j].eligible ensures cs[j].confidence <= cs[k].confidence {
      var m := PlaceInFiltered(cs, j);
    }
  }

  /** Comparing the first two of the ranking is asking for a rival of the first. */
  lemma {:induction false} RivalIsSecond(cs: seq<Candidate>, k: nat, margin: real)
    requires UniqueIds(cs) && Falling(Filter(cs, Eligible())) && First(cs, k)
    ensures var es := Filter(cs, Eligible());
      Rivalled(cs, k, margin) <==> |es| >= 2 && cs[k].confidence - es[1].confidence < margin
  {
    var es := Filter(cs, Eligible());
    FirstIsTop(cs, k);
    var first := FirstOfFiltered(cs);
    if Rivalled(cs, k, margin) {
      var j :| 0 <= j < |cs| && j != k && cs[j].eligible && cs[k].confidence - cs[j].confidence < margin;
      var l := PlaceInFiltered(cs, j);
      assert l != 0;
    }
  }

  lemma {:induction false} FoundIsActive(cs: seq<Candidate>, active: Option<LayerId>)
    requires UniqueIds(cs)
    ensures AnswersActive(cs, active, if active.Some? then FindEligible(cs, active.value) else None)
  {
    if active.Some? {
      if k :| 0 <= k < |cs| && cs[k].id == active.value {
        FindEligibleIs(cs, active.value, k);
      } else {
        FindEligibleNone(cs, active.value);
      }
    }
  }

  /** An answer with these candidates. */
  function Chosen(cs: seq<Candidate>, ambiguous: bool, scene: Option<Resolved>): Resolution {
    Resolution(scene, [], ambiguous, cs, [])
  }

  predicate IsScene(scenes: seq<Scene>, id: LayerId) {
    exists i :: 0 <= i < |scenes| && scenes[i].layer.id == id
  }

  predicate AreScenes(scenes: seq<Scene>, cs: seq<Candidate>) {
    forall k :: 0 <= k < |cs| ==> IsScene(scenes, cs[k].id)
  }

  lemma {:induction false} OneFirst(cs: seq<Candidate>, first: nat, k: nat)
    requires First(cs, first) && First(cs, k)
    ensures k == first
  {}

  /** What the first eligible candidate decides, given its margin. */
  lemma {:induction false} DecidedByFirst(
      scenes: seq<Scene>, before: Option<LayerId>, after: Option<LayerId>, a: Resolution, first: nat, margin: real)
    requires First(a.candidates, first) && IsTop(a.candidates, first)
    requires forall other :: HasMargin(scenes, a.candidates[first].id, other) <==> other == margin
    requires a.ambiguous <==> Rivalled(a.candidates, first, margin)
    requires after == if a.ambiguous then before else Some(a.candidates[first].id)
    requires AnswersActive(a.candidates, after, a.scene)
    ensures Decided(scenes, before, after, a)
  {
    forall k: nat | First(a.candidates, k) ensures k == first { OneFirst(a.candidates, first, k); }
    if a.ambiguous {
      assert First(a.candidates, first) && HasMargin(scenes, a.candidates[first].id, margin)
        && Rivalled(a.candidates, first, margin);
    }
  }

  lemma {:induction false} DecidedByNone(scenes: seq<Scene>, before: Option<LayerId>, a: Resolution)
    requires (forall k :: 0 <= k < |a.candidates| ==> !a.candidates[k].eligible) && !a.ambiguous && a.scene == None
    ensures Decided(scenes, before, None, a)
  {}

  lemma {:induction false} OnlyMargin(scenes: seq<Scene>, id: LayerId)
    requires UniqueLayers(Layers(scenes)) && IsScene(scenes, id)
    ensures forall other :: HasMargin(scenes, id, other) <==> other == MarginOf(scenes, id)
  {
    forall other ensures HasMargin(scenes, id, other) <==> other == MarginOf(scenes, id) { SceneOfPosition(scenes, id, other); }
  }

  lemma {:induction false} ChoiceIsDecided(scenes: seq<Scene>, active: Option<LayerId>, cs: seq<Candidate>)
    requires UniqueLayers(Layers(scenes)) && UniqueIds(cs) && AreScenes(scenes, cs) && Falling(Filter(cs, Eligible()))
    ensures var (ambiguous, after, scene) := Choose(scenes, active, cs);
            Decided(scenes, active, after, Chosen(cs, ambiguous, scene))
  {
    var (ambiguous, after, scene) := Choose(scenes, active, cs);
    FoundIsActive(cs, after);
    if Filter(cs, Eligible()) == [] {
      NoneFiltered(cs);
      DecidedByNone(scenes, active, Chosen(cs, ambiguous, scene));
    } else {
      var first := FirstOfFiltered(cs);
      FirstIsTop(cs, first);
      var margin := MarginOf(scenes, cs[first].id);
      RivalIsSecond(cs, first, margin);
      OnlyMargin(scenes, cs[first].id);
      DecidedByFirst(scenes, active, after, Chosen(cs, ambiguous, scene), first, margin);
    }
  }

  lemma {:induction false} RankedAreScenes(scenes: seq<Scene>, scored: seq<Candidate>, cs: seq<Candidate>)
    requires multiset(cs) == multiset(scored)
    requires forall k :: 0 <= k < |scored| ==> exists i :: 0 <= i < |Layers(scenes)| && Layers(scenes)[i].id == scored[k].id
    ensures AreScenes(scenes, cs)
  {
    forall k | 0 <= k < |cs| ensures IsScene(scenes, cs[k].id) {
      var l := At(cs, scored, k);
      var i :| 0 <= i < |Layers(scenes)| && Layers(scenes)[i].id == scored[l].id;
      assert scenes[i].layer.id == cs[k].id;
    }
  }

  /**
   * A sample is ambiguous exactly if the first eligible candidate of its answer, which is
   * one of the most confident, has another eligible one within its scene's margin. Then the
   * active scene stays what it was; otherwise it becomes that first candidate's, or none if
   * nobody is eligible. The answered scene is the active one, as far as it is eligible.
   */
  lemma {:induction false} SampleIsDecided(scenes: seq<Scene>, overlays: seq<Overlay>, m: ResolverMemory,
                                           observations: Evidence, hints: Option<Hints>)
    requires UniqueLayers(Layers(scenes))
    ensures var (after, answer) := ResolveSample(scenes, overlays, m, observations, hints);
            Decided(scenes, m.active, after.active, answer)
  {
    var scored := ScoreLayers(Layers(scenes), m.sceneEvidence, observations).0;
    ScoredFacts(Layers(scenes), m.sceneEvidence, observations);
    RankingFacts(scenes, m.active, scored, hints);
    var cs := Ranking(scenes, m.active, scored, hints);
    RankedAreScenes(scenes, scored, cs);
    ChoiceIsDecided(scenes, m.active, cs);
    ResolvedByChoice(scenes, overlays, m, observations, hints);
    var (after, answer) := ResolveSample(scenes, overlays, m, observations, hints);
    DecidedByParts(scenes, m.active, after.active, answer, Chosen(cs, answer.ambiguous, answer.scene));
  }

  lemma {:induction false} DecidedByParts(
      scenes: seq<Scene>, before: Option<LayerId>, after: Option<LayerId>, a: Resolution, b: Resolution)
    requires Decided(scenes, before, after, b)
    requires a.candidates == b.candidates && a.ambiguous == b.ambiguous && a.scene == b.scene
    ensures Decided(scenes, before, after, a)
  {}

  // ------------------------------------------------------------- ambiguity and ties

  /** Some most confident candidate has a rival within its scene's margin. */
  ghost predicate TopIsRivalled(scenes: seq<Scene>, cs: seq<Candidate>) {
    exists k: nat :: k < |cs| && IsTop(cs, k) && Rivalled(cs, k, MarginOf(scenes, cs[k].id))
  }

  /** Two scenes tie on top, of which one tolerates the tie and the other does not. */
  ghost predicate MixedTie(scenes: seq<Scene>, cs: seq<Candidate>) {
    exists i, j :: 0 <= i < |cs| && 0 <= j < |cs| && TiedOnTop(cs, i, j)
      && MarginOf(scenes, cs[i].id) <= 0.0 < MarginOf(scenes, cs[j].id)
  }

  lemma {:induction false} MixedInPermutation(scenes: seq<Scene>, a: seq<Candidate>, b: seq<Candidate>)
    requires multiset(a) == multiset(b) && MixedTie(scenes, a)
    ensures MixedTie(scenes, b)
  {
    var i, j :| 0 <= i < |a| && 0 <= j < |a| && TiedOnTop(a, i, j)
      && MarginOf(scenes, a[i].id) <= 0.0 < MarginOf(scenes, a[j].id);
    var i' := At(a, b, i);
    var j' := At(a, b, j);
    forall k | 0 <= k < |b| && b[k].eligible ensures b[k].confidence <= b[i'].confidence {
      var k' := At(b, a, k);
    }
    assert TiedOnTop(b, i', j');
  }

  lemma {:induction false} FirstSpeaksForTop(scenes: seq<Scene>, cs: seq<Candidate>, first: nat)
    requires UniqueIds(cs) && First(cs, first) && IsTop(cs, first) && !MixedTie(scenes, cs)
    ensures TopIsRivalled(scenes, cs) <==> Rivalled(cs, first, MarginOf(scenes, cs[first].id))
  {
    if TopIsRivalled(scenes, cs) {
      var k: nat :| k < |cs| && IsTop(cs, k) && Rivalled(cs, k, MarginOf(scenes, cs[k].id));
      if k != first {
        assert TiedOnTop(cs, first, k) && TiedOnTop(cs, k, first);
        assert MarginOf(scenes, cs[k].id) > 0.0;
        assert cs[first].confidence - cs[k].confidence < MarginOf(scenes, cs[first].id);
      }
    }
  }

  /** Without such a tie a sample is ambiguous exactly if some top candidate has a rival. */
  lemma {:induction false} AmbiguousWithoutMixedTie(scenes: seq<Scene>, active: Option<LayerId>, cs: seq<Candidate>)
    requires UniqueIds(cs) && Falling(Filter(cs, Eligible())) && !MixedTie(scenes, cs)
    ensures Choose(scenes, active, cs).0 <==> TopIsRivalled(scenes, cs)
  {
    NoneFiltered(cs);
    if Filter(cs, Eligible()) != [] {
      var first := FirstOfFiltered(cs);
      FirstIsTop(cs, first);
      RivalIsSecond(cs, first, MarginOf(scenes, cs[first].id));
      FirstSpeaksForTop(scenes, cs, first);
    }
  }

  /** With one, a caller that prefers the tolerant scene gets an answer that is not ambiguous. */
  lemma {:induction false} MixedTieHides(scenes: seq<Scene>, active: Option<LayerId>, scored: seq<Candidate>)
      returns (hints: Option<Hints>)
    requires UniqueIds(scored) && MixedTie(scenes, scored)
    ensures var cs := Ranking(scenes, active, scored, hints);
            !Choose(scenes, active, cs).0 && TopIsRivalled(scenes, cs)
  {
    var i, j :| 0 <= i < |scored| && 0 <= j < |scored| && TiedOnTop(scored, i, j)
      && MarginOf(scenes, scored[i].id) <= 0.0 < MarginOf(scenes, scored[j].id);
    hints := Some(Hints([scored[i].id], []));
    PreferredLeads(scenes, active, scored, i, j);
    var cs := Ranking(scenes, active, scored, hints);
    RankingFacts(scenes, active, scored, hints);
    var k := At(scored, cs, j);
    var l := At(scored, cs, i);
    forall n | 0 <= n < |cs| && cs[n].eligible ensures cs[n].confidence <= cs[k].confidence {
      var o := At(cs, scored, n);
    }
    assert k != l && IsTop(cs, k);
    assert cs[k].confidence - cs[l].confidence < MarginOf(scenes, cs[k].id);
  }

  /**
   * Under all hints a sample is ambiguous exactly if some most confident candidate has a
   * rival within its margin, if and only if no two scenes tie on top of which one tolerates
   * the tie and the other does not.
   */
  lemma {:induction false} AmbiguityIsRivalryExactly(scenes: seq<Scene>, active: Option<LayerId>, scored: seq<Candidate>)
    requires UniqueIds(scored)
    ensures !MixedTie(scenes, scored)
       <==> forall hints :: Choose(scenes, active, Ranking(scenes, active, scored, hints)).0
                            <==> TopIsRivalled(scenes, Ranking(scenes, active, scored, hints))
  {
    if MixedTie(scenes, scored) {
      var hints := MixedTieHides(scenes, active, scored);
    } else {
      forall hints ensures Choose(scenes, active, Ranking(scenes, active, scored, hints)).0
                           <==> TopIsRivalled(scenes, Ranking(scenes, active, scored, hints)) {
        var cs := Ranking(scenes, active, scored, hints);
        RankingFacts(scenes, active, scored, hints);
        if MixedTie(scenes, cs) { MixedInPermutation(scenes, cs, scored); }
        AmbiguousWithoutMixedTie(scenes, active, cs);
      }
    }
  }

  // ------------------------------------------------------------- the ranking

  /** Alphabetical order: a prefix comes first, otherwise the first difference decides. */
  predicate Alphabetical(a: string, b: string) {
    || a <= b
    || exists k :: 0 <= k < |a| && k < |b| && a[..k] == b[..k] && a[k] < b[k]
  }

  lemma {:induction false} ComparedAlphabetically(a: string, b: string)
    ensures CompareText(a, b) <= 0 ==> Alphabetical(a, b)
  {
    if CompareText(a, b) <= 0 && a != "" {
      if a[0] < b[0] {
        assert a[..0] == b[..0];
      } else {
        ComparedAlphabetically(a[1..], b[1..]);
        if a[1..] <= b[1..] {
          assert a <= b;
        } else {
          var k :| 0 <= k < |a[1..]| && k < |b[1..]| && a[1..][..k] == b[1..][..k] && a[1..][k] < b[1..][k];
          assert a[..k + 1] == [a[0]] + a[1..][..k] && b[..k + 1] == [b[0]] + b[1..][..k];
        }
      }
    }
  }

  /** Why one scene candidate may be listed before another: it is more confident; or the
      caller mentions it earlier; or only it is hinted at by the active scene; or it has the
      higher priority; or its name comes first. Each only counts if those before it tie. */
  predicate MayPrecede(scenes: seq<Scene>, preferred: seq<LayerId>, hinted: seq<LayerId>, a: Candidate, b: Candidate) {
    && a.confidence >= b.confidence
    && (a.confidence == b.confidence ==>
          && Rank(preferred, a.id) <= Rank(preferred, b.id)
          && (Rank(preferred, a.id) == Rank(preferred, b.id) ==>
                && (b.id in hinted ==> a.id in hinted)
                && ((b.id in hinted <==> a.id in hinted) ==>
                      && PriorityOf(scenes, a.id) >= PriorityOf(scenes, b.id)
                      && (PriorityOf(scenes, a.id) == PriorityOf(scenes, b.id) ==> Alphabetical(a.name, b.name)))))
  }

  lemma {:induction false} NotAfterMayPrecede(
      scenes: seq<Scene>, preferred: seq<LayerId>, hinted: seq<LayerId>, a: Candidate, b: Candidate)
    requires SceneOrder(scenes, preferred, hinted, b, a) >= 0
    ensures MayPrecede(scenes, preferred, hinted, a, b)
  {
    var (x, y) := (KeyOf(scenes, preferred, hinted, a), KeyOf(scenes, preferred, hinted, b));
    KeyOrderFacts(x, y, y);
    TextOrder(a.name, b.name, b.name);
    ComparedAlphabetically(a.name, b.name);
  }

  /** The overlays follow the caller's mentions, then their names. */
  predicate OverlayMayPrecede(preferred: seq<LayerId>, a: Candidate, b: Candidate) {
    && Rank(preferred, a.id) <= Rank(preferred, b.id)
    && (Rank(preferred, a.id) == Rank(preferred, b.id) ==> Alphabetical(a.name, b.name))
  }

  lemma {:induction false} OverlayLessIsOrder(preferred: seq<LayerId>)
    ensures TotalPreorder(OverlayLess(preferred))
  {
    var less := OverlayLess(preferred);
    forall a, b | less(a, b) ensures !less(b, a) { TextOrder(a.name, b.name, b.name); }
    forall a, b, c | !less(b, a) && !less(c, b) ensures !less(c, a) {
      TextOrder(a.name, b.name, c.name);
      TextOrder(b.name, c.name, c.name);
      TextOrder(a.name, c.name, c.name);
    }
  }

  lemma {:induction false} NotAfterOverlayMayPrecede(preferred: seq<LayerId>, a: Candidate, b: Candidate)
    requires !OverlayLess(preferred)(b, a)
    ensures OverlayMayPrecede(preferred, a, b)
  {
    TextOrder(a.name, b.name, b.name);
    ComparedAlphabetically(a.name, b.name);
  }

  /** The scene candidates of a sample are listed by confidence, caller, active scene,
      priority and name, its overlay candidates by caller and name. */
  lemma {:induction false} SampleIsRanked(scenes: seq<Scene>, overlays: seq<Overlay>, m: ResolverMemory,
                                          observations: Evidence, hints: Option<Hints>, i: nat, j: nat)
    ensures var answer := ResolveSample(scenes, overlays, m, observations, hints).1;
      && (i < j < |answer.candidates| ==>
            MayPrecede(scenes, PreferredScenes(hints), TransitionHints(scenes, m.active),
                       answer.candidates[i], answer.candidates[j]))
      && (i < j < |answer.overlayCandidates| ==>
            OverlayMayPrecede(PreferredOverlays(hints), answer.overlayCandidates[i], answer.overlayCandidates[j]))
  {
    var answer := ResolveSample(scenes, overlays, m, observations, hints).1;
    var (preferred, hinted) := (PreferredScenes(hints), TransitionHints(scenes, m.active));
    SceneLessIsOrder(scenes, preferred, hinted);
    SortFacts(ScoreLayers(Layers(scenes), m.sceneEvidence, observations).0, SceneLess(scenes, preferred, hinted));
    OverlayLessIsOrder(PreferredOverlays(hints));
    SortFacts(ScoreLayers(OverlayLayers(overlays), m.overlayEvidence, observations).0, OverlayLess(PreferredOverlays(hints)));
    if i < j < |answer.candidates| {
      assert !SceneLess(scenes, preferred, hinted)(answer.candidates[j], answer.candidates[i]);
      NotAfterMayPrecede(scenes, preferred, hinted, answer.candidates[i], answer.candidates[j]);
    }
    if i < j < |answer.overlayCandidates| {
      NotAfterOverlayMayPrecede(PreferredOverlays(hints), answer.overlayCandidates[i], answer.overlayCandidates[j]);
    }
  }

  /** An identifier ranks at its last mention, and behind all mentions if it has none. */
  lemma {:induction false} RankIsLastMention(ids: seq<LayerId>, id: LayerId)
    ensures id !in ids ==> Rank(ids, id) == |ids|
    ensures id in ids ==> Rank(ids, id) < |ids| && ids[Rank(ids, id)] == id
    ensures forall j :: Rank(ids, id) < j < |ids| ==> ids[j] != id
  {
    if id in ids && ids[|ids| - 1] != id { RankIsLastMention(ids[..|ids| - 1], id); }
  }
}
