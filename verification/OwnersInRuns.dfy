/**
 * The two conditions of `TargetOwners`, at the resolver itself: they hold exactly if no run
 * of a new resolver, over any recognition of overlays with these targets and priorities,
 * answers with a target that lost all its owners, or with one that has two.
 */
module OwnersInRuns {
  import opened Prelude
  import Automaton
  import opened Observations
  import opened Recognition
  import opened StableSorting
  import opened SceneResolution
  import SceneHints
  import opened TargetOwners

  /** The same overlays but for their names and the way they are recognised. */
  ghost predicate SameLayout(a: seq<Overlay>, b: seq<Overlay>) {
    |a| == |b| && forall i :: 0 <= i < |a| ==> SameOverlay(a[i], b[i])
  }

  predicate SameOverlay(a: Overlay, b: Overlay) {
    && a.layer.id == b.layer.id && a.layer.enabled == b.layer.enabled
    && a.layer.priority == b.layer.priority && a.targets == b.targets
  }

  lemma {:induction false} LayoutFacts(a: seq<Overlay>, b: seq<Overlay>, id: LayerId)
    requires SameLayout(a, b)
    ensures OverlayOf(a, id).Some? == OverlayOf(b, id).Some?
    ensures OverlayOf(a, id).Some? ==> SameOverlay(OverlayOf(a, id).value, OverlayOf(b, id).value)
  {
    if a == [] {
    } else {
      var n := |a| - 1;
      assert SameOverlay(a[n], b[n]);
      assert SameLayout(a[..n], b[..n]) by {
        forall i | 0 <= i < n ensures SameOverlay(a[..n][i], b[..n][i]) { assert SameOverlay(a[i], b[i]); }
      }
      LayoutFacts(a[..n], b[..n], id);
    }
  }

  lemma {:induction false} LayoutDecides(a: seq<Overlay>, b: seq<Overlay>)
    requires SameLayout(a, b)
    ensures CoversLower(a) ==> CoversLower(b)
    ensures EqualsAreDisjoint(a) ==> EqualsAreDisjoint(b)
    ensures SceneHints.UniqueLayers(OverlayLayers(a)) ==> SceneHints.UniqueLayers(OverlayLayers(b))
  {
    forall id ensures Enabled(a, id) == Enabled(b, id)
      && (Enabled(a, id) ==> Rating(a, id) == Rating(b, id) && forall t :: Claims(a, id, t) == Claims(b, id, t))
    {
      LayoutFacts(a, b, id);
    }
    forall i | 0 <= i < |a| ensures OverlayLayers(a)[i].id == OverlayLayers(b)[i].id {
      assert SameOverlay(a[i], b[i]);
    }
  }

  // ----------------------------------------------------------------- answers

  predicate IsOwner(overlays: seq<Overlay>, id: LayerId, target: string) {
    Enabled(overlays, id) && Claims(overlays, id, target)
  }

  ghost predicate ShowsOwner(overlays: seq<Overlay>, answer: Resolution, target: string) {
    exists r :: r in answer.overlays && IsOwner(overlays, r.id, target)
  }

  /** Each target of an eligible overlay has an owner among the overlays of the answer. */
  ghost predicate AnswerKeepsOwners(overlays: seq<Overlay>, answer: Resolution) {
    forall c, t :: c in answer.overlayCandidates && c.eligible && IsOwner(overlays, c.id, t) ==> ShowsOwner(overlays, answer, t)
  }

  /** No target has two owners among the overlays of the answer. */
  ghost predicate AnswerHasSingleOwners(overlays: seq<Overlay>, answer: Resolution) {
    forall r, s, t ::
      r in answer.overlays && s in answer.overlays && IsOwner(overlays, r.id, t) && IsOwner(overlays, s.id, t) ==> r.id == s.id
  }

  /** A shown candidate of the list. */
  ghost predicate Visible(overlays: seq<Overlay>, cs: seq<Candidate>, c: Candidate) {
    && c in cs && c.eligible && OverlayOf(overlays, c.id).Some?
    && forall d :: d in cs ==> !Outranks(overlays, d, c)
  }

  lemma {:induction false} VisibleIsShown(overlays: seq<Overlay>, cs: seq<Candidate>, c: Candidate)
    requires c in cs
    ensures Visible(overlays, cs, c) <==> Shown(overlays, multiset(cs), c)
  {
    forall d ensures d in cs <==> d in multiset(cs) {}
  }

  /** The overlay r of the answer stands for a shown candidate. */
  ghost predicate StandsFor(overlays: seq<Overlay>, answer: Resolution, r: Resolved) {
    exists c :: Visible(overlays, answer.overlayCandidates, c) && r == ToResolved(c)
  }

  /** The overlays of the answer are the shown candidates. */
  ghost predicate AnswersShown(overlays: seq<Overlay>, answer: Resolution) {
    && (forall r :: r in answer.overlays ==> StandsFor(overlays, answer, r))
    && (forall c :: Visible(overlays, answer.overlayCandidates, c) ==> ToResolved(c) in answer.overlays)
  }

  lemma {:induction false} StepAnswersShown(scenes: seq<Scene>, overlays: seq<Overlay>, s: SceneHints.Step, observations: Evidence,
                                            hints: Option<Hints>)
    requires SceneHints.IsStep(scenes, overlays, s, observations, hints)
    ensures AnswersShown(overlays, s.answer)
  {
    var cs := s.answer.overlayCandidates;
    var keep := Survives(overlays, multiset(cs));
    var shown := Filter(cs, keep);
    forall r | r in s.answer.overlays ensures StandsFor(overlays, s.answer, r) {
      var i :| 0 <= i < |s.answer.overlays| && s.answer.overlays[i] == r;
      FilterMember(cs, keep, shown[i]);
      VisibleIsShown(overlays, cs, shown[i]);
    }
    forall c | Visible(overlays, cs, c) ensures ToResolved(c) in s.answer.overlays {
      VisibleIsShown(overlays, cs, c);
      FilterMember(cs, keep, c);
      var i :| 0 <= i < |shown| && shown[i] == c;
      assert s.answer.overlays[i] == ToResolved(c);
    }
  }

  /** On one answer: what is stated of its candidates is what is stated of its overlays. */
  lemma {:induction false} AnswerShowsOwners(overlays: seq<Overlay>, answer: Resolution)
    requires AnswersShown(overlays, answer) && CandidatesOf(overlays, multiset(answer.overlayCandidates))
    requires KeepsOwners(overlays, multiset(answer.overlayCandidates))
    ensures AnswerKeepsOwners(overlays, answer)
  {
    var cs := multiset(answer.overlayCandidates);
    forall c, t | c in answer.overlayCandidates && c.eligible && IsOwner(overlays, c.id, t)
      ensures ShowsOwner(overlays, answer, t)
    {
      assert c in cs && HasShownOwner(overlays, cs, t);
      var d :| d in cs && Shown(overlays, cs, d) && Claims(overlays, d.id, t);
      VisibleIsShown(overlays, answer.overlayCandidates, d);
      assert ToResolved(d) in answer.overlays && IsOwner(overlays, ToResolved(d).id, t);
    }
  }

  lemma {:induction false} AnswerSharesNoTarget(overlays: seq<Overlay>, answer: Resolution)
    requires AnswersShown(overlays, answer) && CandidatesOf(overlays, multiset(answer.overlayCandidates))
    requires SingleOwners(overlays, multiset(answer.overlayCandidates))
    ensures AnswerHasSingleOwners(overlays, answer)
  {
    forall r, s, t | r in answer.overlays && s in answer.overlays && IsOwner(overlays, r.id, t) && IsOwner(overlays, s.id, t)
      ensures r.id == s.id
    {
      assert StandsFor(overlays, answer, r) && StandsFor(overlays, answer, s);
      var c :| Visible(overlays, answer.overlayCandidates, c) && r == ToResolved(c);
      var d :| Visible(overlays, answer.overlayCandidates, d) && s == ToResolved(d);
      VisibleIsShown(overlays, answer.overlayCandidates, c);
      VisibleIsShown(overlays, answer.overlayCandidates, d);
    }
  }

  /** No run of a new resolver over such overlays leaves a target without a shown owner. */
  ghost predicate RunsKeepOwners(overlays: seq<Overlay>) {
    forall scenes, variant: seq<Overlay>, inputs, hints, run: seq<SceneHints.Step>, k ::
      (SameLayout(overlays, variant) && SceneHints.IsRun(scenes, variant, inputs, hints, run) && 0 <= k < |run|)
      ==> AnswerKeepsOwners(variant, run[k].answer)
  }

  /** Nor one that gives a target two. */
  ghost predicate RunsHaveSingleOwners(overlays: seq<Overlay>) {
    forall scenes, variant: seq<Overlay>, inputs, hints, run: seq<SceneHints.Step>, k ::
      (SameLayout(overlays, variant) && SceneHints.IsRun(scenes, variant, inputs, hints, run) && 0 <= k < |run|)
      ==> AnswerHasSingleOwners(variant, run[k].answer)
  }

  lemma {:induction false} AnswerIsSound(scenes: seq<Scene>, overlays: seq<Overlay>, s: SceneHints.Step, observations: Evidence,
                                         hints: Option<Hints>)
    requires SceneHints.UniqueLayers(OverlayLayers(overlays))
    requires SceneHints.IsStep(scenes, overlays, s, observations, hints)
    ensures CoversLower(overlays) ==> AnswerKeepsOwners(overlays, s.answer)
    ensures EqualsAreDisjoint(overlays) ==> AnswerHasSingleOwners(overlays, s.answer)
  {
    StepAnswersShown(scenes, overlays, s, observations, hints);
    SampleHasCandidates(scenes, overlays, s.before, observations, hints);
    TargetsKeepOwnersExactly(overlays);
    SingleOwnersExactly(overlays);
    if CoversLower(overlays) { AnswerShowsOwners(overlays, s.answer); }
    if EqualsAreDisjoint(overlays) { AnswerSharesNoTarget(overlays, s.answer); }
  }

  // ------------------------------------------------------------- the failing sample

  /** Recognised by its first sample, or by none. */
  function Recognised(layer: Layer, always: bool): Layer {
    layer.(recognition := Expression([], always), minimumConfidence := 1.0, requiredSamples := 1, sampleWindow := 1)
  }

  function Only(overlays: seq<Overlay>, who: set<LayerId>): (variant: seq<Overlay>)
    ensures SameLayout(overlays, variant)
  {
    if overlays == [] then []
    else
      var o := overlays[|overlays| - 1];
      Only(overlays[..|overlays| - 1], who) + [o.(layer := Recognised(o.layer, o.layer.id in who))]
  }

  lemma {:induction false} ScoreOfRecognised(layer: Layer, always: bool, history: seq<bool>, observations: Evidence)
    ensures Score(Recognised(layer, always), history, observations).0
         == Candidate(layer.id, layer.name, if always then 1.0 else 0.0, always)
  {
    var r := Recognised(layer, always);
    var history' := Automaton.Newest(history + [always], 1);
    assert history' == [always] == [] + [always];
    assert Automaton.Count(history'[..0], true) == 0;
  }

  /** Candidates of all enabled overlays, of which exactly these are eligible. */
  ghost predicate EligibleAre(overlays: seq<Overlay>, cs: seq<Candidate>, who: set<LayerId>) {
    && (forall c :: c in cs ==> (c.eligible <==> c.id in who))
    && (forall i :: 0 <= i < |overlays| && overlays[i].layer.enabled ==> Mentions(cs, overlays[i].layer.id))
  }

  ghost predicate Mentions(cs: seq<Candidate>, id: LayerId) {
    exists c :: c in cs && c.id == id
  }

  lemma {:induction false} OneMoreEligible(init: seq<Overlay>, o: Overlay, cs: seq<Candidate>, next: Candidate, who: set<LayerId>)
    requires EligibleAre(init, cs, who)
    requires next.id == o.layer.id && (next.eligible <==> o.layer.id in who)
    ensures EligibleAre(init + [o], cs + [next], who)
    ensures !o.layer.enabled ==> EligibleAre(init + [o], cs, who)
  {
    var more := cs + [next];
    assert more[|cs|] == next;
    forall id | Mentions(cs, id) ensures Mentions(more, id) {
      var c :| c in cs && c.id == id;
      assert c in more;
    }
    assert Mentions(more, o.layer.id);
  }

  lemma {:induction false} ScoresOfOnly(overlays: seq<Overlay>, who: set<LayerId>, histories: Histories, observations: Evidence)
    ensures EligibleAre(overlays, ScoreLayers(OverlayLayers(Only(overlays, who)), histories, observations).0, who)
  {
    if overlays == [] {
    } else {
      var (init, o) := (overlays[..|overlays| - 1], overlays[|overlays| - 1]);
      ScoresOfOnly(init, who, histories, observations);
      var layers := OverlayLayers(Only(overlays, who));
      assert layers[..|init|] == OverlayLayers(Only(init, who));
      var (cs, hs) := ScoreLayers(layers[..|init|], histories, observations);
      var always := o.layer.id in who;
      assert layers[|init|] == Recognised(o.layer, always);
      ScoreOfRecognised(o.layer, always, HistoryOf(hs, o.layer.id), observations);
      OneMoreEligible(init, o, cs, Candidate(o.layer.id, o.layer.name, if always then 1.0 else 0.0, always), who);
      assert overlays == init + [o];
    }
  }

  /** Exactly these have an eligible candidate. */
  ghost predicate Eligibles(answer: Resolution, who: set<LayerId>) {
    && (forall id :: id in who ==> IsEligible(answer, id))
    && (forall c :: c in answer.overlayCandidates && c.eligible ==> c.id in who)
  }

  ghost predicate IsEligible(answer: Resolution, id: LayerId) {
    exists c :: c in answer.overlayCandidates && c.id == id && c.eligible
  }

  /** A new resolver of this layout that has seen one sample, with no observation in it. */
  ghost predicate FirstAnswer(overlays: seq<Overlay>, variant: seq<Overlay>, run: seq<SceneHints.Step>, who: set<LayerId>) {
    && SameLayout(overlays, variant)
    && |run| == 1
    && SceneHints.IsRun([], variant, [map[]], [None], run)
    && AnswersShown(variant, run[0].answer)
    && Eligibles(run[0].answer, who)
  }

  lemma {:induction false} FirstSample(overlays: seq<Overlay>, who: set<LayerId>)
      returns (variant: seq<Overlay>, run: seq<SceneHints.Step>)
    requires forall id :: id in who ==> Enabled(overlays, id)
    ensures FirstAnswer(overlays, variant, run, who)
  {
    variant := Only(overlays, who);
    run := SceneHints.SomeRun([], variant, [map[]], [None]);
    assert SceneHints.IsStep([], variant, run[0], [map[]][0], [None][0]);
    ScoresOfOnly(overlays, who, map[], map[]);
    var scored := ScoreLayers(OverlayLayers(variant), map[], map[]).0;
    SortedScores(variant, run[0], map[], None, scored);
    StepAnswersShown([], variant, run[0], map[], None);
    EligibleAnswer(overlays, scored, run[0].answer, who);
  }

  lemma {:induction false} EligibleAnswer(overlays: seq<Overlay>, scored: seq<Candidate>, answer: Resolution, who: set<LayerId>)
    requires EligibleAre(overlays, scored, who) && forall id :: id in who ==> Enabled(overlays, id)
    requires forall c :: c in answer.overlayCandidates <==> c in scored
    ensures Eligibles(answer, who)
  {
    forall id | id in who ensures IsEligible(answer, id) {
      var i := PositionOf(overlays, id);
      assert Mentions(scored, id);
    }
  }

  lemma {:induction false} SortedScores(overlays: seq<Overlay>, s: SceneHints.Step, observations: Evidence, hints: Option<Hints>,
                                        scored: seq<Candidate>)
    requires SceneHints.IsStep([], overlays, s, observations, hints)
    requires scored == ScoreLayers(OverlayLayers(overlays), s.before.overlayEvidence, observations).0
    ensures forall c :: c in s.answer.overlayCandidates <==> c in scored
  {
    SortFacts(scored, OverlayLess(PreferredOverlays(hints)));
    forall c ensures c in s.answer.overlayCandidates <==> c in scored {
      assert c in scored <==> c in multiset(scored);
      assert c in s.answer.overlayCandidates <==> c in multiset(s.answer.overlayCandidates);
    }
  }

  lemma {:induction false} PositionOf(overlays: seq<Overlay>, id: LayerId) returns (i: nat)
    requires OverlayOf(overlays, id).Some?
    ensures i < |overlays| && overlays[i] == OverlayOf(overlays, id).value && overlays[i].layer.id == id
  {
    var n := |overlays| - 1;
    if overlays[n].layer.id == id { i := n; } else { i := PositionOf(overlays[..n], id); }
  }

  lemma {:induction false} PairOfLayout(overlays: seq<Overlay>, variant: seq<Overlay>, id: LayerId)
    requires SameLayout(overlays, variant) && Enabled(overlays, id)
    ensures Enabled(variant, id) && Rating(variant, id) == Rating(overlays, id)
    ensures forall t :: Claims(variant, id, t) == Claims(overlays, id, t)
  {
    LayoutFacts(overlays, variant, id);
  }

  lemma {:induction false} LowerIsHidden(variant: seq<Overlay>, answer: Resolution, p: LayerId, q: LayerId, t: string, u: string)
    requires AnswersShown(variant, answer) && Eligibles(answer, {p, q})
    requires Enabled(variant, p) && Enabled(variant, q) && Rating(variant, p) > Rating(variant, q)
    requires Claims(variant, p, t) && Claims(variant, q, t) && Claims(variant, q, u) && !Claims(variant, p, u)
    ensures !AnswerKeepsOwners(variant, answer)
  {
    var cs := answer.overlayCandidates;
    assert IsEligible(answer, p) && IsEligible(answer, q);
    var a :| a in cs && a.id == p && a.eligible;
    var b :| b in cs && b.id == q && b.eligible;
    assert SharesTarget(OverlayOf(variant, p).value, OverlayOf(variant, q).value);
    forall r | r in answer.overlays ensures !IsOwner(variant, r.id, u) {
      assert StandsFor(variant, answer, r);
      var c :| Visible(variant, cs, c) && r == ToResolved(c);
      assert c.id == q ==> Outranks(variant, a, c);
    }
    assert IsOwner(variant, b.id, u) && !ShowsOwner(variant, answer, u);
  }

  lemma {:induction false} EqualsAreShown(variant: seq<Overlay>, answer: Resolution, p: LayerId, q: LayerId, t: string)
    requires AnswersShown(variant, answer) && Eligibles(answer, {p, q})
    requires p != q && Enabled(variant, p) && Enabled(variant, q) && Rating(variant, p) == Rating(variant, q)
    requires Claims(variant, p, t) && Claims(variant, q, t)
    ensures !AnswerHasSingleOwners(variant, answer)
  {
    var cs := answer.overlayCandidates;
    assert IsEligible(answer, p) && IsEligible(answer, q);
    var a :| a in cs && a.id == p && a.eligible;
    var b :| b in cs && b.id == q && b.eligible;
    assert Visible(variant, cs, a) && Visible(variant, cs, b);
    assert IsOwner(variant, ToResolved(a).id, t) && IsOwner(variant, ToResolved(b).id, t);
  }

  /** A layout that does not cover its lower overlays loses a target on a resolver's first sample. */
  lemma {:induction false} FirstSampleLosesTarget(overlays: seq<Overlay>, p: LayerId, q: LayerId, t: string, u: string)
      returns (variant: seq<Overlay>, run: seq<SceneHints.Step>)
    requires Enabled(overlays, p) && Enabled(overlays, q) && Rating(overlays, p) > Rating(overlays, q)
    requires Claims(overlays, p, t) && Claims(overlays, q, t) && Claims(overlays, q, u) && !Claims(overlays, p, u)
    ensures FirstAnswer(overlays, variant, run, {p, q})
    ensures !AnswerKeepsOwners(variant, run[0].answer)
  {
    variant, run := FirstSample(overlays, {p, q});
    PairOfLayout(overlays, variant, p);
    PairOfLayout(overlays, variant, q);
    LowerIsHidden(variant, run[0].answer, p, q, t, u);
  }

  /** A layout with equal priorities at one target shows two owners on a resolver's first sample. */
  lemma {:induction false} FirstSampleShowsTwo(overlays: seq<Overlay>, p: LayerId, q: LayerId, t: string)
      returns (variant: seq<Overlay>, run: seq<SceneHints.Step>)
    requires p != q && Enabled(overlays, p) && Enabled(overlays, q) && Rating(overlays, p) == Rating(overlays, q)
    requires Claims(overlays, p, t) && Claims(overlays, q, t)
    ensures FirstAnswer(overlays, variant, run, {p, q})
    ensures !AnswerHasSingleOwners(variant, run[0].answer)
  {
    variant, run := FirstSample(overlays, {p, q});
    PairOfLayout(overlays, variant, p);
    PairOfLayout(overlays, variant, q);
    EqualsAreShown(variant, run[0].answer, p, q, t);
  }

  // ------------------------------------------------------------- the exact conditions

  lemma {:induction false} RunsAreSound(overlays: seq<Overlay>, scenes: seq<Scene>, variant: seq<Overlay>, inputs: seq<Evidence>,
                                        hints: seq<Option<Hints>>, run: seq<SceneHints.Step>, k: nat)
    requires SceneHints.UniqueLayers(OverlayLayers(overlays)) && SameLayout(overlays, variant)
    requires SceneHints.IsRun(scenes, variant, inputs, hints, run) && k < |run|
    ensures CoversLower(overlays) ==> AnswerKeepsOwners(variant, run[k].answer)
    ensures EqualsAreDisjoint(overlays) ==> AnswerHasSingleOwners(variant, run[k].answer)
  {
    LayoutDecides(overlays, variant);
    assert SceneHints.IsStep(scenes, variant, run[k], inputs[k], hints[k]);
    AnswerIsSound(scenes, variant, run[k], inputs[k], hints[k]);
  }

  /**
   * No run over overlays of this layout answers with an eligible overlay whose target has
   * no shown owner, if and only if every overlay that shares a target with one of lower
   * priority owns all of that one's targets.
   */
  lemma {:induction false} RunsKeepOwnersExactly(overlays: seq<Overlay>)
    requires SceneHints.UniqueLayers(OverlayLayers(overlays))
    ensures RunsKeepOwners(overlays) <==> CoversLower(overlays)
  {
    if CoversLower(overlays) {
      forall scenes, variant: seq<Overlay>, inputs, hints, run: seq<SceneHints.Step>, k
        | SameLayout(overlays, variant) && SceneHints.IsRun(scenes, variant, inputs, hints, run) && 0 <= k < |run|
        ensures AnswerKeepsOwners(variant, run[k].answer)
      {
        RunsAreSound(overlays, scenes, variant, inputs, hints, run, k);
      }
    } else {
      var p, q, t, u :| Enabled(overlays, p) && Enabled(overlays, q) && Rating(overlays, p) > Rating(overlays, q)
        && Claims(overlays, p, t) && Claims(overlays, q, t) && Claims(overlays, q, u) && !Claims(overlays, p, u);
      var variant, run := FirstSampleLosesTarget(overlays, p, q, t, u);
    }
  }

  /**
   * No run over overlays of this layout answers with two owners of one target, if and only
   * if no two different overlays of equal priority share a target.
   */
  lemma {:induction false} RunsHaveSingleOwnersExactly(overlays: seq<Overlay>)
    requires SceneHints.UniqueLayers(OverlayLayers(overlays))
    ensures RunsHaveSingleOwners(overlays) <==> EqualsAreDisjoint(overlays)
  {
    if EqualsAreDisjoint(overlays) {
      forall scenes, variant: seq<Overlay>, inputs, hints, run: seq<SceneHints.Step>, k
        | SameLayout(overlays, variant) && SceneHints.IsRun(scenes, variant, inputs, hints, run) && 0 <= k < |run|
        ensures AnswerHasSingleOwners(variant, run[k].answer)
      {
        RunsAreSound(overlays, scenes, variant, inputs, hints, run, k);
      }
    } else {
      var p, q, t :| p != q && Enabled(overlays, p) && Enabled(overlays, q) && Claims(overlays, p, t) && Claims(overlays, q, t)
        && Rating(overlays, p) == Rating(overlays, q);
      var variant, run := FirstSampleShowsTwo(overlays, p, q, t);
    }
  }

  /**
   * A suppressed overlay still suppresses: of three overlays recognised on the first sample
   * only the top one is shown, although the bottom one need not share a target with it. A
   * target of the other two then has no shown owner.
   */
  lemma {:induction false} TargetCanLoseEveryOwner(top: Overlay, middle: Overlay, bottom: Overlay, x: string, y: string)
      returns (variant: seq<Overlay>, run: seq<SceneHints.Step>)
    requires top.layer.priority > middle.layer.priority > bottom.layer.priority
    requires x in top.targets && x in middle.targets && y in middle.targets && y in bottom.targets
    requires top.layer.id != middle.layer.id && middle.layer.id != bottom.layer.id && top.layer.id != bottom.layer.id
    requires top.layer.enabled && middle.layer.enabled && bottom.layer.enabled
    ensures FirstAnswer([top, middle, bottom], variant, run, {top.layer.id, middle.layer.id, bottom.layer.id})
    ensures forall id :: IsShown(run[0].answer, id) <==> id == top.layer.id
    ensures y !in top.targets ==> !ShowsOwner(variant, run[0].answer, y)
  {
    var overlays := [top, middle, bottom];
    FindThree(top, middle, bottom);
    variant, run := FirstSample(overlays, {top.layer.id, middle.layer.id, bottom.layer.id});
    LayoutFacts(overlays, variant, top.layer.id);
    LayoutFacts(overlays, variant, middle.layer.id);
    LayoutFacts(overlays, variant, bottom.layer.id);
    TopSurvives(variant, run[0].answer, top, middle, bottom);
    forall r | r in run[0].answer.overlays ensures r.id == top.layer.id {
      assert IsShown(run[0].answer, r.id);
    }
  }

  ghost predicate IsShown(answer: Resolution, id: LayerId) {
    exists r :: r in answer.overlays && r.id == id
  }

  predicate IsIn(variant: seq<Overlay>, o: Overlay) {
    OverlayOf(variant, o.layer.id).Some? && SameOverlay(o, OverlayOf(variant, o.layer.id).value)
  }

  lemma {:induction false} TopSurvives(variant: seq<Overlay>, answer: Resolution, top: Overlay, middle: Overlay, bottom: Overlay)
    requires AnswersShown(variant, answer) && Eligibles(answer, {top.layer.id, middle.layer.id, bottom.layer.id})
    requires IsIn(variant, top) && IsIn(variant, middle) && IsIn(variant, bottom)
    requires top.layer.priority > middle.layer.priority > bottom.layer.priority
    requires SharesTarget(top, middle) && SharesTarget(middle, bottom)
    ensures forall id :: IsShown(answer, id) <==> id == top.layer.id
  {
    var cs := answer.overlayCandidates;
    assert IsEligible(answer, top.layer.id) && IsEligible(answer, middle.layer.id);
    var a :| a in cs && a.id == top.layer.id && a.eligible;
    var b :| b in cs && b.id == middle.layer.id && b.eligible;
    assert Visible(variant, cs, a);
    assert ToResolved(a).id == top.layer.id;
    forall r | r in answer.overlays ensures r.id == top.layer.id {
      assert StandsFor(variant, answer, r);
      var c :| Visible(variant, cs, c) && r == ToResolved(c);
      assert c.id == middle.layer.id ==> Outranks(variant, a, c);
      assert c.id == bottom.layer.id ==> Outranks(variant, b, c);
    }
  }

  lemma {:induction false} FindThree(a: Overlay, b: Overlay, c: Overlay)
    requires a.layer.id != b.layer.id && b.layer.id != c.layer.id && a.layer.id != c.layer.id
    ensures OverlayOf([a, b, c], a.layer.id) == Some(a) && OverlayOf([a, b, c], b.layer.id) == Some(b)
    ensures OverlayOf([a, b, c], c.layer.id) == Some(c)
  {
    var two := [a, b];
    assert [a, b, c][..2] == two && two[..1] == [a];
    assert OverlayOf(two, a.layer.id) == OverlayOf([a], a.layer.id);
  }
}
