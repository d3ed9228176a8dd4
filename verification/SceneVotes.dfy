/**
 * Who is a candidate, and who is eligible, over whole runs of a resolver: counted in the
 * samples themselves.
 */
module SceneVotes {
  import opened Prelude
  import Automaton
  import opened Observations
  import opened Recognition
  import opened StableSorting
  import opened SceneResolution
  import opened SceneHints
  import opened TargetOwners

  /** The layer's confidence is known and high enough. */
  predicate Recognised(layer: Layer, observations: Evidence) {
    var confidence := Confidence(layer.recognition, observations);
    confidence.Some? && confidence.value >= layer.minimumConfidence
  }

  /** How many of the samples lo to hi - 1 recognise the layer. */
  function Recognitions(layer: Layer, inputs: seq<Evidence>, lo: nat, hi: nat): nat
    requires lo <= hi <= |inputs|
  {
    if lo == hi then 0
    else Recognitions(layer, inputs, lo, hi - 1) + if Recognised(layer, inputs[hi - 1]) then 1 else 0
  }

  /** The votes that a sequence of samples casts for a layer. */
  function VotesFor(layer: Layer, inputs: seq<Evidence>, n: nat): (votes: seq<bool>)
    requires n <= |inputs|
    ensures |votes| == n && forall i :: 0 <= i < n ==> votes[i] == Recognised(layer, inputs[i])
  {
    if n == 0 then [] else VotesFor(layer, inputs, n - 1) + [Recognised(layer, inputs[n - 1])]
  }

  lemma {:induction false} CountedVotes(layer: Layer, inputs: seq<Evidence>, lo: nat, n: nat)
    requires lo <= n <= |inputs|
    ensures Automaton.Count(VotesFor(layer, inputs, n)[lo..], true) == Recognitions(layer, inputs, lo, n)
  {
    if lo < n {
      CountedVotes(layer, inputs, lo, n - 1);
      var votes := VotesFor(layer, inputs, n)[lo..];
      assert votes[..|votes| - 1] == VotesFor(layer, inputs, n - 1)[lo..];
    }
  }

  // ------------------------------------------------------------- one sample

  /** The candidate of a layer whose history, with this sample's vote, is `history`. */
  function CandidateOf(layer: Layer, history: seq<bool>, observations: Evidence): Candidate {
    var confidence := Confidence(layer.recognition, observations);
    Candidate(layer.id, layer.name, if confidence.Some? then confidence.value else 0.0,
              Automaton.Count(history, true) >= layer.requiredSamples)
  }

  lemma {:induction false} UniquePrefix(layers: seq<Layer>)
    requires UniqueLayers(layers) && layers != []
    ensures UniqueLayers(layers[..|layers| - 1])
    ensures forall i :: 0 <= i < |layers| - 1 ==> layers[i].id != layers[|layers| - 1].id
  {}

  lemma {:induction false} OthersKeepHistory(layers: seq<Layer>, histories: Histories, observations: Evidence, id: LayerId)
    requires forall i :: 0 <= i < |layers| && layers[i].enabled ==> layers[i].id != id
    ensures HistoryOf(ScoreLayers(layers, histories, observations).1, id) == HistoryOf(histories, id)
  {
    if layers == [] {
    } else {
      OthersKeepHistory(layers[..|layers| - 1], histories, observations, id);
    }
  }

  /** The layer has its candidate, and its history has gained one vote. */
  ghost predicate ScoredFor(layer: Layer, histories: Histories, observations: Evidence, cs: seq<Candidate>, after: Histories) {
    var history := HistoryOf(after, layer.id);
    && history == Automaton.Newest(HistoryOf(histories, layer.id) + [Recognised(layer, observations)], layer.sampleWindow)
    && CandidateOf(layer, history, observations) in cs
  }

  lemma {:induction false} LastIsScored(layers: seq<Layer>, histories: Histories, observations: Evidence)
    requires UniqueLayers(layers) && layers != [] && layers[|layers| - 1].enabled
    ensures var (cs, after) := ScoreLayers(layers, histories, observations);
            ScoredFor(layers[|layers| - 1], histories, observations, cs, after)
  {
    var (init, last) := (layers[..|layers| - 1], layers[|layers| - 1]);
    UniquePrefix(layers);
    OthersKeepHistory(init, histories, observations, last.id);
    var (before, hs) := ScoreLayers(init, histories, observations);
    var (cs, after) := ScoreLayers(layers, histories, observations);
    assert cs[|before|] == CandidateOf(last, HistoryOf(after, last.id), observations);
  }

  lemma {:induction false} OneMoreKeeps(layers: seq<Layer>, histories: Histories, observations: Evidence, layer: Layer)
    requires layers != [] && layer.id != layers[|layers| - 1].id
    requires var (before, hs) := ScoreLayers(layers[..|layers| - 1], histories, observations);
             ScoredFor(layer, histories, observations, before, hs)
    ensures var (cs, after) := ScoreLayers(layers, histories, observations);
            ScoredFor(layer, histories, observations, cs, after)
  {}

  /** So has every enabled layer. */
  lemma {:induction false} ScoredAtPosition(layers: seq<Layer>, histories: Histories, observations: Evidence, i: nat)
    requires UniqueLayers(layers) && i < |layers| && layers[i].enabled
    ensures var (cs, after) := ScoreLayers(layers, histories, observations);
            ScoredFor(layers[i], histories, observations, cs, after)
  {
    if i < |layers| - 1 {
      UniquePrefix(layers);
      ScoredAtPosition(layers[..|layers| - 1], histories, observations, i);
      OneMoreKeeps(layers, histories, observations, layers[i]);
    } else {
      LastIsScored(layers, histories, observations);
    }
  }

  // ------------------------------------------------------------- runs

  lemma {:induction false} NewestTwice(votes: seq<bool>, vote: bool, window: nat)
    ensures Automaton.Newest(Automaton.Newest(votes, window) + [vote], window) == Automaton.Newest(votes + [vote], window)
  {}

  lemma {:induction false} HistoryIsNewestVotes(layers: seq<Layer>, inputs: seq<Evidence>, n: nat, i: nat)
    requires UniqueLayers(layers) && i < |layers| && layers[i].enabled && n <= |inputs|
    ensures HistoryOf(HistoriesAfter(layers, inputs, n), layers[i].id)
         == Automaton.Newest(VotesFor(layers[i], inputs, n), layers[i].sampleWindow)
  {
    if n > 0 {
      HistoryIsNewestVotes(layers, inputs, n - 1, i);
      ScoredAtPosition(layers, HistoriesAfter(layers, inputs, n - 1), inputs[n - 1], i);
      NewestTwice(VotesFor(layers[i], inputs, n - 1), Recognised(layers[i], inputs[n - 1]), layers[i].sampleWindow);
    }
  }

  /** What the candidate of a layer says at sample k: its confidence there, and whether the
      required number of the newest samples recognised it. */
  predicate CountsVotes(layer: Layer, inputs: seq<Evidence>, k: nat, c: Candidate)
    requires k < |inputs|
  {
    && c.id == layer.id && c.name == layer.name
    && c.confidence == (match Confidence(layer.recognition, inputs[k]) case None => 0.0 case Some(x) => x)
    && (c.eligible <==> Recognitions(layer, inputs, Max(0, k + 1 - layer.sampleWindow), k + 1) >= layer.requiredSamples)
  }

  lemma {:induction false} NewestAreCounted(layer: Layer, inputs: seq<Evidence>, k: nat)
    requires k < |inputs|
    ensures Automaton.Count(Automaton.Newest(VotesFor(layer, inputs, k + 1), layer.sampleWindow), true)
         == Recognitions(layer, inputs, Max(0, k + 1 - layer.sampleWindow), k + 1)
  {
    CountedVotes(layer, inputs, Max(0, k + 1 - layer.sampleWindow), k + 1);
  }

  lemma {:induction false} CandidateIsCount(layer: Layer, inputs: seq<Evidence>, k: nat, history: seq<bool>)
    requires k < |inputs| && history == Automaton.Newest(VotesFor(layer, inputs, k + 1), layer.sampleWindow)
    ensures CountsVotes(layer, inputs, k, CandidateOf(layer, history, inputs[k]))
  {
    NewestAreCounted(layer, inputs, k);
  }

  lemma {:induction false} NextHistories(layers: seq<Layer>, inputs: seq<Evidence>, k: nat, histories: Histories)
    requires k < |inputs| && histories == HistoriesAfter(layers, inputs, k)
    ensures HistoriesAfter(layers, inputs, k + 1) == ScoreLayers(layers, histories, inputs[k]).1
  {}

  lemma {:induction false} CandidateCounts(layers: seq<Layer>, inputs: seq<Evidence>, k: nat, i: nat, histories: Histories)
      returns (c: Candidate)
    requires UniqueLayers(layers) && i < |layers| && layers[i].enabled
    requires k < |inputs| && histories == HistoriesAfter(layers, inputs, k)
    ensures c in ScoreLayers(layers, histories, inputs[k]).0 && CountsVotes(layers[i], inputs, k, c)
  {
    ScoredAtPosition(layers, histories, inputs[k], i);
    HistoryIsNewestVotes(layers, inputs, k + 1, i);
    NextHistories(layers, inputs, k, histories);
    var history := HistoryOf(ScoreLayers(layers, histories, inputs[k]).1, layers[i].id);
    CandidateIsCount(layers[i], inputs, k, history);
    c := CandidateOf(layers[i], history, inputs[k]);
  }

  /** The candidates are those of the enabled layers, one for each, and they count votes. */
  ghost predicate VotesCounted(layers: seq<Layer>, inputs: seq<Evidence>, k: nat, cs: seq<Candidate>)
    requires k < |inputs|
  {
    && UniqueIds(cs)
    && (forall i :: 0 <= i < |layers| && layers[i].enabled ==> HasCandidate(layers[i], inputs, k, cs))
    && (forall j :: 0 <= j < |cs| ==> HasLayer(layers, inputs, k, cs[j]))
  }

  ghost predicate HasCandidate(layer: Layer, inputs: seq<Evidence>, k: nat, cs: seq<Candidate>)
    requires k < |inputs|
  {
    exists c :: c in cs && CountsVotes(layer, inputs, k, c)
  }

  ghost predicate HasLayer(layers: seq<Layer>, inputs: seq<Evidence>, k: nat, c: Candidate)
    requires k < |inputs|
  {
    exists i :: 0 <= i < |layers| && layers[i].enabled && CountsVotes(layers[i], inputs, k, c)
  }

  lemma {:induction false} ScoredVotesCounted(layers: seq<Layer>, inputs: seq<Evidence>, k: nat)
    requires UniqueLayers(layers) && k < |inputs|
    ensures VotesCounted(layers, inputs, k, ScoreLayers(layers, HistoriesAfter(layers, inputs, k), inputs[k]).0)
  {
    var histories := HistoriesAfter(layers, inputs, k);
    var cs := ScoreLayers(layers, histories, inputs[k]).0;
    ScoredFacts(layers, histories, inputs[k]);
    forall i | 0 <= i < |layers| && layers[i].enabled ensures HasCandidate(layers[i], inputs, k, cs) {
      var c := CandidateCounts(layers, inputs, k, i, histories);
    }
    forall j | 0 <= j < |cs| ensures HasLayer(layers, inputs, k, cs[j]) {
      var i := ScoredAreEnabled(layers, histories, inputs[k], j);
      var c := CandidateCounts(layers, inputs, k, i, histories);
      var l :| 0 <= l < |cs| && cs[l] == c;
      assert l == j;
    }
  }

  lemma {:induction false} PermutedVotesCounted(layers: seq<Layer>, inputs: seq<Evidence>, k: nat, a: seq<Candidate>, b: seq<Candidate>)
    requires k < |inputs| && VotesCounted(layers, inputs, k, a) && multiset(a) == multiset(b)
    ensures VotesCounted(layers, inputs, k, b)
  {
    UniqueInPermutation(a, b);
    forall i | 0 <= i < |layers| && layers[i].enabled ensures HasCandidate(layers[i], inputs, k, b) {
      assert HasCandidate(layers[i], inputs, k, a);
      var c :| c in a && CountsVotes(layers[i], inputs, k, c);
      assert c in multiset(b);
    }
    forall j | 0 <= j < |b| ensures HasLayer(layers, inputs, k, b[j]) {
      var l := At(b, a, j);
      assert HasLayer(layers, inputs, k, a[l]);
    }
  }

  lemma {:induction false} OverlayHistoriesOfRun(scenes: seq<Scene>, overlays: seq<Overlay>, inputs: seq<Evidence>,
                                                 hints: seq<Option<Hints>>, run: seq<Step>, k: nat)
    requires IsRun(scenes, overlays, inputs, hints, run) && k < |run|
    ensures run[k].before.overlayEvidence == HistoriesAfter(OverlayLayers(overlays), inputs, k)
  {
    if k > 0 {
      OverlayHistoriesOfRun(scenes, overlays, inputs, hints, run, k - 1);
      assert IsStep(scenes, overlays, run[k - 1], inputs[k - 1], hints[k - 1]);
    }
  }

  lemma {:induction false} AnswerPermutes(scenes: seq<Scene>, overlays: seq<Overlay>, s: Step, observations: Evidence, hints: Option<Hints>)
    requires IsStep(scenes, overlays, s, observations, hints)
    ensures multiset(ScoreLayers(Layers(scenes), s.before.sceneEvidence, observations).0) == multiset(s.answer.candidates)
    ensures multiset(ScoreLayers(OverlayLayers(overlays), s.before.overlayEvidence, observations).0)
         == multiset(s.answer.overlayCandidates)
  {
    SortFacts(ScoreLayers(Layers(scenes), s.before.sceneEvidence, observations).0,
              SceneLess(scenes, PreferredScenes(hints), TransitionHints(scenes, s.before.active)));
    SortFacts(ScoreLayers(OverlayLayers(overlays), s.before.overlayEvidence, observations).0,
              OverlayLess(PreferredOverlays(hints)));
  }

  /**
   * At every sample of a run the candidates are those of the enabled scenes and overlays,
   * one for each; a candidate carries the confidence of that sample, and is eligible exactly
   * if at least the required number of the newest samples recognised it.
   */
  lemma {:induction false} RunCountsVotes(scenes: seq<Scene>, overlays: seq<Overlay>, inputs: seq<Evidence>,
                                          hints: seq<Option<Hints>>, run: seq<Step>, k: nat)
    requires UniqueLayers(Layers(scenes)) && UniqueLayers(OverlayLayers(overlays))
    requires IsRun(scenes, overlays, inputs, hints, run) && k < |run|
    ensures VotesCounted(Layers(scenes), inputs, k, run[k].answer.candidates)
    ensures VotesCounted(OverlayLayers(overlays), inputs, k, run[k].answer.overlayCandidates)
  {
    assert IsStep(scenes, overlays, run[k], inputs[k], hints[k]);
    AnswerPermutes(scenes, overlays, run[k], inputs[k], hints[k]);
    HistoriesOfRun(scenes, overlays, inputs, hints, run, k);
    OverlayHistoriesOfRun(scenes, overlays, inputs, hints, run, k);
    ScoredVotesCounted(Layers(scenes), inputs, k);
    ScoredVotesCounted(OverlayLayers(overlays), inputs, k);
    PermutedVotesCounted(Layers(scenes), inputs, k,
      ScoreLayers(Layers(scenes), run[k].before.sceneEvidence, inputs[k]).0, run[k].answer.candidates);
    PermutedVotesCounted(OverlayLayers(overlays), inputs, k,
      ScoreLayers(OverlayLayers(overlays), run[k].before.overlayEvidence, inputs[k]).0, run[k].answer.overlayCandidates);
  }
}
