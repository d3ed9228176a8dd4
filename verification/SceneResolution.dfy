/**
 * `SceneResolver`: N-of-M evidence per scene and overlay, a ranking of candidates in which
 * caller hints are only a soft prior, and suppression of overlays that duplicate a target
 * of a higher-priority one.
 */
module SceneResolution {
  import opened Prelude
  import Automaton
  import opened Observations
  import opened TemporalRules
  import opened Recognition
  import opened StableSorting

  type LayerId = nat

  /** What scenes and overlays have in common. */
  datatype Layer = Layer(
    id: LayerId,
    name: string,
    enabled: bool,
    priority: int,
    recognition: Expression,
    minimumConfidence: real,
    requiredSamples: nat,
    sampleWindow: nat)

  datatype Scene = Scene(layer: Layer, ambiguityMargin: real, transitionHints: seq<LayerId>)

  datatype Overlay = Overlay(layer: Layer, targets: seq<string>)

  datatype Candidate = Candidate(id: LayerId, name: string, confidence: real, eligible: bool)

  datatype Resolved = Resolved(id: LayerId, name: string, confidence: real)

  datatype Hints = Hints(scenes: seq<LayerId>, overlays: seq<LayerId>)

  datatype Resolution = Resolution(
    scene: Option<Resolved>,
    overlays: seq<Resolved>,
    ambiguous: bool,
    candidates: seq<Candidate>,
    overlayCandidates: seq<Candidate>)

  type Histories = map<LayerId, seq<bool>>

  datatype ResolverMemory = ResolverMemory(
    sceneEvidence: Histories,
    overlayEvidence: Histories,
    active: Option<LayerId>)

  // ----------------------------------------------------------------- scoring

  function HistoryOf(histories: Histories, id: LayerId): seq<bool> {
    if id in histories then histories[id] else []
  }

  function Score(layer: Layer, history: seq<bool>, observations: Evidence): (Candidate, seq<bool>) {
    var confidence := Confidence(layer.recognition, observations);
    var matched := confidence.Some? && confidence.value >= layer.minimumConfidence;
    var history' := Automaton.Newest(history + [matched], layer.sampleWindow);
    (Candidate(layer.id, layer.name, if confidence.Some? then confidence.value else 0.0,
               Automaton.Count(history', true) >= layer.requiredSamples),
     history')
  }

  /** Scores every enabled layer, in order, and pushes one vote into its history. */
  function ScoreLayers(layers: seq<Layer>, histories: Histories, observations: Evidence): (seq<Candidate>, Histories) {
    if layers == [] then ([], histories)
    else
      var (cs, hs) := ScoreLayers(layers[..|layers| - 1], histories, observations);
      var layer := layers[|layers| - 1];
      if !layer.enabled then (cs, hs)
      else
        var (c, h) := Score(layer, HistoryOf(hs, layer.id), observations);
        (cs + [c], hs[layer.id := h])
  }

  // ---------------------------------------------------------------- ordering

  function Then(first: int, second: int): int { if first != 0 then first else second }

  function CompareReal(a: real, b: real): int { if a < b then -1 else if a > b then 1 else 0 }

  function CompareInt(a: int, b: int): int { if a < b then -1 else if a > b then 1 else 0 }

  function CompareText(a: string, b: string): int {
    if a == [] then (if b == [] then 0 else -1)
    else if b == [] then 1
    else if a[0] < b[0] then -1
    else if a[0] > b[0] then 1
    else CompareText(a[1..], b[1..])
  }

  /** Position of the last mention of `id`; unmentioned ids come after all mentioned ones. */
  function Rank(ids: seq<LayerId>, id: LayerId): (r: nat)
    ensures r <= |ids|
  {
    if id !in ids then |ids| else LastMention(ids, id)
  }

  function LastMention(ids: seq<LayerId>, id: LayerId): (r: nat)
    requires id in ids
    ensures r < |ids|
  {
    if ids[|ids| - 1] == id then |ids| - 1 else LastMention(ids[..|ids| - 1], id)
  }

  function Bit(b: bool): int { if b then 1 else 0 }

  function SceneOf(scenes: seq<Scene>, id: LayerId): Option<Scene> {
    if scenes == [] then None
    else if scenes[|scenes| - 1].layer.id == id then Some(scenes[|scenes| - 1])
    else SceneOf(scenes[..|scenes| - 1], id)
  }

  function OverlayOf(overlays: seq<Overlay>, id: LayerId): Option<Overlay> {
    if overlays == [] then None
    else if overlays[|overlays| - 1].layer.id == id then Some(overlays[|overlays| - 1])
    else OverlayOf(overlays[..|overlays| - 1], id)
  }

  function PriorityOf(scenes: seq<Scene>, id: LayerId): int {
    var s := SceneOf(scenes, id);
    if s.Some? then s.value.layer.priority else 0
  }

  function MarginOf(scenes: seq<Scene>, id: LayerId): real {
    var s := SceneOf(scenes, id);
    if s.Some? then s.value.ambiguityMargin else 0.0
  }

  /** What a scene candidate is compared by. */
  datatype Key = Key(confidence: real, rank: int, hinted: int, priority: int, name: string)

  function KeyOf(scenes: seq<Scene>, preferred: seq<LayerId>, hinted: seq<LayerId>, c: Candidate): Key {
    Key(c.confidence, Rank(preferred, c.id), Bit(c.id in hinted), PriorityOf(scenes, c.id), c.name)
  }

  function ByPriority(a: Key, b: Key): int {
    Then(CompareInt(b.priority, a.priority), CompareText(a.name, b.name))
  }

  function ByProfileHint(a: Key, b: Key): int {
    Then(CompareInt(b.hinted, a.hinted), ByPriority(a, b))
  }

  function ByCallerHint(a: Key, b: Key): int {
    Then(CompareInt(a.rank, b.rank), ByProfileHint(a, b))
  }

  /** Confidence first; only ties reach the caller's hints, then the profile's own. */
  function KeyOrder(a: Key, b: Key): int {
    Then(CompareReal(b.confidence, a.confidence), ByCallerHint(a, b))
  }

  function SceneOrder(scenes: seq<Scene>, preferred: seq<LayerId>, hinted: seq<LayerId>, a: Candidate, b: Candidate): int {
    KeyOrder(KeyOf(scenes, preferred, hinted, a), KeyOf(scenes, preferred, hinted, b))
  }

  function SceneLess(scenes: seq<Scene>, preferred: seq<LayerId>, hinted: seq<LayerId>): (Candidate, Candidate) -> bool {
    (a: Candidate, b: Candidate) => SceneOrder(scenes, preferred, hinted, a, b) < 0
  }

  function OverlayLess(preferred: seq<LayerId>): (Candidate, Candidate) -> bool {
    (a: Candidate, b: Candidate) =>
      Then(CompareInt(Rank(preferred, a.id), Rank(preferred, b.id)), CompareText(a.name, b.name)) < 0
  }

  // ------------------------------------------------------------ specification

  function Eligible(): Candidate -> bool { (c: Candidate) => c.eligible }

  function Ambiguous(scenes: seq<Scene>, eligible: seq<Candidate>): bool {
    |eligible| >= 2
    && eligible[0].confidence - eligible[1].confidence < MarginOf(scenes, eligible[0].id)
  }

  function ToResolved(c: Candidate): Resolved { Resolved(c.id, c.name, c.confidence) }

  function FindEligible(cs: seq<Candidate>, id: LayerId): Option<Resolved> {
    if cs == [] then None
    else if cs[0].id == id && cs[0].eligible then Some(ToResolved(cs[0]))
    else FindEligible(cs[1..], id)
  }

  predicate SharesTarget(a: Overlay, b: Overlay) {
    exists t :: t in a.targets && t in b.targets
  }

  /** `d` is eligible, owns one of `c`'s targets and has a strictly higher priority. */
  predicate Outranks(overlays: seq<Overlay>, d: Candidate, c: Candidate) {
    var (over, under) := (OverlayOf(overlays, d.id), OverlayOf(overlays, c.id));
    d.eligible && over.Some? && under.Some?
    && SharesTarget(over.value, under.value) && over.value.layer.priority > under.value.layer.priority
  }

  /** Shown overlays, by the pairwise definition over the candidates `cs`. */
  ghost predicate Shown(overlays: seq<Overlay>, cs: multiset<Candidate>, c: Candidate) {
    && c.eligible
    && OverlayOf(overlays, c.id).Some?
    && !exists d :: d in cs && Outranks(overlays, d, c)
  }

  ghost function Survives(overlays: seq<Overlay>, cs: multiset<Candidate>): Candidate -> bool {
    (c: Candidate) => Shown(overlays, cs, c)
  }

  function Layers(scenes: seq<Scene>): seq<Layer> {
    Map(scenes, (s: Scene) => s.layer)
  }

  function OverlayLayers(overlays: seq<Overlay>): seq<Layer> {
    Map(overlays, (o: Overlay) => o.layer)
  }

  function TransitionHints(scenes: seq<Scene>, active: Option<LayerId>): seq<LayerId> {
    if active.None? then []
    else
      var s := SceneOf(scenes, active.value);
      if s.Some? then s.value.transitionHints else []
  }

  function PreferredScenes(h: Option<Hints>): seq<LayerId> { if h.Some? then h.value.scenes else [] }

  function PreferredOverlays(h: Option<Hints>): seq<LayerId> { if h.Some? then h.value.overlays else [] }

  /** Picks the scene from ranked candidates. */
  function Choose(scenes: seq<Scene>, active: Option<LayerId>, candidates: seq<Candidate>)
    : (bool, Option<LayerId>, Option<Resolved>)
  {
    var eligible := Filter(candidates, Eligible());
    var ambiguous := Ambiguous(scenes, eligible);
    var active' := if ambiguous then active else if eligible == [] then None else Some(eligible[0].id);
    (ambiguous, active', if active'.Some? then FindEligible(candidates, active'.value) else None)
  }

  ghost function ResolveSample(scenes: seq<Scene>, overlays: seq<Overlay>, m: ResolverMemory,
                               observations: Evidence, hints: Option<Hints>): (ResolverMemory, Resolution)
  {
    var (scored, sceneEvidence) := ScoreLayers(Layers(scenes), m.sceneEvidence, observations);
    var candidates :=
      StableSort(scored, SceneLess(scenes, PreferredScenes(hints), TransitionHints(scenes, m.active)));
    var (ambiguous, active, scene) := Choose(scenes, m.active, candidates);
    var (overlaid, overlayEvidence) := ScoreLayers(OverlayLayers(overlays), m.overlayEvidence, observations);
    var overlayCandidates := StableSort(overlaid, OverlayLess(PreferredOverlays(hints)));
    var shown := Filter(overlayCandidates, Survives(overlays, multiset(overlayCandidates)));
    (ResolverMemory(sceneEvidence, overlayEvidence, active),
     Resolution(scene, Map(shown, ToResolved), ambiguous, candidates, overlayCandidates))
  }

  // ------------------------------------------------------------------ object

  method ScoreAll(layers: seq<Layer>, histories: Histories, observations: Evidence)
    returns (candidates: seq<Candidate>, histories': Histories)
    requires forall i :: 0 <= i < |layers| && layers[i].enabled ==> Weighted(layers[i].recognition)
    ensures (candidates, histories') == ScoreLayers(layers, histories, observations)
  {
    candidates, histories' := [], histories;
    for i := 0 to |layers|
      invariant (candidates, histories') == ScoreLayers(layers[..i], histories, observations)
    {
      assert layers[..i + 1][..i] == layers[..i];
      var layer := layers[i];
      if layer.enabled {
        var confidence := RecognitionConfidence(layer.recognition, observations);
        var matched := confidence.Some? && confidence.value >= layer.minimumConfidence;
        var history := PushBounded(HistoryOf(histories', layer.id), matched, layer.sampleWindow);
        histories' := histories'[layer.id := history];
        candidates := candidates + [Candidate(layer.id, layer.name,
          if confidence.Some? then confidence.value else 0.0,
          Automaton.Count(history, true) >= layer.requiredSamples)];
      }
    }
    assert layers[..|layers|] == layers;
  }

  /** `p` is the highest priority among the first `n` eligible candidates that own `target`. */
  ghost predicate IsHighest(overlays: seq<Overlay>, cs: seq<Candidate>, n: nat, target: string, p: int)
    requires n <= |cs|
  {
    && (exists k :: 0 <= k < n && Owns(overlays, cs[k], target, p))
    && (forall k, q :: 0 <= k < n && Owns(overlays, cs[k], target, q) ==> q <= p)
  }

  predicate Owns(overlays: seq<Overlay>, c: Candidate, target: string, priority: int) {
    var o := OverlayOf(overlays, c.id);
    c.eligible && o.Some? && target in o.value.targets && o.value.layer.priority == priority
  }

  /** The map holds exactly the highest priority of every owned target. */
  ghost predicate Tops(overlays: seq<Overlay>, cs: seq<Candidate>, n: nat, highest: map<string, int>)
    requires n <= |cs|
  {
    && (forall t :: t in highest ==> IsHighest(overlays, cs, n, t, highest[t]))
    && (forall k, t, q :: 0 <= k < n && Owns(overlays, cs[k], t, q) ==> t in highest)
  }

  /** Raises the entry of every target to at least `priority`. */
  method RaiseTargets(highest: map<string, int>, targets: seq<string>, priority: int) returns (r: map<string, int>)
    ensures forall t :: t in r <==> t in highest || t in targets
    ensures forall t :: t in r ==>
      r[t] == if t !in targets then highest[t]
              else if t in highest && highest[t] > priority then highest[t] else priority
  {
    r := highest;
    for i := 0 to |targets|
      invariant forall t :: t in r <==> t in highest || t in targets[..i]
      invariant forall t :: t in r ==>
        r[t] == if t !in targets[..i] then highest[t]
                else if t in highest && highest[t] > priority then highest[t] else priority
    {
      var name := targets[i];
      assert targets[..i + 1] == targets[..i] + [name];
      if name in r { r := r[name := Max(r[name], priority)]; } else { r := r[name := priority]; }
    }
    assert targets[..|targets|] == targets;
  }

  lemma {:induction false} TopsOfNext(overlays: seq<Overlay>, cs: seq<Candidate>, n: nat, highest: map<string, int>,
                                      targets: seq<string>, priority: int, r: map<string, int>)
    requires n < |cs| && Tops(overlays, cs, n, highest)
    requires forall t, q :: Owns(overlays, cs[n], t, q) <==> t in targets && q == priority
    requires forall t :: t in r <==> t in highest || t in targets
    requires forall t :: t in r ==>
      r[t] == if t !in targets then highest[t]
              else if t in highest && highest[t] > priority then highest[t] else priority
    ensures Tops(overlays, cs, n + 1, r)
  {
    forall t | t in r ensures IsHighest(overlays, cs, n + 1, t, r[t]) {
      if t in highest {
        var k :| 0 <= k < n && Owns(overlays, cs[k], t, highest[t]);
        assert t in targets ==> Owns(overlays, cs[n], t, priority);
      } else {
        assert Owns(overlays, cs[n], t, priority);
      }
    }
  }

  /** The map test over the highest priorities is the pairwise definition. */
  lemma {:induction false} MapTestIsPairwise(overlays: seq<Overlay>, cs: seq<Candidate>, highest: map<string, int>, c: Candidate)
    requires Tops(overlays, cs, |cs|, highest)
    requires c.eligible && OverlayOf(overlays, c.id).Some?
    ensures var current := OverlayOf(overlays, c.id).value;
            Shown(overlays, multiset(cs), c)
            <==> !exists i :: 0 <= i < |current.targets| && current.targets[i] in highest
                              && highest[current.targets[i]] > current.layer.priority
  {
    var current := OverlayOf(overlays, c.id).value;
    if i :| 0 <= i < |current.targets| && current.targets[i] in highest
            && highest[current.targets[i]] > current.layer.priority
    {
      var t := current.targets[i];
      var k :| 0 <= k < |cs| && Owns(overlays, cs[k], t, highest[t]);
      assert SharesTarget(OverlayOf(overlays, cs[k].id).value, current);
      assert cs[k] in multiset(cs) && Outranks(overlays, cs[k], c);
    }
    if d :| d in multiset(cs) && Outranks(overlays, d, c) {
      var over := OverlayOf(overlays, d.id).value;
      var t :| t in over.targets && t in current.targets;
      var k :| 0 <= k < |cs| && cs[k] == d;
      assert Owns(overlays, cs[k], t, over.layer.priority);
      var i :| 0 <= i < |current.targets| && current.targets[i] == t;
      assert highest[t] >= over.layer.priority;
    }
  }

  class SceneResolver {
    const scenes: seq<Scene>
    const overlays: seq<Overlay>
    const sceneIndex: map<LayerId, nat>
    const overlayIndex: map<LayerId, nat>
    var sceneEvidence: Histories
    var overlayEvidence: Histories
    var activeScene: Option<LayerId>

    ghost predicate Valid() {
      && (forall id :: id in sceneIndex <==> SceneOf(scenes, id).Some?)
      && (forall id :: id in sceneIndex ==>
            sceneIndex[id] < |scenes| && SceneOf(scenes, id) == Some(scenes[sceneIndex[id]]))
      && (forall id :: id in overlayIndex <==> OverlayOf(overlays, id).Some?)
      && (forall id :: id in overlayIndex ==>
            overlayIndex[id] < |overlays| && OverlayOf(overlays, id) == Some(overlays[overlayIndex[id]]))
      && (forall i :: 0 <= i < |scenes| && scenes[i].layer.enabled ==> Weighted(scenes[i].layer.recognition))
      && (forall i :: 0 <= i < |overlays| && overlays[i].layer.enabled ==> Weighted(overlays[i].layer.recognition))
    }

    ghost function Snapshot(): ResolverMemory
      reads this
    {
      ResolverMemory(sceneEvidence, overlayEvidence, activeScene)
    }

    constructor (scenes: seq<Scene>, overlays: seq<Overlay>)
      requires forall i :: 0 <= i < |scenes| && scenes[i].layer.enabled ==> Weighted(scenes[i].layer.recognition)
      requires forall i :: 0 <= i < |overlays| && overlays[i].layer.enabled ==> Weighted(overlays[i].layer.recognition)
      ensures this.scenes == scenes && this.overlays == overlays && Valid()
      ensures Snapshot() == ResolverMemory(map[], map[], None)
    {
      var bySceneId: map<LayerId, nat>, byOverlayId: map<LayerId, nat> := map[], map[];
      for i := 0 to |scenes|
        invariant forall id :: id in bySceneId <==> SceneOf(scenes[..i], id).Some?
        invariant forall id :: id in bySceneId ==>
          bySceneId[id] < i && SceneOf(scenes[..i], id) == Some(scenes[bySceneId[id]])
      {
        assert scenes[..i + 1][..i] == scenes[..i];
        bySceneId := bySceneId[scenes[i].layer.id := i];
      }
      for i := 0 to |overlays|
        invariant forall id :: id in byOverlayId <==> OverlayOf(overlays[..i], id).Some?
        invariant forall id :: id in byOverlayId ==>
          byOverlayId[id] < i && OverlayOf(overlays[..i], id) == Some(overlays[byOverlayId[id]])
      {
        assert overlays[..i + 1][..i] == overlays[..i];
        byOverlayId := byOverlayId[overlays[i].layer.id := i];
      }
      assert scenes[..|scenes|] == scenes && overlays[..|overlays|] == overlays;
      this.scenes, this.overlays := scenes, overlays;
      sceneIndex, overlayIndex := bySceneId, byOverlayId;
      sceneEvidence, overlayEvidence, activeScene := map[], map[], None;
    }

    /** The nested loops that record, per target name, the highest eligible priority. */
    method HighestPriorities(candidates: seq<Candidate>) returns (highest: map<string, int>)
      requires Valid()
      ensures Tops(overlays, candidates, |candidates|, highest)
    {
      highest := map[];
      for n := 0 to |candidates|
        invariant Tops(overlays, candidates, n, highest)
      {
        var c := candidates[n];
        var targets, priority := [], 0;
        if c.eligible && c.id in overlayIndex {
          var overlay := overlays[overlayIndex[c.id]];
          targets, priority := overlay.targets, overlay.layer.priority;
        }
        var raised := RaiseTargets(highest, targets, priority);
        TopsOfNext(overlays, candidates, n, highest, targets, priority, raised);
        highest := raised;
      }
    }

    /** Keeps the eligible overlays that no higher-priority owner of one of their targets hides. */
    method Survivors(candidates: seq<Candidate>) returns (shown: seq<Resolved>)
      requires Valid()
      ensures shown == Map(Filter(candidates, Survives(overlays, multiset(candidates))), ToResolved)
    {
      var highest := HighestPriorities(candidates);
      ghost var keep := Survives(overlays, multiset(candidates));
      shown := [];
      for n := 0 to |candidates|
        invariant shown == Map(Filter(candidates[..n], keep), ToResolved)
      {
        var c := candidates[n];
        assert candidates[..n + 1][..n] == candidates[..n];
        if c.eligible && c.id in overlayIndex {
          var current := overlays[overlayIndex[c.id]];
          MapTestIsPairwise(overlays, candidates, highest, c);
          if !exists i :: 0 <= i < |current.targets| && current.targets[i] in highest
                          && highest[current.targets[i]] > current.layer.priority
          {
            shown := shown + [ToResolved(c)];
          }
        }
      }
      assert candidates[..|candidates|] == candidates;
    }

    /** Best and runner-up of the ranked candidates decide whether the active scene moves. */
    method SettleScene(candidates: seq<Candidate>) returns (ambiguous: bool, scene: Option<Resolved>)
      requires Valid()
      modifies this`activeScene
      ensures (ambiguous, activeScene, scene) == Choose(scenes, old(activeScene), candidates)
    {
      var eligible := Filter(candidates, Eligible());
      ambiguous := false;
      if |eligible| >= 2 {
        var margin := if eligible[0].id in sceneIndex then scenes[sceneIndex[eligible[0].id]].ambiguityMargin else 0.0;
        ambiguous := eligible[0].confidence - eligible[1].confidence < margin;
      }
      if !ambiguous { activeScene := if eligible == [] then None else Some(eligible[0].id); }
      scene := if activeScene.Some? then FindEligible(candidates, activeScene.value) else None;
    }

    method ResolveWithHints(observations: Evidence, hints: Option<Hints>) returns (r: Resolution)
      requires Valid()
      modifies this
      ensures Snapshot() == ResolveSample(scenes, overlays, old(Snapshot()), observations, hints).0
      ensures r == ResolveSample(scenes, overlays, old(Snapshot()), observations, hints).1
    {
      var hinted := if activeScene.Some? && activeScene.value in sceneIndex
                    then scenes[sceneIndex[activeScene.value]].transitionHints else [];
      assert hinted == TransitionHints(scenes, activeScene);
      var scored;
      scored, sceneEvidence := ScoreAll(Layers(scenes), sceneEvidence, observations);
      var candidates := StableSort(scored, SceneLess(scenes, PreferredScenes(hints), hinted));
      var ambiguous, scene := SettleScene(candidates);
      var overlaid;
      overlaid, overlayEvidence := ScoreAll(OverlayLayers(overlays), overlayEvidence, observations);
      var overlayCandidates := StableSort(overlaid, OverlayLess(PreferredOverlays(hints)));
      var shown := Survivors(overlayCandidates);
      r := Resolution(scene, shown, ambiguous, candidates, overlayCandidates);
    }
  }

  // ----------------------------------------------------- overlay suppression

  /** Shown overlays that share a target name have the same priority. */
  lemma {:induction false} ShownOwnersAreEqual(overlays: seq<Overlay>, cs: multiset<Candidate>, c: Candidate, d: Candidate)
    requires c in cs && d in cs && Shown(overlays, cs, c) && Shown(overlays, cs, d)
    requires SharesTarget(OverlayOf(overlays, c.id).value, OverlayOf(overlays, d.id).value)
    ensures OverlayOf(overlays, c.id).value.layer.priority == OverlayOf(overlays, d.id).value.layer.priority
  {
    assert !Outranks(overlays, c, d) && !Outranks(overlays, d, c);
  }

  /** Some overlay is shown whenever any configured one is eligible: nothing outranks the top. */
  lemma {:induction false} SomethingIsShown(overlays: seq<Overlay>, cs: seq<Candidate>, n: nat, best: nat)
    requires best < n <= |cs| && cs[best].eligible && OverlayOf(overlays, cs[best].id).Some?
    requires forall k :: 0 <= k < n && cs[k].eligible && OverlayOf(overlays, cs[k].id).Some? ==>
      OverlayOf(overlays, cs[k].id).value.layer.priority <= OverlayOf(overlays, cs[best].id).value.layer.priority
    ensures exists k :: 0 <= k < |cs| && Shown(overlays, multiset(cs), cs[k])
    decreases |cs| - n
  {
    if n == |cs| {
      forall d | d in multiset(cs) ensures !Outranks(overlays, d, cs[best]) {
        var k :| 0 <= k < |cs| && cs[k] == d;
      }
      assert Shown(overlays, multiset(cs), cs[best]);
    } else if cs[n].eligible && OverlayOf(overlays, cs[n].id).Some?
              && OverlayOf(overlays, cs[n].id).value.layer.priority > OverlayOf(overlays, cs[best].id).value.layer.priority {
      SomethingIsShown(overlays, cs, n + 1, n);
    } else {
      SomethingIsShown(overlays, cs, n + 1, best);
    }
  }
}
