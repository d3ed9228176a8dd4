/**
 * `LivePipeline`: which detectors are built, run, gated or throttled on each frame. Anchor
 * detectors stay resident; contextual ones are built while their scene or overlay is
 * active and released afterwards. A build error is cached and raised once.
 */
module PipelineResidency {
  import opened Prelude
  import opened Observations
  import opened AnalysisGate
  import opened SceneResolution

  /** A detector slot: its processor, which carries its own rate gate, or a cached error. */
  datatype Processor = Unbuilt | Built(lastAnalysis: Option<nat>)

  datatype Slot = Slot(processor: Processor, error: bool, reported: bool)

  datatype Outcome = Nothing | Processed | Raised

  datatype Config = Config(
    ids: seq<ElementId>,
    anchors: set<ElementId>,
    sceneModel: bool,
    interval: nat,
    sceneElements: map<LayerId, set<ElementId>>,
    overlayElements: map<LayerId, set<ElementId>>)

  datatype PipelineMemory = PipelineMemory(
    slots: seq<Slot>,
    activeContextual: seq<nat>,
    active: set<ElementId>,
    frameGate: Option<nat>,
    evaluated: nat,
    gated: nat,
    throttled: nat)

  /** A frame: its time, the detectors that could not be built now, and the scene and
      overlays that the resolver reports once the anchors have run. */
  datatype FrameInput = FrameInput(at: nat, broken: set<nat>, scene: Option<LayerId>, overlays: seq<LayerId>)

  datatype FrameResult = Throttled | Analysed(processed: seq<nat>) | Failed(slot: nat)

  // ------------------------------------------------------------------- slots

  /** `ensure_processor` followed by the processor's own rate gate. */
  function ProcessSlot(s: Slot, broken: bool, interval: nat, t: nat): (Slot, Outcome) {
    if s.error && s.reported then (s, Nothing)
    else if s.error || (s.processor.Unbuilt? && broken) then (s.(error := true, reported := true), Raised)
    else
      var last := if s.processor.Built? then s.processor.lastAnalysis else None;
      if Admits(interval, last, t) then (s.(processor := Built(Some(t))), Processed)
      else (s.(processor := Built(last)), Nothing)
  }

  datatype Pass = Pass(slots: seq<Slot>, processed: seq<nat>, raised: Option<nat>)

  /** Processes the listed slots in order and stops at the first that raises. */
  function ProcessList(slots: seq<Slot>, list: seq<nat>, broken: set<nat>, interval: nat, t: nat): (p: Pass)
    requires forall k :: 0 <= k < |list| ==> list[k] < |slots|
    ensures |p.slots| == |slots|
  {
    if list == [] then Pass(slots, [], None)
    else
      var p := ProcessList(slots, list[..|list| - 1], broken, interval, t);
      var i := list[|list| - 1];
      if p.raised.Some? then p
      else
        var (slot, outcome) := ProcessSlot(p.slots[i], i in broken, interval, t);
        Pass(p.slots[i := slot],
             p.processed + if outcome == Processed then [i] else [],
             if outcome == Raised then Some(i) else None)
  }

  /** Positions below `n` whose element is in `keep`, ascending. */
  function Where(ids: seq<ElementId>, keep: set<ElementId>, n: nat): (list: seq<nat>)
    requires n <= |ids|
    ensures forall i :: i in list <==> 0 <= i < n && ids[i] in keep
    ensures forall k :: 0 <= k < |list| ==> list[k] < n
    ensures NoDuplicates(list)
  {
    if n == 0 then []
    else Where(ids, keep, n - 1) + if ids[n - 1] in keep then [n - 1] else []
  }

  function Release(c: Config, slots: seq<Slot>, list: seq<nat>, active: set<ElementId>): (r: seq<Slot>)
    requires |slots| == |c.ids|
    ensures |r| == |slots|
  {
    seq(|slots|, i requires 0 <= i < |slots| =>
      if i in list && c.ids[i] !in active then slots[i].(processor := Unbuilt) else slots[i])
  }

  // ------------------------------------------------------------------- frames

  function ElementsOf(elements: map<LayerId, set<ElementId>>, id: LayerId): set<ElementId> {
    if id in elements then elements[id] else {}
  }

  function OverlayElements(c: Config, overlays: seq<LayerId>): set<ElementId> {
    if overlays == [] then {}
    else OverlayElements(c, overlays[..|overlays| - 1]) + ElementsOf(c.overlayElements, overlays[|overlays| - 1])
  }

  function ActiveSet(c: Config, f: FrameInput): set<ElementId> {
    c.anchors + (if f.scene.Some? then ElementsOf(c.sceneElements, f.scene.value) else {})
    + OverlayElements(c, f.overlays)
  }

  function IdSet(ids: seq<ElementId>): set<ElementId> {
    set i | 0 <= i < |ids| :: ids[i]
  }

  predicate WellFormed(c: Config, m: PipelineMemory) {
    |m.slots| == |c.ids| && forall k :: 0 <= k < |m.activeContextual| ==> m.activeContextual[k] < |m.slots|
  }

  /** `process_scene_aware_scheduled`, after the frame gate has admitted the frame. */
  function Scheduled(c: Config, m: PipelineMemory, f: FrameInput): (r: (PipelineMemory, FrameResult))
    requires WellFormed(c, m)
    ensures WellFormed(c, r.0)
  {
    var n := |c.ids|;
    if !c.sceneModel then
      var p := ProcessList(m.slots, Where(c.ids, IdSet(c.ids), n), f.broken, c.interval, f.at);
      if p.raised.Some? then (m.(slots := p.slots), Failed(p.raised.value))
      else (m.(slots := p.slots, evaluated := |p.processed|, gated := 0,
               throttled := SaturatingSub(n, |p.processed|)),
            Analysed(p.processed))
    else
      var p := ProcessList(m.slots, Where(c.ids, c.anchors, n), f.broken, c.interval, f.at);
      if p.raised.Some? then (m.(slots := p.slots), Failed(p.raised.value))
      else
        var active := ActiveSet(c, f);
        var released := Release(c, p.slots, m.activeContextual, active);
        var contextual := Where(c.ids, active - c.anchors, n);
        var q := ProcessList(released, contextual, f.broken, c.interval, f.at);
        Conclude(c, m, active, contextual, p.processed, q)
  }

  /** The end of a scene-aware frame: remember what is active, count what ran. */
  function Conclude(c: Config, m: PipelineMemory, active: set<ElementId>, contextual: seq<nat>, first: seq<nat>, q: Pass)
    : (PipelineMemory, FrameResult)
  {
    if q.raised.Some? then (m.(slots := q.slots, active := active), Failed(q.raised.value))
    else
      var processed := first + q.processed;
      var eligible := |active * IdSet(c.ids)|;
      (PipelineMemory(q.slots, contextual, active, m.frameGate, |processed|,
                      SaturatingSub(|c.ids|, eligible), SaturatingSub(eligible, |processed|)),
       Analysed(processed))
  }

  /** `process_scene_aware`: the frame gate, then the scheduled work. */
  function Frame(c: Config, m: PipelineMemory, f: FrameInput): (r: (PipelineMemory, FrameResult))
    requires WellFormed(c, m)
    ensures WellFormed(c, r.0)
  {
    if !Admits(c.interval, m.frameGate, f.at)
    then (m.(evaluated := 0, gated := 0, throttled := |m.slots|), Throttled)
    else Scheduled(c, m.(frameGate := Some(f.at)), f)
  }

  predicate Resident(c: Config, i: nat)
    requires i < |c.ids|
  {
    !c.sceneModel || c.ids[i] in c.anchors
  }

  /** After construction: everything resident is built, the rest waits. */
  function Start(c: Config): (m: PipelineMemory)
    ensures WellFormed(c, m)
  {
    PipelineMemory(
      seq(|c.ids|, i requires 0 <= i < |c.ids| =>
        Slot(if Resident(c, i) then Built(None) else Unbuilt, false, false)),
      [], {}, None, 0, 0, 0)
  }

  // -------------------------------------------------------------- list passes

  /** Listed errors have been raised, and every listed detector's own gate would admit time t. */
  ghost predicate Ready(slots: seq<Slot>, list: seq<nat>, interval: nat, t: nat) {
    forall i :: i in list ==>
      i < |slots| && (slots[i].error ==> slots[i].reported)
      && (slots[i].processor.Built? ==> Admits(interval, slots[i].processor.lastAnalysis, t))
  }

  /** What one pass may do to slot i. */
  ghost predicate Touched(before: Slot, after: Slot, t: nat, raised: bool) {
    if raised then !before.error && before.processor.Unbuilt? && after == before.(error := true, reported := true)
    else if before.error then after == before
    else after == before.(processor := Built(Some(t)))
  }

  lemma {:induction false} SlotFacts(s: Slot, broken: bool, interval: nat, t: nat)
    requires s.error ==> s.reported
    requires s.processor.Built? ==> Admits(interval, s.processor.lastAnalysis, t)
    ensures var (s', outcome) := ProcessSlot(s, broken, interval, t);
            Touched(s, s', t, outcome == Raised) && (outcome == Processed <==> !s.error && outcome != Raised)
            && (outcome == Raised <==> !s.error && s.processor.Unbuilt? && broken)
  {}

  /** A pass over ready slots leaves the others alone, processes every listed slot without an
      error, and stops at the first that raises. */
  lemma {:induction false} PassFacts(slots: seq<Slot>, list: seq<nat>, broken: set<nat>, interval: nat, t: nat)
    requires forall k :: 0 <= k < |list| ==> list[k] < |slots|
    requires NoDuplicates(list) && Ready(slots, list, interval, t)
    ensures var p := ProcessList(slots, list, broken, interval, t);
            && (forall i :: 0 <= i < |slots| && i !in list ==> p.slots[i] == slots[i])
            && (forall i :: 0 <= i < |slots| ==> p.slots[i] == slots[i] || Touched(slots[i], p.slots[i], t, p.raised == Some(i)))
            && (p.raised.None? ==> forall i :: i in list ==> Touched(slots[i], p.slots[i], t, false))
            && (p.raised.None? ==> forall i :: (i in p.processed <==> i in list && !slots[i].error))
            && (p.raised.Some? ==> p.raised.value in list && Touched(slots[p.raised.value], p.slots[p.raised.value], t, true))
            && NoDuplicates(p.processed) && (forall i :: i in p.processed ==> i in list)
  {
    if list != [] {
      var (init, i) := (list[..|list| - 1], list[|list| - 1]);
      assert list == init + [i];
      assert NoDuplicates(init) && i !in init;
      PassFacts(slots, init, broken, interval, t);
      var p := ProcessList(slots, init, broken, interval, t);
      if p.raised.None? {
        SlotFacts(p.slots[i], i in broken, interval, t);
        assert i !in p.processed;
      }
    }
  }

  // ------------------------------------------------------------ the invariant

  /** What every run keeps; `failures` lists the slots whose build error has been raised. */
  ghost predicate Sound(c: Config, m: PipelineMemory, failures: seq<nat>) {
    && WellFormed(c, m)
    && NoDuplicates(c.ids) && c.interval > 0
    && NoDuplicates(failures) && (forall i :: i in failures ==> i < |m.slots|)
    && (forall i :: 0 <= i < |m.slots| ==>
          SlotSound(m.slots[i], m.frameGate) && (m.slots[i].error <==> i in failures)
          && (Resident(c, i) ==> m.slots[i].processor.Built? && !m.slots[i].error))
    && (forall i :: i in m.activeContextual ==> !Resident(c, i))
    && (failures == [] ==> Tight(c, m))
  }

  ghost predicate SlotSound(s: Slot, gate: Option<nat>) {
    && (s.error ==> s.reported)
    && (s.processor.Built? && s.processor.lastAnalysis.Some? ==>
          gate.Some? && s.processor.lastAnalysis.value <= gate.value)
  }

  /** Exactly the resident and the active detectors are built. */
  ghost predicate ExactlyResident(c: Config, m: PipelineMemory)
    requires WellFormed(c, m)
  {
    forall i :: 0 <= i < |m.slots| ==> (m.slots[i].processor.Built? <==> Resident(c, i) || c.ids[i] in m.active)
  }

  /** And the release list knows all of the active ones. */
  ghost predicate Tight(c: Config, m: PipelineMemory)
    requires WellFormed(c, m)
  {
    && ExactlyResident(c, m)
    && (forall i :: 0 <= i < |m.slots| && !Resident(c, i) && c.ids[i] in m.active ==> i in m.activeContextual)
  }

  lemma {:induction false} StartIsSound(c: Config)
    requires NoDuplicates(c.ids) && c.interval > 0
    ensures Sound(c, Start(c), [])
  {}

  /** A frame the pipeline gate admits is one that every built detector's own gate admits. */
  lemma {:induction false} InnerGatesOpen(c: Config, m: PipelineMemory, failures: seq<nat>, t: nat, list: seq<nat>)
    requires Sound(c, m, failures) && Admits(c.interval, m.frameGate, t)
    requires forall i :: i in list ==> i < |m.slots|
    ensures Ready(m.slots, list, c.interval, t)
  {
    forall i | i in list
      ensures m.slots[i].processor.Built? ==> Admits(c.interval, m.slots[i].processor.lastAnalysis, t)
    {
      assert SlotSound(m.slots[i], m.frameGate);
    }
  }

  function Raise(failures: seq<nat>, raised: Option<nat>): seq<nat> {
    if raised.Some? then failures + [raised.value] else failures
  }

  /** Slots after the passes and releases of one frame at time t, which raised at most once. */
  ghost predicate Advanced(c: Config, before: seq<Slot>, after: seq<Slot>, t: nat, raised: Option<nat>)
    requires |before| == |c.ids|
  {
    && |after| == |before|
    && (raised.Some? ==> raised.value < |before|)
    && forall i :: 0 <= i < |before| ==> Evolved(before[i], after[i], t, raised == Some(i))
                                         && (Resident(c, i) ==> after[i].processor.Built? && raised != Some(i))
  }

  ghost predicate Evolved(before: Slot, after: Slot, t: nat, raised: bool) {
    && (if raised then !before.error && after.error && after.reported
        else after.error == before.error && after.reported == before.reported)
    && (after.processor == before.processor || after.processor == Unbuilt || after.processor == Built(Some(t)))
  }

  /** Whatever a frame did in this way, errors and gates stay consistent. */
  lemma {:induction false} AdvancedIsSound(c: Config, m: PipelineMemory, failures: seq<nat>, t: nat,
                                           raised: Option<nat>, m': PipelineMemory)
    requires Sound(c, m, failures) && Admits(c.interval, m.frameGate, t)
    requires WellFormed(c, m') && m'.frameGate == Some(t) && Advanced(c, m.slots, m'.slots, t, raised)
    requires forall i :: i in m'.activeContextual ==> !Resident(c, i)
    requires failures == [] && raised.None? ==> Tight(c, m')
    ensures Sound(c, m', Raise(failures, raised))
    ensures raised.Some? ==> raised.value !in failures
  {
    var slots := m'.slots;
    if raised.Some? {
      assert !m.slots[raised.value].error;
      assert Raise(failures, raised)[|failures|] == raised.value;
    }
    forall i | 0 <= i < |slots|
      ensures SlotSound(slots[i], m'.frameGate)
      ensures slots[i].error <==> i in Raise(failures, raised)
      ensures Resident(c, i) ==> slots[i].processor.Built? && !slots[i].error
    {
      assert SlotSound(m.slots[i], m.frameGate);
      assert m.slots[i].error <==> i in failures;
      assert Evolved(m.slots[i], slots[i], t, raised == Some(i));
    }
  }

  /** Resident detectors are built and error-free, so a pass over them processes them all. */
  lemma {:induction false} ResidentPass(c: Config, m: PipelineMemory, failures: seq<nat>, list: seq<nat>, f: FrameInput)
    requires Sound(c, m, failures) && Admits(c.interval, m.frameGate, f.at)
    requires NoDuplicates(list) && (forall k :: 0 <= k < |list| ==> list[k] < |m.slots|)
    requires forall i :: i in list ==> Resident(c, i)
    ensures var p := ProcessList(m.slots, list, f.broken, c.interval, f.at);
            && p.raised.None?
            && (forall i :: 0 <= i < |m.slots| && i !in list ==> p.slots[i] == m.slots[i])
            && (forall i :: i in list ==> p.slots[i] == m.slots[i].(processor := Built(Some(f.at))))
            && NoDuplicates(p.processed) && (forall i :: i in p.processed <==> i in list)
  {
    InnerGatesOpen(c, m, failures, f.at, list);
    PassFacts(m.slots, list, f.broken, c.interval, f.at);
    var p := ProcessList(m.slots, list, f.broken, c.interval, f.at);
    forall i | i in list ensures m.slots[i].processor.Built? && !m.slots[i].error {
      assert Resident(c, i);
    }
  }

  lemma {:induction false} FlatFrame(c: Config, m: PipelineMemory, failures: seq<nat>, f: FrameInput)
    requires Sound(c, m, failures) && Admits(c.interval, m.frameGate, f.at) && !c.sceneModel
    ensures var (m', r) := Frame(c, m, f);
            && r.Analysed? && Sound(c, m', failures)
            && NoDuplicates(r.processed) && (forall i :: i in r.processed <==> 0 <= i < |c.ids|)
  {
    var list := Where(c.ids, IdSet(c.ids), |c.ids|);
    ResidentPass(c, m, failures, list, f);
    var (m', r) := Frame(c, m, f);
    forall i | 0 <= i < |c.ids| ensures i in list {
      assert c.ids[i] in IdSet(c.ids);
    }
    AdvancedIsSound(c, m, failures, f.at, None, m');
  }

  /** The three stages of a scene-aware frame: anchors, release, contextual detectors. */
  datatype Stages = Stages(anchors: Pass, active: set<ElementId>, released: seq<Slot>, list: seq<nat>, contextual: Pass)

  function StagesOf(c: Config, m: PipelineMemory, f: FrameInput): Stages
    requires WellFormed(c, m)
  {
    var p := ProcessList(m.slots, Where(c.ids, c.anchors, |c.ids|), f.broken, c.interval, f.at);
    var active := ActiveSet(c, f);
    var released := Release(c, p.slots, m.activeContextual, active);
    var list := Where(c.ids, active - c.anchors, |c.ids|);
    Stages(p, active, released, list, ProcessList(released, list, f.broken, c.interval, f.at))
  }

  /** Slot i once the anchors have run and inactive contextual detectors are released. */
  function AfterRelease(c: Config, m: PipelineMemory, t: nat, active: set<ElementId>, i: nat): Slot
    requires WellFormed(c, m) && i < |c.ids|
  {
    if Resident(c, i) then m.slots[i].(processor := Built(Some(t)))
    else if i in m.activeContextual && c.ids[i] !in active then m.slots[i].(processor := Unbuilt)
    else m.slots[i]
  }

  lemma {:induction false} ReleasedSlot(c: Config, m: PipelineMemory, slots: seq<Slot>, t: nat, active: set<ElementId>, i: nat)
    requires WellFormed(c, m) && |slots| == |m.slots| && i < |c.ids|
    requires forall k :: k in m.activeContextual ==> !Resident(c, k)
    requires slots[i] == if Resident(c, i) then m.slots[i].(processor := Built(Some(t))) else m.slots[i]
    ensures Release(c, slots, m.activeContextual, active)[i] == AfterRelease(c, m, t, active, i)
  {}

  lemma {:induction false} StageFacts(c: Config, m: PipelineMemory, failures: seq<nat>, f: FrameInput)
    requires Sound(c, m, failures) && Admits(c.interval, m.frameGate, f.at) && c.sceneModel
    ensures var s := StagesOf(c, m, f);
            && s.anchors.raised.None?
            && NoDuplicates(s.anchors.processed)
            && (forall i :: i in s.anchors.processed <==> 0 <= i < |c.ids| && Resident(c, i))
            && (forall i :: 0 <= i < |c.ids| ==> s.released[i] == AfterRelease(c, m, f.at, s.active, i))
            && Ready(s.released, s.list, c.interval, f.at)
            && (forall i :: i in s.list <==> 0 <= i < |c.ids| && !Resident(c, i) && c.ids[i] in s.active)
  {
    var s := StagesOf(c, m, f);
    var anchors := Where(c.ids, c.anchors, |c.ids|);
    ResidentPass(c, m, failures, anchors, f);
    InnerGatesOpen(c, m, failures, f.at, s.list);
    forall i | 0 <= i < |c.ids| ensures s.released[i] == AfterRelease(c, m, f.at, s.active, i) {
      assert i in anchors <==> Resident(c, i);
      ReleasedSlot(c, m, s.anchors.slots, f.at, s.active, i);
    }
  }

  /** A scene-aware frame raises at most one new error and, without errors so far, leaves
      exactly the anchors and the active detectors built. */
  lemma {:induction false} SceneFrame(c: Config, m: PipelineMemory, failures: seq<nat>, f: FrameInput)
    requires Sound(c, m, failures) && Admits(c.interval, m.frameGate, f.at) && c.sceneModel
    ensures var (m', r) := Frame(c, m, f);
            var s := StagesOf(c, m, f);
            && !r.Throttled?
            && (r.Failed? <==> s.contextual.raised.Some?) && (r.Failed? ==> r.slot == s.contextual.raised.value)
            && Sound(c, m', Raise(failures, s.contextual.raised))
            && (r.Failed? ==> r.slot !in failures)
  {
    var (m', r) := Frame(c, m, f);
    var s := StagesOf(c, m, f);
    StageFacts(c, m, failures, f);
    PassFacts(s.released, s.list, f.broken, c.interval, f.at);
    var q := s.contextual;
    SceneAdvances(c, m, failures, f);
    if failures == [] && q.raised.None? { TightAfter(c, m, f); }
    AdvancedIsSound(c, m, failures, f.at, q.raised, m');
  }

  /** What the stages of a scene-aware frame have to do with each other. */
  ghost predicate Staged(c: Config, m: PipelineMemory, t: nat, s: Stages)
    requires WellFormed(c, m)
  {
    && |s.released| == |s.contextual.slots| == |c.ids|
    && (forall i :: 0 <= i < |c.ids| ==> s.released[i] == AfterRelease(c, m, t, s.active, i))
    && (forall i :: i in s.list <==> 0 <= i < |c.ids| && !Resident(c, i) && c.ids[i] in s.active)
    && (forall i :: 0 <= i < |c.ids| && i !in s.list ==> s.contextual.slots[i] == s.released[i])
    && (forall i :: 0 <= i < |c.ids| ==>
          (s.contextual.slots[i] == s.released[i]
           || Touched(s.released[i], s.contextual.slots[i], t, s.contextual.raised == Some(i))))
    && (s.contextual.raised.Some? ==>
          && s.contextual.raised.value in s.list
          && Touched(s.released[s.contextual.raised.value], s.contextual.slots[s.contextual.raised.value], t, true))
  }

  lemma {:induction false} StagesAreStaged(c: Config, m: PipelineMemory, failures: seq<nat>, f: FrameInput)
    requires Sound(c, m, failures) && Admits(c.interval, m.frameGate, f.at) && c.sceneModel
    ensures Staged(c, m, f.at, StagesOf(c, m, f))
  {
    var s := StagesOf(c, m, f);
    StageFacts(c, m, failures, f);
    PassFacts(s.released, s.list, f.broken, c.interval, f.at);
  }

  lemma {:induction false} SceneAdvances(c: Config, m: PipelineMemory, failures: seq<nat>, f: FrameInput)
    requires Sound(c, m, failures) && Admits(c.interval, m.frameGate, f.at) && c.sceneModel
    ensures var q := StagesOf(c, m, f).contextual; Advanced(c, m.slots, q.slots, f.at, q.raised)
  {
    StagesAreStaged(c, m, failures, f);
    StagedAdvances(c, m, failures, f.at, StagesOf(c, m, f));
  }

  lemma {:induction false} StagedAdvances(c: Config, m: PipelineMemory, failures: seq<nat>, t: nat, s: Stages)
    requires Sound(c, m, failures) && Staged(c, m, t, s)
    ensures Advanced(c, m.slots, s.contextual.slots, t, s.contextual.raised)
  {
    var q := s.contextual;
    forall i | 0 <= i < |m.slots|
      ensures Evolved(m.slots[i], q.slots[i], t, q.raised == Some(i))
      ensures Resident(c, i) ==> q.slots[i].processor.Built? && q.raised != Some(i)
    {
      assert SlotSound(m.slots[i], m.frameGate);
      assert s.released[i] == AfterRelease(c, m, t, s.active, i);
      assert Resident(c, i) ==> i !in s.list && q.slots[i] == s.released[i];
      SlotEvolves(m.slots[i], s.released[i], q.slots[i], t, q.raised == Some(i));
    }
  }

  lemma {:induction false} SlotEvolves(before: Slot, released: Slot, after: Slot, t: nat, raised: bool)
    requires before.error ==> before.reported
    requires released.error == before.error && released.reported == before.reported
    requires released.processor in {before.processor, Unbuilt, Built(Some(t))}
    requires Touched(released, after, t, raised) || (after == released && !raised)
    ensures Evolved(before, after, t, raised)
  {
  }

  lemma {:induction false} TightAfter(c: Config, m: PipelineMemory, f: FrameInput)
    requires Sound(c, m, []) && Admits(c.interval, m.frameGate, f.at) && c.sceneModel
    requires StagesOf(c, m, f).contextual.raised.None?
    ensures Tight(c, Frame(c, m, f).0)
  {
    var s := StagesOf(c, m, f);
    var m' := Frame(c, m, f).0;
    StageFacts(c, m, [], f);
    TightStages(c, m, f);
    assert m'.slots == s.contextual.slots && m'.active == s.active && m'.activeContextual == s.list;
  }

  lemma {:induction false} TightStages(c: Config, m: PipelineMemory, f: FrameInput)
    requires Sound(c, m, []) && Admits(c.interval, m.frameGate, f.at) && c.sceneModel
    requires StagesOf(c, m, f).contextual.raised.None?
    ensures var s := StagesOf(c, m, f);
      forall i :: 0 <= i < |c.ids| ==>
        (s.contextual.slots[i].processor.Built? <==> Resident(c, i) || c.ids[i] in s.active)
  {
    var s := StagesOf(c, m, f);
    StageFacts(c, m, [], f);
    PassFacts(s.released, s.list, f.broken, c.interval, f.at);
    forall i | 0 <= i < |c.ids|
      ensures s.contextual.slots[i].processor.Built? <==> Resident(c, i) || c.ids[i] in s.active
    {
      assert !m.slots[i].error;
      if i in s.list { assert Touched(s.released[i], s.contextual.slots[i], f.at, false); }
    }
  }

  // -------------------------------------------------------------- accounting

  function Elements(ids: seq<ElementId>, list: seq<nat>): set<ElementId>
    requires forall k :: 0 <= k < |list| ==> list[k] < |ids|
  {
    if list == [] then {} else Elements(ids, list[..|list| - 1]) + {ids[list[|list| - 1]]}
  }

  lemma {:induction false} ElementOf(ids: seq<ElementId>, list: seq<nat>, e: ElementId)
    requires forall k :: 0 <= k < |list| ==> list[k] < |ids|
    ensures e in Elements(ids, list) <==> exists k :: 0 <= k < |list| && ids[list[k]] == e
  {
    if list == [] {
    } else {
      var init := list[..|list| - 1];
      ElementOf(ids, init, e);
      if k :| 0 <= k < |init| && ids[init[k]] == e { assert ids[list[k]] == e; }
      if k :| 0 <= k < |list| && ids[list[k]] == e { assert k < |init| ==> ids[init[k]] == e; }
    }
  }

  lemma {:induction false} DistinctElements(ids: seq<ElementId>, list: seq<nat>)
    requires NoDuplicates(ids) && NoDuplicates(list) && forall k :: 0 <= k < |list| ==> list[k] < |ids|
    ensures |Elements(ids, list)| == |list|
  {
    if list == [] {
    } else {
      var (init, i) := (list[..|list| - 1], list[|list| - 1]);
      DistinctElements(ids, init);
      ElementOf(ids, init, ids[i]);
      forall k | 0 <= k < |init| ensures ids[init[k]] != ids[i] {
        assert init[k] == list[k] != i;
      }
    }
  }

  lemma {:induction false} IdSetSize(ids: seq<ElementId>)
    ensures |IdSet(ids)| <= |ids|
  {
    if ids == [] {
      assert IdSet(ids) == {};
    } else {
      var init := ids[..|ids| - 1];
      IdSetSize(init);
      assert IdSet(ids) == IdSet(init) + {ids[|ids| - 1]} by {
        assert forall i :: 0 <= i < |init| ==> ids[i] == init[i];
        forall e | e in IdSet(init) ensures e in IdSet(ids) {
          var i :| 0 <= i < |init| && init[i] == e;
          assert ids[i] == e;
        }
        assert ids[|ids| - 1] in IdSet(ids);
      }
    }
  }

  lemma {:induction false} Subset<T>(a: set<T>, b: set<T>)
    requires a <= b
    ensures |a| <= |b|
  {
    assert b == a + (b - a);
  }

  /** Distinct positions with active elements are at most the active detectors, and all of
      them when none is missing. */
  lemma {:induction false} ActiveCount(c: Config, list: seq<nat>, active: set<ElementId>)
    requires NoDuplicates(c.ids) && NoDuplicates(list)
    requires forall k :: 0 <= k < |list| ==> list[k] < |c.ids| && c.ids[list[k]] in active
    ensures |list| <= |active * IdSet(c.ids)| <= |c.ids|
    ensures (forall i :: 0 <= i < |c.ids| && c.ids[i] in active ==> i in list) ==> |list| == |active * IdSet(c.ids)|
  {
    var (image, eligible) := (Elements(c.ids, list), active * IdSet(c.ids));
    DistinctElements(c.ids, list);
    forall e | e in image ensures e in eligible { ElementOf(c.ids, list, e); }
    Subset(image, eligible);
    IdSetSize(c.ids);
    Subset(eligible, IdSet(c.ids));
    if forall i :: 0 <= i < |c.ids| && c.ids[i] in active ==> i in list {
      forall e | e in eligible ensures e in image {
        var i :| 0 <= i < |c.ids| && c.ids[i] == e;
        var k :| 0 <= k < |list| && list[k] == i;
        assert c.ids[list[k]] == e;
        ElementOf(c.ids, list, e);
      }
      assert image == eligible;
    }
  }

  /** Every slot is processed: as many as there are slots. */
  lemma {:induction false} AllCount(c: Config, list: seq<nat>)
    requires NoDuplicates(c.ids) && NoDuplicates(list)
    requires forall k :: 0 <= k < |list| ==> list[k] < |c.ids|
    requires forall i :: 0 <= i < |c.ids| ==> i in list
    ensures |list| == |c.ids|
  {
    var all := Upto(|c.ids|);
    DistinctElements(c.ids, list);
    DistinctElements(c.ids, all);
    assert Elements(c.ids, list) == Elements(c.ids, all) by {
      forall e ensures e in Elements(c.ids, list) <==> e in Elements(c.ids, all) {
        ElementOf(c.ids, list, e);
        ElementOf(c.ids, all, e);
        if k :| 0 <= k < |list| && c.ids[list[k]] == e { assert c.ids[all[list[k]]] == e; }
        if k :| 0 <= k < |all| && c.ids[all[k]] == e {
          assert all[k] in list;
          var l :| 0 <= l < |list| && list[l] == all[k];
          assert c.ids[list[l]] == e;
        }
      }
    }
  }

  function Upto(n: nat): (s: seq<nat>)
    ensures |s| == n && forall i :: 0 <= i < n ==> s[i] == i
  {
    seq(n, i requires 0 <= i < n => i)
  }

  /**
   * On every frame that does not fail, evaluated, gated and throttled detectors add up to
   * all of them; while no build has failed, no detector is throttled on an admitted frame.
   */
  lemma {:induction false} CountersAddUp(c: Config, m: PipelineMemory, failures: seq<nat>, f: FrameInput)
    requires Sound(c, m, failures)
    ensures var (m', r) := Frame(c, m, f);
            && (!r.Failed? ==> m'.evaluated + m'.gated + m'.throttled == |c.ids|)
            && (r.Analysed? ==> m'.evaluated == |r.processed|)
            && (r.Analysed? && failures == [] ==> m'.throttled == 0)
  {
    if Admits(c.interval, m.frameGate, f.at) {
      if c.sceneModel {
        SceneProcessed(c, m, failures, f);
        if Frame(c, m, f).1.Analysed? { ActiveCount(c, Frame(c, m, f).1.processed, ActiveSet(c, f)); }
      } else {
        FlatFrame(c, m, failures, f);
        var processed := Frame(c, m, f).1.processed;
        forall k | 0 <= k < |processed| ensures processed[k] < |c.ids| { assert processed[k] in processed; }
        AllCount(c, processed);
      }
    }
  }

  /** The processed slots are distinct and active, and without errors they are all the active ones. */
  lemma {:induction false} SceneProcessed(c: Config, m: PipelineMemory, failures: seq<nat>, f: FrameInput)
    requires Sound(c, m, failures) && Admits(c.interval, m.frameGate, f.at) && c.sceneModel
    ensures var r := Frame(c, m, f).1;
            r.Analysed? ==>
              && NoDuplicates(r.processed)
              && (forall k :: 0 <= k < |r.processed| ==>
                    r.processed[k] < |c.ids| && c.ids[r.processed[k]] in ActiveSet(c, f))
              && (failures == [] ==>
                    forall i :: 0 <= i < |c.ids| && c.ids[i] in ActiveSet(c, f) ==> i in r.processed)
  {
    var r := Frame(c, m, f).1;
    if r.Analysed? {
      var s := StagesOf(c, m, f);
      StageFacts(c, m, failures, f);
      PassFacts(s.released, s.list, f.broken, c.interval, f.at);
      var (p, q) := (s.anchors.processed, s.contextual.processed);
      assert r.processed == p + q;
      assert c.anchors <= s.active;
      forall i | i in p + q ensures i < |c.ids| && c.ids[i] in s.active && (i in p ==> i !in q) {
        assert i in p || i in q;
      }
      JoinDistinct(p, q);
      forall k | 0 <= k < |p + q| ensures (p + q)[k] in p + q {}
      if failures == [] {
        forall i | 0 <= i < |c.ids| && c.ids[i] in s.active ensures i in p + q { MissesNobody(c, m, f, i); }
      }
    }
  }

  lemma {:induction false} JoinDistinct(p: seq<nat>, q: seq<nat>)
    requires NoDuplicates(p) && NoDuplicates(q) && forall i :: i in p ==> i !in q
    ensures NoDuplicates(p + q)
  {
    forall a, b | 0 <= a < b < |p + q| ensures (p + q)[a] != (p + q)[b] {
      if a < |p| <= b { assert p[a] in p && q[b - |p|] in q; }
    }
  }

  lemma {:induction false} MissesNobody(c: Config, m: PipelineMemory, f: FrameInput, i: nat)
    requires Sound(c, m, []) && Admits(c.interval, m.frameGate, f.at) && c.sceneModel
    requires StagesOf(c, m, f).contextual.raised.None?
    requires i < |c.ids| && c.ids[i] in ActiveSet(c, f)
    ensures i in StagesOf(c, m, f).anchors.processed || i in StagesOf(c, m, f).contextual.processed
  {
    var s := StagesOf(c, m, f);
    StageFacts(c, m, [], f);
    PassFacts(s.released, s.list, f.broken, c.interval, f.at);
    assert !m.slots[i].error;
    assert Resident(c, i) || i in s.list;
  }

  // -------------------------------------------------------------------- runs

  function PipelineRun(c: Config, fs: seq<FrameInput>): (m: PipelineMemory)
    ensures WellFormed(c, m)
  {
    if fs == [] then Start(c) else Frame(c, PipelineRun(c, fs[..|fs| - 1]), fs[|fs| - 1]).0
  }

  /** The slots whose build error was raised, in order, over a run. */
  function Failures(c: Config, fs: seq<FrameInput>): seq<nat> {
    if fs == [] then []
    else
      var r := Frame(c, PipelineRun(c, fs[..|fs| - 1]), fs[|fs| - 1]).1;
      Raise(Failures(c, fs[..|fs| - 1]), if r.Failed? then Some(r.slot) else None)
  }

  lemma {:induction false} FrameKeepsSound(c: Config, m: PipelineMemory, failures: seq<nat>, f: FrameInput)
    requires Sound(c, m, failures)
    ensures var (m', r) := Frame(c, m, f);
            Sound(c, m', Raise(failures, if r.Failed? then Some(r.slot) else None))
  {
    if Admits(c.interval, m.frameGate, f.at) {
      if c.sceneModel { SceneFrame(c, m, failures, f); } else { FlatFrame(c, m, failures, f); }
    }
  }

  lemma {:induction false} RunIsSound(c: Config, fs: seq<FrameInput>)
    requires NoDuplicates(c.ids) && c.interval > 0
    ensures Sound(c, PipelineRun(c, fs), Failures(c, fs))
  {
    if fs == [] {
      StartIsSound(c);
    } else {
      var init := fs[..|fs| - 1];
      RunIsSound(c, init);
      FrameKeepsSound(c, PipelineRun(c, init), Failures(c, init), fs[|fs| - 1]);
    }
  }

  lemma {:induction false} FailuresOfPrefix(c: Config, fs: seq<FrameInput>, n: nat)
    requires n <= |fs| && Failures(c, fs) == []
    ensures Failures(c, fs[..n]) == []
    decreases |fs|
  {
    if n == |fs| {
      assert fs[..n] == fs;
    } else {
      var init := fs[..|fs| - 1];
      assert init[..n] == fs[..n];
      FailuresOfPrefix(c, init, n);
    }
  }

  /** A failing frame counts the detector that it could not build among the active ones. */
  lemma {:induction false} FailureBreaksResidency(c: Config, m: PipelineMemory, f: FrameInput)
    requires Sound(c, m, []) && Frame(c, m, f).1.Failed?
    ensures !ExactlyResident(c, Frame(c, m, f).0)
  {
    if c.sceneModel { SceneFrame(c, m, [], f); } else { FlatFrame(c, m, [], f); }
    StageFacts(c, m, [], f);
    var s := StagesOf(c, m, f);
    PassFacts(s.released, s.list, f.broken, c.interval, f.at);
    var (m', j) := (Frame(c, m, f).0, Frame(c, m, f).1.slot);
    assert j in s.list && m'.active == s.active && m'.slots == s.contextual.slots;
    assert m'.slots[j].processor.Unbuilt? && c.ids[j] in m'.active;
  }

  /** Exactly the anchors and the active detectors are built after every frame of a run, if
      and only if no build failed in it. */
  lemma {:induction false} ResidencyFailsWithBuilds(c: Config, fs: seq<FrameInput>)
    requires NoDuplicates(c.ids) && c.interval > 0
    ensures Failures(c, fs) == []
       <==> forall n :: 0 <= n <= |fs| ==> ExactlyResident(c, PipelineRun(c, fs[..n]))
  {
    if Failures(c, fs) == [] {
      forall n | 0 <= n <= |fs| ensures ExactlyResident(c, PipelineRun(c, fs[..n])) {
        FailuresOfPrefix(c, fs, n);
        RunIsSound(c, fs[..n]);
      }
    } else {
      var n := FirstFailure(c, fs);
      RunIsSound(c, fs[..n]);
      assert fs[..n + 1][..n] == fs[..n];
      FailureBreaksResidency(c, PipelineRun(c, fs[..n]), fs[n]);
      assert !ExactlyResident(c, PipelineRun(c, fs[..n + 1]));
    }
  }

  lemma {:induction false} FirstFailure(c: Config, fs: seq<FrameInput>) returns (n: nat)
    requires Failures(c, fs) != []
    ensures n < |fs| && Failures(c, fs[..n]) == [] && Frame(c, PipelineRun(c, fs[..n]), fs[n]).1.Failed?
  {
    n := |fs| - 1;
    if Failures(c, fs[..n]) != [] {
      var init := fs[..n];
      n := FirstFailure(c, init);
      assert init[..n] == fs[..n];
    }
  }

  /** Over any run every slot raises its build error at most once, so at most one frame per
      slot fails. */
  lemma {:induction false} EachSlotFailsAtMostOnce(c: Config, fs: seq<FrameInput>)
    requires NoDuplicates(c.ids) && c.interval > 0
    ensures NoDuplicates(Failures(c, fs)) && |Failures(c, fs)| <= |c.ids|
    ensures forall i :: i in Failures(c, fs) ==> i < |c.ids| && !Resident(c, i)
  {
    RunIsSound(c, fs);
    var failures := Failures(c, fs);
    forall i | i in failures ensures c.ids[i] in IdSet(c.ids) && !Resident(c, i) {
      assert PipelineRun(c, fs).slots[i].error;
    }
    forall k | 0 <= k < |failures| ensures failures[k] < |c.ids| { assert failures[k] in failures; }
    ActiveCount(c, failures, IdSet(c.ids));
  }

  // ------------------------------------------------------ after a failed build

  /** A failing frame does not update the list of contextual detectors to release. */
  lemma {:induction false} FailureKeepsReleaseList(c: Config, m: PipelineMemory, f: FrameInput)
    requires WellFormed(c, m) && Frame(c, m, f).1.Failed?
    ensures Frame(c, m, f).0.activeContextual == m.activeContextual
  {}

  /** A built detector that is missing from that list is never released while it stays inactive. */
  lemma {:induction false} ForgottenDetectorStays(c: Config, m: PipelineMemory, failures: seq<nat>, f: FrameInput, i: nat)
    requires Sound(c, m, failures) && c.sceneModel && i < |c.ids|
    requires m.slots[i].processor.Built? && !Resident(c, i) && i !in m.activeContextual
    requires c.ids[i] !in ActiveSet(c, f)
    ensures var m' := Frame(c, m, f).0;
            m'.slots[i] == m.slots[i] && i !in m'.activeContextual
  {
    if Admits(c.interval, m.frameGate, f.at) {
      StageFacts(c, m, failures, f);
      var s := StagesOf(c, m, f);
      PassFacts(s.released, s.list, f.broken, c.interval, f.at);
      assert s.released[i] == AfterRelease(c, m, f.at, s.active, i) == m.slots[i];
    }
  }

  /** A build of slot i would fail now. */
  predicate Failing(s: Slot, i: nat, broken: set<nat>) {
    !s.error && s.processor.Unbuilt? && i in broken
  }

  /** A pass raises at the first listed slot that fails. */
  lemma {:induction false} PassRaisesFirst(slots: seq<Slot>, list: seq<nat>, broken: set<nat>, interval: nat, t: nat, n: nat)
    requires forall k :: 0 <= k < |list| ==> list[k] < |slots|
    requires NoDuplicates(list) && Ready(slots, list, interval, t) && n < |list|
    ensures ProcessList(slots, list, broken, interval, t).raised == Some(list[n])
       <==> Failing(slots[list[n]], list[n], broken)
            && forall k :: 0 <= k < n ==> !Failing(slots[list[k]], list[k], broken)
    decreases |list|
  {
    var (init, i) := (list[..|list| - 1], list[|list| - 1]);
    assert list == init + [i];
    assert NoDuplicates(init) && i !in init;
    PassOneMore(slots, init, i, broken, interval, t);
    NothingRaised(slots, init, broken, interval, t);
    PassFacts(slots, init, broken, interval, t);
    if n < |init| {
      PassRaisesFirst(slots, init, broken, interval, t, n);
      assert init[n] == list[n] && list[n] != i;
    } else {
      var p := ProcessList(slots, init, broken, interval, t);
      assert p.raised.Some? ==> p.raised.value in init;
    }
  }

  /** It builds or runs what comes before that and does not reach what comes behind. */
  lemma {:induction false} PassStopsThere(slots: seq<Slot>, list: seq<nat>, broken: set<nat>, interval: nat, t: nat, n: nat, m: nat)
    requires forall k :: 0 <= k < |list| ==> list[k] < |slots|
    requires NoDuplicates(list) && Ready(slots, list, interval, t) && n < |list| && m < |list|
    requires ProcessList(slots, list, broken, interval, t).raised == Some(list[n])
    ensures var p := ProcessList(slots, list, broken, interval, t);
      && (m < n ==> Touched(slots[list[m]], p.slots[list[m]], t, false))
      && (m > n ==> p.slots[list[m]] == slots[list[m]])
    decreases |list|
  {
    var (init, i) := (list[..|list| - 1], list[|list| - 1]);
    assert list == init + [i];
    assert NoDuplicates(init) && i !in init;
    PassOneMore(slots, init, i, broken, interval, t);
    PassFacts(slots, init, broken, interval, t);
    var p := ProcessList(slots, init, broken, interval, t);
    if p.raised.None? {
      assert list[n] == i && n == |init|;
      if m < n { assert list[m] == init[m] && init[m] in init; }
    } else {
      assert p.raised.value in init && n < |init| && init[n] == list[n];
      if m < |init| { PassStopsThere(slots, init, broken, interval, t, n, m); }
    }
  }

  /** What the last slot of a list adds to the pass. */
  lemma {:induction false} PassOneMore(slots: seq<Slot>, init: seq<nat>, i: nat, broken: set<nat>, interval: nat, t: nat)
    requires (forall k :: 0 <= k < |init| ==> init[k] < |slots|) && i < |slots| && i !in init
    requires NoDuplicates(init) && Ready(slots, init + [i], interval, t)
    ensures var (p, q) := (ProcessList(slots, init, broken, interval, t), ProcessList(slots, init + [i], broken, interval, t));
      && (p.raised.Some? ==> q == p)
      && (p.raised.None? ==> q.raised == if Failing(slots[i], i, broken) then Some(i) else None)
      && (forall k :: 0 <= k < |slots| && k != i ==> q.slots[k] == p.slots[k])
  {
    assert (init + [i])[..|init|] == init;
    PassFacts(slots, init, broken, interval, t);
    SlotFacts(slots[i], i in broken, interval, t);
  }

  lemma {:induction false} NothingRaised(slots: seq<Slot>, list: seq<nat>, broken: set<nat>, interval: nat, t: nat)
    requires forall k :: 0 <= k < |list| ==> list[k] < |slots|
    requires NoDuplicates(list) && Ready(slots, list, interval, t)
    ensures ProcessList(slots, list, broken, interval, t).raised.None?
       <==> forall k :: 0 <= k < |list| ==> !Failing(slots[list[k]], list[k], broken)
  {
    if list != [] {
      var (init, i) := (list[..|list| - 1], list[|list| - 1]);
      assert list == init + [i];
      assert NoDuplicates(init) && i !in init;
      NothingRaised(slots, init, broken, interval, t);
      PassFacts(slots, init, broken, interval, t);
      SlotFacts(slots[i], i in broken, interval, t);
    }
  }

  ghost predicate Ascends(list: seq<nat>) {
    forall k, l :: 0 <= k < l < |list| ==> list[k] < list[l]
  }

  lemma {:induction false} WhereAscends(ids: seq<ElementId>, keep: set<ElementId>, n: nat)
    requires n <= |ids|
    ensures Ascends(Where(ids, keep, n))
  {
    if n == 0 {
    } else {
      WhereAscends(ids, keep, n - 1);
    }
  }

  /** A contextual slot whose build this frame would attempt in vain. */
  predicate FailsOn(c: Config, m: PipelineMemory, f: FrameInput, j: nat)
    requires WellFormed(c, m) && j < |c.ids|
  {
    !Resident(c, j) && c.ids[j] in ActiveSet(c, f) && Failing(m.slots[j], j, f.broken)
  }

  /** A frame fails at the first such slot, and at no other. */
  lemma {:induction false} FailsExactlyAt(c: Config, m: PipelineMemory, failures: seq<nat>, f: FrameInput, j: nat)
    requires Sound(c, m, failures) && c.sceneModel && Admits(c.interval, m.frameGate, f.at) && j < |c.ids|
    ensures Frame(c, m, f).1 == Failed(j)
       <==> FailsOn(c, m, f, j) && forall i :: 0 <= i < j ==> !FailsOn(c, m, f, i)
  {
    SceneFrame(c, m, failures, f);
    StageFacts(c, m, failures, f);
    var s := StagesOf(c, m, f);
    WhereAscends(c.ids, s.active - c.anchors, |c.ids|);
    PassFailsAt(s.released, s.list, f.broken, c.interval, f.at, j);
    forall i | 0 <= i < |c.ids| ensures FailsOn(c, m, f, i) <==> i in s.list && Failing(s.released[i], i, f.broken) {
      assert s.released[i] == AfterRelease(c, m, f.at, s.active, i);
    }
  }

  lemma {:induction false} PassFailsAt(slots: seq<Slot>, list: seq<nat>, broken: set<nat>, interval: nat, t: nat, j: nat)
    requires forall k :: 0 <= k < |list| ==> list[k] < |slots|
    requires NoDuplicates(list) && Ready(slots, list, interval, t) && Ascends(list) && j < |slots|
    ensures ProcessList(slots, list, broken, interval, t).raised == Some(j)
       <==> j in list && Failing(slots[j], j, broken)
            && forall i :: 0 <= i < j && i in list ==> !Failing(slots[i], i, broken)
  {
    PassFacts(slots, list, broken, interval, t);
    if j in list {
      var n :| 0 <= n < |list| && list[n] == j;
      PassRaisesFirst(slots, list, broken, interval, t, n);
      forall i | 0 <= i < j && i in list ensures exists k :: 0 <= k < n && list[k] == i {
        var k :| 0 <= k < |list| && list[k] == i;
        assert k < n;
      }
    }
  }

  /** Built without anyone ever releasing it again by the list: not an anchor, not listed. */
  predicate Unlisted(c: Config, m: PipelineMemory, i: nat)
    requires WellFormed(c, m) && i < |c.ids|
  {
    !Resident(c, i) && m.slots[i].processor.Built? && i !in m.activeContextual
  }

  /** A frame that fails at j leaves unlisted exactly the slots that were so before and, new,
      the active ones before j that it built and that the old release list does not have. */
  lemma {:induction false} FailedFrameLeaksExactly(
      c: Config, m: PipelineMemory, failures: seq<nat>, f: FrameInput, i: nat, j: nat)
    requires Sound(c, m, failures) && Frame(c, m, f).1 == Failed(j) && i < |c.ids|
    ensures Unlisted(c, Frame(c, m, f).0, i)
       <==> Unlisted(c, m, i)
            || (!Resident(c, i) && i < j && c.ids[i] in ActiveSet(c, f) && !m.slots[i].error && i !in m.activeContextual)
  {
    if c.sceneModel { SceneFrame(c, m, failures, f); } else { FlatFrame(c, m, failures, f); }
    StagesAreStaged(c, m, failures, f);
    FailureKeepsReleaseList(c, m, f);
    var s := StagesOf(c, m, f);
    if i in s.list { ListedBeforeFailure(c, m, failures, f, i, j); }
    StagedLeaks(c, m, f.at, s, Frame(c, m, f).0, i, j);
  }

  /** Of the listed slots, a failing frame ran those before the failure and no other. */
  lemma {:induction false} ListedBeforeFailure(
      c: Config, m: PipelineMemory, failures: seq<nat>, f: FrameInput, i: nat, j: nat)
    requires Sound(c, m, failures) && c.sceneModel && Admits(c.interval, m.frameGate, f.at)
    requires var s := StagesOf(c, m, f); i in s.list && s.contextual.raised == Some(j)
    ensures var s := StagesOf(c, m, f);
      && i < |c.ids|
      && (i < j ==> Touched(s.released[i], s.contextual.slots[i], f.at, false))
      && (i > j ==> s.contextual.slots[i] == s.released[i])
  {
    var s := StagesOf(c, m, f);
    StageFacts(c, m, failures, f);
    WhereAscends(c.ids, s.active - c.anchors, |c.ids|);
    PassFacts(s.released, s.list, f.broken, c.interval, f.at);
    var n :| 0 <= n < |s.list| && s.list[n] == j;
    var k :| 0 <= k < |s.list| && s.list[k] == i;
    PassStopsThere(s.released, s.list, f.broken, c.interval, f.at, n, k);
  }

  lemma {:induction false} StagedLeaks(
      c: Config, m: PipelineMemory, t: nat, s: Stages, m': PipelineMemory, i: nat, j: nat)
    requires WellFormed(c, m) && WellFormed(c, m') && Staged(c, m, t, s) && i < |c.ids|
    requires m'.slots == s.contextual.slots && m'.activeContextual == m.activeContextual && s.contextual.raised == Some(j)
    requires i in s.list && i < j ==> Touched(s.released[i], s.contextual.slots[i], t, false)
    requires i in s.list && i > j ==> s.contextual.slots[i] == s.released[i]
    ensures Unlisted(c, m', i)
       <==> Unlisted(c, m, i)
            || (!Resident(c, i) && i < j && c.ids[i] in s.active && !m.slots[i].error && i !in m.activeContextual)
  {
    assert s.released[i] == AfterRelease(c, m, t, s.active, i);
  }

  // ------------------------------------------------------------------ object

  lemma {:induction false} RaiseEndsPass(slots: seq<Slot>, list: seq<nat>, n: nat, broken: set<nat>, interval: nat, t: nat)
    requires forall k :: 0 <= k < |list| ==> list[k] < |slots|
    requires n <= |list| && ProcessList(slots, list[..n], broken, interval, t).raised.Some?
    ensures ProcessList(slots, list, broken, interval, t) == ProcessList(slots, list[..n], broken, interval, t)
  {
    if n < |list| {
      assert list[..|list| - 1][..n] == list[..n];
      RaiseEndsPass(slots, list[..|list| - 1], n, broken, interval, t);
    } else {
      assert list[..n] == list;
    }
  }

  class LivePipeline {
    const config: Config
    var slots: seq<Slot>
    var activeContextual: seq<nat>
    var active: set<ElementId>
    var frameGate: Option<nat>
    var evaluated: nat
    var gated: nat
    var throttled: nat

    function Snapshot(): PipelineMemory
      reads this
    {
      PipelineMemory(slots, activeContextual, active, frameGate, evaluated, gated, throttled)
    }

    constructor (config: Config)
      ensures this.config == config && Snapshot() == Start(config)
    {
      this.config := config;
      slots := Start(config).slots;
      activeContextual, active, frameGate, evaluated, gated, throttled := [], {}, None, 0, 0, 0;
    }

    method ProcessListed(list: seq<nat>, f: FrameInput) returns (processed: seq<nat>, raised: Option<nat>)
      requires forall k :: 0 <= k < |list| ==> list[k] < |slots|
      modifies this`slots
      ensures Pass(slots, processed, raised) == ProcessList(old(slots), list, f.broken, config.interval, f.at)
    {
      processed, raised := [], None;
      for k := 0 to |list|
        invariant |slots| == |old(slots)|
        invariant Pass(slots, processed, None) == ProcessList(old(slots), list[..k], f.broken, config.interval, f.at)
      {
        var i := list[k];
        assert list[..k + 1][..k] == list[..k];
        var (slot, outcome) := ProcessSlot(slots[i], i in f.broken, config.interval, f.at);
        slots := slots[i := slot];
        match outcome {
          case Processed => processed := processed + [i];
          case Nothing =>
          case Raised =>
            RaiseEndsPass(old(slots), list, k + 1, f.broken, config.interval, f.at);
            return processed, Some(i);
        }
      }
      assert list[..|list|] == list;
    }

    method ReleaseInactive(active': set<ElementId>)
      requires WellFormed(config, Snapshot())
      modifies this`slots
      ensures slots == Release(config, old(slots), activeContextual, active')
    {
      for k := 0 to |activeContextual|
        invariant slots == Release(config, old(slots), activeContextual[..k], active')
      {
        var i := activeContextual[k];
        assert activeContextual[..k + 1] == activeContextual[..k] + [i];
        if config.ids[i] !in active' { slots := slots[i := slots[i].(processor := Unbuilt)]; }
      }
      assert activeContextual[..|activeContextual|] == activeContextual;
    }

    method ActiveElements(f: FrameInput) returns (r: set<ElementId>)
      ensures r == ActiveSet(config, f)
    {
      r := config.anchors;
      if f.scene.Some? { r := r + ElementsOf(config.sceneElements, f.scene.value); }
      ghost var base := r;
      for k := 0 to |f.overlays|
        invariant r == base + OverlayElements(config, f.overlays[..k])
      {
        assert f.overlays[..k + 1][..k] == f.overlays[..k];
        r := r + ElementsOf(config.overlayElements, f.overlays[k]);
      }
      assert f.overlays[..|f.overlays|] == f.overlays;
    }

    method ProcessAll(f: FrameInput) returns (r: FrameResult)
      requires WellFormed(config, Snapshot()) && !config.sceneModel
      modifies this`slots, this`evaluated, this`gated, this`throttled
      ensures Snapshot() == Scheduled(config, old(Snapshot()), f).0
      ensures r == Scheduled(config, old(Snapshot()), f).1
    {
      var n := |config.ids|;
      var all, failed := ProcessListed(Where(config.ids, IdSet(config.ids), n), f);
      if failed.Some? { return Failed(failed.value); }
      evaluated, gated, throttled := |all|, 0, SaturatingSub(n, |all|);
      return Analysed(all);
    }

    /** Release of inactive detectors followed by the pass over the active ones. */
    method ProcessContextual(active': set<ElementId>, f: FrameInput)
      returns (list: seq<nat>, processed: seq<nat>, raised: Option<nat>)
      requires WellFormed(config, Snapshot())
      modifies this`slots
      ensures list == Where(config.ids, active' - config.anchors, |config.ids|)
      ensures Pass(slots, processed, raised)
           == ProcessList(Release(config, old(slots), activeContextual, active'), list, f.broken, config.interval, f.at)
    {
      ReleaseInactive(active');
      list := Where(config.ids, active' - config.anchors, |config.ids|);
      processed, raised := ProcessListed(list, f);
    }

    method Finish(active': set<ElementId>, contextual: seq<nat>, first: seq<nat>, more: seq<nat>, raised: Option<nat>)
      returns (r: FrameResult)
      modifies this
      ensures (Snapshot(), r) == Conclude(config, old(Snapshot()), active', contextual, first, Pass(old(slots), more, raised))
    {
      active := active';
      if raised.Some? { return Failed(raised.value); }
      activeContextual := contextual;
      var processed := first + more;
      var eligible := |active * IdSet(config.ids)|;
      evaluated, gated := |processed|, SaturatingSub(|config.ids|, eligible);
      throttled := SaturatingSub(eligible, |processed|);
      return Analysed(processed);
    }

    method ProcessScenes(f: FrameInput) returns (r: FrameResult)
      requires WellFormed(config, Snapshot()) && config.sceneModel
      modifies this
      ensures (Snapshot(), r) == Scheduled(config, old(Snapshot()), f)
    {
      var processed, raised := ProcessListed(Where(config.ids, config.anchors, |config.ids|), f);
      if raised.Some? { return Failed(raised.value); }
      var active' := ActiveElements(f);
      var contextual, more;
      contextual, more, raised := ProcessContextual(active', f);
      r := Finish(active', contextual, processed, more, raised);
    }

    method ProcessSceneAware(f: FrameInput) returns (r: FrameResult)
      requires WellFormed(config, Snapshot())
      modifies this
      ensures Snapshot() == Frame(config, old(Snapshot()), f).0
      ensures r == Frame(config, old(Snapshot()), f).1
    {
      if !Admits(config.interval, frameGate, f.at) {
        evaluated, gated, throttled := 0, 0, |slots|;
        return Throttled;
      }
      frameGate := Some(f.at);
      if config.sceneModel { r := ProcessScenes(f); } else { r := ProcessAll(f); }
    }
  }
}
