/**
 * What one frame does, said of the configuration and the resolver's answer: which detectors
 * are needed, which of them run, and what the counters then say.
 */
module FrameMeaning {
  import opened Prelude
  import opened Observations
  import opened AnalysisGate
  import opened SceneResolution
  import opened PipelineResidency

  /** A contextual element of the scene or of one of the overlays that the frame shows. */
  predicate ShownBy(c: Config, f: FrameInput, e: ElementId) {
    || (f.scene.Some? && f.scene.value in c.sceneElements && e in c.sceneElements[f.scene.value])
    || exists k :: 0 <= k < |f.overlays| && f.overlays[k] in c.overlayElements && e in c.overlayElements[f.overlays[k]]
  }

  /** Without a scene model every detector is needed; with one, the anchors and what is shown. */
  predicate Needed(c: Config, f: FrameInput, i: nat)
    requires i < |c.ids|
  {
    !c.sceneModel || c.ids[i] in c.anchors || ShownBy(c, f, c.ids[i])
  }

  lemma {:induction false} OverlayElementsExactly(c: Config, overlays: seq<LayerId>, e: ElementId)
    ensures e in OverlayElements(c, overlays)
      <==> exists k :: 0 <= k < |overlays| && overlays[k] in c.overlayElements && e in c.overlayElements[overlays[k]]
  {
    if overlays == [] {
    } else {
      var n := |overlays| - 1;
      OverlayElementsExactly(c, overlays[..n], e);
      if k :| 0 <= k < |overlays| && overlays[k] in c.overlayElements && e in c.overlayElements[overlays[k]] {
        if k < n { assert overlays[..n][k] == overlays[k]; }
      }
      if k :| 0 <= k < n && overlays[..n][k] in c.overlayElements && e in c.overlayElements[overlays[..n][k]] {
        assert overlays[k] == overlays[..n][k];
      }
    }
  }

  /** An element is active exactly if it is an anchor or is shown. */
  lemma {:induction false} ActiveExactly(c: Config, f: FrameInput, e: ElementId)
    ensures e in ActiveSet(c, f) <==> e in c.anchors || ShownBy(c, f, e)
  {
    OverlayElementsExactly(c, f.overlays, e);
  }

  /** Which slots a frame runs that does not fail. */
  lemma {:induction false} ProcessedExactly(c: Config, m: PipelineMemory, failures: seq<nat>, f: FrameInput, i: nat)
    requires Sound(c, m, failures) && Admits(c.interval, m.frameGate, f.at) && i < |c.ids|
    requires Frame(c, m, f).1.Analysed?
    ensures i in Frame(c, m, f).1.processed <==> Needed(c, f, i) && !m.slots[i].error
  {
    ActiveExactly(c, f, c.ids[i]);
    if c.sceneModel {
      var s := StagesOf(c, m, f);
      StageFacts(c, m, failures, f);
      PassFacts(s.released, s.list, f.broken, c.interval, f.at);
      assert Frame(c, m, f).1.processed == s.anchors.processed + s.contextual.processed;
      assert s.released[i] == AfterRelease(c, m, f.at, s.active, i);
    } else {
      FlatFrame(c, m, failures, f);
      assert Resident(c, i);
    }
  }

  /** Elements of detectors that this frame does not need. */
  function Idle(c: Config, f: FrameInput): set<ElementId> {
    set i | 0 <= i < |c.ids| && !Needed(c, f, i) :: c.ids[i]
  }

  lemma {:induction false} AllDistinct(c: Config)
    requires NoDuplicates(c.ids)
    ensures |IdSet(c.ids)| == |c.ids|
  {
    var all := Upto(|c.ids|);
    DistinctElements(c.ids, all);
    forall e ensures e in IdSet(c.ids) <==> e in Elements(c.ids, all) {
      ElementOf(c.ids, all, e);
      if e in IdSet(c.ids) {
        var i :| 0 <= i < |c.ids| && c.ids[i] == e;
        assert c.ids[all[i]] == e;
      }
    }
    assert IdSet(c.ids) == Elements(c.ids, all);
  }

  /** After a frame that does not fail, as many are counted as ran, as were not needed, and
      as were needed but have an error. A throttled frame counts all as throttled. */
  lemma {:induction false} CountersExactly(c: Config, m: PipelineMemory, failures: seq<nat>, f: FrameInput)
    requires Sound(c, m, failures)
    ensures var (after, r) := Frame(c, m, f);
      && (r.Throttled? <==> !Admits(c.interval, m.frameGate, f.at))
      && (r.Throttled? ==> after == m.(evaluated := 0, gated := 0, throttled := |c.ids|))
      && (r.Analysed? ==>
            && after.evaluated == |r.processed| && after.gated == |Idle(c, f)|
            && after.evaluated + after.gated + after.throttled == |c.ids|)
  {
    CountersAddUp(c, m, failures, f);
    if Admits(c.interval, m.frameGate, f.at) {
      if c.sceneModel {
        SceneFrame(c, m, failures, f);
        if Frame(c, m, f).1.Analysed? { GatedAreIdle(c, m, f); }
      } else {
        FlatFrame(c, m, failures, f);
        assert Idle(c, f) == {};
      }
    }
  }

  lemma {:induction false} Complement(c: Config, f: FrameInput)
    requires c.sceneModel
    ensures Idle(c, f) == IdSet(c.ids) - ActiveSet(c, f)
  {
    forall e ensures e in Idle(c, f) <==> e in IdSet(c.ids) && e !in ActiveSet(c, f) {
      ActiveExactly(c, f, e);
    }
  }

  lemma {:induction false} SizeOfComplement(all: set<ElementId>, active: set<ElementId>)
    ensures |all - active| == |all| - |active * all|
  {
    assert all == (all - active) + (active * all);
  }

  lemma {:induction false} GatedCount(c: Config, m: PipelineMemory, f: FrameInput)
    requires WellFormed(c, m) && c.sceneModel && Frame(c, m, f).1.Analysed?
    ensures Frame(c, m, f).0.gated == SaturatingSub(|c.ids|, |ActiveSet(c, f) * IdSet(c.ids)|)
  {}

  lemma {:induction false} GatedAreIdle(c: Config, m: PipelineMemory, f: FrameInput)
    requires NoDuplicates(c.ids) && WellFormed(c, m) && c.sceneModel && Frame(c, m, f).1.Analysed?
    ensures Frame(c, m, f).0.gated == |Idle(c, f)|
  {
    AllDistinct(c);
    GatedCount(c, m, f);
    Complement(c, f);
    SizeOfComplement(IdSet(c.ids), ActiveSet(c, f));
  }
}
