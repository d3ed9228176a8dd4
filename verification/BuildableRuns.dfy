/**
 * When residency is exact, told from the frames alone: their times, the detectors that
 * cannot be built at them, and the scenes and overlays that are active.
 */
module BuildableRuns {
  import opened Prelude
  import opened Observations
  import opened AnalysisGate
  import opened SceneResolution
  import opened PipelineResidency

  function Times(fs: seq<FrameInput>): (ts: seq<nat>)
    ensures |ts| == |fs|
  {
    if fs == [] then [] else Times(fs[..|fs| - 1]) + [fs[|fs| - 1].at]
  }

  /** The frame gate, which knows only the times of the earlier frames, admits this frame. */
  predicate Opens(c: Config, past: seq<FrameInput>, f: FrameInput) {
    Admits(c.interval, GateRun(c.interval, Times(past)), f.at)
  }

  /** What was active at the last admitted frame. */
  function LastActive(c: Config, past: seq<FrameInput>): set<ElementId> {
    if past == [] then {}
    else if Opens(c, past[..|past| - 1], past[|past| - 1]) then ActiveSet(c, past[|past| - 1])
    else LastActive(c, past[..|past| - 1])
  }

  /** No contextual detector becomes active at a frame at which it cannot be built. */
  predicate Buildable(c: Config, past: seq<FrameInput>, f: FrameInput) {
    forall i :: 0 <= i < |c.ids| && !Resident(c, i) && i in f.broken && c.ids[i] in ActiveSet(c, f)
                ==> c.ids[i] in LastActive(c, past)
  }

  /** This holds of every admitted frame of the run. */
  ghost predicate AllBuildable(c: Config, fs: seq<FrameInput>) {
    forall n :: 0 <= n < |fs| ==> BuildableAt(c, fs, n)
  }

  predicate BuildableAt(c: Config, fs: seq<FrameInput>, n: nat)
    requires n < |fs|
  {
    Opens(c, fs[..n], fs[n]) ==> Buildable(c, fs[..n], fs[n])
  }

  lemma {:induction false} TimesOfPrefix(fs: seq<FrameInput>)
    requires fs != []
    ensures Times(fs)[..|fs| - 1] == Times(fs[..|fs| - 1]) && Times(fs)[|fs| - 1] == fs[|fs| - 1].at
  {}

  /** The pipeline's gate is a gate over the frame times, whatever fails. */
  lemma {:induction false} FrameGateIsGate(c: Config, fs: seq<FrameInput>)
    requires NoDuplicates(c.ids) && c.interval > 0
    ensures PipelineRun(c, fs).frameGate == GateRun(c.interval, Times(fs))
  {
    if fs == [] {
    } else {
      var (init, f) := (fs[..|fs| - 1], fs[|fs| - 1]);
      FrameGateIsGate(c, init);
      TimesOfPrefix(fs);
      FrameSetsGate(c, PipelineRun(c, init), f);
    }
  }

  lemma {:induction false} FrameSetsGate(c: Config, m: PipelineMemory, f: FrameInput)
    requires WellFormed(c, m)
    ensures Frame(c, m, f).0.frameGate == if Admits(c.interval, m.frameGate, f.at) then Some(f.at) else m.frameGate
  {}

  /** With a scene model the remembered active set is that of the last admitted frame. */
  lemma {:induction false} ActiveIsLastActive(c: Config, fs: seq<FrameInput>)
    requires NoDuplicates(c.ids) && c.interval > 0 && c.sceneModel
    ensures PipelineRun(c, fs).active == LastActive(c, fs)
  {
    if fs == [] {
    } else {
      var (init, f) := (fs[..|fs| - 1], fs[|fs| - 1]);
      ActiveIsLastActive(c, init);
      FrameGateIsGate(c, init);
      RunIsSound(c, init);
      FrameSetsActive(c, PipelineRun(c, init), Failures(c, init), f);
    }
  }

  lemma {:induction false} FrameSetsActive(c: Config, m: PipelineMemory, failures: seq<nat>, f: FrameInput)
    requires Sound(c, m, failures) && c.sceneModel
    ensures Frame(c, m, f).0.active == if Admits(c.interval, m.frameGate, f.at) then ActiveSet(c, f) else m.active
  {
    if Admits(c.interval, m.frameGate, f.at) { StageFacts(c, m, failures, f); }
  }

  /** A slot on which an admitted frame fails exists exactly if the frame fails. */
  lemma {:induction false} FailsExactlyOnSome(c: Config, m: PipelineMemory, failures: seq<nat>, f: FrameInput)
    requires Sound(c, m, failures) && c.sceneModel && Admits(c.interval, m.frameGate, f.at)
    ensures Frame(c, m, f).1.Failed? <==> exists j :: 0 <= j < |c.ids| && FailsOn(c, m, f, j)
  {
    if j :| 0 <= j < |c.ids| && FailsOn(c, m, f, j) {
      var first := LeastFailing(c, m, f, j);
      FailsExactlyAt(c, m, failures, f, first);
    }
    SceneFrame(c, m, failures, f);
    if Frame(c, m, f).1.Failed? {
      StagesAreStaged(c, m, failures, f);
      FailsExactlyAt(c, m, failures, f, Frame(c, m, f).1.slot);
    }
  }

  lemma {:induction false} LeastFailing(c: Config, m: PipelineMemory, f: FrameInput, j: nat) returns (first: nat)
    requires WellFormed(c, m) && j < |c.ids| && FailsOn(c, m, f, j)
    ensures first < |c.ids| && FailsOn(c, m, f, first) && forall i :: 0 <= i < first ==> !FailsOn(c, m, f, i)
  {
    if i :| 0 <= i < j && FailsOn(c, m, f, i) { first := LeastFailing(c, m, f, i); } else { first := j; }
  }

  /** While nothing has failed, exactly the detectors that were not active have to be built. */
  lemma {:induction false} FailsOnNewlyActive(c: Config, m: PipelineMemory, f: FrameInput, j: nat)
    requires Sound(c, m, []) && j < |c.ids|
    ensures FailsOn(c, m, f, j)
       <==> !Resident(c, j) && j in f.broken && c.ids[j] in ActiveSet(c, f) && c.ids[j] !in m.active
  {
    assert !m.slots[j].error;
  }

  /** After a run without failures the next frame fails exactly if it opens and is not buildable. */
  lemma {:induction false} NextFails(c: Config, past: seq<FrameInput>, f: FrameInput)
    requires NoDuplicates(c.ids) && c.interval > 0 && Failures(c, past) == []
    ensures Frame(c, PipelineRun(c, past), f).1.Failed? <==> Opens(c, past, f) && !Buildable(c, past, f)
  {
    var m := PipelineRun(c, past);
    RunIsSound(c, past);
    FrameGateIsGate(c, past);
    if Opens(c, past, f) {
      if c.sceneModel {
        ActiveIsLastActive(c, past);
        FailsExactlyOnSome(c, m, [], f);
        forall j | 0 <= j < |c.ids|
          ensures FailsOn(c, m, f, j)
             <==> !Resident(c, j) && j in f.broken && c.ids[j] in ActiveSet(c, f) && c.ids[j] !in LastActive(c, past)
        {
          FailsOnNewlyActive(c, m, f, j);
        }
      } else {
        FlatFrame(c, m, [], f);
      }
    }
  }

  lemma {:induction false} BuildableOfPrefix(c: Config, fs: seq<FrameInput>)
    requires fs != []
    ensures AllBuildable(c, fs) <==> AllBuildable(c, fs[..|fs| - 1]) && BuildableAt(c, fs, |fs| - 1)
  {
    var init := fs[..|fs| - 1];
    forall k | 0 <= k < |init| ensures BuildableAt(c, fs, k) <==> BuildableAt(c, init, k) {
      assert fs[..k] == init[..k];
    }
  }

  lemma {:induction false} NothingFailsExactly(c: Config, fs: seq<FrameInput>)
    requires NoDuplicates(c.ids) && c.interval > 0
    ensures Failures(c, fs) == [] <==> AllBuildable(c, fs)
  {
    if fs == [] {
    } else {
      var (init, f) := (fs[..|fs| - 1], fs[|fs| - 1]);
      NothingFailsExactly(c, init);
      BuildableOfPrefix(c, fs);
      if Failures(c, init) == [] { NextFails(c, init, f); }
    }
  }

  /**
   * Exactly the anchors and the active detectors are built after every frame of a run, if
   * and only if every contextual detector that cannot be built at an admitted frame, and
   * is active at it, was already active at the last admitted frame.
   */
  lemma {:induction false} ResidencyIsExact(c: Config, fs: seq<FrameInput>)
    requires NoDuplicates(c.ids) && c.interval > 0
    ensures AllBuildable(c, fs)
       <==> forall n :: 0 <= n <= |fs| ==> ExactlyResident(c, PipelineRun(c, fs[..n]))
  {
    NothingFailsExactly(c, fs);
    ResidencyFailsWithBuilds(c, fs);
  }
}
