# Yash App Events: a verified model of the event engine and its surroundings

Yash App Events watches a game's frames, turns noisy detector readings into debounced
events, recognises which scene and overlays are on screen, and delivers the results through
output routes. This project models the parts of it whose correctness is an argument over
whole runs, and proves the arguments in Dafny. `dafny verify dfyconfig.toml` checks all of it.

Every stateful part comes twice: as the loop, class or array algorithm that mirrors the
program, and as a specification (a function of the history, a pairwise definition, an
interleaving of atomic steps). The methods' contracts tie the first to the second; the
lemmas are about the second.

## What is modelled

- **Temporal rules** (`Automaton`, `TemporalSafety`, `Observations`, `TemporalRules`,
  `Hysteresis`, `BandReliability`, `CompositeRules`, `RuleStreams`, `RapidIncrease`,
  `GatedReadings`). A rule keeps a bounded window of votes, a
  stability candidate, a cooldown and a refresh timer. It is shown to remember exactly what
  the complete history of accepted samples demands. From the history follow when a state
  changes, when Entered, Left and Updated occur, and how much evidence lies between changes.
- **Rule index** (`OrderedOffers`, `RuleCoordination`, `RuleMeaning`). Offering an observation
  only to the rules that depend on its element equals offering it to all of them; and which
  vote an observation casts for the rule that a profile asks for.
- **Analysis gate and detector residency** (`AnalysisGate`, `PipelineResidency`,
  `FrameMeaning`, `BuildableRuns`). The rate
  gate is optimal; the frame gate never lets a frame through that a built detector would
  throttle; lazily built detectors match the active set.
- **Scenes and overlays** (`Recognition`, `StableSorting`, `SceneResolution`, `SceneChoice`,
  `SceneVotes`, `SceneHints`,
  `TargetOwners`, `OwnersInRuns`).
  Evidence per layer, ranking, ambiguity, overlay suppression, and what a caller's hints can
  and cannot change.
- **Replay scoring** (`ReplayMatching`, `ReplayMetrics`). The greedy pairing of annotations and
  transitions, and what the reported metrics say of it.
- **Suite operations** (`SuiteOperations`, `SuiteDesks`). One permit, one table and freely
  interleaving critical sections.
- **Output** (`Texts`, `Substitution`, `Expansion`, `TemplateRendering`, `TemplateMeaning`,
  `RouteDelivery`, `RouteOrder`, `RouteWorkers`).
  Template rewriting and its termination, and the route worker's deduplication.
- **Profile archives** (`PortableNames`, `ProfileArchive`, `ProfileTransfer`,
  `ProfileRoundTrip`, `ProfileContents`, `ProfileAdmission`, `ProfileOverwrites`,
  `ProfileLibrary`). Export, import, extraction, and when the two are
  inverse.
- **Pixels** (`Frames`, `Thumbnails`, `Scaling`, `Blitting`) and **bundle members**
  (`BundleSelection`).

Times are whole milliseconds or nanoseconds with saturating subtraction; readings and
confidences are reals; identifiers are numbers. Text predicates and parsing, hashing, JSON
documents, rendering and sink outcomes are parameters wherever a module needs them.

## What turned out to be conditional

Each of these is stated together with its exact condition or a concrete counterexample.

- A numeric rule keeps its state for as long as the signal stays between the two thresholds,
  on every run, if and only if its vote is a strict majority, or it is one vote of two and the
  rule has a stability time or no cooldown (`BandReliability.BandIsReliableExactly`). Any other
  rule has a run inside the band that changes state again.
- The first Entered or Left of a rule is a Left exactly if its first state is not the one that
  `emit_initial` names: an inactive first state is announced as Left when it is announced, an
  active one that is not announced can only be left
  (`TemporalSafety.FirstEventIsLeftExactly`, with an input for each case in
  `TemporalSafety.FirstEventCanBeLeft`).
- Over a stream of observations every caller gets the same answers at every step, whatever its
  hints, if and only if at no sample two eligible scenes tie on top and one of them tolerates a
  tie; which samples do depends on the observations alone
  (`SceneHints.HintsNeverMatterExactly`). A margin of zero tolerates a tie, a positive one never.
- A sample is ambiguous if and only if the first eligible candidate of its answer has a rival
  within its scene's margin (`SceneChoice.SampleIsDecided`). That is the same as some most
  confident candidate having one, under all hints, if and only if no two scenes tie on top of
  which one has a margin and the other has none (`SceneChoice.AmbiguityIsRivalryExactly`).
- A comment in `crates/engine/src/lib.rs` (lines 423 to 427) says that one click target is not
  exposed with two owners. The code suppresses only lower priorities. No run of a new resolver
  answers with a target that has two shown owners exactly if no two different overlays of equal
  priority share one (`OwnersInRuns.RunsHaveSingleOwnersExactly`), and none answers with a
  target of an eligible overlay that has no shown owner exactly if an overlay that shares a
  target with one of lower priority owns all of that one's targets
  (`OwnersInRuns.RunsKeepOwnersExactly`); both are conditions on the profile's targets and
  priorities, and where one fails the first sample can already show it.
- Exactly the anchors and the active detectors are built after every frame if and only if every
  contextual detector that cannot be built at an admitted frame, and is active at it, was
  already active at the last admitted frame (`BuildableRuns.ResidencyIsExact`). A frame fails at
  the first active slot that cannot be built, and leaves built and unknown to the release list
  the slots that it built before that one and that were not on the old list
  (`PipelineResidency.FailsExactlyAt`, `PipelineResidency.FailedFrameLeaksExactly`).
- The deque of the rapid-increase rule can keep stale readings when they come out of order
  (`RapidIncrease.OutOfOrderKeepsStaleReadings`). Behind the analysis gate they never do,
  whatever the order of the frames (`GatedReadings.GatedWindowIsExact`).
- A cancel flag does not stop progress at once: a worker that read it as clear still records
  one more, and never more than one (`SuiteOperations.AtMostOneLateProgress`,
  `SuiteOperations.LateProgressIsRecorded`).
- If a suite worker panics, its operation stays "running" and every later start is refused
  (`SuiteOperations.PanicBlocksEveryStart`); without panics that refusal is never reached.
- Rewriting substituted text again need not end. Over documents whose texts close their own
  placeholders and do not end in "{", it ends if and only if evaluating the references from the
  left comes to a verdict, and it ends with a text if and only if the string closes its
  placeholders, every reference it reaches is defined, and none leads back to itself
  (`TemplateRendering.RenderingEndsExactly`). A reference that leads back to itself is rewritten
  for ever, unless an undefined one stands in front of it.
- Text that ends in "{" is harmless unless the template goes on with "{" there: such a seam,
  and no other, changes what is found next, and a placeholder at the seam is looked up with the
  brace in its path (`TemplateRendering.ScanBehindExactly`,
  `TemplateRendering.SeamLooksUpShifted`).
- Two declared archive names such as "a/b" and "a//b" denote one path. The import succeeds, and
  all declared files are there afterwards if and only if the records of one path agree
  (`ProfileOverwrites.ImportHoldsExactly`); otherwise the later entry has overwritten the earlier
  one (`ProfileOverwrites.LaterNameOverwrites`). A name such as "a/." is accepted but cannot be
  written, so its import fails (`ProfileArchive.EntryExactly`).
- A file called `manifest.json`, a path with a backslash, or a declared asset that export
  leaves behind makes an exported profile impossible to reproduce by importing it
  (`ProfileRoundTrip.RoundTripExactly`).
- History and draft stay out of an archive by the names of their files, but entries are named
  with every backslash turned into a slash: no entry denotes a path there if and only if no
  file that travels has one of those names in front of a backslash
  (`ProfileContents.PrivateStaysExactly`).
- A job that `publish` declines would attempt nothing, but handling it could have made the
  worker forget a removed route: two streams of the same events deliver differently when only
  the order of a removal and a publishing changes (`RouteDelivery.DecliningChangesDeliveries`).
- The saturating placement check of `blit_scaled` is the true one exactly if no canvas side is
  the largest 32-bit number, and scaling is nearest-neighbour exactly if the last position's is
  (`Blitting.PlaceableExactly`, `Blitting.ScalesNearestExactly`).
- A conjunction of full confidence is a strict match exactly if its conditions without weight
  match as well (`Recognition.FullConfidenceIsMatch`).

## Model

| member | source | states |
|---|---|---|
| Automaton.StepRefines | crates/engine/src/lib.rs:806-874 | one step on bounded fields emits what the complete history of samples demands and keeps the fields' meaning in terms of that history |
| Automaton.RunRefines | crates/engine/src/lib.rs:806-874 | over every run the emissions and the remembered fields are those of the history |
| TemporalSafety.BoundariesAlternate | crates/engine/src/lib.rs:806-874 | Entered and Left strictly alternate and consecutive ones are at least the cooldown apart |
| TemporalSafety.BoundaryRate | crates/engine/src/lib.rs:833-848 | n Entered and Left events take at least n - 1 cooldowns |
| TemporalSafety.StateSinceBoundary | crates/engine/src/lib.rs:849-873 | the state stays what the last Entered or Left announced until the next one |
| TemporalSafety.SwitchesExactlyWhen | crates/engine/src/lib.rs:806-874 | the state changes at a sample exactly when a stretch of samples ending there proposes it for the stability time and every earlier boundary is a cooldown old |
| TemporalSafety.SwitchHasVotes | crates/engine/src/lib.rs:813-831 | a change is backed by the required number of votes among the newest samples |
| TemporalSafety.ProposesExactlyWhen | crates/engine/src/lib.rs:813-831 | a sample proposes a side exactly when that side is not held and has the required votes among the newest samples, the positive one first |
| TemporalSafety.UpdatedExactlyWhen | crates/engine/src/lib.rs:822-860 | Updated occurs exactly while active, undecided to leave, with refreshes on and every earlier activation or Updated an interval old |
| TemporalSafety.SingleVote | crates/engine/src/lib.rs:813-831 | with a window of one the newest bit decides alone |
| TemporalSafety.FirstEventIsLeftExactly | crates/engine/src/lib.rs:829-857 | in every history with a first state change and a first boundary, the boundary is Left if and only if the first state is not the one that emit_initial names |
| TemporalSafety.FirstEventCanBeLeft | crates/engine/src/lib.rs:849-857 | for either setting of emit_initial, a run whose first event is Left |
| TemporalSafety.EmissionsAlternate | crates/engine/src/lib.rs:806-874 | over what any run of samples emits, Entered and Left alternate, at least the cooldown apart |
| RuleStreams.StreamAlternates | crates/engine/src/lib.rs:806-874 | the same for what any object returns over any stream of observations, if each observation feeds the automaton at most one sample |
| RuleStreams.TransitionsAlternate | crates/engine/src/lib.rs:660-1110 | `NumericRule`, `TemporalRule` and `CompositeRule` are such objects: their transitions alternate and keep the cooldown on every stream, whatever they ignore |
| TemporalRules.PushBounded | crates/engine/src/lib.rs:458-463 | the window holds exactly the newest votes |
| TemporalRules.TemporalRule.New | crates/engine/src/lib.rs:728-752 | a rule is built exactly for valid vote counts and confidence, and starts fresh |
| TemporalRules.TemporalRule.Observe | crates/engine/src/lib.rs:754-786 | which observations count, and the whole new state |
| TemporalRules.TemporalRule.ObserveBoolean | crates/engine/src/lib.rs:788-804 | the same for a verdict computed elsewhere |
| TemporalRules.TemporalRule.ObserveMatch | crates/engine/src/lib.rs:806-874 | the field-updating body is one automaton step |
| TemporalRules.NumericRule.New | crates/engine/src/lib.rs:975-1018 | a numeric rule is built exactly for finite ordered thresholds and valid vote counts |
| TemporalRules.NumericRule.Observe | crates/engine/src/lib.rs:1020-1110 | the numeric rule's own body makes the same automaton step, given the hysteresis test as its match bit |
| Hysteresis.ObservedRunRefines | crates/engine/src/lib.rs:1020-1110 | the rule object remembers the history of its accepted readings and nothing else |
| Hysteresis.NumericLogDescribes | crates/engine/src/lib.rs:1020-1091 | every vote of the history is the hysteresis test on the state at that reading |
| Hysteresis.ReadingsBetweenSwitches | crates/engine/src/lib.rs:1031-1091 | between two state changes at least 2 * required - window readings lay strictly beyond the threshold being crossed |
| Hysteresis.MajoritySettlesInBand | crates/engine/src/lib.rs:1031-1091 | with a strict majority a signal that stays in the band after a change never changes the state again |
| BandReliability.OneOfTwoSettlesInBand | crates/engine/src/lib.rs:1031-1091 | neither does one vote of two with a stability time or without a cooldown |
| BandReliability.StaleMinorityFlips | crates/engine/src/lib.rs:1040-1091 | for every other vote in a window longer than two, without a stability time, a run inside the band that flips, whatever the cooldown |
| BandReliability.WaitingMinorityFlips | crates/engine/src/lib.rs:1040-1091 | the same with any stability time and any cooldown |
| BandReliability.DelayedSwitchFlips | crates/engine/src/lib.rs:1040-1091 | for one vote of two with a cooldown and no stability time, a run inside the band that flips after a delayed change |
| BandReliability.BandIsReliableExactly | crates/engine/src/lib.rs:1031-1091 | for every valid rule: it keeps its state inside the band on every run if and only if its vote is a majority, or one of two with a stability time or without a cooldown |
| BandReliability.BandReliableExactlyForMajorities | crates/engine/src/lib.rs:1031-1091 | the votes that are reliable whatever the waiting times are the strict majorities |
| CompositeRules.CompositeRule.New | crates/engine/src/lib.rs:618-658 | a composite is built exactly for a non-empty conjunction or disjunction with valid timing |
| CompositeRules.CompositeRule.Observe | crates/engine/src/lib.rs:660-688 | what one observation does to the latest values and the inner rule |
| CompositeRules.CompositeRefinesHistory | crates/engine/src/lib.rs:660-688 | after any stream the latest values are exactly the last valid observations of watched elements, and the inner automaton has run over the verdicts of the full history where every leaf is known |
| RapidIncrease.RapidIncreaseRule.Observe | crates/daemon/src/lib.rs:6228-6274 | the deque-updating body, against its step function |
| RapidIncrease.ObservedRunIsPointRun | crates/daemon/src/lib.rs:6229-6243 | only accepted readings matter |
| RapidIncrease.RiseIsOverWindow | crates/daemon/src/lib.rs:6244-6260 | the rise over the window minimum is the rise over some reading in the window |
| RapidIncrease.WindowRefinesHistory | crates/daemon/src/lib.rs:6228-6274 | in time order the deque is the accepted history of the last window, and it emits exactly at rises with every earlier emission a cooldown old |
| RapidIncrease.OutOfOrderKeepsStaleReadings | crates/daemon/src/lib.rs:6244-6251 | out of order a stale reading stays behind a fresh one |
| GatedReadings.GatedAreInOrder | crates/engine/src/lib.rs:1340-1348 | observations of admitted frames are in time order, whatever the order of the frames |
| GatedReadings.GatedWindowIsExact | crates/daemon/src/lib.rs:6228-6274 | behind the gate the deque always is the accepted history of the last window, and emissions are exactly the cooled rises over it |
| OrderedOffers.PassIsScan | crates/daemon/src/lib.rs:6582-6597 | passing an item to the related positions in order is the full scan if the others ignore it |
| RuleCoordination.BuildCoordinatedRule | crates/daemon/src/lib.rs:6454-6567 | the rule that is built, its errors, the element it is bound to unless it is a composite, and its dependencies: each watched element once |
| RuleMeaning.BuildsExactly | crates/daemon/src/lib.rs:6454-6567 | for which settings a rule of each kind is built |
| RuleMeaning.BuiltNumericVotes | crates/daemon/src/lib.rs:6494-6512 | a numeric rule votes by the profile's lower threshold while inactive and by its upper one while active, and announces itself by its name |
| RuleMeaning.BuiltTypedVotes | crates/daemon/src/lib.rs:6513-6542 | a typed rule votes whether a valid value of its kind satisfies its predicate |
| RuleMeaning.BuiltCompositeVotes | crates/daemon/src/lib.rs:6543-6561 | an "all" rule votes whether all of its conditions hold of the latest values, an "any" rule whether one does, with the weakest confidence |
| RuleMeaning.BuiltRapidRule | crates/daemon/src/lib.rs:6478-6493 | a rapid-increase rule has the profile's delta, window, cooldown and confidence |
| RuleMeaning.AtomicMatchesExactly | crates/engine/src/lib.rs:696-720 | which values a predicate answers for, and which it accepts |
| RuleMeaning.TypedMatchesExactly | crates/engine/src/lib.rs:762-777 | the same for single-element predicates |
| RuleMeaning.LeafReadsExactly | crates/engine/src/lib.rs:532-553 | the same for recognition conditions, which can test the confidence alone |
| RuleCoordination.BuildRuleIndices | crates/daemon/src/lib.rs:6569-6580 | the index lists under each element exactly the rules that depend on it, in order, once |
| RuleCoordination.UnrelatedElementIsNoOp | crates/daemon/src/lib.rs:6276-6286 | a rule ignores observations of elements it does not depend on |
| RuleCoordination.IndexRefinesScan | crates/daemon/src/lib.rs:6569-6597 | through the index one observation yields the transitions and rule states of the full scan, and the index stays right |
| RuleCoordination.ObserveIndexedRules | crates/daemon/src/lib.rs:6582-6597 | the loop over the index, in place on the rules, equals the full scan |
| RuleCoordination.ObserveAll | crates/daemon/src/lib.rs:6569-6597 | a whole stream through one index equals the stream of full scans |
| RuleCoordination.DuplicateDependencyCountsTwice | crates/daemon/src/lib.rs:6457-6464 | without de-duplicated dependencies one reading would vote twice |
| AnalysisGate.AnalysisScheduler.New | crates/engine/src/lib.rs:34-43 | a gate exists exactly for 1 to 10 frames per second |
| AnalysisGate.IntervalIsNearest | crates/engine/src/lib.rs:39 | the interval is one second over the rate, to the nearest nanosecond |
| AnalysisGate.AnalysisScheduler.ShouldAnalyze | crates/engine/src/lib.rs:45-55 | what is admitted and what is remembered |
| AnalysisGate.GateIsOptimal | crates/engine/src/lib.rs:45-55 | on nondecreasing times the admitted frames are spaced, and no spaced choice is larger |
| AnalysisGate.GreedyStaysAhead | crates/engine/src/lib.rs:45-55 | no spaced choice is longer, and none as long ends earlier |
| AnalysisGate.GateCanLoseOutOfOrder | crates/engine/src/lib.rs:45-55 | with time running backwards one late frame shuts out two |
| AnalysisGate.SecondGateRejectsNothing | crates/engine/src/lib.rs:1340-1343 | a second gate rejects nothing of any subsequence of admitted frames |
| PipelineResidency.LivePipeline.ProcessSceneAware | crates/daemon/src/lib.rs:6094-6146 | the whole new state of a frame, and its outcome |
| PipelineResidency.LivePipeline.ProcessListed | crates/daemon/src/lib.rs:1829-1848 | listed slots are built, gated or fail in order, up to the first error |
| PipelineResidency.LivePipeline.ReleaseInactive | crates/daemon/src/lib.rs:6177-6183 | only listed contextual detectors outside the active set are released |
| PipelineResidency.InnerGatesOpen | crates/daemon/src/lib.rs:6083-6104 | a frame admitted by the pipeline is admitted by every built detector |
| PipelineResidency.RunIsSound | crates/daemon/src/lib.rs:6088-6206 | the invariant of every run: gates, reported errors, anchors, release list |
| PipelineResidency.ResidencyFailsWithBuilds | crates/daemon/src/lib.rs:6102-6206 | after every frame of a run exactly the anchors and the active detectors are built, if and only if no contextual build failed in it |
| BuildableRuns.NextFails | crates/daemon/src/lib.rs:6088-6206 | after a run without failures the next frame fails if and only if the gate, computed from the times, admits it and a detector that cannot be built is newly active |
| BuildableRuns.ResidencyIsExact | crates/daemon/src/lib.rs:6088-6206 | residency is exact after every frame if and only if at every admitted frame each contextual detector that cannot be built and is active was active at the last admitted frame |
| PipelineResidency.FailsExactlyAt | crates/daemon/src/lib.rs:6185-6206 | a frame fails at a slot if and only if it is the first active contextual one whose build is attempted in vain |
| PipelineResidency.CountersAddUp | crates/daemon/src/lib.rs:6088-6146 | evaluated, gated and throttled add up to all detectors on every frame that does not fail |
| FrameMeaning.ActiveExactly | crates/daemon/src/lib.rs:6120-6132 | an element is active exactly if it is an anchor or belongs to the scene or to an overlay that is shown |
| FrameMeaning.ProcessedExactly | crates/daemon/src/lib.rs:6102-6206 | a frame that does not fail runs exactly the needed detectors without an error |
| FrameMeaning.CountersExactly | crates/daemon/src/lib.rs:6088-6146 | it counts those that ran, those that were not needed and the rest; a throttled frame counts all as throttled |
| PipelineResidency.EachSlotFailsAtMostOnce | crates/daemon/src/lib.rs:1829-1848 | over any run each slot raises its build error at most once, and anchors never do |
| PipelineResidency.FailureKeepsReleaseList | crates/daemon/src/lib.rs:6197-6204 | a failing frame leaves the release list as it was |
| PipelineResidency.ForgottenDetectorStays | crates/daemon/src/lib.rs:6177-6183 | a built detector missing from the release list stays while inactive |
| PipelineResidency.FailedFrameLeaksExactly | crates/daemon/src/lib.rs:6185-6206 | a frame that fails leaves built and unlisted exactly the slots that were so before, and the active ones before the failing slot that are not on the old release list |
| Recognition.RecognitionConfidence | crates/engine/src/lib.rs:467-494 | the accumulating loop with its early exits computes the confidence function |
| Recognition.ConfidenceIsShare | crates/engine/src/lib.rs:467-494 | the confidence is the matched share of the weight, one exactly if there is weight and every condition that carries some is certain, zero exactly if none of those has support, and absent exactly for a conjunction with an unknown condition |
| Recognition.FullConfidenceIsMatch | crates/engine/src/lib.rs:496-530 | a conjunction of full confidence is a strict match if and only if its conditions without weight match |
| Recognition.RecognitionMatches | crates/engine/src/lib.rs:504-530 | the loop is three-valued conjunction or disjunction: it answers exactly what its known leaves settle |
| Recognition.SettledWhen | crates/engine/src/lib.rs:504-530 | the absorbing value needs one leaf, the neutral value all of them |
| SceneResolution.ScoreAll | crates/engine/src/lib.rs:287-310 | candidates and vote histories of all enabled layers |
| SceneResolution.SceneResolver.HighestPriorities | crates/engine/src/lib.rs:402-420 | the map holds, per target name, the highest priority of an eligible overlay |
| SceneResolution.SceneResolver.Survivors | crates/engine/src/lib.rs:421-446 | the overlays kept are those that survive the pairwise definition, in order |
| SceneResolution.SceneResolver.SettleScene | crates/engine/src/lib.rs:338-364 | when the active scene moves, stays or is ambiguous |
| SceneResolution.SceneResolver.ResolveWithHints | crates/engine/src/lib.rs:259-455 | the whole answer and the whole new memory of one sample |
| SceneChoice.SampleIsDecided | crates/engine/src/lib.rs:338-364 | when a sample is ambiguous, which scene is active after it, and which one it answers with: an ambiguous one keeps the active scene |
| SceneChoice.AmbiguityIsRivalryExactly | crates/engine/src/lib.rs:338-352 | under all hints a sample is ambiguous exactly if some most confident candidate has a rival within its margin, if and only if no tie on top mixes margins of zero and above |
| SceneChoice.SampleIsRanked | crates/engine/src/lib.rs:312-400 | how scene and overlay candidates are ordered in the answer |
| SceneVotes.RunCountsVotes | crates/engine/src/lib.rs:287-390 | at every sample of a run there is one candidate for each enabled layer, with its confidence, eligible exactly if the required number of the newest samples recognised it |
| SceneResolution.MapTestIsPairwise | crates/engine/src/lib.rs:402-440 | the priority map test is the pairwise definition: no eligible overlay of higher priority shares a target |
| SceneResolution.ShownOwnersAreEqual | crates/engine/src/lib.rs:421-440 | two shown overlays that share a target have equal priority |
| SceneResolution.SomethingIsShown | crates/engine/src/lib.rs:421-446 | an overlay is shown whenever one is eligible |
| TargetOwners.SampleHasCandidates | crates/engine/src/lib.rs:366-390 | with distinct identifiers a sample has at most one candidate for each enabled overlay, and no other |
| TargetOwners.TargetsKeepOwnersExactly | crates/engine/src/lib.rs:402-440 | on every such set of candidates each target of an eligible overlay keeps a shown owner, if and only if every overlay that shares a target with one of lower priority owns all of its targets |
| TargetOwners.SingleOwnersExactly | crates/engine/src/lib.rs:402-440 | on every such set of candidates no target has two shown owners, if and only if no two different overlays of equal priority share a target |
| OwnersInRuns.RunsKeepOwnersExactly | crates/engine/src/lib.rs:259-455 | no run over overlays with these targets and priorities answers with a target that lost its owners, if and only if every overlay that shares a target with one of lower priority owns all of that one's targets |
| OwnersInRuns.RunsHaveSingleOwnersExactly | crates/engine/src/lib.rs:259-455 | no such run answers with two owners of one target, if and only if no two different overlays of equal priority share a target |
| OwnersInRuns.FirstSampleLosesTarget | crates/engine/src/lib.rs:259-455 | where the first condition fails, a resolver whose first sample loses the target |
| OwnersInRuns.FirstSampleShowsTwo | crates/engine/src/lib.rs:259-455 | where the second fails, one whose first sample shows two owners |
| OwnersInRuns.TargetCanLoseEveryOwner | crates/engine/src/lib.rs:402-440 | a suppressed overlay still suppresses: of three recognised overlays in a chain only the top one is shown, and a target of the others has no shown owner |
| SceneHints.SceneLessIsOrder | crates/engine/src/lib.rs:312-337 | the ranking is a total preorder, as sorting needs |
| SceneHints.ChoiceIgnoresHints | crates/engine/src/lib.rs:312-364 | without a tolerated tie on top, any two hints give the same choice |
| SceneHints.HintsMatterExactlyOnToleratedTies | crates/engine/src/lib.rs:312-364 | hints change the choice on some input if and only if such a tie exists |
| SceneHints.OneSampleIgnoresHints | crates/engine/src/lib.rs:259-455 | on a sample without a tolerated tie any two hints leave the same memory and the same answer up to list order |
| SceneHints.HintsNeverMatterExactly | crates/engine/src/lib.rs:259-455 | over a stream of observations all hint streams give the same memories and answers at every step, if and only if no sample has a tolerated tie among candidates that the observations alone determine |
| SceneHints.HintsAreASoftPrior | crates/engine/src/lib.rs:259-455 | with positive margins that is so on every stream |
| ReplayMatching.EvaluateReplay | crates/engine/src/lib.rs:1202-1245 | the metrics are those of the greedy pairing |
| ReplayMetrics.MetricsDescribePairing | crates/engine/src/lib.rs:1202-1254 | precision and recall are the paired shares of transitions and annotations, the mean is that of the pairs' distances, and the verdict is what arbitrary thresholds demand of them |
| ReplayMetrics.PairsLieInWindow | crates/engine/src/lib.rs:1207-1219 | a matching is one to one, and each pair has one event and state and lies within the tolerance, ends included |
| ReplayMatching.GreedyIsMatching | crates/engine/src/lib.rs:1207-1226 | the pairing is one to one, of one kind and within tolerance |
| ReplayMatching.GreedyIsMaximal | crates/engine/src/lib.rs:1207-1226 | no compatible pair is left with both sides free |
| ReplayMatching.GreedyIsAtLeastHalf | crates/engine/src/lib.rs:1207-1226 | no matching is more than twice as large |
| ReplayMatching.GreedyIsMaximum | crates/engine/src/lib.rs:1207-1226 | with overlapping annotations closing in order and transitions in time order no matching is larger |
| ReplayMatching.HalfIsTight | crates/engine/src/lib.rs:1207-1226 | out of order, a case where the pairing is half the best |
| ReplayMatching.PassedExactlyWhenAllPaired | crates/engine/src/lib.rs:1227-1254 | the counts add up, and the default thresholds pass exactly when everything is paired |
| SuiteOperations.EveryRunIsSound | crates/daemon/src/lib.rs:2273-2498 | in every interleaving at most one operation runs, at most four are retained, a running one is in the table, and the permit is with exactly the operation whose worker is alive |
| SuiteOperations.RunningHoldsPermit | crates/daemon/src/lib.rs:2277-2285 | a running operation holds the image permit if and only if its worker has not panicked |
| SuiteOperations.RefusalExactlyAfterPanic | crates/daemon/src/lib.rs:2306-2318 | a start that has the permit is refused as already running if and only if some worker panicked |
| SuiteOperations.ContinuationIsLater | crates/daemon/src/lib.rs:2372-2396 | terminal states are absorbing, a cancel flag stays, and an operation leaves the table only after its terminal status was read with its result |
| SuiteOperations.AtMostOneLateProgress | crates/daemon/src/lib.rs:2411-2425 | once the flag is set at most one more progress is recorded, and none unless the worker had already read the flag as clear |
| SuiteOperations.LateProgressIsRecorded | crates/daemon/src/lib.rs:2411-2425 | a run in which the flag is set between its check and the write that follows |
| SuiteOperations.FoundStaysReadable | crates/daemon/src/lib.rs:2438-2476 | who has looked an operation up reads its state ever after, also when it has left the table and a new lookup fails |
| SuiteOperations.PanicBlocksEveryStart | crates/daemon/src/lib.rs:2306-2318 | after a panic no operation ever starts again |
| SuiteOperations.AskedExactlyWhen | crates/daemon/src/lib.rs:2480-2498 | who sets a cancel flag has seen the operation running |
| SuiteOperations.CancelledHasCause | crates/daemon/src/lib.rs:2401-2416 | a cancelled operation was seen running by a cancel call or by its watchdog, then flagged, then met the flag at a progress point, in this order |
| SuiteOperations.OutcomeHasCause | crates/daemon/src/lib.rs:2355-2397 | an operation is completed exactly if a worker that had not met the flag ended with a success, failed exactly if with an error, cancelled exactly if it had met the flag |
| SuiteOperations.OutcomeIsShown | crates/daemon/src/lib.rs:2438-2476 | and that is what every later status call shows |
| SuiteOperations.StartsExactly | crates/daemon/src/lib.rs:2301-2326 | a start with the permit succeeds exactly if no worker has panicked and fewer than four operations are retained |
| SuiteOperations.PermitIsExclusive | crates/daemon/src/lib.rs:2277-2285 | the permit is given out exactly when nobody holds it, and an operation gives it back only with its worker's end |
| SuiteDesks.SuiteDesk.Insert | crates/daemon/src/lib.rs:2301-2326 | the section under the table lock is one step, including both refusals |
| SuiteDesks.SuiteDesk.CheckFlag | crates/daemon/src/lib.rs:2411-2416 | the unlocked flag check of a progress point is one step |
| SuiteDesks.SuiteDesk.RecordProgress | crates/daemon/src/lib.rs:2417-2425 | the locked write after it is another |
| SuiteDesks.SuiteDesk.Settle | crates/daemon/src/lib.rs:2355-2397 | publishing the outcome is one step |
| SuiteDesks.SuiteDesk.Watch | crates/daemon/src/lib.rs:2329-2354 | a watchdog wake-up is one step |
| SuiteDesks.SuiteDesk.Lookup | crates/daemon/src/lib.rs:2443-2449 | the lookup in the table is one step |
| SuiteDesks.SuiteDesk.ReadForCancel | crates/daemon/src/lib.rs:2488-2492 | reading the state before a cancel is another |
| SuiteDesks.SuiteDesk.ReadStatus | crates/daemon/src/lib.rs:2450-2454 | so is reading the state for a status |
| Substitution.RunLoop | crates/output/src/routing.rs:462-475 | the rewriting loop, given that it stops, delivers the outcome of its turns |
| Substitution.DoneIsQuiet | crates/output/src/routing.rs:463-475 | the loop ends only with text that has no placeholder left |
| Substitution.LoopIsOnePass | crates/output/src/routing.rs:462-475 | if no substituted text contains "{{", nor ends in "{" where the template goes on with "{", the loop stops after one turn per placeholder and one more, with the text or the failure of the single left-to-right pass |
| Substitution.LoopIsOnePassExactlyWhenQuiet | crates/output/src/routing.rs:462-475 | for texts that make no such seam the loop delivers the single pass's text if and only if no substituted text contains "{{" |
| Substitution.SelfReferenceNeverHalts | crates/output/src/routing.rs:462-475 | a template whose first placeholder has a text that begins with it again is rewritten for ever |
| Expansion.HaltsExactly | crates/output/src/routing.rs:462-475 | over texts that close their placeholders and do not end in "{", the loop stops if and only if evaluating the references from the left comes to a verdict at some depth |
| Expansion.SucceedsExactly | crates/output/src/routing.rs:462-475 | it stops with a text if and only if the template closes its placeholders and at some depth every reference it reaches is defined |
| Expansion.CycleIsInfinite | crates/output/src/routing.rs:462-475 | no depth suffices for references each of which leads back among them |
| TemplateRendering.RulesAreLeftmost | crates/output/src/routing.rs:463-469 | the search for "{{" and "}}" is one to which the rewriting results apply |
| TemplateRendering.RenderTemplate | crates/output/src/routing.rs:454-476 | a whole placeholder gives the typed value, any other string the loop's text |
| TemplateRendering.StringIsSubstituted | crates/output/src/routing.rs:454-476 | rendering a string with harmless texts stops and is the single-pass substitution |
| TemplateRendering.WholePathExactlyUnlessBrace | crates/output/src/routing.rs:455-461 | both branches read the same path if and only if it does not end in "}" |
| TemplateRendering.ValueIsSubstituted | crates/output/src/routing.rs:439-452 | rendering a JSON template is the single-pass substitution of its strings, or the first failure |
| TemplateRendering.SelfReferenceIsNeverRendered | crates/output/src/routing.rs:462-475 | a self-referring value makes the string render for no number of turns |
| TemplateRendering.RenderingEndsExactly | crates/output/src/routing.rs:454-476 | both conditions at the concrete search and the document's own texts |
| TemplateRendering.ScanBehindExactly | crates/output/src/routing.rs:463-469 | quiet text in front leaves what is found next unchanged if and only if the two make no seam |
| TemplateRendering.SeamLooksUpShifted | crates/output/src/routing.rs:462-475 | for every template with a placeholder at a seam the second turn looks up its path with the brace in front, and fails if there is none |
| TemplateRendering.TrailingBraceShiftsPlaceholder | crates/output/src/routing.rs:462-475 | an instance that fails where one pass succeeds |
| TemplateRendering.SeamCanAgree | crates/output/src/routing.rs:462-475 | an instance with a seam in which the loop agrees with one pass, because the shifted path is defined |
| TemplateRendering.LookupComposes | crates/output/src/routing.rs:487-496 | a dotted path is looked up in two stages |
| TemplateMeaning.LookupOfKey | crates/output/src/routing.rs:487-496 | a path without a dot names the first member with that key |
| TemplateMeaning.WholePlaceholderIsTyped | crates/output/src/routing.rs:454-461 | a string that is one placeholder gives the value itself |
| TemplateMeaning.PiecesAreRendered | crates/output/src/routing.rs:454-476 | literals with placeholders between them render to the literals with the texts of the values between them |
| TemplateMeaning.FirstMissingFails | crates/output/src/routing.rs:462-476 | the single pass fails with the first path that names nothing |
| TemplateMeaning.ValueKeepsShape | crates/output/src/routing.rs:439-452 | lists are rendered item by item, objects member by member under their keys, the first failure wins, other values stay |
| PortableNames.NameDenotesPath | crates/profile/src/archive.rs:384-400 | a listed path without a backslash gets a name that denotes it again, is accepted and can be written |
| PortableNames.AcceptedPathStaysInside | crates/profile/src/archive.rs:384-390 | an accepted name denotes a non-empty path of ordinary file names |
| PortableNames.AcceptedPathHasNoBackslash | crates/profile/src/archive.rs:384-390 | no accepted name denotes a path with a backslash |
| PortableNames.DoubledSlashNamesOnePath | crates/profile/src/archive.rs:384-390 | two writable names for one path |
| ProfileArchive.EntryExactly | crates/profile/src/archive.rs:248-290 | when one entry goes through and what it leaves behind |
| ProfileArchive.ExtractAllExactly | crates/profile/src/archive.rs:248-290 | the loop succeeds exactly for writable, declared, true and compatible entries within the limits |
| ProfileArchive.ExtractExactly | crates/profile/src/archive.rs:242-295 | extraction succeeds exactly if besides every declared file has its entry |
| ProfileArchive.ExtractionHoldsExactly | crates/profile/src/archive.rs:242-295 | after a success there is a file for exactly the declared paths within the limits, and all declared sizes and digests hold if and only if records of one path agree |
| ProfileOverwrites.ImportHoldsExactly | crates/profile/src/archive.rs:158-295 | after a successful import all declared sizes and digests hold if and only if records of one path agree |
| ProfileOverwrites.LaterNameOverwrites | crates/profile/src/archive.rs:158-295 | a complete archive with several names for one path is imported, and the profile has the last of its files |
| ProfileTransfer.CollectPortableFiles | crates/profile/src/archive.rs:297-335 | the walk pushes the portable files in order or stops at a link |
| ProfileRoundTrip.CollectExactly | crates/profile/src/archive.rs:297-335 | exactly the regular files outside history, draft and unreferenced templates are collected |
| ProfileContents.LinkStopsExactly | crates/profile/src/archive.rs:309-324 | the walk stops exactly at a link that is neither the draft nor in the history |
| ProfileContents.ExportSucceedsExactly | crates/profile/src/archive.rs:87-127 | what an export asks of a profile directory |
| ProfileContents.ExportHoldsExactly | crates/profile/src/archive.rs:94-150 | the archive has the manifest and an entry and record for each regular file, but for history, draft and templates that are no asset |
| ProfileContents.PrivateStaysExactly | crates/profile/src/archive.rs:309-318 | no entry denotes the draft or a path in the history, if and only if no file that travels has one of these names in front of a backslash |
| ProfileRoundTrip.RecipesTravel | crates/profile/src/archive.rs:94-101 | every output recipe is collected |
| ProfileRoundTrip.ManifestIsRead | crates/profile/src/archive.rs:164-194 | import reads an exported manifest back only within limits and if no file has its name |
| ProfileRoundTrip.RoundTripExactly | crates/profile/src/archive.rs:87-234 | importing an export publishes exactly the collected files if and only if it fits the limits, the profile is new, no path is manifest.json or has a backslash, and declared assets are collected |
| ProfileLibrary.ExportArchive | crates/profile/src/archive.rs:87-150 | the archive an export writes, or its error |
| ProfileLibrary.ProfilesRoot.FindManifest | crates/profile/src/archive.rs:164-208 | the checks before the destination, in order |
| ProfileLibrary.ProfilesRoot.ExtractArchive | crates/profile/src/archive.rs:236-295 | the writing loop against the extraction function |
| ProfileLibrary.ProfilesRoot.Import | crates/profile/src/archive.rs:158-234 | an error publishes nothing, a success adds exactly the staged files under a new id, and staging is empty afterwards |
| ProfileAdmission.ImportSucceedsExactly | crates/profile/src/archive.rs:158-234 | which archives an import admits, and the files it publishes |
| RouteDelivery.EveryRunIsFaithful | crates/daemon/src/routes.rs:42-151 | in every interleaving the remembered payloads are those of the past deliveries, no delivery repeats one, and the shown error is there exactly if the latest attempt failed |
| RouteOrder.JobsKeepOrder | crates/daemon/src/routes.rs:34-66 | over every run the jobs taken up so far, followed by the queue, are the accepted ones in the order of their acceptance, at most 64 waiting |
| RouteOrder.DeliveriesAreJustified | crates/daemon/src/routes.rs:70-147 | each attempt is for the job being handled, by an enabled route of its table that accepts it, and a state delivery carries what that job's state renders to |
| RouteOrder.RouteActsExactly | crates/daemon/src/routes.rs:74-147 | when a route acts on a job, and what it then records |
| RouteOrder.DeclinesExactly | crates/daemon/src/routes.rs:167-186 | a job is declined exactly if no job of its kind could do anything under the cached table |
| RouteDelivery.NoRepeatedDelivery | crates/daemon/src/routes.rs:96-130 | two successive deliveries of a configured state route never carry equal payloads |
| RouteDelivery.FailureIsRetried | crates/daemon/src/routes.rs:122-147 | a failed delivery leaves the remembered payload and is attempted again |
| RouteDelivery.DeclinedJobOnlyForgets | crates/daemon/src/routes.rs:161-195 | a declined job would have attempted nothing under that table, and would have changed the memory if and only if a removed route is remembered |
| RouteDelivery.DecliningHidesRemoval | crates/daemon/src/routes.rs:161-195 | handling or not handling a declined job decides whether a route that comes back delivers again |
| RouteDelivery.QuiescentIsReached | crates/daemon/src/routes.rs:42-195 | a router that has just started comes to that idle state with its first delivery |
| RouteDelivery.DecliningChangesDeliveries | crates/daemon/src/routes.rs:42-195 | two continuations of any run, of the same events but for the order of a removal and a publishing: one delivers again, the other stays silent |
| RouteWorkers.RouteWorker.ConsiderJob | crates/daemon/src/routes.rs:167-186 | the check under the cache lock is one step |
| RouteWorkers.RouteWorker.SendJob | crates/daemon/src/routes.rs:186-195 | the bounded send, or its refusal, is another |
| RouteWorkers.RouteWorker.WorkOnce | crates/daemon/src/routes.rs:42-151 | one turn of the worker loop is one step |
| RouteWorkers.RouteWorker.Deliver | crates/daemon/src/routes.rs:74-147 | one route of the table for one job |
| Frames.PixelInBounds | crates/capture/src/lib.rs:55-98 | every pixel of a valid frame lies in its buffer |
| Thumbnails.CellIsNotEmpty | crates/daemon/src/collection.rs:150-156 | every cell has pixels, inside the frame |
| Thumbnails.EveryPixelHasCell | crates/daemon/src/collection.rs:150-156 | every pixel belongs to a cell, however small the frame |
| Thumbnails.CellsPartitionExactly | crates/daemon/src/collection.rs:150-156 | cells are disjoint if and only if there are at least as many pixels as cells |
| Thumbnails.BrightnessBetweenChannels | crates/daemon/src/collection.rs:164 | brightness is the weighted mean rounded down, between the darkest and the lightest channel |
| Thumbnails.AverageWithin | crates/daemon/src/collection.rs:157-169 | a cell's average lies between its darkest and lightest pixel |
| Thumbnails.Thumbnail | crates/daemon/src/collection.rs:145-173 | every byte of the result is the average of its cell |
| Thumbnails.ThumbnailConservesBrightness | crates/daemon/src/collection.rs:145-173 | on frames of at least 32 by 18 the cells hold the brightness of the whole frame, each pixel once |
| Scaling.PreviewFits | crates/daemon/src/lib.rs:7155-7177 | a preview is not empty, within both limits, never larger, touches a limit and keeps the ratio to within a pixel |
| Scaling.PreviewIsNearest | crates/daemon/src/lib.rs:7192-7221 | every pixel of a preview is its nearest source pixel, and the preview is a valid frame |
| Scaling.FittingPreviewIsCopy | crates/daemon/src/lib.rs:7155-7208 | a frame that fits keeps every pixel |
| Scaling.DownscaleFrame | crates/daemon/src/lib.rs:7150-7221 | the copying loops build that preview |
| Scaling.ScaleIsLeast | crates/daemon/src/lib.rs:5535 | the scale is the least at which the image fits |
| Scaling.GrayPreviewIsSampled | crates/daemon/src/lib.rs:5531-5548 | a grey preview is valid, within the limit, and samples existing pixels |
| Scaling.FractionIsCovered | crates/engine/src/lib.rs:92-103 | one axis: exactly the fractions inside [0, 1] have pixels, the fewest that cover them |
| Scaling.RegionIsCovered | crates/engine/src/lib.rs:73-116 | both axes: the errors and the rectangle of a normalized region |
| Blitting.PlaceableExactly | crates/daemon/src/lib.rs:5025-5034 | the saturating check admits exactly the non-empty regions on the canvas, if and only if neither canvas side is the largest 32-bit number |
| Blitting.SourceIsInside | crates/daemon/src/lib.rs:5038-5039 | saturating or not, the source position exists; without saturation it is the nearest |
| Blitting.ScalesNearestExactly | crates/daemon/src/lib.rs:5038-5039 | every position of a region takes its nearest source position if and only if the last one does |
| Blitting.SourcePixelInside | crates/daemon/src/lib.rs:5040-5042 | the read index is inside the image |
| Blitting.BlitScaled | crates/daemon/src/lib.rs:5018-5055 | writes exactly the region's pixels in place, or nothing |
| Blitting.WrittenIsRegion | crates/daemon/src/lib.rs:5036-5053 | what is written is the region, no more and no less |
| Blitting.PlacedIsNearest | crates/daemon/src/lib.rs:5036-5053 | where scaling does not saturate, the canvas shows the nearest pixel of the image everywhere in the region and is unchanged elsewhere |
| BundleSelection.SelectMember | crates/daemon/src/lib.rs:4096-4125 | the best eligible member, else the first fallback, else nothing |
| BundleSelection.BestIsUnique | crates/daemon/src/lib.rs:4105-4113 | there is one best member |
| BundleSelection.OrderMattersOnlyForTies | crates/daemon/src/lib.rs:4105-4113 | listing members in another order selects one of the same priority and specificity |

## Left out

- Rounding, NaN, infinities and total_cmp corner cases: readings, confidences, weights and
  fractions are reals.
- RecognitionConfidence: requires weights that are not negative and, for a conjunction, a
  positive sum; the program's quotient is NaN otherwise, of a sign that the language leaves
  open and that decides where the candidate is ranked. Such a layer never votes for itself.
- ScoreAll: requires the same of every enabled layer.
- ResolveWithHints: requires the same of every enabled layer.
- ConfidenceIsShare: requires the same, and confidences in [0, 1].
- NumericRule.New: the finiteness test on the two thresholds has no counterpart over reals.
- WindowRefinesHistory: requires readings in time order and the positive delta that profile
  validation demands; GatedWindowIsExact shows that the pipeline's readings are in order, and
  OutOfOrderKeepsStaleReadings what happens otherwise.
- GreedyIsMaximum: requires that overlapping annotations close in order and transitions of a
  kind come in time order;
  without it GreedyIsAtLeastHalf holds and HalfIsTight shows no more can be said.
- HintsAreASoftPrior: requires positive margins; the exact condition is
  HintsNeverMatterExactly. Both require distinct scene identifiers, which validation demands.
- HaltsExactly: requires that every text closes its own placeholders and does not end in "{";
  the end of loops over other texts is left out.
- SucceedsExactly: requires the same.
- RenderingEndsExactly: requires the same, and a string that is not one whole placeholder,
  which is not rewritten at all.
- LoopIsOnePassExactlyWhenQuiet: requires texts that make no seam with what follows them;
  with a seam quiet texts may agree with one pass (SeamCanAgree) or not
  (TrailingBraceShiftsPlaceholder).
- SelfReferenceNeverHalts: requires a first placeholder that leads straight back to itself; the
  exact condition is HaltsExactly.
- SelfReferenceIsNeverRendered: requires the same; the exact condition is RenderingEndsExactly.
- Diagnostic fields of observations and transitions (detector and frame identifiers, texts)
  that no decision reads.
- Detectors and vision: a detector either builds or does not, and its readings are inputs.
- In PipelineResidency the resolver's answer for a frame is an input of that frame, not
  computed from the anchors' readings; SceneResolution models the resolver itself. The pinned
  observations kept between frames are left out with it.
- Rule objects behind a trait are one datatype of runtimes in RuleCoordination, so the rules
  are values in an array there; the classes of TemporalRules model them as objects.
- Sharing of one suite operation by several threads: its record lives in one sequence, and
  each critical section is atomic. Result documents, phases, elapsed times and notifications.
- RunLoop: takes a number of turns after which the loop has stopped, because the loop need
  not stop; the lemmas give that number or show that there is none.
- PiecesAreRendered: requires literals that neither contain "{{" nor end in "{", and paths
  whose first "}}" closes them; other strings are covered by the single pass alone.
- The writing of JSON values that are not strings is a parameter of TemplateRendering.
- ExportArchive: does not model the sorting of the collected paths, which decides only the
  order of entries, nor folders: a directory is the list of its files and links.
- ImportProfile: reads and writes that fail are left out, except where the names decide it: a
  file cannot also be a folder, and no file is written under a name that ends in "/."; so is what the ZIP library does to an archive with two entries of one name.
- Two imports at once, and names that are not valid Unicode.
- DownscaleFrame: builds the preview row by row instead of writing into a buffer of its
  final size; the sizes that overflow the address space are left out.
- BlitScaled: requires a canvas and an image of at most 2^32 - 1 pixels, which the buffers
  the callers allocate and the 4096-pixel limit of the decoder imply in practice.
- Collection scheduling (when the next item is due, storage limits, similarity): easy
  one-step facts.
- Selecting active elements for still images (`active_element_ids`): a union of sets, the
  same one that PipelineResidency models for frames.
- Queue and cache locks of the router are atomic steps; the staleness between reading and
  storing a route table in separate calls is left out.
- Capture, sockets, HTTP, processes, clocks, GUI, logging, validation lists and error texts.
