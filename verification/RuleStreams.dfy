/**
 * The transitions that a rule object returns over any stream of observations, whatever
 * part of the stream it ignores. The argument is made once, for every object whose
 * observations feed the debouncing automaton at most one sample each.
 */
module RuleStreams {
  import opened Prelude
  import opened Automaton
  import opened TemporalSafety
  import opened Observations
  import opened TemporalRules
  import opened CompositeRules

  /** What an object does with one observation, which sample (if any) it takes from it, and
      where it keeps the automaton's memory. */
  datatype RuleObject<!M> = RuleObject(
    step: (M, Observation) -> (M, Option<Transition>),
    sample: (M, Observation) -> Option<Sample>,
    inner: M -> Memory)

  /** An ignored observation leaves the automaton alone and returns nothing; any other is one
      automaton step, and a transition carries its signal and its time. */
  ghost predicate FeedsOnce<M(!new)>(c: Timing, r: RuleObject<M>, m: M, o: Observation) {
    var (next, t) := r.step(m, o);
    match r.sample(m, o)
    case None => r.inner(next) == r.inner(m) && t == None
    case Some(s) =>
      var (inner, e) := Step(c, r.inner(m), s);
      && r.inner(next) == inner
      && (t.None? <==> e.None?)
      && (t.Some? ==> t.value.signal == e.value && t.value.timestampMs == s.now)
  }

  ghost predicate Feeds<M(!new)>(c: Timing, r: RuleObject<M>) {
    forall m, o {:trigger r.step(m, o)} :: FeedsOnce(c, r, m, o)
  }

  function After<M>(r: RuleObject<M>, start: M, os: seq<Observation>): M {
    if os == [] then start else r.step(After(r, start, os[..|os| - 1]), os[|os| - 1]).0
  }

  /** What the object returns for observation `k`. */
  function Returned<M>(r: RuleObject<M>, start: M, os: seq<Observation>, k: nat): Option<Transition>
    requires k < |os|
  {
    r.step(After(r, start, os[..k]), os[k]).1
  }

  /** Entered or Left, as opposed to Updated. */
  predicate Announces(t: Option<Transition>) {
    t.Some? && t.value.signal != Updated
  }

  /** The last Entered or Left it has returned. */
  function LastReturned<M>(r: RuleObject<M>, start: M, os: seq<Observation>): Option<Event> {
    if os == [] then None
    else
      var init := os[..|os| - 1];
      NextReturned(LastReturned(r, start, init), r.step(After(r, start, init), os[|os| - 1]).1)
  }

  function NextReturned(last: Option<Event>, t: Option<Transition>): Option<Event> {
    if Announces(t) then Some(Event(t.value.signal, t.value.timestampMs)) else last
  }

  /** The transition differs from the earlier event and comes a cooldown after it. */
  predicate Alternates(c: Timing, earlier: Event, signal: Signal, at: nat) {
    signal != earlier.signal && SaturatingSub(at, earlier.at) >= c.cooldown
  }

  /** The memory and the last event are those of some complete history. */
  ghost predicate Tracks(c: Timing, m: Memory, log: seq<Entry>, last: Option<Event>) {
    IsHistory(c, log) && Remembers(c, m, log) && LastEvent(log) == last
  }

  /** How they move with one sample. */
  lemma {:induction false} OneSample(
      c: Timing, m: Memory, log: seq<Entry>, last: Option<Event>, s: Sample, next: Memory, e: Option<Signal>)
    returns (more: seq<Entry>)
    requires Tracks(c, m, log, last) && (next, e) == Step(c, m, s)
    ensures Tracks(c, next, more, if IsEvent(e) then Some(Event(e.value, s.now)) else last)
    ensures IsEvent(e) && last.Some? ==> Alternates(c, last.value, e.value, s.now)
  {
    var entry := Reference(c, log, s);
    more := log + [entry];
    StepRefines(c, m, log, s);
    assert more[..|log|] == log && more[|log|] == entry;
    ExtendHistory(c, log, entry);
    if IsBoundary(entry) && last.Some? { AlternatesWithLast(c, log, entry); }
  }

  /** The same with one observation. */
  lemma {:induction false} OneObservation<M(!new)>(
      c: Timing, r: RuleObject<M>, m: M, o: Observation, log: seq<Entry>, last: Option<Event>)
    returns (more: seq<Entry>)
    requires FeedsOnce(c, r, m, o) && Tracks(c, r.inner(m), log, last)
    ensures var (next, t) := r.step(m, o);
      && Tracks(c, r.inner(next), more, NextReturned(last, t))
      && (Announces(t) && last.Some? ==> Alternates(c, last.value, t.value.signal, t.value.timestampMs))
  {
    var (next, t) := r.step(m, o);
    var taken := r.sample(m, o);
    if taken.None? {
      more := log;
    } else {
      var e := if t.Some? then Some(t.value.signal) else None;
      more := OneSample(c, r.inner(m), log, last, taken.value, r.inner(next), e);
    }
  }

  lemma {:induction false} StreamIsTracked<M(!new)>(c: Timing, r: RuleObject<M>, start: M, os: seq<Observation>)
    returns (log: seq<Entry>)
    requires Feeds(c, r) && r.inner(start) == FRESH
    ensures Tracks(c, r.inner(After(r, start, os)), log, LastReturned(r, start, os))
  {
    if os == [] {
      log := [];
    } else {
      var init, o := os[..|os| - 1], os[|os| - 1];
      var before := StreamIsTracked(c, r, start, init);
      var m := After(r, start, init);
      assert r.step(m, o) == r.step(m, o) && FeedsOnce(c, r, m, o);
      log := OneObservation(c, r, m, o, before, LastReturned(r, start, init));
    }
  }

  lemma {:induction false} LastReturnedIs<M>(r: RuleObject<M>, start: M, os: seq<Observation>, i: nat, j: nat)
    requires i < j <= |os| && Announces(Returned(r, start, os, i))
    requires forall k :: i < k < j ==> !Announces(Returned(r, start, os, k))
    ensures LastReturned(r, start, os[..j]) == NextReturned(None, Returned(r, start, os, i))
    decreases j
  {
    assert os[..j][..j - 1] == os[..j - 1];
    if i < j - 1 {
      LastReturnedIs(r, start, os, i, j - 1);
      assert !Announces(Returned(r, start, os, j - 1));
    }
  }

  ghost predicate Consecutive<M>(r: RuleObject<M>, start: M, os: seq<Observation>, i: nat, j: nat)
    requires i < j < |os|
  {
    && Announces(Returned(r, start, os, i)) && Announces(Returned(r, start, os, j))
    && forall k :: i < k < j ==> !Announces(Returned(r, start, os, k))
  }

  ghost predicate Apart<M>(c: Timing, r: RuleObject<M>, start: M, os: seq<Observation>, i: nat, j: nat)
    requires i < j < |os| && Consecutive(r, start, os, i, j)
  {
    var (first, second) := (Returned(r, start, os, i).value, Returned(r, start, os, j).value);
    first.signal != second.signal && SaturatingSub(second.timestampMs, first.timestampMs) >= c.cooldown
  }

  /** Over any stream the Entered and Left that an object returns strictly alternate and
      consecutive ones are at least the cooldown apart. */
  lemma {:induction false} StreamAlternates<M(!new)>(
      c: Timing, r: RuleObject<M>, start: M, os: seq<Observation>, i: nat, j: nat)
    requires Feeds(c, r) && r.inner(start) == FRESH && i < j < |os| && Consecutive(r, start, os, i, j)
    ensures Apart(c, r, start, os, i, j)
  {
    LastReturnedIs(r, start, os, i, j);
    var log := StreamIsTracked(c, r, start, os[..j]);
    var m := After(r, start, os[..j]);
    assert r.step(m, os[j]).1 == Returned(r, start, os, j) && FeedsOnce(c, r, m, os[j]);
    var more := OneObservation(c, r, m, os[j], log, LastReturned(r, start, os[..j]));
  }

  // ------------------------------------------------------------- the three objects

  function NumericObject(c: NumericConfig): RuleObject<Memory> {
    RuleObject(
      (m, o) => NumericStep(c, m, o),
      (m: Memory, o) => if Accepts(c, o) then Some(Sample(o.timestampMs, InsideBand(c, m.state, o.value.number))) else None,
      m => m)
  }

  /** The match bit that a temporal rule takes from an observation. */
  function TemporalSample(c: TemporalConfig, o: Observation): Option<Sample> {
    var matched := TypedMatch(c.test, o.value);
    if o.status != Valid || ConfidenceOr(o, 1.0) < c.minimumConfidence || matched.None? then None
    else Some(Sample(o.timestampMs, matched.value))
  }

  function TemporalObject(c: TemporalConfig): RuleObject<Memory> {
    RuleObject((m, o) => TemporalStep(c, m, o), (m, o) => TemporalSample(c, o), m => m)
  }

  function CompositeSample(c: CompositeConfig, m: CompositeMemory, o: Observation): Option<Sample> {
    if !Watches(c, o.element) || o.status != Valid then None
    else
      var latest := m.latest[o.element := o];
      if !AllKnown(c.conditions, latest) || WeakestConfidence(c.conditions, latest) < c.minimumConfidence then None
      else Some(Sample(o.timestampMs, Verdict(c.conditions, c.requireAll, latest)))
  }

  function CompositeObject(c: CompositeConfig): RuleObject<CompositeMemory> {
    RuleObject((m, o) => CompositeStep(c, m, o), (m, o) => CompositeSample(c, m, o), (m: CompositeMemory) => m.inner)
  }

  lemma {:induction false} NumericFeedsOnce(c: NumericConfig, m: Memory, o: Observation)
    ensures FeedsOnce(c.timing, NumericObject(c), m, o)
  {
  }

  lemma {:induction false} NumericFeeds(c: NumericConfig)
    ensures Feeds(c.timing, NumericObject(c))
  {
    forall m, o ensures FeedsOnce(c.timing, NumericObject(c), m, o) {
      NumericFeedsOnce(c, m, o);
    }
  }

  lemma {:induction false} TemporalFeedsOnce(c: TemporalConfig, m: Memory, o: Observation)
    ensures FeedsOnce(c.timing, TemporalObject(c), m, o)
  {
  }

  lemma {:induction false} TemporalFeeds(c: TemporalConfig)
    ensures Feeds(c.timing, TemporalObject(c))
  {
    forall m, o ensures FeedsOnce(c.timing, TemporalObject(c), m, o) {
      TemporalFeedsOnce(c, m, o);
    }
  }

  lemma {:induction false} CompositeFeedsOnce(c: CompositeConfig, m: CompositeMemory, o: Observation)
    ensures FeedsOnce(c.timing, CompositeObject(c), m, o)
  {
  }

  lemma {:induction false} CompositeFeeds(c: CompositeConfig)
    ensures Feeds(c.timing, CompositeObject(c))
  {
    forall m, o ensures FeedsOnce(c.timing, CompositeObject(c), m, o) {
      CompositeFeedsOnce(c, m, o);
    }
  }

  /** `NumericRule`, `TemporalRule` and `CompositeRule`, from their construction and over any
      observations: Entered and Left strictly alternate, at least the cooldown apart. */
  lemma {:induction false} TransitionsAlternate(
      n: NumericConfig, t: TemporalConfig, c: CompositeConfig, os: seq<Observation>, i: nat, j: nat)
    requires i < j < |os|
    ensures Consecutive(NumericObject(n), FRESH, os, i, j) ==> Apart(n.timing, NumericObject(n), FRESH, os, i, j)
    ensures Consecutive(TemporalObject(t), FRESH, os, i, j) ==> Apart(t.timing, TemporalObject(t), FRESH, os, i, j)
    ensures var start := CompositeMemory(map[], FRESH);
      Consecutive(CompositeObject(c), start, os, i, j) ==> Apart(c.timing, CompositeObject(c), start, os, i, j)
  {
    NumericFeeds(n);
    TemporalFeeds(t);
    CompositeFeeds(c);
    var start := CompositeMemory(map[], FRESH);
    if Consecutive(NumericObject(n), FRESH, os, i, j) {
      StreamAlternates(n.timing, NumericObject(n), FRESH, os, i, j);
    }
    if Consecutive(TemporalObject(t), FRESH, os, i, j) {
      StreamAlternates(t.timing, TemporalObject(t), FRESH, os, i, j);
    }
    if Consecutive(CompositeObject(c), start, os, i, j) {
      StreamAlternates(c.timing, CompositeObject(c), start, os, i, j);
    }
  }
}
