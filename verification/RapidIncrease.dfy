/**
 * `RapidIncreaseRule`: emits when a value rises by at least `minimumDelta` over the
 * smallest value seen in the last `withinMs`, at most once per cooldown. The rule keeps a
 * deque; the specification looks at every reading ever accepted.
 */
module RapidIncrease {
  import opened Prelude
  import opened Automaton
  import opened Observations

  /** `parse` stands for trimming a text and reading it as a number. */
  datatype RapidConfig = RapidConfig(
    ruleId: RuleId,
    event: string,
    minimumDelta: real,
    withinMs: nat,
    cooldownMs: nat,
    minimumConfidence: real,
    parse: string -> Option<real>)

  datatype Point = Point(at: nat, value: real)

  datatype RapidMemory = RapidMemory(history: seq<Point>, lastEmit: Option<nat>)

  // --------------------------------------------------------- specification

  function ReadValue(c: RapidConfig, o: Observation): Option<real> {
    if o.status != Valid || ConfidenceOr(o, 0.0) < c.minimumConfidence then None
    else match o.value
      case Number(x) => Some(x)
      case Text(t) => c.parse(t)
      case _ => None
  }

  function DropOld(history: seq<Point>, cutoff: nat): seq<Point> {
    if history != [] && history[0].at < cutoff then DropOld(history[1..], cutoff) else history
  }

  function MinimumOf(points: seq<Point>): (m: real)
    requires points != []
  {
    if |points| == 1 then points[0].value
    else
      var m := MinimumOf(points[..|points| - 1]);
      if points[|points| - 1].value < m then points[|points| - 1].value else m
  }

  function PointStep(c: RapidConfig, m: RapidMemory, p: Point): (RapidMemory, bool) {
    var kept := DropOld(m.history, SaturatingSub(p.at, c.withinMs));
    var minimum := if kept == [] then p.value else MinimumOf(kept);
    var history := kept + [p];
    if p.value - minimum < c.minimumDelta || !Elapsed(m.lastEmit, p.at, c.cooldownMs)
    then (RapidMemory(history, m.lastEmit), false)
    else (RapidMemory(history, Some(p.at)), true)
  }

  function RapidStep(c: RapidConfig, m: RapidMemory, o: Observation): (RapidMemory, Option<Transition>) {
    var value := ReadValue(c, o);
    if value.None? then (m, None)
    else
      var (m', emits) := PointStep(c, m, Point(o.timestampMs, value.value));
      (m', if emits
           then Some(Transition(c.ruleId, c.event, o.timestampMs, Entered, value.value, ConfidenceOr(o, 0.0)))
           else None)
  }

  // ---------------------------------------------------------------- object

  method PopOlder(points: seq<Point>, cutoff: nat) returns (history: seq<Point>)
    ensures history == DropOld(points, cutoff)
  {
    history := points;
    while history != [] && history[0].at < cutoff
      invariant DropOld(history, cutoff) == DropOld(points, cutoff)
      decreases |history|
    {
      history := history[1..];
    }
  }

  method ReduceMinimum(points: seq<Point>) returns (minimum: real)
    requires points != []
    ensures minimum == MinimumOf(points)
  {
    minimum := points[0].value;
    for i := 1 to |points|
      invariant minimum == MinimumOf(points[..i])
    {
      assert points[..i + 1][..i] == points[..i];
      if points[i].value < minimum { minimum := points[i].value; }
    }
    assert points[..|points|] == points;
  }

  class RapidIncreaseRule {
    const config: RapidConfig
    var history: seq<Point>
    var lastEmit: Option<nat>

    function Snapshot(): RapidMemory
      reads this
    {
      RapidMemory(history, lastEmit)
    }

    constructor (config: RapidConfig)
      ensures this.config == config && Snapshot() == RapidMemory([], None)
    {
      this.config := config;
      history, lastEmit := [], None;
    }

    method Observe(o: Observation) returns (t: Option<Transition>)
      modifies this
      ensures (Snapshot(), t) == RapidStep(config, old(Snapshot()), o)
    {
      var read := ReadValue(config, o);
      if read.None? { return None; }
      var value := read.value;
      var cutoff := SaturatingSub(o.timestampMs, config.withinMs);
      history := PopOlder(history, cutoff);
      var minimum := value;
      if history != [] { minimum := ReduceMinimum(history); }
      history := history + [Point(o.timestampMs, value)];
      if value - minimum < config.minimumDelta
         || (lastEmit.Some? && SaturatingSub(o.timestampMs, lastEmit.value) < config.cooldownMs)
      {
        return None;
      }
      lastEmit := Some(o.timestampMs);
      return Some(Transition(config.ruleId, config.event, o.timestampMs, Entered, value, ConfidenceOr(o, 0.0)));
    }
  }

  // ------------------------------------------------- refinement of the history

  function Points(c: RapidConfig, os: seq<Observation>): seq<Point> {
    if os == [] then []
    else
      var (o, value) := (os[|os| - 1], ReadValue(c, os[|os| - 1]));
      Points(c, os[..|os| - 1]) + if value.Some? then [Point(o.timestampMs, value.value)] else []
  }

  function ObservedRun(c: RapidConfig, os: seq<Observation>): RapidMemory {
    if os == [] then RapidMemory([], None)
    else RapidStep(c, ObservedRun(c, os[..|os| - 1]), os[|os| - 1]).0
  }

  function PointRun(c: RapidConfig, ps: seq<Point>): RapidMemory {
    if ps == [] then RapidMemory([], None)
    else PointStep(c, PointRun(c, ps[..|ps| - 1]), ps[|ps| - 1]).0
  }

  lemma {:induction false} ObservedRunIsPointRun(c: RapidConfig, os: seq<Observation>)
    ensures ObservedRun(c, os) == PointRun(c, Points(c, os))
  {
    if os == [] {
    } else {
      var init := os[..|os| - 1];
      ObservedRunIsPointRun(c, init);
      var (o, before) := (os[|os| - 1], Points(c, init));
      var value := ReadValue(c, o);
      if value.Some? {
        var p := Point(o.timestampMs, value.value);
        assert (before + [p])[..|before|] == before && Points(c, os) == before + [p];
        assert PointRun(c, before + [p]) == PointStep(c, PointRun(c, before), p).0;
      } else {
        assert Points(c, os) == before + [] == before;
      }
    }
  }

  ghost predicate Ordered(ps: seq<Point>) {
    forall i, j :: 0 <= i <= j < |ps| ==> ps[i].at <= ps[j].at
  }

  /** Every accepted reading that is not older than `cutoff`, in order. */
  function Since(ps: seq<Point>, cutoff: nat): seq<Point> {
    if ps == [] then []
    else (if ps[0].at >= cutoff then [ps[0]] else []) + Since(ps[1..], cutoff)
  }

  /** `p` is at least `minimumDelta` above an earlier reading of the last `withinMs`. */
  ghost predicate Rises(c: RapidConfig, earlier: seq<Point>, p: Point) {
    exists j :: 0 <= j < |earlier| && earlier[j].at >= SaturatingSub(p.at, c.withinMs)
                && p.value - earlier[j].value >= c.minimumDelta
  }

  /** Which readings must emit: those that rise while every earlier emission is a cooldown old. */
  ghost function Emissions(c: RapidConfig, ps: seq<Point>): (out: seq<bool>)
    ensures |out| == |ps|
  {
    if ps == [] then []
    else
      var (earlier, p) := (ps[..|ps| - 1], ps[|ps| - 1]);
      var out := Emissions(c, earlier);
      out + [Rises(c, earlier, p) && Cooled(c, earlier, out, p)]
  }

  ghost predicate Cooled(c: RapidConfig, earlier: seq<Point>, out: seq<bool>, p: Point)
    requires |out| == |earlier|
  {
    forall i :: 0 <= i < |out| && out[i] ==> p.at - earlier[i].at >= c.cooldownMs
  }

  // -- the kept deque

  lemma {:induction false} DropOldFacts(ps: seq<Point>, cutoff: nat) returns (gone: nat)
    ensures gone <= |ps| && DropOld(ps, cutoff) == ps[gone..]
    ensures forall i :: 0 <= i < gone ==> ps[i].at < cutoff
    ensures gone < |ps| ==> ps[gone].at >= cutoff
  {
    if ps != [] && ps[0].at < cutoff {
      var rest := DropOldFacts(ps[1..], cutoff);
      gone := rest + 1;
      assert ps[1..][rest..] == ps[gone..];
      forall i | 0 <= i < gone ensures ps[i].at < cutoff {
        assert i > 0 ==> ps[i] == ps[1..][i - 1];
      }
    } else {
      gone := 0;
    }
  }

  lemma {:induction false} SinceAll(ps: seq<Point>, cutoff: nat)
    requires forall i :: 0 <= i < |ps| ==> ps[i].at >= cutoff
    ensures Since(ps, cutoff) == ps
  {
    if ps == [] {
    } else {
      SinceAll(ps[1..], cutoff);
      assert ps == [ps[0]] + ps[1..];
    }
  }

  lemma {:induction false} SinceIsDropOld(ps: seq<Point>, cutoff: nat)
    requires Ordered(ps)
    ensures Since(ps, cutoff) == DropOld(ps, cutoff)
  {
    if ps == [] {
    } else {
      if ps[0].at < cutoff {
        OrderedTail(ps);
        SinceIsDropOld(ps[1..], cutoff);
      } else {
        SinceAll(ps, cutoff);
      }
    }
  }

  lemma {:induction false} OrderedTail(ps: seq<Point>)
    requires Ordered(ps) && ps != []
    ensures Ordered(ps[1..]) && Ordered(ps[..|ps| - 1])
  {}

  lemma {:induction false} DropTwice(ps: seq<Point>, a: nat, b: nat)
    requires a <= b
    ensures DropOld(DropOld(ps, a), b) == DropOld(ps, b)
  {
    if ps != [] && ps[0].at < a { DropTwice(ps[1..], a, b); }
  }

  lemma {:induction false} DropOldOfPushed(ps: seq<Point>, p: Point, cutoff: nat)
    requires p.at >= cutoff
    ensures DropOld(ps + [p], cutoff) == DropOld(ps, cutoff) + [p]
  {
    if ps != [] && ps[0].at < cutoff {
      assert (ps + [p])[1..] == ps[1..] + [p];
      DropOldOfPushed(ps[1..], p, cutoff);
    }
  }

  // -- the rise test

  lemma {:induction false} MinimumFacts(points: seq<Point>) returns (at: nat)
    requires points != []
    ensures at < |points| && points[at].value == MinimumOf(points)
    ensures forall i :: 0 <= i < |points| ==> MinimumOf(points) <= points[i].value
  {
    if |points| == 1 { return 0; }
    at := MinimumFacts(points[..|points| - 1]);
    assert forall i :: 0 <= i < |points| - 1 ==> points[..|points| - 1][i] == points[i];
    if points[|points| - 1].value < MinimumOf(points[..|points| - 1]) { at := |points| - 1; }
  }

  function WindowMinimum(kept: seq<Point>, default: real): real {
    if kept == [] then default else MinimumOf(kept)
  }

  /** Comparing with the minimum of the kept readings is the existential rise test. */
  lemma {:induction false} RiseIsOverWindow(c: RapidConfig, ps: seq<Point>, p: Point)
    requires Ordered(ps) && c.minimumDelta > 0.0
    ensures var kept := DropOld(ps, SaturatingSub(p.at, c.withinMs));
            Rises(c, ps, p) <==> p.value - WindowMinimum(kept, p.value) >= c.minimumDelta
  {
    var cutoff := SaturatingSub(p.at, c.withinMs);
    var gone := DropOldFacts(ps, cutoff);
    var kept := ps[gone..];
    if kept != [] {
      var at := MinimumFacts(kept);
      assert ps[gone + at] == kept[at] && ps[gone + at].at >= cutoff;
    }
    if Rises(c, ps, p) {
      var j :| 0 <= j < |ps| && ps[j].at >= cutoff && p.value - ps[j].value >= c.minimumDelta;
      assert j >= gone && kept[j - gone] == ps[j];
    }
  }

  // -- the cooldown test

  /** `mark` is the time of the latest emission in `out`. */
  ghost predicate MarksLatest(ps: seq<Point>, out: seq<bool>, mark: Option<nat>)
    requires |out| == |ps|
  {
    match mark
    case None => forall i :: 0 <= i < |out| ==> !out[i]
    case Some(t) => exists i :: 0 <= i < |out| && out[i] && ps[i].at == t && forall j :: i < j < |out| ==> !out[j]
  }

  lemma {:induction false} CooledByMark(c: RapidConfig, ps: seq<Point>, out: seq<bool>, mark: Option<nat>, p: Point)
    requires Ordered(ps) && |out| == |ps| && MarksLatest(ps, out, mark)
    requires forall i :: 0 <= i < |ps| ==> ps[i].at <= p.at
    ensures Cooled(c, ps, out, p) <==> Elapsed(mark, p.at, c.cooldownMs)
  {
    if mark.Some? {
      var i :| 0 <= i < |out| && out[i] && ps[i].at == mark.value && forall j :: i < j < |out| ==> !out[j];
    }
  }

  lemma {:induction false} MarkOfPushed(ps: seq<Point>, out: seq<bool>, mark: Option<nat>, p: Point, emits: bool)
    requires |out| == |ps| && MarksLatest(ps, out, mark)
    ensures MarksLatest(ps + [p], out + [emits], if emits then Some(p.at) else mark)
  {
    var (ps', out') := (ps + [p], out + [emits]);
    if emits {
      assert out'[|ps|] && ps'[|ps|].at == p.at;
    } else if mark.Some? {
      var i :| 0 <= i < |out| && out[i] && ps[i].at == mark.value && forall j :: i < j < |out| ==> !out[j];
      assert out'[i] && ps'[i].at == mark.value;
    }
  }

  // -- the run

  function Cutoff(c: RapidConfig, ps: seq<Point>): nat {
    if ps == [] then 0 else SaturatingSub(ps[|ps| - 1].at, c.withinMs)
  }

  /** What the two fields stand for. */
  ghost predicate Remembers(c: RapidConfig, m: RapidMemory, ps: seq<Point>) {
    m.history == DropOld(ps, Cutoff(c, ps)) && MarksLatest(ps, Emissions(c, ps), m.lastEmit)
  }

  lemma {:induction false} OrderedPush(c: RapidConfig, ps: seq<Point>, p: Point)
    requires Ordered(ps + [p])
    ensures Ordered(ps) && Cutoff(c, ps) <= SaturatingSub(p.at, c.withinMs)
    ensures forall i :: 0 <= i < |ps| ==> ps[i].at <= p.at
  {
    var all := ps + [p];
    assert all[|ps|] == p && all[..|ps|] == ps;
    assert forall i :: 0 <= i < |ps| ==> all[i] == ps[i];
  }

  lemma {:induction false} DequeRefines(c: RapidConfig, ps: seq<Point>, p: Point)
    requires Ordered(ps + [p])
    ensures DropOld(DropOld(ps, Cutoff(c, ps)), SaturatingSub(p.at, c.withinMs))
         == DropOld(ps, SaturatingSub(p.at, c.withinMs))
    ensures DropOld(ps, SaturatingSub(p.at, c.withinMs)) + [p] == DropOld(ps + [p], Cutoff(c, ps + [p]))
  {
    OrderedPush(c, ps, p);
    DropTwice(ps, Cutoff(c, ps), SaturatingSub(p.at, c.withinMs));
    DropOldOfPushed(ps, p, SaturatingSub(p.at, c.withinMs));
  }

  /** What the next reading must do, given the whole history. */
  ghost predicate MustEmit(c: RapidConfig, ps: seq<Point>, p: Point) {
    Rises(c, ps, p) && Cooled(c, ps, Emissions(c, ps), p)
  }

  lemma {:induction false} EmissionsOfPushed(c: RapidConfig, ps: seq<Point>, p: Point)
    ensures Emissions(c, ps + [p]) == Emissions(c, ps) + [MustEmit(c, ps, p)]
  {
    assert (ps + [p])[..|ps|] == ps;
  }

  lemma {:induction false} DecisionRefines(c: RapidConfig, m: RapidMemory, ps: seq<Point>, p: Point)
    requires Ordered(ps + [p]) && c.minimumDelta > 0.0
    requires Remembers(c, m, ps)
    ensures PointStep(c, m, p)
         == (RapidMemory(DropOld(ps, SaturatingSub(p.at, c.withinMs)) + [p],
                         if MustEmit(c, ps, p) then Some(p.at) else m.lastEmit),
             MustEmit(c, ps, p))
  {
    OrderedPush(c, ps, p);
    DequeRefines(c, ps, p);
    RiseIsOverWindow(c, ps, p);
    CooledByMark(c, ps, Emissions(c, ps), m.lastEmit, p);
  }

  lemma {:induction false} PointStepRefines(c: RapidConfig, m: RapidMemory, ps: seq<Point>, p: Point)
    requires Ordered(ps + [p]) && c.minimumDelta > 0.0
    requires Remembers(c, m, ps)
    ensures Remembers(c, PointStep(c, m, p).0, ps + [p])
    ensures PointStep(c, m, p).1 == Emissions(c, ps + [p])[|ps|]
  {
    DecisionRefines(c, m, ps, p);
    DequeRefines(c, ps, p);
    EmissionsOfPushed(c, ps, p);
    MarkOfPushed(ps, Emissions(c, ps), m.lastEmit, p, MustEmit(c, ps, p));
  }

  /**
   * On readings in time order the deque is exactly the accepted history of the last
   * `withinMs`, and the rule emits exactly at the readings that rise over that window while
   * every earlier emission is a cooldown old.
   */
  lemma {:induction false} WindowRefinesHistory(c: RapidConfig, ps: seq<Point>)
    requires Ordered(ps) && c.minimumDelta > 0.0
    ensures Remembers(c, PointRun(c, ps), ps)
    ensures PointRun(c, ps).history == Since(ps, Cutoff(c, ps))
    ensures ps != [] ==> var k := |ps| - 1;
            PointStep(c, PointRun(c, ps[..k]), ps[k]).1 == Emissions(c, ps)[k]
  {
    SinceIsDropOld(ps, Cutoff(c, ps));
    if ps == [] {
    } else {
      var (init, p) := (ps[..|ps| - 1], ps[|ps| - 1]);
      assert init + [p] == ps;
      OrderedTail(ps);
      WindowRefinesHistory(c, init);
      PointStepRefines(c, PointRun(c, init), init, p);
    }
  }

  /** Out of order, a stale reading hides behind a fresh one and stays in the deque. */
  lemma {:induction false} OutOfOrderKeepsStaleReadings(c: RapidConfig, a: Point, b: Point, d: Point)
    requires c.withinMs <= b.at && b.at + c.withinMs < d.at && d.at <= a.at + c.withinMs && c.withinMs < a.at
    ensures var ps := [a, b, d];
            PointRun(c, ps).history == ps && Since(ps, Cutoff(c, ps)) == [a, d]
  {
    var cutoff := SaturatingSub(d.at, c.withinMs);
    assert [a, b, d][..2] == [a, b] && [a, b][..1] == [a] && [a][..0] == [];
    assert PointRun(c, [a]).history == [a];
    assert DropOld([a], SaturatingSub(b.at, c.withinMs)) == [a];
    assert PointRun(c, [a, b]).history == [a, b];
    assert DropOld([a, b], cutoff) == [a, b];
    assert [a, b, d][1..] == [b, d] && [b, d][1..] == [d] && [d][1..] == [];
    assert Since([d], cutoff) == [d];
    assert Since([b, d], cutoff) == [d];
  }
}
