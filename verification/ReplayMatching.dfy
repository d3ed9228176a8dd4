/**
 * `evaluate_replay`: pairs observed transitions with annotations greedily, in annotation
 * order, and turns the pairing into regression metrics.
 */
module ReplayMatching {
  import opened Prelude
  import opened Automaton
  import opened Observations

  datatype ExpectedEvent = ExpectedEvent(event: string, state: Signal, timestampMs: nat, toleranceMs: nat)

  datatype Regression = Regression(
    minimumPrecision: real,
    minimumRecall: real,
    maximumMeanLatencyMs: Option<real>)

  const DEFAULT_REGRESSION := Regression(1.0, 1.0, None)

  datatype Metrics = Metrics(
    expected: nat,
    observed: nat,
    matched: nat,
    duplicates: nat,
    misses: nat,
    precision: real,
    recall: real,
    meanLatencyMs: Option<real>,
    passed: bool)

  function AbsDiff(a: nat, b: nat): nat { if a < b then b - a else a - b }

  predicate SameKind(a: ExpectedEvent, t: Transition) {
    t.event == a.event && t.signal == a.state
  }

  predicate Compatible(a: ExpectedEvent, t: Transition) {
    SameKind(a, t) && AbsDiff(t.timestampMs, a.timestampMs) <= a.toleranceMs
  }

  // --------------------------------------------------------- the greedy rule

  /** A pairing maps annotation positions to transition positions. */
  type Pairing = map<int, int>

  predicate Free(a: ExpectedEvent, observed: seq<Transition>, used: set<int>, j: int)
    requires 0 <= j < |observed|
  {
    j !in used && Compatible(a, observed[j])
  }

  /** The first unused compatible transition at or after `from`. */
  function FirstFree(a: ExpectedEvent, observed: seq<Transition>, used: set<int>, from: nat): (r: Option<nat>)
    requires from <= |observed|
    ensures r.Some? ==> from <= r.value < |observed| && Free(a, observed, used, r.value)
    ensures forall j :: from <= j < (if r.Some? then r.value else |observed|) ==> !Free(a, observed, used, j)
    decreases |observed| - from
  {
    if from == |observed| then None
    else if Free(a, observed, used, from) then Some(from)
    else FirstFree(a, observed, used, from + 1)
  }

  /** The transitions a pairing has used. */
  function Used(g: Pairing): set<int> {
    set i | i in g :: g[i]
  }

  /** The pairing after the first `n` annotations. */
  function Greedy(expected: seq<ExpectedEvent>, observed: seq<Transition>, n: nat): Pairing
    requires n <= |expected|
  {
    if n == 0 then map[]
    else
      var g := Greedy(expected, observed, n - 1);
      var j := FirstFree(expected[n - 1], observed, Used(g), 0);
      if j.Some? then g[n - 1 := j.value] else g
  }

  /** Total distance in time of the pairs made for the first `n` annotations. */
  function Latency(expected: seq<ExpectedEvent>, observed: seq<Transition>, n: nat): nat
    requires n <= |expected|
  {
    if n == 0 then 0
    else
      var j := FirstFree(expected[n - 1], observed, Used(Greedy(expected, observed, n - 1)), 0);
      Latency(expected, observed, n - 1) +
      if j.Some? then AbsDiff(observed[j.value].timestampMs, expected[n - 1].timestampMs) else 0
  }

  function Ratio(numerator: nat, denominator: nat): real {
    if denominator == 0 then 1.0 else numerator as real / denominator as real
  }

  function Evaluate(expected: seq<ExpectedEvent>, observed: seq<Transition>, r: Regression): Metrics {
    var matched := |Greedy(expected, observed, |expected|)|;
    var mean := if matched == 0 then None
                else Some(Latency(expected, observed, |expected|) as real / matched as real);
    var (precision, recall) := (Ratio(matched, |observed|), Ratio(matched, |expected|));
    Metrics(|expected|, |observed|, matched,
            SaturatingSub(|observed|, matched), SaturatingSub(|expected|, matched), precision, recall, mean,
            precision >= r.minimumPrecision && recall >= r.minimumRecall
            && (r.maximumMeanLatencyMs.Some? ==> mean.Some? && mean.value <= r.maximumMeanLatencyMs.value))
  }

  /** The `find` over transitions; `marks` is the array of used flags. */
  method FindFree(a: ExpectedEvent, observed: seq<Transition>, marks: array<bool>, ghost used: set<int>)
    returns (r: Option<nat>)
    requires marks.Length == |observed|
    requires forall j :: 0 <= j < |observed| ==> (marks[j] <==> j in used)
    ensures r == FirstFree(a, observed, used, 0)
  {
    for j := 0 to |observed|
      invariant FirstFree(a, observed, used, 0) == FirstFree(a, observed, used, j)
    {
      if !marks[j] && Compatible(a, observed[j]) { return Some(j); }
    }
    return None;
  }

  method EvaluateReplay(expected: seq<ExpectedEvent>, observed: seq<Transition>, regression: Regression)
    returns (metrics: Metrics)
    ensures metrics == Evaluate(expected, observed, regression)
  {
    var used := new bool[|observed|](_ => false);
    var matched, latency := 0, 0;
    for n := 0 to |expected|
      invariant matched == |Greedy(expected, observed, n)|
      invariant latency == Latency(expected, observed, n)
      invariant forall j :: 0 <= j < |observed| ==> (used[j] <==> j in Used(Greedy(expected, observed, n)))
    {
      ghost var g := Greedy(expected, observed, n);
      var found := FindFree(expected[n], observed, used, Used(g));
      if found.Some? {
        GreedyIsMatching(expected, observed, n);
        SizeOfPushed(g, n, found.value);
        UsedOfPushed(g, n, found.value);
        used[found.value] := true;
        matched := matched + 1;
        latency := latency + AbsDiff(observed[found.value].timestampMs, expected[n].timestampMs);
      }
    }
    var precision := Ratio(matched, |observed|);
    var recall := Ratio(matched, |expected|);
    var mean := if matched > 0 then Some(latency as real / matched as real) else None;
    var latencyPasses := regression.maximumMeanLatencyMs.None?
                         || (mean.Some? && mean.value <= regression.maximumMeanLatencyMs.value);
    metrics := Metrics(|expected|, |observed|, matched,
                       SaturatingSub(|observed|, matched), SaturatingSub(|expected|, matched),
                       precision, recall, mean,
                       precision >= regression.minimumPrecision && recall >= regression.minimumRecall && latencyPasses);
  }

  lemma {:induction false} SizeOfPushed(g: Pairing, n: nat, j: nat)
    requires n !in g
    ensures |g[n := j]| == |g| + 1
  {
    assert g[n := j].Keys == g.Keys + {n};
  }

  lemma {:induction false} UsedOfPushed(g: Pairing, n: nat, j: nat)
    requires n !in g
    ensures Used(g[n := j]) == Used(g) + {j}
  {
    var g' := g[n := j];
    forall v | v in Used(g) + {j} ensures v in Used(g') {
      if v in Used(g) {
        var i :| i in g && g[i] == v;
        assert i in g' && g'[i] == v;
      } else {
        assert n in g' && g'[n] == v;
      }
    }
  }

  // ------------------------------------------------------- one-to-one, at least half

  /** Compatible pairs, no transition used twice. */
  ghost predicate Matching(expected: seq<ExpectedEvent>, observed: seq<Transition>, m: Pairing) {
    && (forall i :: i in m ==> 0 <= i < |expected| && 0 <= m[i] < |observed| && Compatible(expected[i], observed[m[i]]))
    && Injective(m)
  }

  lemma {:induction false} GreedyIsMatching(expected: seq<ExpectedEvent>, observed: seq<Transition>, n: nat)
    requires n <= |expected|
    ensures Matching(expected, observed, Greedy(expected, observed, n))
    ensures forall i :: i in Greedy(expected, observed, n) ==> 0 <= i < n
  {
    if n == 0 {
    } else {
      GreedyIsMatching(expected, observed, n - 1);
      var g := Greedy(expected, observed, n - 1);
      var j := FirstFree(expected[n - 1], observed, Used(g), 0);
      assert j.Some? ==> forall i :: i in g ==> g[i] in Used(g);
    }
  }

  /** Annotations the greedy pass leaves alone have only used transitions to go to. */
  lemma {:induction false} GreedyIsMaximal(expected: seq<ExpectedEvent>, observed: seq<Transition>, n: nat, i: nat, j: nat)
    requires i < n <= |expected| && j < |observed| && Compatible(expected[i], observed[j])
    ensures i in Greedy(expected, observed, n) || j in Used(Greedy(expected, observed, n))
  {
    GreedyIsMatching(expected, observed, n - 1);
    var g := Greedy(expected, observed, n - 1);
    var f := FirstFree(expected[n - 1], observed, Used(g), 0);
    if f.Some? { UsedOfPushed(g, n - 1, f.value); }
    if i < n - 1 {
      GreedyIsMaximal(expected, observed, n - 1, i, j);
    } else if f.None? {
      assert !Free(expected[i], observed, Used(g), j);
    }
  }

  function Image(m: Pairing, keys: set<int>): set<int>
    requires keys <= m.Keys
  {
    set i | i in keys :: m[i]
  }

  ghost predicate Injective(m: Pairing) {
    forall i, j :: i in m && j in m && m[i] == m[j] ==> i == j
  }

  lemma {:induction false} AnyOf<T>(s: set<T>) returns (x: T)
    requires s != {}
    ensures x in s
  {
    x :| x in s;
  }

  lemma {:induction false} ImageSize(m: Pairing, keys: set<int>)
    requires keys <= m.Keys
    ensures |Image(m, keys)| <= |keys|
    ensures Injective(m) ==> |Image(m, keys)| == |keys|
  {
    if keys == {} {
      assert Image(m, keys) == {};
    } else {
      var k := AnyOf(keys);
      ImageSize(m, keys - {k});
      assert Image(m, keys) == Image(m, keys - {k}) + {m[k]};
    }
  }

  lemma {:induction false} SubsetSize<T>(a: set<T>, b: set<T>)
    requires a <= b
    ensures |a| <= |b|
  {
    assert b == a + (b - a);
  }

  /** Any matching is at most twice as large as the greedy one. */
  lemma {:induction false} GreedyIsAtLeastHalf(expected: seq<ExpectedEvent>, observed: seq<Transition>, m: Pairing)
    requires Matching(expected, observed, m)
    ensures |m| <= 2 * |Greedy(expected, observed, |expected|)|
  {
    var g := Greedy(expected, observed, |expected|);
    var (both, lost) := (m.Keys * g.Keys, m.Keys - g.Keys);
    forall v | v in Image(m, lost) ensures v in Used(g) {
      var i :| i in lost && m[i] == v;
      GreedyIsMaximal(expected, observed, |expected|, i, v);
    }
    assert m.Keys == both + lost;
    SubsetSize(both, g.Keys);
    ImageSize(m, lost);
    SubsetSize(Image(m, lost), Used(g));
    ImageSize(g, g.Keys);
    assert Used(g) == Image(g, g.Keys);
  }

  // ---------------------------------------------------------- optimal in order

  /** Some transition could be compatible with both. */
  predicate Overlap(a: ExpectedEvent, b: ExpectedEvent) {
    a.event == b.event && a.state == b.state && AbsDiff(a.timestampMs, b.timestampMs) <= a.toleranceMs + b.toleranceMs
  }

  /** Among annotations that overlap, later ones never close earlier. */
  ghost predicate DeadlinesOrdered(expected: seq<ExpectedEvent>) {
    forall i, j :: 0 <= i < j < |expected| && Overlap(expected[i], expected[j])
      ==> expected[i].timestampMs + expected[i].toleranceMs <= expected[j].timestampMs + expected[j].toleranceMs
  }

  /** Transitions of one kind are in time order. */
  ghost predicate TimesOrdered(observed: seq<Transition>) {
    forall i, j :: 0 <= i < j < |observed|
      && observed[i].event == observed[j].event && observed[i].signal == observed[j].signal
      ==> observed[i].timestampMs <= observed[j].timestampMs
  }

  /** `m` makes the choices of `g` for the first `n` annotations. */
  ghost predicate Agrees(m: Pairing, g: Pairing, n: nat) {
    forall i :: 0 <= i < n ==> (i in m <==> i in g) && (i in m ==> m[i] == g[i])
  }

  /** Uncrossing two pairs keeps them compatible. */
  lemma {:induction false} Uncross(expected: seq<ExpectedEvent>, observed: seq<Transition>, i: nat, i': nat, j: nat, j': nat)
    requires DeadlinesOrdered(expected) && TimesOrdered(observed)
    requires i < i' < |expected| && j < j' < |observed|
    requires Compatible(expected[i], observed[j']) && Compatible(expected[i'], observed[j])
    requires Compatible(expected[i], observed[j])
    ensures Compatible(expected[i'], observed[j'])
  {
    assert Overlap(expected[i], expected[i']);
  }

  /** If the greedy rule finds nothing for annotation n, neither does an agreeing matching. */
  lemma {:induction false} NothingToFollow(expected: seq<ExpectedEvent>, observed: seq<Transition>, g: Pairing, m: Pairing, n: nat)
    requires n < |expected| && Matching(expected, observed, m) && Agrees(m, g, n)
    requires forall i :: i in g ==> 0 <= i < n
    requires FirstFree(expected[n], observed, Used(g), 0) == None
    ensures Agrees(m, g, n + 1)
  {
    if n in m { ChosenOnce(expected, observed, g, m, n); }
  }

  /** What an agreeing matching gives to annotation n, the greedy choices have not used. */
  lemma {:induction false} ChosenOnce(expected: seq<ExpectedEvent>, observed: seq<Transition>, g: Pairing, m: Pairing, n: nat)
    requires n < |expected| && Matching(expected, observed, m) && Agrees(m, g, n)
    requires forall i :: i in g ==> 0 <= i < n
    requires n in m
    ensures m[n] !in Used(g) && Free(expected[n], observed, Used(g), m[n])
  {
    forall i | i in g ensures g[i] != m[n] {
      assert i in m && m[i] == g[i];
    }
  }

  /** An agreeing matching can only use transitions at or after the greedy choice for n, and
      gives that choice to no annotation before n. */
  lemma {:induction false} ChoiceIsEarliest(expected: seq<ExpectedEvent>, observed: seq<Transition>, g: Pairing, m: Pairing, n: nat, j: nat)
    requires n < |expected| && Matching(expected, observed, m) && Agrees(m, g, n)
    requires forall i :: i in g ==> 0 <= i < n
    requires FirstFree(expected[n], observed, Used(g), 0) == Some(j)
    ensures n in m ==> m[n] >= j
    ensures forall i :: i in m && m[i] == j ==> i >= n
  {
    if n in m { ChosenOnce(expected, observed, g, m, n); }
    forall i | i in m && i < n ensures m[i] != j {
      assert g[i] in Used(g);
    }
  }

  lemma {:induction false} MatchingWith(expected: seq<ExpectedEvent>, observed: seq<Transition>, m: Pairing, n: nat, j: nat)
    requires Matching(expected, observed, m)
    requires n < |expected| && j < |observed| && Compatible(expected[n], observed[j])
    requires forall i :: i in m && i != n ==> m[i] != j
    ensures Matching(expected, observed, m[n := j])
  {
    var m' := m[n := j];
    forall i | i in m'
      ensures 0 <= i < |expected| && 0 <= m'[i] < |observed| && Compatible(expected[i], observed[m'[i]])
    {
      assert i != n ==> i in m && m'[i] == m[i];
    }
    forall a, b | a in m' && b in m' && m'[a] == m'[b] ensures a == b {
      assert a != n ==> a in m && m'[a] == m[a];
      assert b != n ==> b in m && m'[b] == m[b];
    }
  }

  lemma {:induction false} AgreesWith(m: Pairing, g: Pairing, n: nat, j: nat)
    requires Agrees(m, g, n)
    ensures Agrees(m[n := j], g[n := j], n + 1)
  {
    var (m', g') := (m[n := j], g[n := j]);
    forall i | 0 <= i < n + 1 ensures (i in m' <==> i in g') && (i in m' ==> m'[i] == g'[i]) {
      assert i != n ==> (i in m <==> i in g) && (i in m ==> m[i] == g[i]);
    }
  }

  /** Nobody holds the greedy choice: take it. */
  lemma {:induction false} TakeFree(expected: seq<ExpectedEvent>, observed: seq<Transition>, g: Pairing, m: Pairing, n: nat, j: nat)
    returns (m': Pairing)
    requires n < |expected| && j < |observed| && Compatible(expected[n], observed[j])
    requires Matching(expected, observed, m) && Agrees(m, g, n)
    requires forall i :: i in m ==> m[i] != j
    ensures Matching(expected, observed, m') && Agrees(m', g[n := j], n + 1) && |m'| >= |m|
  {
    m' := m[n := j];
    MatchingWith(expected, observed, m, n, j);
    AgreesWith(m, g, n, j);
    SizeWith(m, n, j);
  }

  lemma {:induction false} SizeWith(m: Pairing, n: int, j: int)
    ensures |m[n := j]| == |m| + if n in m then 0 else 1
  {
    assert m[n := j].Keys == m.Keys + {n};
    assert |m[n := j]| == |m[n := j].Keys| && |m| == |m.Keys|;
  }

  lemma {:induction false} WithoutOne(expected: seq<ExpectedEvent>, observed: seq<Transition>, m: Pairing, g: Pairing, n: nat, i: int)
    requires Matching(expected, observed, m) && Agrees(m, g, n) && i in m && n <= i
    ensures Matching(expected, observed, m - {i}) && Agrees(m - {i}, g, n) && |m - {i}| == |m| - 1
  {
    var m' := m - {i};
    assert m'.Keys == m.Keys - {i} && |m'| == |m'.Keys| && |m| == |m.Keys|;
  }

  /** A later annotation holds the greedy choice and n has nothing: take it away. */
  lemma {:induction false} TakeFromLater(expected: seq<ExpectedEvent>, observed: seq<Transition>, g: Pairing, m: Pairing, n: nat, j: nat, i: int)
    returns (m': Pairing)
    requires n < i && n !in m && i in m && m[i] == j && Matching(expected, observed, m) && Agrees(m, g, n)
    requires Compatible(expected[n], observed[j])
    ensures Matching(expected, observed, m') && Agrees(m', g[n := j], n + 1) && |m'| >= |m|
  {
    var rest := m - {i};
    WithoutOne(expected, observed, m, g, n, i);
    forall k | k in rest ensures rest[k] != j {
      assert k in m && rest[k] == m[k];
    }
    m' := rest[n := j];
    MatchingWith(expected, observed, rest, n, j);
    AgreesWith(rest, g, n, j);
    SizeWith(rest, n, j);
  }

  /** A later annotation holds the greedy choice: trade transitions with it. */
  lemma {:induction false} TradeWithLater(expected: seq<ExpectedEvent>, observed: seq<Transition>, g: Pairing, m: Pairing, n: nat, j: nat, i: int)
    returns (m': Pairing)
    requires DeadlinesOrdered(expected) && TimesOrdered(observed)
    requires n < i && i in m && m[i] == j && Matching(expected, observed, m) && Agrees(m, g, n)
    requires Compatible(expected[n], observed[j]) && n in m && m[n] > j
    ensures Matching(expected, observed, m') && Agrees(m', g[n := j], n + 1) && |m'| >= |m|
  {
    Uncross(expected, observed, n, i, j, m[n]);
    m' := m[n := j][i := m[n]];
    assert m'.Keys == m.Keys;
    forall a, b | a in m' && b in m' && m'[a] == m'[b] ensures a == b {
      var a' := if a == n then i else if a == i then n else a;
      var b' := if b == n then i else if b == i then n else b;
      assert m[a'] == m'[a] && m[b'] == m'[b];
    }
  }

  /** From agreement with n greedy choices to agreement with one more, without losing pairs. */
  lemma {:induction false} FollowChoice(
      expected: seq<ExpectedEvent>, observed: seq<Transition>, m: Pairing, n: nat, g: Pairing, choice: Option<nat>)
    returns (m': Pairing)
    requires DeadlinesOrdered(expected) && TimesOrdered(observed) && n < |expected|
    requires (forall i :: i in g ==> 0 <= i < n) && choice == FirstFree(expected[n], observed, Used(g), 0)
    requires Matching(expected, observed, m) && Agrees(m, g, n)
    ensures Matching(expected, observed, m') && |m'| >= |m|
    ensures Agrees(m', if choice.None? then g else g[n := choice.value], n + 1)
  {
    if choice.None? {
      NothingToFollow(expected, observed, g, m, n);
      return m;
    }
    var j := choice.value;
    ChoiceIsEarliest(expected, observed, g, m, n, j);
    if n in m && m[n] == j { return m; }
    if i :| i in m && m[i] == j {
      if n in m {
        m' := TradeWithLater(expected, observed, g, m, n, j, i);
      } else {
        m' := TakeFromLater(expected, observed, g, m, n, j, i);
      }
    } else {
      m' := TakeFree(expected, observed, g, m, n, j);
    }
  }

  /** `gs[k]` is the greedy pairing after k annotations. */
  ghost predicate IsGreedy(expected: seq<ExpectedEvent>, observed: seq<Transition>, gs: seq<Pairing>) {
    |gs| == |expected| + 1 && gs[0] == map[] && forall k :: 0 <= k < |expected| ==> NextGreedy(expected, observed, gs, k)
  }

  ghost predicate NextGreedy(expected: seq<ExpectedEvent>, observed: seq<Transition>, gs: seq<Pairing>, k: nat)
    requires |gs| == |expected| + 1 && k < |expected|
  {
    var choice := FirstFree(expected[k], observed, Used(gs[k]), 0);
    && (forall i :: i in gs[k] ==> 0 <= i < k)
    && gs[k + 1] == if choice.None? then gs[k] else gs[k][k := choice.value]
  }

  lemma {:induction false} GreedySequence(expected: seq<ExpectedEvent>, observed: seq<Transition>) returns (gs: seq<Pairing>)
    ensures IsGreedy(expected, observed, gs) && gs[|expected|] == Greedy(expected, observed, |expected|)
  {
    gs := seq(|expected| + 1, k requires 0 <= k <= |expected| => Greedy(expected, observed, k));
    forall k | 0 <= k < |expected| ensures NextGreedy(expected, observed, gs, k) {
      GreedyIsMatching(expected, observed, k);
      assert gs[k] == Greedy(expected, observed, k) && gs[k + 1] == Greedy(expected, observed, k + 1);
    }
  }

  lemma {:induction false} ChoiceAt(expected: seq<ExpectedEvent>, observed: seq<Transition>, gs: seq<Pairing>, k: nat)
    returns (choice: Option<nat>)
    requires IsGreedy(expected, observed, gs) && k < |expected|
    ensures choice == FirstFree(expected[k], observed, Used(gs[k]), 0) && (forall i :: i in gs[k] ==> 0 <= i < k)
    ensures gs[k + 1] == if choice.None? then gs[k] else gs[k][k := choice.value]
  {
    assert NextGreedy(expected, observed, gs, k);
    choice := FirstFree(expected[k], observed, Used(gs[k]), 0);
  }

  lemma {:induction false} FollowNext(
      expected: seq<ExpectedEvent>, observed: seq<Transition>, before: Pairing, k: nat, gs: seq<Pairing>)
    returns (m: Pairing)
    requires DeadlinesOrdered(expected) && TimesOrdered(observed) && k < |expected| && IsGreedy(expected, observed, gs)
    requires Matching(expected, observed, before) && Agrees(before, gs[k], k)
    ensures Matching(expected, observed, m) && Agrees(m, gs[k + 1], k + 1) && |m| >= |before|
  {
    var choice := ChoiceAt(expected, observed, gs, k);
    m := FollowChoice(expected, observed, before, k, gs[k], choice);
  }

  lemma {:induction false} FollowGreedy(
      expected: seq<ExpectedEvent>, observed: seq<Transition>, m: Pairing, n: nat, gs: seq<Pairing>)
    returns (m': Pairing)
    requires DeadlinesOrdered(expected) && TimesOrdered(observed) && n <= |expected|
    requires Matching(expected, observed, m) && IsGreedy(expected, observed, gs)
    ensures Matching(expected, observed, m') && Agrees(m', gs[n], n) && |m'| >= |m|
  {
    m' := m;
    if n > 0 {
      m' := FollowGreedy(expected, observed, m, n - 1, gs);
      m' := FollowNext(expected, observed, m', n - 1, gs);
    }
  }

  /**
   * When annotations that overlap close in order and transitions of a kind come in time order,
   * no matching is larger than the greedy one. Annotations in time order with one shared
   * tolerance are a special case.
   */
  lemma {:induction false} GreedyIsMaximum(expected: seq<ExpectedEvent>, observed: seq<Transition>, m: Pairing)
    requires DeadlinesOrdered(expected) && TimesOrdered(observed) && Matching(expected, observed, m)
    ensures |m| <= |Greedy(expected, observed, |expected|)|
  {
    var gs := GreedySequence(expected, observed);
    var best := FollowGreedy(expected, observed, m, |expected|, gs);
    var g := gs[|expected|];
    forall i | i in best.Keys ensures i in g.Keys {
      assert 0 <= i < |expected|;
    }
    SubsetSize(best.Keys, g.Keys);
  }

  /** Out of order half is all there is: an early wide annotation takes a later one's only partner. */
  lemma {:induction false} HalfIsTight(event: string, state: Signal, t: Transition)
    requires t.event == event && t.signal == state
    ensures var expected := [ExpectedEvent(event, state, 100, 100), ExpectedEvent(event, state, 50, 10)];
            var observed := [t.(timestampMs := 50), t.(timestampMs := 150)];
            Matching(expected, observed, map[0 := 1, 1 := 0]) && |Greedy(expected, observed, 2)| == 1
  {
    var expected := [ExpectedEvent(event, state, 100, 100), ExpectedEvent(event, state, 50, 10)];
    var observed := [t.(timestampMs := 50), t.(timestampMs := 150)];
    assert FirstFree(expected[0], observed, {}, 0) == Some(0);
    var g: Pairing := map[0 := 0];
    assert Greedy(expected, observed, 1) == g;
    var empty: Pairing := map[];
    UsedOfPushed(empty, 0, 0);
    assert FirstFree(expected[1], observed, Used(g), 2) == None;
    assert FirstFree(expected[1], observed, Used(g), 1) == None;
    assert FirstFree(expected[1], observed, Used(g), 0) == None;
  }

  // -------------------------------------------------------------- the verdict

  function Upto(n: nat): (s: set<int>)
    ensures forall i :: i in s <==> 0 <= i < n
    ensures |s| == n
  {
    if n == 0 then {} else Upto(n - 1) + {n - 1}
  }

  lemma {:induction false} GreedySize(expected: seq<ExpectedEvent>, observed: seq<Transition>)
    ensures var g := Greedy(expected, observed, |expected|);
            |g| <= |expected| && |g| <= |observed|
            && (|g| == |expected| <==> g.Keys == Upto(|expected|))
            && (|g| == |observed| <==> Used(g) == Upto(|observed|))
  {
    var g := Greedy(expected, observed, |expected|);
    GreedyIsMatching(expected, observed, |expected|);
    ImageSize(g, g.Keys);
    assert Used(g) == Image(g, g.Keys);
    SubsetOfUpto(g.Keys, |expected|);
    SubsetOfUpto(Used(g), |observed|);
  }

  lemma {:induction false} SubsetOfUpto(s: set<int>, n: nat)
    requires forall x :: x in s ==> 0 <= x < n
    ensures |s| <= n && (|s| == n <==> s == Upto(n))
  {
    assert Upto(n) == s + (Upto(n) - s);
  }

  lemma {:induction false} RatioReachesOne(numerator: nat, denominator: nat)
    requires numerator <= denominator
    ensures Ratio(numerator, denominator) >= 1.0 <==> numerator == denominator
  {
    if denominator > 0 {
      QuotientBelowOne(numerator as real, denominator as real);
    }
  }

  lemma {:induction false} QuotientBelowOne(n: real, d: real)
    requires 0.0 <= n <= d && d > 0.0
    ensures n / d >= 1.0 <==> n == d
  {
    assert (n / d) * d == n;
    assert n / d < 1.0 ==> (n / d) * d < 1.0 * d;
    assert n / d >= 1.0 ==> (n / d) * d >= 1.0 * d;
  }

  /** Nothing is lost in the counts, and the default thresholds pass exactly a perfect pairing. */
  lemma {:induction false} PassedExactlyWhenAllPaired(expected: seq<ExpectedEvent>, observed: seq<Transition>)
    ensures var (metrics, g) := (Evaluate(expected, observed, DEFAULT_REGRESSION), Greedy(expected, observed, |expected|));
            metrics.matched + metrics.duplicates == |observed|
            && metrics.matched + metrics.misses == |expected|
            && (metrics.passed <==> g.Keys == Upto(|expected|) && Used(g) == Upto(|observed|))
  {
    GreedySize(expected, observed);
    var matched := |Greedy(expected, observed, |expected|)|;
    RatioReachesOne(matched, |expected|);
    RatioReachesOne(matched, |observed|);
  }
}
