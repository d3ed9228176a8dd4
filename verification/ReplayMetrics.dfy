/**
 * What the metrics of a replay evaluation mean, said of the pairing itself: the shares of
 * transitions and of annotations that are paired, the mean distance of the pairs, and the
 * verdict for arbitrary thresholds.
 */
module ReplayMetrics {
  import opened Prelude
  import opened Observations
  import opened ReplayMatching

  /** A pair has one event and state, and the transition lies in the closed window of the annotation. */
  lemma {:induction false} PairsLieInWindow(expected: seq<ExpectedEvent>, observed: seq<Transition>, m: Pairing)
    ensures Matching(expected, observed, m) <==>
      && Injective(m)
      && forall i :: i in m ==>
           && 0 <= i < |expected| && 0 <= m[i] < |observed|
           && observed[m[i]].event == expected[i].event && observed[m[i]].signal == expected[i].state
           && expected[i].timestampMs <= observed[m[i]].timestampMs + expected[i].toleranceMs
           && observed[m[i]].timestampMs <= expected[i].timestampMs + expected[i].toleranceMs
  {
    if Matching(expected, observed, m) {
      forall i | i in m ensures Compatible(expected[i], observed[m[i]]) {}
    }
  }

  /** Distance in time of the pair of annotation i, if it has one. */
  function Distance(expected: seq<ExpectedEvent>, observed: seq<Transition>, m: Pairing, i: nat): nat
    requires i < |expected| && (i in m ==> 0 <= m[i] < |observed|)
  {
    if i in m then AbsDiff(observed[m[i]].timestampMs, expected[i].timestampMs) else 0
  }

  /** Sum of the distances over the pairs of the first n annotations. */
  function Distances(expected: seq<ExpectedEvent>, observed: seq<Transition>, m: Pairing, n: nat): nat
    requires n <= |expected| && Matching(expected, observed, m)
  {
    if n == 0 then 0 else Distances(expected, observed, m, n - 1) + Distance(expected, observed, m, n - 1)
  }

  lemma {:induction false} SameDistances(
      expected: seq<ExpectedEvent>, observed: seq<Transition>, a: Pairing, b: Pairing, n: nat)
    requires n <= |expected| && Matching(expected, observed, a) && Matching(expected, observed, b)
    requires forall i :: 0 <= i < n ==> (i in a <==> i in b) && (i in a ==> a[i] == b[i])
    ensures Distances(expected, observed, a, n) == Distances(expected, observed, b, n)
  {
    if n > 0 { SameDistances(expected, observed, a, b, n - 1); }
  }

  /** One more annotation leaves the earlier pairs as they are. */
  lemma {:induction false} OneMorePair(expected: seq<ExpectedEvent>, observed: seq<Transition>, n: nat)
    requires 0 < n <= |expected|
    ensures var (g, h) := (Greedy(expected, observed, n - 1), Greedy(expected, observed, n));
      var j := FirstFree(expected[n - 1], observed, Used(g), 0);
      && (forall i :: 0 <= i < n - 1 ==> (i in g <==> i in h) && (i in g ==> g[i] == h[i]))
      && (n - 1 in h <==> j.Some?) && (j.Some? ==> h[n - 1] == j.value)
  {
    GreedyIsMatching(expected, observed, n - 1);
  }

  /** The accumulated latency is that sum. */
  lemma {:induction false} LatencyIsDistances(expected: seq<ExpectedEvent>, observed: seq<Transition>, g: Pairing, n: nat)
    requires n <= |expected| && g == Greedy(expected, observed, n)
    ensures Matching(expected, observed, g) && Latency(expected, observed, n) == Distances(expected, observed, g, n)
  {
    GreedyIsMatching(expected, observed, n);
    if n > 0 {
      var before := Greedy(expected, observed, n - 1);
      LatencyIsDistances(expected, observed, before, n - 1);
      OneMorePair(expected, observed, n);
      SameDistances(expected, observed, before, g, n - 1);
    }
  }

  lemma {:induction false} RatioTimes(numerator: nat, denominator: nat, threshold: real)
    requires numerator <= denominator
    ensures denominator > 0 ==> Ratio(numerator, denominator) * denominator as real == numerator as real
    ensures denominator > 0 ==>
      (Ratio(numerator, denominator) >= threshold <==> numerator as real >= threshold * denominator as real)
    ensures denominator == 0 ==> Ratio(numerator, denominator) == 1.0
    ensures Ratio(numerator, denominator) == 1.0 <==> numerator == denominator
  {
    if denominator > 0 {
      QuotientTimes(numerator as real, denominator as real, threshold);
      QuotientTimes(numerator as real, denominator as real, 1.0);
    }
  }

  lemma {:induction false} QuotientTimes(n: real, d: real, threshold: real)
    requires d > 0.0
    ensures (n / d) * d == n
    ensures n / d >= threshold <==> n >= threshold * d
    ensures n / d <= threshold <==> n <= threshold * d
    ensures n / d == threshold <==> n == threshold * d
  {
    var q := n / d;
    assert q * d == n;
    assert q >= threshold ==> q * d >= threshold * d;
    assert q < threshold ==> q * d < threshold * d;
    assert q <= threshold ==> q * d <= threshold * d;
    assert q > threshold ==> q * d > threshold * d;
  }

  /** The metrics of an evaluation that has made the pairing `m`. */
  ghost predicate Describes(expected: seq<ExpectedEvent>, observed: seq<Transition>, r: Regression, m: Pairing, metrics: Metrics)
    requires Matching(expected, observed, m)
  {
    && Adds(|expected|, |observed|, |m|, Distances(expected, observed, m, |expected|), r, metrics)
    && (metrics.precision == 1.0 <==> forall j :: 0 <= j < |observed| ==> j in Used(m))
    && (metrics.recall == 1.0 <==> forall i :: 0 <= i < |expected| ==> i in m)
  }

  /** Metrics of so many annotations, transitions and pairs with so much distance in all. */
  predicate Adds(expected: nat, observed: nat, matched: nat, distances: nat, r: Regression, metrics: Metrics) {
    && metrics.expected == expected && metrics.observed == observed && metrics.matched == matched
    && metrics.matched + metrics.duplicates == observed && metrics.matched + metrics.misses == expected
    && SharesAre(matched, observed, metrics.precision) && SharesAre(matched, expected, metrics.recall)
    && (metrics.meanLatencyMs.Some? <==> matched > 0)
    && (metrics.meanLatencyMs.Some? ==> metrics.meanLatencyMs.value * matched as real == distances as real)
    && (metrics.passed
        <==> Reaches(matched, observed, r.minimumPrecision) && Reaches(matched, expected, r.minimumRecall)
             && (r.maximumMeanLatencyMs.Some? ==>
                   matched > 0 && distances as real <= r.maximumMeanLatencyMs.value * matched as real))
  }

  /** `share` of `all` is `part`; all of nothing is everything. */
  predicate SharesAre(part: nat, all: nat, share: real) {
    share * all as real == part as real && (all == 0 ==> share == 1.0)
  }

  predicate Reaches(part: nat, all: nat, threshold: real) {
    if all == 0 then threshold <= 1.0 else part as real >= threshold * all as real
  }

  lemma {:induction false} MeanTimes(matched: nat, total: nat, limit: real)
    requires matched > 0
    ensures total as real / matched as real * matched as real == total as real
    ensures total as real / matched as real <= limit <==> total as real <= limit * matched as real
  {
    QuotientTimes(total as real, matched as real, limit);
  }

  lemma {:induction false} CompletePairings(expected: seq<ExpectedEvent>, observed: seq<Transition>, g: Pairing)
    requires g == Greedy(expected, observed, |expected|)
    ensures |g| <= |expected| && |g| <= |observed|
    ensures |g| == |observed| <==> forall j :: 0 <= j < |observed| ==> j in Used(g)
    ensures |g| == |expected| <==> forall i :: 0 <= i < |expected| ==> i in g
  {
    GreedySize(expected, observed);
    GreedyIsMatching(expected, observed, |expected|);
    AllOfUpto(Used(g), |observed|);
    AllOfUpto(g.Keys, |expected|);
  }

  lemma {:induction false} AllOfUpto(s: set<int>, n: nat)
    requires forall x :: x in s ==> 0 <= x < n
    ensures s == Upto(n) <==> forall x :: 0 <= x < n ==> x in s
  {}

  lemma {:induction false} ShareReaches(part: nat, all: nat, threshold: real)
    requires part <= all
    ensures SharesAre(part, all, Ratio(part, all))
    ensures Ratio(part, all) >= threshold <==> Reaches(part, all, threshold)
    ensures Ratio(part, all) == 1.0 <==> part == all
  {
    RatioTimes(part, all, threshold);
  }

  lemma {:induction false} EvaluationAdds(
      expected: nat, observed: nat, matched: nat, total: nat, r: Regression, mean: Option<real>, metrics: Metrics)
    requires matched <= expected && matched <= observed
    requires mean == if matched == 0 then None else Some(total as real / matched as real)
    requires metrics == Metrics(
      expected, observed, matched, observed - matched, expected - matched,
      Ratio(matched, observed), Ratio(matched, expected), mean,
      Ratio(matched, observed) >= r.minimumPrecision && Ratio(matched, expected) >= r.minimumRecall
      && (r.maximumMeanLatencyMs.Some? ==> mean.Some? && mean.value <= r.maximumMeanLatencyMs.value))
    ensures Adds(expected, observed, matched, total, r, metrics)
    ensures (metrics.precision == 1.0 <==> matched == observed) && (metrics.recall == 1.0 <==> matched == expected)
  {
    ShareReaches(matched, observed, r.minimumPrecision);
    ShareReaches(matched, expected, r.minimumRecall);
    if matched > 0 {
      MeanTimes(matched, total, if r.maximumMeanLatencyMs.Some? then r.maximumMeanLatencyMs.value else 0.0);
    }
  }

  /** Every evaluation reports the shares, distances and verdict of its one-to-one pairing. */
  lemma {:induction false} MetricsDescribePairing(expected: seq<ExpectedEvent>, observed: seq<Transition>, r: Regression)
    ensures Matching(expected, observed, Greedy(expected, observed, |expected|))
    ensures Describes(expected, observed, r, Greedy(expected, observed, |expected|), Evaluate(expected, observed, r))
  {
    var (g, metrics) := (Greedy(expected, observed, |expected|), Evaluate(expected, observed, r));
    LatencyIsDistances(expected, observed, g, |expected|);
    CompletePairings(expected, observed, g);
    EvaluationAdds(|expected|, |observed|, |g|, Latency(expected, observed, |expected|), r, metrics.meanLatencyMs, metrics);
  }
}
