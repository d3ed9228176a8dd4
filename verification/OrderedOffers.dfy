/**
 * Offering one item to a row of stateful receivers: to all of them in order (`Scan`), or
 * only to listed positions (`Pass`). Generic in the receiver, so that nothing here depends
 * on what the rules do with an observation.
 */
module OrderedOffers {
  import opened Prelude

  function Emitted<T>(t: Option<T>): seq<T> {
    if t.Some? then [t.value] else []
  }

  function Scan<R, T>(rules: seq<R>, offer: R -> (R, Option<T>)): (r: (seq<R>, seq<T>))
    ensures |r.0| == |rules|
  {
    if rules == [] then ([], [])
    else
      var (before, ts) := Scan(rules[..|rules| - 1], offer);
      var (rule, t) := offer(rules[|rules| - 1]);
      (before + [rule], ts + Emitted(t))
  }

  /** Positions of the related rules, in order. */
  function Positions<R>(rules: seq<R>, related: R -> bool): (s: seq<nat>)
    ensures forall k :: 0 <= k < |s| ==> s[k] < |rules|
  {
    if rules == [] then []
    else Positions(rules[..|rules| - 1], related) + if related(rules[|rules| - 1]) then [|rules| - 1] else []
  }

  function Pass<R, T>(rules: seq<R>, list: seq<nat>, offer: R -> (R, Option<T>)): (r: (seq<R>, seq<T>))
    requires forall k :: 0 <= k < |list| ==> list[k] < |rules|
    ensures |r.0| == |rules|
  {
    if list == [] then (rules, [])
    else
      var (before, ts) := Pass(rules, list[..|list| - 1], offer);
      var i := list[|list| - 1];
      var (rule, t) := offer(before[i]);
      (before[i := rule], ts + Emitted(t))
  }

  /** What one more offer does. */
  lemma {:induction false} PassMore<R, T>(
      rules: seq<R>, list: seq<nat>, k: nat, offer: R -> (R, Option<T>), now: (seq<R>, seq<T>), next: (seq<R>, seq<T>))
    requires k < |list| && forall j :: 0 <= j < |list| ==> list[j] < |rules|
    requires now == Pass(rules, list[..k], offer)
    requires next == (now.0[list[k] := offer(now.0[list[k]]).0], now.1 + Emitted(offer(now.0[list[k]]).1))
    ensures next == Pass(rules, list[..k + 1], offer)
  {
    assert list[..k + 1][..k] == list[..k];
  }

  ghost predicate IgnoredUnless<R, T>(rules: seq<R>, related: R -> bool, offer: R -> (R, Option<T>)) {
    forall i :: 0 <= i < |rules| && !related(rules[i]) ==> offer(rules[i]) == (rules[i], None)
  }

  lemma {:induction false} PassOnPrefix<R, T>(rules: seq<R>, last: R, list: seq<nat>, offer: R -> (R, Option<T>))
    requires forall k :: 0 <= k < |list| ==> list[k] < |rules|
    ensures Pass(rules + [last], list, offer)
         == (Pass(rules, list, offer).0 + [last], Pass(rules, list, offer).1)
  {
    if list == [] {
    } else {
      var (init, i) := (list[..|list| - 1], list[|list| - 1]);
      PassOnPrefix(rules, last, init, offer);
      var before := Pass(rules, init, offer).0;
      assert (before + [last])[i] == before[i];
      assert (before + [last])[i := offer(before[i]).0] == before[i := offer(before[i]).0] + [last];
    }
  }

  /** If the unrelated rules ignore the item, passing it to the related ones is the full scan. */
  lemma {:induction false} PassIsScan<R, T>(rules: seq<R>, related: R -> bool, offer: R -> (R, Option<T>))
    requires IgnoredUnless(rules, related, offer)
    ensures Pass(rules, Positions(rules, related), offer) == Scan(rules, offer)
  {
    if rules == [] {
    } else {
      var (init, last) := (rules[..|rules| - 1], rules[|rules| - 1]);
      assert forall i :: 0 <= i < |init| ==> init[i] == rules[i];
      var list := Positions(init, related);
      PassIsScan(init, related, offer);
      PassOnPrefix(init, last, list, offer);
      assert init + [last] == rules;
      if related(last) {
        assert (list + [|init|])[..|list|] == list;
        var before := Pass(rules, list, offer).0;
        assert before[|init| := offer(last).0] == Scan(init, offer).0 + [offer(last).0];
      } else {
        assert list + [] == list;
        assert offer(rules[|init|]) == (last, None);
        assert Scan(init, offer).1 + [] == Scan(init, offer).1;
      }
    }
  }
}
