/**
 * Exactly when overlay suppression gives every target an owner, and exactly when it gives
 * no target two: both are conditions on the configured overlays alone.
 */
module TargetOwners {
  import opened Prelude
  import opened Observations
  import opened Recognition
  import opened StableSorting
  import opened SceneResolution
  import opened SceneHints

  predicate Enabled(overlays: seq<Overlay>, id: LayerId) {
    OverlayOf(overlays, id).Some? && OverlayOf(overlays, id).value.layer.enabled
  }

  /** Candidates as one sample brings them forth: of enabled overlays, at most one for each. */
  ghost predicate CandidatesOf(overlays: seq<Overlay>, cs: multiset<Candidate>) {
    && (forall c :: c in cs ==> cs[c] == 1 && Enabled(overlays, c.id))
    && (forall c, d :: c in cs && d in cs && c.id == d.id ==> c == d)
  }

  predicate Claims(overlays: seq<Overlay>, id: LayerId, target: string)
    requires Enabled(overlays, id)
  {
    target in OverlayOf(overlays, id).value.targets
  }

  function Rating(overlays: seq<Overlay>, id: LayerId): int
    requires Enabled(overlays, id)
  {
    OverlayOf(overlays, id).value.layer.priority
  }

  lemma {:induction false} OverlayOfPosition(overlays: seq<Overlay>, i: nat)
    requires UniqueLayers(OverlayLayers(overlays)) && i < |overlays|
    ensures OverlayOf(overlays, overlays[i].layer.id) == Some(overlays[i])
  {
    var n, layers := |overlays| - 1, OverlayLayers(overlays);
    assert layers[i] == overlays[i].layer && layers[n] == overlays[n].layer;
    if i < n {
      var init := OverlayLayers(overlays[..n]);
      forall j, k | 0 <= j < |init| && 0 <= k < |init| && init[j].id == init[k].id ensures j == k {
        assert layers[j] == init[j] && layers[k] == init[k];
      }
      OverlayOfPosition(overlays[..n], i);
    }
  }

  lemma {:induction false} ScoredAreEnabled(layers: seq<Layer>, histories: Histories, observations: Evidence, k: nat)
    returns (i: nat)
    requires k < |ScoreLayers(layers, histories, observations).0|
    ensures i < |layers| && layers[i].enabled && layers[i].id == ScoreLayers(layers, histories, observations).0[k].id
  {
    var n := |layers| - 1;
    if k < |ScoreLayers(layers[..n], histories, observations).0| {
      i := ScoredAreEnabled(layers[..n], histories, observations, k);
    } else {
      i := n;
    }
  }

  /** With distinct identifiers every sample's overlay candidates are of this kind. */
  lemma {:induction false} SampleHasCandidates(
      scenes: seq<Scene>, overlays: seq<Overlay>, m: ResolverMemory, observations: Evidence, hints: Option<Hints>)
    requires UniqueLayers(OverlayLayers(overlays))
    ensures CandidatesOf(overlays, multiset(ResolveSample(scenes, overlays, m, observations, hints).1.overlayCandidates))
  {
    var layers := OverlayLayers(overlays);
    var scored := ScoreLayers(layers, m.overlayEvidence, observations).0;
    SortFacts(scored, OverlayLess(PreferredOverlays(hints)));
    ScoredFacts(layers, m.overlayEvidence, observations);
    forall c: Candidate | c in multiset(scored) ensures multiset(scored)[c] == 1 && Enabled(overlays, c.id) {
      AtMostOnce(scored, c);
      var k :| 0 <= k < |scored| && scored[k] == c;
      var i := ScoredAreEnabled(layers, m.overlayEvidence, observations, k);
      OverlayOfPosition(overlays, i);
    }
    forall c: Candidate, d: Candidate | c in multiset(scored) && d in multiset(scored) && c.id == d.id ensures c == d {
      var k :| 0 <= k < |scored| && scored[k] == c;
      var l :| 0 <= l < |scored| && scored[l] == d;
      assert k == l;
    }
  }

  // ------------------------------------------- when every target keeps an owner

  /** Every overlay that shares a target with one of lower priority owns all its targets. */
  ghost predicate CoversLower(overlays: seq<Overlay>) {
    forall p, q, t, u ::
      (Enabled(overlays, p) && Enabled(overlays, q) && Rating(overlays, p) > Rating(overlays, q)
       && Claims(overlays, p, t) && Claims(overlays, q, t) && Claims(overlays, q, u)) ==> Claims(overlays, p, u)
  }

  ghost predicate HasShownOwner(overlays: seq<Overlay>, cs: multiset<Candidate>, target: string)
    requires CandidatesOf(overlays, cs)
  {
    exists d :: d in cs && Shown(overlays, cs, d) && Claims(overlays, d.id, target)
  }

  /** Each target of an eligible overlay has an owner that is shown. */
  ghost predicate KeepsOwners(overlays: seq<Overlay>, cs: multiset<Candidate>)
    requires CandidatesOf(overlays, cs)
  {
    forall c, t :: c in cs && c.eligible && Claims(overlays, c.id, t) ==> HasShownOwner(overlays, cs, t)
  }

  ghost predicate AlwaysKeepsOwners(overlays: seq<Overlay>) {
    forall cs :: CandidatesOf(overlays, cs) ==> KeepsOwners(overlays, cs)
  }

  ghost function Above(overlays: seq<Overlay>, cs: multiset<Candidate>, rating: int): set<Candidate>
    requires CandidatesOf(overlays, cs)
  {
    set c | c in cs && Rating(overlays, c.id) > rating
  }

  /** Climbing from an owner to one that outranks it ends at a shown owner. */
  lemma {:induction false} ClimbToShown(overlays: seq<Overlay>, cs: multiset<Candidate>, c: Candidate, t: string)
    requires CandidatesOf(overlays, cs) && CoversLower(overlays)
    requires c in cs && c.eligible && Claims(overlays, c.id, t)
    ensures HasShownOwner(overlays, cs, t)
    decreases |Above(overlays, cs, Rating(overlays, c.id))|
  {
    if Shown(overlays, cs, c) {
    } else {
      var d :| d in cs && Outranks(overlays, d, c);
      var shared :| shared in OverlayOf(overlays, d.id).value.targets && shared in OverlayOf(overlays, c.id).value.targets;
      assert Claims(overlays, d.id, shared) && Claims(overlays, c.id, shared);
      FewerAbove(overlays, cs, Rating(overlays, c.id), d);
      ClimbToShown(overlays, cs, d, t);
    }
  }

  lemma {:induction false} FewerAbove(overlays: seq<Overlay>, cs: multiset<Candidate>, rating: int, d: Candidate)
    requires CandidatesOf(overlays, cs) && d in cs && Rating(overlays, d.id) > rating
    ensures |Above(overlays, cs, Rating(overlays, d.id))| < |Above(overlays, cs, rating)|
  {
    var fewer, all := Above(overlays, cs, Rating(overlays, d.id)), Above(overlays, cs, rating);
    assert fewer <= all - {d} && d in all;
    SubsetIsNotLarger(fewer, all - {d});
  }

  lemma {:induction false} SubsetIsNotLarger<T>(a: set<T>, b: set<T>)
    requires a <= b
    ensures |a| <= |b|
  {
    assert b == a + (b - a);
  }

  /** Two candidates, both eligible. */
  lemma {:induction false} Pair(overlays: seq<Overlay>, p: LayerId, q: LayerId)
    returns (a: Candidate, b: Candidate, cs: multiset<Candidate>)
    requires Enabled(overlays, p) && Enabled(overlays, q) && p != q
    ensures a.id == p && b.id == q && a.eligible && b.eligible
    ensures CandidatesOf(overlays, cs) && a in cs && b in cs && forall d :: d in cs ==> d == a || d == b
  {
    a, b := Candidate(p, "", 1.0, true), Candidate(q, "", 1.0, true);
    cs := multiset{a, b};
  }

  lemma {:induction false} LowerLosesTarget(overlays: seq<Overlay>, p: LayerId, q: LayerId, t: string, u: string)
    requires Enabled(overlays, p) && Enabled(overlays, q) && Rating(overlays, p) > Rating(overlays, q)
    requires Claims(overlays, p, t) && Claims(overlays, q, t) && Claims(overlays, q, u) && !Claims(overlays, p, u)
    ensures !AlwaysKeepsOwners(overlays)
  {
    var a, b, cs := Pair(overlays, p, q);
    assert SharesTarget(OverlayOf(overlays, p).value, OverlayOf(overlays, q).value);
    assert Outranks(overlays, a, b) && !Shown(overlays, cs, b);
    assert !HasShownOwner(overlays, cs, u);
    assert !KeepsOwners(overlays, cs);
  }

  /** Whatever is eligible, each target of an eligible overlay keeps a shown owner, if and
      only if every overlay that shares a target with one of lower priority owns all of that
      one's targets. */
  lemma {:induction false} TargetsKeepOwnersExactly(overlays: seq<Overlay>)
    ensures AlwaysKeepsOwners(overlays) <==> CoversLower(overlays)
  {
    if CoversLower(overlays) {
      forall cs | CandidatesOf(overlays, cs) ensures KeepsOwners(overlays, cs) {
        forall c: Candidate, t | c in cs && c.eligible && Claims(overlays, c.id, t) ensures HasShownOwner(overlays, cs, t) {
          ClimbToShown(overlays, cs, c, t);
        }
      }
    } else {
      var p, q, t, u :| Enabled(overlays, p) && Enabled(overlays, q) && Rating(overlays, p) > Rating(overlays, q)
        && Claims(overlays, p, t) && Claims(overlays, q, t) && Claims(overlays, q, u) && !Claims(overlays, p, u);
      LowerLosesTarget(overlays, p, q, t, u);
    }
  }

  // ------------------------------------------- when no target has two owners

  /** No two different overlays of equal priority share a target. */
  ghost predicate EqualsAreDisjoint(overlays: seq<Overlay>) {
    forall p, q, t ::
      (p != q && Enabled(overlays, p) && Enabled(overlays, q) && Claims(overlays, p, t) && Claims(overlays, q, t))
      ==> Rating(overlays, p) != Rating(overlays, q)
  }

  ghost predicate SingleOwners(overlays: seq<Overlay>, cs: multiset<Candidate>)
    requires CandidatesOf(overlays, cs)
  {
    forall c, d, t ::
      (c in cs && d in cs && Shown(overlays, cs, c) && Shown(overlays, cs, d)
       && Claims(overlays, c.id, t) && Claims(overlays, d.id, t)) ==> c == d
  }

  ghost predicate AlwaysSingleOwners(overlays: seq<Overlay>) {
    forall cs :: CandidatesOf(overlays, cs) ==> SingleOwners(overlays, cs)
  }

  lemma {:induction false} EqualsAreBothShown(overlays: seq<Overlay>, p: LayerId, q: LayerId, t: string)
    requires p != q && Enabled(overlays, p) && Enabled(overlays, q)
    requires Claims(overlays, p, t) && Claims(overlays, q, t) && Rating(overlays, p) == Rating(overlays, q)
    ensures !AlwaysSingleOwners(overlays)
  {
    var a, b, cs := Pair(overlays, p, q);
    assert Shown(overlays, cs, a) && Shown(overlays, cs, b);
    assert !SingleOwners(overlays, cs);
  }

  /** Whatever is eligible, no target has two shown owners, if and only if no two different
      overlays of equal priority share a target. */
  lemma {:induction false} SingleOwnersExactly(overlays: seq<Overlay>)
    ensures AlwaysSingleOwners(overlays) <==> EqualsAreDisjoint(overlays)
  {
    if EqualsAreDisjoint(overlays) {
      forall cs | CandidatesOf(overlays, cs) ensures SingleOwners(overlays, cs) {
        forall c: Candidate, d: Candidate, t | c in cs && d in cs && Shown(overlays, cs, c) && Shown(overlays, cs, d)
          && Claims(overlays, c.id, t) && Claims(overlays, d.id, t)
          ensures c == d
        {
          assert SharesTarget(OverlayOf(overlays, c.id).value, OverlayOf(overlays, d.id).value);
          ShownOwnersAreEqual(overlays, cs, c, d);
        }
      }
    } else {
      var p, q, t :| p != q && Enabled(overlays, p) && Enabled(overlays, q) && Claims(overlays, p, t) && Claims(overlays, q, t)
        && Rating(overlays, p) == Rating(overlays, q);
      EqualsAreBothShown(overlays, p, q, t);
    }
  }
}
