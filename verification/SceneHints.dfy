/**
 * Caller hints are only a soft prior: which scene is chosen, whether a sample counts as
 * ambiguous and what the resolver remembers do not depend on them, on one sample and over
 * whole runs exactly when no margin tolerates a tie on top.
 */
module SceneHints {
  import opened Prelude
  import opened Recognition
  import opened StableSorting
  import opened SceneResolution

  // ------------------------------------------------------- the order is an order

  lemma {:induction false} TextOrder(a: string, b: string, c: string)
    ensures CompareText(a, b) == -CompareText(b, a)
    ensures CompareText(a, b) <= 0 && CompareText(b, c) <= 0 ==> CompareText(a, c) <= 0
  {
    if a != [] && b != [] {
      TextOrder(a[1..], b[1..], if c == [] then [] else c[1..]);
    }
  }

  /** Chaining a linear first comparison with a transitive second one is transitive. */
  lemma {:induction false} ThenOrder(x12: int, x23: int, x13: int, y12: int, y23: int, y13: int)
    requires x12 <= 0 && x23 <= 0 ==> x13 <= 0 && (x13 == 0 ==> x12 == 0 && x23 == 0)
    requires y12 <= 0 && y23 <= 0 ==> y13 <= 0
    ensures Then(x12, y12) <= 0 && Then(x23, y23) <= 0 ==> Then(x13, y13) <= 0
  {}

  lemma {:induction false} PriorityFacts(a: Key, b: Key, c: Key)
    ensures ByPriority(a, b) == -ByPriority(b, a)
    ensures ByPriority(a, b) <= 0 && ByPriority(b, c) <= 0 ==> ByPriority(a, c) <= 0
  {
    TextOrder(a.name, b.name, c.name);
  }

  lemma {:induction false} ProfileHintFacts(a: Key, b: Key, c: Key)
    ensures ByProfileHint(a, b) == -ByProfileHint(b, a)
    ensures ByProfileHint(a, b) <= 0 && ByProfileHint(b, c) <= 0 ==> ByProfileHint(a, c) <= 0
  {
    PriorityFacts(a, b, c);
    ThenOrder(CompareInt(b.hinted, a.hinted), CompareInt(c.hinted, b.hinted), CompareInt(c.hinted, a.hinted),
              ByPriority(a, b), ByPriority(b, c), ByPriority(a, c));
  }

  lemma {:induction false} CallerHintFacts(a: Key, b: Key, c: Key)
    ensures ByCallerHint(a, b) == -ByCallerHint(b, a)
    ensures ByCallerHint(a, b) <= 0 && ByCallerHint(b, c) <= 0 ==> ByCallerHint(a, c) <= 0
  {
    ProfileHintFacts(a, b, c);
    ThenOrder(CompareInt(a.rank, b.rank), CompareInt(b.rank, c.rank), CompareInt(a.rank, c.rank),
              ByProfileHint(a, b), ByProfileHint(b, c), ByProfileHint(a, c));
  }

  lemma {:induction false} KeyOrderFacts(a: Key, b: Key, c: Key)
    ensures KeyOrder(a, b) == -KeyOrder(b, a)
    ensures KeyOrder(a, b) <= 0 && KeyOrder(b, c) <= 0 ==> KeyOrder(a, c) <= 0
  {
    CallerHintFacts(a, b, c);
    ThenOrder(CompareReal(b.confidence, a.confidence), CompareReal(c.confidence, b.confidence),
              CompareReal(c.confidence, a.confidence),
              ByCallerHint(a, b), ByCallerHint(b, c), ByCallerHint(a, c));
  }

  lemma {:induction false} SceneLessIsOrder(scenes: seq<Scene>, p: seq<LayerId>, h: seq<LayerId>)
    ensures TotalPreorder(SceneLess(scenes, p, h))
  {
    var less := SceneLess(scenes, p, h);
    forall a, b | less(a, b) ensures !less(b, a) {
      KeyOrderFacts(KeyOf(scenes, p, h, a), KeyOf(scenes, p, h, b), KeyOf(scenes, p, h, b));
    }
    forall a, b, c | !less(b, a) && !less(c, b) ensures !less(c, a) {
      var (x, y, z) := (KeyOf(scenes, p, h, a), KeyOf(scenes, p, h, b), KeyOf(scenes, p, h, c));
      KeyOrderFacts(x, y, z);
      KeyOrderFacts(y, z, z);
      KeyOrderFacts(x, z, z);
    }
  }

  // ----------------------------------------------- what the ranking settles

  /** Ranked candidates: eligible ones in order of falling confidence. */
  ghost predicate Falling(es: seq<Candidate>) {
    forall i, j :: 0 <= i < j < |es| ==> es[i].confidence >= es[j].confidence
  }

  ghost predicate UniqueIds(es: seq<Candidate>) {
    forall i, j :: 0 <= i < |es| && 0 <= j < |es| && es[i].id == es[j].id ==> i == j
  }

  lemma {:induction false} RankedFacts(scenes: seq<Scene>, p: seq<LayerId>, h: seq<LayerId>, scored: seq<Candidate>)
    ensures var es := Filter(StableSort(scored, SceneLess(scenes, p, h)), Eligible());
            Falling(es) && InOrder(es, SceneLess(scenes, p, h))
    ensures multiset(StableSort(scored, SceneLess(scenes, p, h))) == multiset(scored)
  {
    var less := SceneLess(scenes, p, h);
    SceneLessIsOrder(scenes, p, h);
    SortFacts(scored, less);
    FilterKeepsOrder(StableSort(scored, less), Eligible(), less);
    var es := Filter(StableSort(scored, less), Eligible());
    forall i, j | 0 <= i < j < |es| ensures es[i].confidence >= es[j].confidence {
      assert !less(es[j], es[i]);
    }
  }

  /** The first two confidences do not depend on how ties are broken. */
  lemma {:induction false} TopTwo(a: seq<Candidate>, b: seq<Candidate>)
    requires multiset(a) == multiset(b) && Falling(a) && Falling(b)
    ensures |a| == |b|
    ensures a != [] ==> a[0].confidence == b[0].confidence
    ensures |a| >= 2 ==> a[1].confidence == b[1].confidence
    ensures |a| >= 2 && a[0].confidence > a[1].confidence ==> a[0] == b[0]
    ensures |a| == 1 ==> a[0] == b[0]
  {
    assert |multiset(a)| == |a| && |multiset(b)| == |b|;
    if a != [] {
      var i := At(a, b, 0);
      var j := At(b, a, 0);
      if |a| >= 2 {
        SecondAtMost(a, b);
        SecondAtMost(b, a);
      }
    }
  }

  lemma {:induction false} At(a: seq<Candidate>, b: seq<Candidate>, i: nat) returns (j: nat)
    requires multiset(a) == multiset(b) && i < |a|
    ensures j < |b| && b[j] == a[i]
  {
    assert a[i] in multiset(a) && a[i] in multiset(b);
    j :| 0 <= j < |b| && b[j] == a[i];
  }

  /** Two elements of a come from two places of b, one of which is not the first. */
  lemma {:induction false} SecondAtMost(a: seq<Candidate>, b: seq<Candidate>)
    requires multiset(a) == multiset(b) && Falling(a) && Falling(b) && |a| == |b| >= 2
    ensures a[1].confidence <= b[1].confidence
  {
    var i := At(a, b, 0);
    var j := At(a, b, 1);
    if i == 0 && j == 0 {
      assert a == [a[0], a[1]] + a[2..] && b == [b[0]] + b[1..];
      assert multiset(a) == multiset{a[0], a[1]} + multiset(a[2..]);
      assert multiset(b) == multiset{b[0]} + multiset(b[1..]);
      assert multiset(b)[b[0]] >= 2;
      var k :| 0 <= k < |b[1..]| && b[1..][k] == b[0];
      assert b[k + 1] == b[0];
    }
  }

  // ---------------------------------------------------- hints are a soft prior

  ghost predicate UniqueLayers(layers: seq<Layer>) {
    forall i, j :: 0 <= i < |layers| && 0 <= j < |layers| && layers[i].id == layers[j].id ==> i == j
  }

  ghost predicate IsLayer(layers: seq<Layer>, id: LayerId) {
    exists i :: 0 <= i < |layers| && layers[i].id == id
  }

  lemma {:induction false} LayerOfPrefix(layers: seq<Layer>, id: LayerId)
    requires layers != []
    ensures IsLayer(layers, id) <==> IsLayer(layers[..|layers| - 1], id) || layers[|layers| - 1].id == id
  {
    var init := layers[..|layers| - 1];
    if i :| 0 <= i < |init| && init[i].id == id { assert layers[i].id == id; }
    if i :| 0 <= i < |layers| && layers[i].id == id { assert i < |init| ==> init[i].id == id; }
  }

  lemma {:induction false} ScoredHaveLayers(layers: seq<Layer>, histories: Histories, observations: Evidence, k: nat)
    requires k < |ScoreLayers(layers, histories, observations).0|
    ensures IsLayer(layers, ScoreLayers(layers, histories, observations).0[k].id)
  {
    if layers != [] {
      var init := layers[..|layers| - 1];
      if k < |ScoreLayers(init, histories, observations).0| { ScoredHaveLayers(init, histories, observations, k); }
      LayerOfPrefix(layers, ScoreLayers(layers, histories, observations).0[k].id);
    }
  }

  lemma {:induction false} ScoredUnique(layers: seq<Layer>, histories: Histories, observations: Evidence)
    requires UniqueLayers(layers)
    ensures UniqueIds(ScoreLayers(layers, histories, observations).0)
  {
    if layers == [] {
    } else {
      var (init, last) := (layers[..|layers| - 1], layers[|layers| - 1]);
      ScoredUnique(init, histories, observations);
      var before := ScoreLayers(init, histories, observations).0;
      forall k | 0 <= k < |before| ensures before[k].id != last.id {
        ScoredHaveLayers(init, histories, observations, k);
        var i :| 0 <= i < |init| && init[i].id == before[k].id;
        assert layers[i].id == before[k].id;
      }
    }
  }

  lemma {:induction false} ScoredFacts(layers: seq<Layer>, histories: Histories, observations: Evidence)
    requires UniqueLayers(layers)
    ensures var cs := ScoreLayers(layers, histories, observations).0;
            UniqueIds(cs)
            && forall k :: 0 <= k < |cs| ==> exists i :: 0 <= i < |layers| && layers[i].id == cs[k].id
  {
    ScoredUnique(layers, histories, observations);
    var cs := ScoreLayers(layers, histories, observations).0;
    forall k | 0 <= k < |cs| ensures exists i :: 0 <= i < |layers| && layers[i].id == cs[k].id {
      ScoredHaveLayers(layers, histories, observations, k);
    }
  }

  lemma {:induction false} TwiceInMultiset(s: seq<Candidate>, i: nat, j: nat)
    requires i < j < |s| && s[i] == s[j]
    ensures multiset(s)[s[i]] >= 2
  {
    assert s == s[..i] + [s[i]] + s[i + 1..j] + [s[j]] + s[j + 1..];
    assert multiset(s) == multiset(s[..i]) + multiset{s[i]} + multiset(s[i + 1..j]) + multiset{s[j]} + multiset(s[j + 1..]);
  }

  lemma {:induction false} AtMostOnce(s: seq<Candidate>, c: Candidate)
    requires UniqueIds(s)
    ensures multiset(s)[c] <= 1
  {
    if s == [] {
    } else {
      var (init, last) := (s[..|s| - 1], s[|s| - 1]);
      assert s == init + [last];
      AtMostOnce(init, c);
      if last == c {
        forall k | 0 <= k < |init| ensures init[k] != c {
          assert s[k] == init[k];
        }
        assert c !in init;
      }
    }
  }

  lemma {:induction false} UniqueInPermutation(s: seq<Candidate>, t: seq<Candidate>)
    requires UniqueIds(s) && multiset(s) == multiset(t)
    ensures UniqueIds(t)
  {
    forall i, j | 0 <= i < j < |t| ensures t[i].id != t[j].id {
      var k := At(t, s, i);
      var l := At(t, s, j);
      if t[i].id == t[j].id {
        assert k == l;
        TwiceInMultiset(t, i, j);
        AtMostOnce(s, t[i]);
      }
    }
  }

  lemma {:induction false} FilteredUnique(s: seq<Candidate>, keep: Candidate -> bool)
    requires UniqueIds(s)
    ensures UniqueIds(Filter(s, keep))
  {
    if s == [] {
    } else {
      var (init, last) := (s[..|s| - 1], s[|s| - 1]);
      FilteredUnique(init, keep);
      var kept := Filter(init, keep);
      forall i | 0 <= i < |kept| ensures kept[i].id != last.id {
        FilterMember(init, keep, kept[i]);
        var j :| 0 <= j < |init| && init[j] == kept[i];
        assert s[j] == kept[i];
      }
    }
  }

  lemma {:induction false} FindEligibleIs(cs: seq<Candidate>, id: LayerId, k: nat)
    requires UniqueIds(cs) && k < |cs| && cs[k].id == id
    ensures FindEligible(cs, id) == if cs[k].eligible then Some(ToResolved(cs[k])) else None
  {
    if k == 0 {
      FindEligibleNone(cs[1..], id);
    } else {
      assert cs[0].id != id;
      FindEligibleIs(cs[1..], id, k - 1);
    }
  }

  lemma {:induction false} FindEligibleNone(cs: seq<Candidate>, id: LayerId)
    requires forall k :: 0 <= k < |cs| ==> cs[k].id != id
    ensures FindEligible(cs, id) == None
  {
    if cs == [] {
    } else {
      FindEligibleNone(cs[1..], id);
    }
  }

  lemma {:induction false} FindEligibleSame(a: seq<Candidate>, b: seq<Candidate>, id: LayerId)
    requires multiset(a) == multiset(b) && UniqueIds(a) && UniqueIds(b)
    ensures FindEligible(a, id) == FindEligible(b, id)
  {
    if i :| 0 <= i < |a| && a[i].id == id {
      var j := At(a, b, i);
      FindEligibleIs(a, id, i);
      FindEligibleIs(b, id, j);
    } else {
      FindEligibleNone(a, id);
      forall j | 0 <= j < |b| ensures b[j].id != id {
        var i := At(b, a, j);
      }
      FindEligibleNone(b, id);
    }
  }

  /** Two different eligible candidates share the top confidence and the first tolerates it. */
  ghost predicate ZeroMarginTie(scenes: seq<Scene>, es: seq<Candidate>) {
    exists i, j :: 0 <= i < |es| && 0 <= j < |es| && TiedOnTop(es, i, j) && MarginOf(scenes, es[i].id) <= 0.0
  }

  ghost predicate TiedOnTop(es: seq<Candidate>, i: nat, j: nat)
    requires i < |es| && j < |es|
  {
    && es[i].eligible && es[j].eligible && es[i].id != es[j].id && es[i].confidence == es[j].confidence
    && forall k :: 0 <= k < |es| && es[k].eligible ==> es[k].confidence <= es[i].confidence
  }

  /** Without a tolerated tie on top, every ranking of the same candidates chooses the same. */
  lemma {:induction false} ChoiceIgnoresTies(scenes: seq<Scene>, active: Option<LayerId>, a: seq<Candidate>, b: seq<Candidate>)
    requires multiset(a) == multiset(b) && UniqueIds(a) && UniqueIds(b)
    requires Falling(Filter(a, Eligible())) && Falling(Filter(b, Eligible()))
    requires !ZeroMarginTie(scenes, a) && !ZeroMarginTie(scenes, b)
    ensures Choose(scenes, active, a) == Choose(scenes, active, b)
  {
    var (ea, eb) := (Filter(a, Eligible()), Filter(b, Eligible()));
    FilterOfPermutation(a, b, Eligible());
    TopTwo(ea, eb);
    if |ea| >= 2 && ea[0].confidence == ea[1].confidence {
      TopHasMargin(scenes, a);
      TopHasMargin(scenes, b);
    }
    var next := Choose(scenes, active, a).1;
    if next.Some? { FindEligibleSame(a, b, next.value); }
  }

  lemma {:induction false} TopHasMargin(scenes: seq<Scene>, a: seq<Candidate>)
    requires UniqueIds(a) && !ZeroMarginTie(scenes, a)
    requires var es := Filter(a, Eligible());
             Falling(es) && |es| >= 2 && es[0].confidence == es[1].confidence
    ensures MarginOf(scenes, Filter(a, Eligible())[0].id) > 0.0
  {
    var es := Filter(a, Eligible());
    FilteredUnique(a, Eligible());
    FilterMember(a, Eligible(), es[0]);
    FilterMember(a, Eligible(), es[1]);
    var i :| 0 <= i < |a| && a[i] == es[0];
    var j :| 0 <= j < |a| && a[j] == es[1];
    forall k | 0 <= k < |a| && a[k].eligible ensures a[k].confidence <= es[0].confidence {
      FilterMember(a, Eligible(), a[k]);
      var l :| 0 <= l < |es| && es[l] == a[k];
    }
    assert TiedOnTop(a, i, j);
  }

  lemma {:induction false} TieInPermutation(scenes: seq<Scene>, a: seq<Candidate>, b: seq<Candidate>)
    requires multiset(a) == multiset(b) && ZeroMarginTie(scenes, a)
    ensures ZeroMarginTie(scenes, b)
  {
    var i, j :| 0 <= i < |a| && 0 <= j < |a| && TiedOnTop(a, i, j) && MarginOf(scenes, a[i].id) <= 0.0;
    var i' := At(a, b, i);
    var j' := At(a, b, j);
    forall k | 0 <= k < |b| && b[k].eligible ensures b[k].confidence <= b[i'].confidence {
      var k' := At(b, a, k);
    }
    assert TiedOnTop(b, i', j');
  }

  /** The ranking of one sample's scored candidates. */
  function Ranking(scenes: seq<Scene>, active: Option<LayerId>, scored: seq<Candidate>, hints: Option<Hints>): seq<Candidate> {
    StableSort(scored, SceneLess(scenes, PreferredScenes(hints), TransitionHints(scenes, active)))
  }

  lemma {:induction false} RankingFacts(scenes: seq<Scene>, active: Option<LayerId>, scored: seq<Candidate>, hints: Option<Hints>)
    requires UniqueIds(scored)
    ensures var r := Ranking(scenes, active, scored, hints);
            multiset(r) == multiset(scored) && UniqueIds(r) && Falling(Filter(r, Eligible()))
  {
    RankedFacts(scenes, PreferredScenes(hints), TransitionHints(scenes, active), scored);
    UniqueInPermutation(scored, Ranking(scenes, active, scored, hints));
  }

  lemma {:induction false} ChoiceIgnoresHints(scenes: seq<Scene>, active: Option<LayerId>, scored: seq<Candidate>, h1: Option<Hints>, h2: Option<Hints>)
    requires UniqueIds(scored) && !ZeroMarginTie(scenes, scored)
    ensures Choose(scenes, active, Ranking(scenes, active, scored, h1))
         == Choose(scenes, active, Ranking(scenes, active, scored, h2))
  {
    var (a, b) := (Ranking(scenes, active, scored, h1), Ranking(scenes, active, scored, h2));
    RankingFacts(scenes, active, scored, h1);
    RankingFacts(scenes, active, scored, h2);
    if ZeroMarginTie(scenes, a) { TieInPermutation(scenes, a, scored); }
    if ZeroMarginTie(scenes, b) { TieInPermutation(scenes, b, scored); }
    ChoiceIgnoresTies(scenes, active, a, b);
  }

  /** A caller that prefers one of the tied candidates gets it ranked first. */
  lemma {:induction false} PreferredLeads(scenes: seq<Scene>, active: Option<LayerId>, scored: seq<Candidate>, i: nat, j: nat)
    requires UniqueIds(scored) && i < |scored| && j < |scored| && TiedOnTop(scored, i, j)
    ensures var es := Filter(Ranking(scenes, active, scored, Some(Hints([scored[i].id], []))), Eligible());
            |es| >= 2 && es[0] == scored[i] && es[1].confidence == es[0].confidence
  {
    var c := scored[i];
    var (preferred, hinted) := ([c.id], TransitionHints(scenes, active));
    var less := SceneLess(scenes, preferred, hinted);
    var ranked := StableSort(scored, less);
    var es := Filter(ranked, Eligible());
    RankedFacts(scenes, preferred, hinted, scored);
    var k := MemberOfFiltered(scored, ranked, i);
    var l := MemberOfFiltered(scored, ranked, j);
    forall m | 0 <= m < |es| && es[m] != c ensures less(c, es[m]) {
      FilterMember(ranked, Eligible(), es[m]);
      var n :| 0 <= n < |ranked| && ranked[n] == es[m];
      var o := At(ranked, scored, n);
      assert es[m].id != c.id;
    }
    if k > 0 {
      assert !less(es[k], es[0]);
    }
    assert es[0] == c && l > 0;
    assert es[0].confidence >= es[1].confidence >= es[l].confidence;
  }

  lemma {:induction false} MemberOfFiltered(s: seq<Candidate>, t: seq<Candidate>, i: nat) returns (k: nat)
    requires multiset(s) == multiset(t) && i < |s| && s[i].eligible
    ensures var es := Filter(t, Eligible()); k < |es| && es[k] == s[i]
  {
    var j := At(s, t, i);
    FilterMember(t, Eligible(), s[i]);
    k :| 0 <= k < |Filter(t, Eligible())| && Filter(t, Eligible())[k] == s[i];
  }

  /**
   * On one sample the caller's hints cannot change the scene, the ambiguity flag or the
   * remembered scene, exactly when no two eligible scenes tie on top in a way that the
   * margin of one of them tolerates.
   */
  lemma {:induction false} HintsMatterExactlyOnToleratedTies(scenes: seq<Scene>, active: Option<LayerId>, scored: seq<Candidate>)
    requires UniqueIds(scored)
    ensures !ZeroMarginTie(scenes, scored)
       <==> forall h1, h2 :: Choose(scenes, active, Ranking(scenes, active, scored, h1))
                          == Choose(scenes, active, Ranking(scenes, active, scored, h2))
  {
    if ZeroMarginTie(scenes, scored) {
      var i, j :| 0 <= i < |scored| && 0 <= j < |scored| && TiedOnTop(scored, i, j)
                  && MarginOf(scenes, scored[i].id) <= 0.0;
      PreferredLeads(scenes, active, scored, i, j);
      PreferredLeads(scenes, active, scored, j, i);
      var (h1, h2) := (Some(Hints([scored[i].id], [])), Some(Hints([scored[j].id], [])));
      assert Choose(scenes, active, Ranking(scenes, active, scored, h1))
          != Choose(scenes, active, Ranking(scenes, active, scored, h2));
    } else {
      forall h1, h2 ensures Choose(scenes, active, Ranking(scenes, active, scored, h1))
                         == Choose(scenes, active, Ranking(scenes, active, scored, h2)) {
        ChoiceIgnoresHints(scenes, active, scored, h1, h2);
      }
    }
  }

  // ------------------------------------------------------------------- runs

  ghost predicate PositiveMargins(scenes: seq<Scene>) {
    forall i :: 0 <= i < |scenes| ==> scenes[i].ambiguityMargin > 0.0
  }

  /** Same scene, same ambiguity, same candidates and overlays up to their order. */
  ghost predicate SameUpToOrder(a: Resolution, b: Resolution) {
    && a.scene == b.scene
    && a.ambiguous == b.ambiguous
    && multiset(a.candidates) == multiset(b.candidates)
    && multiset(a.overlays) == multiset(b.overlays)
    && multiset(a.overlayCandidates) == multiset(b.overlayCandidates)
  }

  lemma {:induction false} MarginIsPositive(scenes: seq<Scene>, id: LayerId)
    requires PositiveMargins(scenes) && exists i :: 0 <= i < |scenes| && scenes[i].layer.id == id
    ensures MarginOf(scenes, id) > 0.0
  {
    var i :| 0 <= i < |scenes| && scenes[i].layer.id == id;
    if scenes[|scenes| - 1].layer.id != id {
      assert scenes[..|scenes| - 1][i].layer.id == id;
      MarginIsPositive(scenes[..|scenes| - 1], id);
      assert MarginOf(scenes, id) == MarginOf(scenes[..|scenes| - 1], id);
    }
  }

  /** Positive margins tolerate no tie, whatever is observed. */
  lemma {:induction false} PositiveMarginsTolerateNoTie(scenes: seq<Scene>, histories: Histories, observations: Evidence)
    requires UniqueLayers(Layers(scenes)) && PositiveMargins(scenes)
    ensures !ZeroMarginTie(scenes, ScoreLayers(Layers(scenes), histories, observations).0)
  {
    var scored := ScoreLayers(Layers(scenes), histories, observations).0;
    ScoredFacts(Layers(scenes), histories, observations);
    forall i | 0 <= i < |scored| ensures MarginOf(scenes, scored[i].id) > 0.0 {
      var j :| 0 <= j < |Layers(scenes)| && Layers(scenes)[j].id == scored[i].id;
      assert scenes[j].layer.id == scored[i].id;
      MarginIsPositive(scenes, scored[i].id);
    }
  }

  lemma {:induction false} OverlaysIgnoreHints(overlays: seq<Overlay>, overlaid: seq<Candidate>, h1: Option<Hints>, h2: Option<Hints>)
    ensures var (o1, o2) := (StableSort(overlaid, OverlayLess(PreferredOverlays(h1))),
                             StableSort(overlaid, OverlayLess(PreferredOverlays(h2))));
            multiset(o1) == multiset(o2)
            && multiset(Map(Filter(o1, Survives(overlays, multiset(o1))), ToResolved))
            == multiset(Map(Filter(o2, Survives(overlays, multiset(o2))), ToResolved))
  {
    var (o1, o2) := (StableSort(overlaid, OverlayLess(PreferredOverlays(h1))),
                     StableSort(overlaid, OverlayLess(PreferredOverlays(h2))));
    SortFacts(overlaid, OverlayLess(PreferredOverlays(h1)));
    SortFacts(overlaid, OverlayLess(PreferredOverlays(h2)));
    var keep := Survives(overlays, multiset(o1));
    FilterOfPermutation(o1, o2, keep);
    MapOfPermutation(Filter(o1, keep), Filter(o2, keep), ToResolved);
  }

  /** Two hints leave the same memory after a sample and get the same answer up to list order. */
  ghost predicate SameSample(scenes: seq<Scene>, overlays: seq<Overlay>, m: ResolverMemory, observations: Evidence,
                             h1: Option<Hints>, h2: Option<Hints>)
  {
    var (r1, r2) := (ResolveSample(scenes, overlays, m, observations, h1),
                     ResolveSample(scenes, overlays, m, observations, h2));
    r1.0 == r2.0 && SameUpToOrder(r1.1, r2.1)
  }

  lemma {:induction false} ResolvedByChoice(scenes: seq<Scene>, overlays: seq<Overlay>, m: ResolverMemory, observations: Evidence,
                                            hints: Option<Hints>)
    ensures var scored := ScoreLayers(Layers(scenes), m.sceneEvidence, observations).0;
            var (after, answer) := ResolveSample(scenes, overlays, m, observations, hints);
            Choose(scenes, m.active, Ranking(scenes, m.active, scored, hints)) == (answer.ambiguous, after.active, answer.scene)
  {}

  /** Without a tolerated tie a sample leaves the same memory and answers the same under any hints. */
  lemma {:induction false} OneSampleIgnoresHints(scenes: seq<Scene>, overlays: seq<Overlay>, m: ResolverMemory,
                                                 observations: Evidence, h1: Option<Hints>, h2: Option<Hints>)
    requires UniqueLayers(Layers(scenes))
    requires !ZeroMarginTie(scenes, ScoreLayers(Layers(scenes), m.sceneEvidence, observations).0)
    ensures SameSample(scenes, overlays, m, observations, h1, h2)
  {
    var scored := ScoreLayers(Layers(scenes), m.sceneEvidence, observations).0;
    ScoredFacts(Layers(scenes), m.sceneEvidence, observations);
    ChoiceIgnoresHints(scenes, m.active, scored, h1, h2);
    RankingFacts(scenes, m.active, scored, h1);
    RankingFacts(scenes, m.active, scored, h2);
    OverlaysIgnoreHints(overlays, ScoreLayers(OverlayLayers(overlays), m.overlayEvidence, observations).0, h1, h2);
  }

  /** With a tolerated tie two callers can get different choices. */
  lemma {:induction false} TieSplitsSample(scenes: seq<Scene>, overlays: seq<Overlay>, m: ResolverMemory, observations: Evidence)
      returns (h1: Option<Hints>, h2: Option<Hints>)
    requires UniqueLayers(Layers(scenes))
    requires ZeroMarginTie(scenes, ScoreLayers(Layers(scenes), m.sceneEvidence, observations).0)
    ensures !SameSample(scenes, overlays, m, observations, h1, h2)
  {
    var scored := ScoreLayers(Layers(scenes), m.sceneEvidence, observations).0;
    ScoredFacts(Layers(scenes), m.sceneEvidence, observations);
    HintsMatterExactlyOnToleratedTies(scenes, m.active, scored);
    h1, h2 :| Choose(scenes, m.active, Ranking(scenes, m.active, scored, h1))
           != Choose(scenes, m.active, Ranking(scenes, m.active, scored, h2));
    ResolvedByChoice(scenes, overlays, m, observations, h1);
    ResolvedByChoice(scenes, overlays, m, observations, h2);
  }

  /** One sample of a run: what the resolver remembers before and after it, and its answer. */
  datatype Step = Step(before: ResolverMemory, answer: Resolution, after: ResolverMemory)

  ghost predicate IsStep(scenes: seq<Scene>, overlays: seq<Overlay>, s: Step, observations: Evidence, hints: Option<Hints>) {
    (s.after, s.answer) == ResolveSample(scenes, overlays, s.before, observations, hints)
  }

  /** A run of a new resolver over an observation stream, with one caller's hints. */
  ghost predicate IsRun(scenes: seq<Scene>, overlays: seq<Overlay>, inputs: seq<Evidence>,
                        hints: seq<Option<Hints>>, run: seq<Step>)
  {
    && |run| == |inputs| == |hints|
    && (forall k {:trigger IsStep(scenes, overlays, run[k], inputs[k], hints[k])} ::
          0 <= k < |run| ==> IsStep(scenes, overlays, run[k], inputs[k], hints[k]))
    && (run != [] ==> run[0].before == ResolverMemory(map[], map[], None))
    && (forall k :: 0 < k < |run| ==> run[k].before == run[k - 1].after)
  }

  /** The scene histories after the first k samples: no answer and no hint enters them. */
  function HistoriesAfter(layers: seq<Layer>, inputs: seq<Evidence>, k: nat): Histories
    requires k <= |inputs|
  {
    if k == 0 then map[] else ScoreLayers(layers, HistoriesAfter(layers, inputs, k - 1), inputs[k - 1]).1
  }

  /** The scene candidates of sample k, computed from the observations alone. */
  function ScoredAt(scenes: seq<Scene>, inputs: seq<Evidence>, k: nat): seq<Candidate>
    requires k < |inputs|
  {
    ScoreLayers(Layers(scenes), HistoriesAfter(Layers(scenes), inputs, k), inputs[k]).0
  }

  /** No sample of the stream has a tie on top that a margin tolerates. */
  ghost predicate NoToleratedTie(scenes: seq<Scene>, inputs: seq<Evidence>) {
    forall k :: 0 <= k < |inputs| ==> !ZeroMarginTie(scenes, ScoredAt(scenes, inputs, k))
  }

  /** Equal memories and equal answers, up to list order, at every step. */
  ghost predicate SameRuns(run1: seq<Step>, run2: seq<Step>) {
    && |run1| == |run2|
    && forall k :: 0 <= k < |run1| ==> run1[k].after == run2[k].after && SameUpToOrder(run1[k].answer, run2[k].answer)
  }

  ghost predicate HintsNeverMatter(scenes: seq<Scene>, overlays: seq<Overlay>, inputs: seq<Evidence>) {
    forall h1: seq<Option<Hints>>, run1: seq<Step>, h2: seq<Option<Hints>>, run2: seq<Step> ::
      IsRun(scenes, overlays, inputs, h1, run1) && IsRun(scenes, overlays, inputs, h2, run2) ==> SameRuns(run1, run2)
  }

  lemma {:induction false} HistoriesOfRun(scenes: seq<Scene>, overlays: seq<Overlay>, inputs: seq<Evidence>,
                                          hints: seq<Option<Hints>>, run: seq<Step>, k: nat)
    requires IsRun(scenes, overlays, inputs, hints, run) && k < |run|
    ensures run[k].before.sceneEvidence == HistoriesAfter(Layers(scenes), inputs, k)
  {
    if k > 0 {
      HistoriesOfRun(scenes, overlays, inputs, hints, run, k - 1);
      assert IsStep(scenes, overlays, run[k - 1], inputs[k - 1], hints[k - 1]);
    }
  }

  lemma {:induction false} RunsIgnoreHints(scenes: seq<Scene>, overlays: seq<Overlay>, inputs: seq<Evidence>,
                                           h1: seq<Option<Hints>>, run1: seq<Step>,
                                           h2: seq<Option<Hints>>, run2: seq<Step>, k: nat)
    requires UniqueLayers(Layers(scenes)) && NoToleratedTie(scenes, inputs)
    requires IsRun(scenes, overlays, inputs, h1, run1) && IsRun(scenes, overlays, inputs, h2, run2)
    requires k < |inputs|
    ensures run1[k].after == run2[k].after && SameUpToOrder(run1[k].answer, run2[k].answer)
  {
    if k > 0 {
      RunsIgnoreHints(scenes, overlays, inputs, h1, run1, h2, run2, k - 1);
    }
    assert run1[k].before == run2[k].before;
    HistoriesOfRun(scenes, overlays, inputs, h1, run1, k);
    assert !ZeroMarginTie(scenes, ScoredAt(scenes, inputs, k));
    StepsCompare(scenes, overlays, inputs, h1, run1, h2, run2, k);
    OneSampleIgnoresHints(scenes, overlays, run1[k].before, inputs[k], h1[k], h2[k]);
  }

  lemma {:induction false} SomeStep(scenes: seq<Scene>, overlays: seq<Overlay>, before: ResolverMemory,
                                    observations: Evidence, hints: Option<Hints>) returns (s: Step)
    ensures IsStep(scenes, overlays, s, observations, hints) && s.before == before
  {
    var (after, answer) := ResolveSample(scenes, overlays, before, observations, hints);
    s := Step(before, answer, after);
  }

  lemma {:induction false} ExtendChain(init: seq<Step>, run: seq<Step>)
    requires |run| == |init| + 1 && init == run[..|init|]
    requires forall k :: 0 < k < |init| ==> init[k].before == init[k - 1].after
    requires init != [] ==> run[|init|].before == init[|init| - 1].after
    ensures forall k :: 0 < k < |run| ==> run[k].before == run[k - 1].after
  {
    forall k | 0 < k < |run| ensures run[k].before == run[k - 1].after {
      if k < |init| { assert init[k].before == init[k - 1].after; }
    }
  }

  lemma {:induction false} ExtendRun(scenes: seq<Scene>, overlays: seq<Overlay>, inputs: seq<Evidence>, hints: seq<Option<Hints>>,
                                     init: seq<Step>, run: seq<Step>)
    requires |inputs| == |hints| == |run| > 0
    requires init == run[..|run| - 1] && IsRun(scenes, overlays, inputs[..|init|], hints[..|init|], init)
    requires IsStep(scenes, overlays, run[|init|], inputs[|init|], hints[|init|])
    requires run[|init|].before == if init == [] then ResolverMemory(map[], map[], None) else init[|init| - 1].after
    ensures IsRun(scenes, overlays, inputs, hints, run)
  {
    ExtendChain(init, run);
    forall k | 0 <= k < |run| ensures IsStep(scenes, overlays, run[k], inputs[k], hints[k]) {
      if k < |init| { KeptStep(scenes, overlays, inputs, hints, init, run, k); }
    }
    assert init != [] ==> run[0] == init[0];
  }

  lemma {:induction false} KeptStep(scenes: seq<Scene>, overlays: seq<Overlay>, inputs: seq<Evidence>, hints: seq<Option<Hints>>,
                                    init: seq<Step>, run: seq<Step>, k: nat)
    requires k < |init| < |run| == |inputs| == |hints| && init == run[..|init|]
    requires IsRun(scenes, overlays, inputs[..|init|], hints[..|init|], init)
    ensures IsStep(scenes, overlays, run[k], inputs[k], hints[k])
  {
    assert IsStep(scenes, overlays, init[k], inputs[..|init|][k], hints[..|init|][k]);
  }

  /** Every stream of hints has its run. */
  lemma {:induction false} SomeRun(scenes: seq<Scene>, overlays: seq<Overlay>, inputs: seq<Evidence>, hints: seq<Option<Hints>>)
      returns (run: seq<Step>)
    requires |inputs| == |hints|
    ensures IsRun(scenes, overlays, inputs, hints, run)
  {
    run := [];
    if inputs != [] {
      var n := |inputs| - 1;
      var init := SomeRun(scenes, overlays, inputs[..n], hints[..n]);
      var before := if n == 0 then ResolverMemory(map[], map[], None) else init[n - 1].after;
      var s := SomeStep(scenes, overlays, before, inputs[n], hints[n]);
      run := init + [s];
      ExtendRun(scenes, overlays, inputs, hints, init, run);
    }
  }

  /** A tolerated tie at sample k lets two callers, who differ only there, part. */
  lemma {:induction false} TieSplitsRuns(scenes: seq<Scene>, overlays: seq<Overlay>, inputs: seq<Evidence>, k: nat)
    requires UniqueLayers(Layers(scenes)) && k < |inputs| && ZeroMarginTie(scenes, ScoredAt(scenes, inputs, k))
    ensures !HintsNeverMatter(scenes, overlays, inputs)
  {
    var silent := seq(|inputs|, _ => None);
    var run := SomeRun(scenes, overlays, inputs, silent);
    HistoriesOfRun(scenes, overlays, inputs, silent, run, k);
    var first, second := TieSplitsSample(scenes, overlays, run[k].before, inputs[k]);
    SplitRuns(scenes, overlays, inputs, silent, run, k, first, second);
  }

  lemma {:induction false} SplitRuns(scenes: seq<Scene>, overlays: seq<Overlay>, inputs: seq<Evidence>,
                                     hints: seq<Option<Hints>>, run: seq<Step>, k: nat, first: Option<Hints>, second: Option<Hints>)
    requires IsRun(scenes, overlays, inputs, hints, run) && k < |inputs|
    requires !SameSample(scenes, overlays, run[k].before, inputs[k], first, second)
    ensures !HintsNeverMatter(scenes, overlays, inputs)
  {
    var (h1, h2) := (hints[k := first], hints[k := second]);
    var run1 := SomeRun(scenes, overlays, inputs, h1);
    var run2 := SomeRun(scenes, overlays, inputs, h2);
    SameBefore(scenes, overlays, inputs, hints, run, h1, run1, k);
    SameBefore(scenes, overlays, inputs, hints, run, h2, run2, k);
    StepsCompare(scenes, overlays, inputs, h1, run1, h2, run2, k);
    assert !SameRuns(run1, run2);
  }

  lemma {:induction false} StepsCompare(scenes: seq<Scene>, overlays: seq<Overlay>, inputs: seq<Evidence>,
                                        h1: seq<Option<Hints>>, run1: seq<Step>,
                                        h2: seq<Option<Hints>>, run2: seq<Step>, k: nat)
    requires IsRun(scenes, overlays, inputs, h1, run1) && IsRun(scenes, overlays, inputs, h2, run2)
    requires k < |inputs| && run1[k].before == run2[k].before
    ensures SameSample(scenes, overlays, run1[k].before, inputs[k], h1[k], h2[k])
       <==> run1[k].after == run2[k].after && SameUpToOrder(run1[k].answer, run2[k].answer)
  {
    assert IsStep(scenes, overlays, run1[k], inputs[k], h1[k]) && IsStep(scenes, overlays, run2[k], inputs[k], h2[k]);
  }

  /** Runs whose hints agree before sample k reach it with the same memory. */
  lemma {:induction false} SameBefore(scenes: seq<Scene>, overlays: seq<Overlay>, inputs: seq<Evidence>,
                                      h1: seq<Option<Hints>>, run1: seq<Step>,
                                      h2: seq<Option<Hints>>, run2: seq<Step>, k: nat)
    requires IsRun(scenes, overlays, inputs, h1, run1) && IsRun(scenes, overlays, inputs, h2, run2)
    requires k < |inputs| && forall i :: 0 <= i < k ==> h1[i] == h2[i]
    ensures run1[k].before == run2[k].before
  {
    if k > 0 {
      SameBefore(scenes, overlays, inputs, h1, run1, h2, run2, k - 1);
      assert IsStep(scenes, overlays, run1[k - 1], inputs[k - 1], h1[k - 1]);
      assert IsStep(scenes, overlays, run2[k - 1], inputs[k - 1], h2[k - 1]);
    }
  }

  /**
   * Over a stream of observations all callers get the same memories and answers at every
   * step, whatever their hints, if and only if no sample has a tie on top that a margin
   * tolerates. Which samples do depends on the observations alone.
   */
  lemma {:induction false} HintsNeverMatterExactly(scenes: seq<Scene>, overlays: seq<Overlay>, inputs: seq<Evidence>)
    requires UniqueLayers(Layers(scenes))
    ensures NoToleratedTie(scenes, inputs) <==> HintsNeverMatter(scenes, overlays, inputs)
  {
    if NoToleratedTie(scenes, inputs) {
      forall h1: seq<Option<Hints>>, run1: seq<Step>, h2: seq<Option<Hints>>, run2: seq<Step>
        | IsRun(scenes, overlays, inputs, h1, run1) && IsRun(scenes, overlays, inputs, h2, run2)
        ensures SameRuns(run1, run2)
      {
        forall k | 0 <= k < |run1|
          ensures run1[k].after == run2[k].after && SameUpToOrder(run1[k].answer, run2[k].answer)
        {
          RunsIgnoreHints(scenes, overlays, inputs, h1, run1, h2, run2, k);
        }
      }
    } else {
      var k :| 0 <= k < |inputs| && ZeroMarginTie(scenes, ScoredAt(scenes, inputs, k));
      TieSplitsRuns(scenes, overlays, inputs, k);
    }
  }

  /** With positive margins hints never matter, on any stream. */
  lemma {:induction false} HintsAreASoftPrior(scenes: seq<Scene>, overlays: seq<Overlay>, inputs: seq<Evidence>)
    requires UniqueLayers(Layers(scenes)) && PositiveMargins(scenes)
    ensures HintsNeverMatter(scenes, overlays, inputs)
  {
    forall k | 0 <= k < |inputs| ensures !ZeroMarginTie(scenes, ScoredAt(scenes, inputs, k)) {
      PositiveMarginsTolerateNoTie(scenes, HistoriesAfter(Layers(scenes), inputs, k), inputs[k]);
    }
    HintsNeverMatterExactly(scenes, overlays, inputs);
  }
}
