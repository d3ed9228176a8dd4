/** Which member of a profile bundle analyses an image, given what its router recognised. */
module BundleSelection {
  import opened Prelude

  datatype Member = Member(scenes: set<int>, overlays: set<int>, priority: int, fallback: bool)

  datatype Context = Context(scene: Option<int>, overlays: set<int>)

  predicate Matches(m: Member, c: Context) {
    && (m.scenes == {} || (c.scene.Some? && c.scene.value in m.scenes))
    && (m.overlays == {} || m.overlays * c.overlays != {})
  }

  predicate Eligible(m: Member, c: Context) {
    !m.fallback && Matches(m, c)
  }

  function Specificity(m: Member): nat {
    (if m.scenes != {} then 1 else 0) + (if m.overlays != {} then 1 else 0)
  }

  /** Higher priority, then more kinds of constraint, then the earlier position. */
  predicate Beats(members: seq<Member>, i: nat, j: nat)
    requires i < |members| && j < |members|
  {
    var a, b := members[i], members[j];
    || a.priority > b.priority
    || (a.priority == b.priority && Specificity(a) > Specificity(b))
    || (a.priority == b.priority && Specificity(a) == Specificity(b) && i < j)
  }

  /** `i` is eligible and beats every other eligible member among the first `n`. */
  predicate Best(members: seq<Member>, c: Context, i: nat, n: nat)
    requires n <= |members|
  {
    && i < n && Eligible(members[i], c)
    && forall j :: 0 <= j < n && j != i && Eligible(members[j], c) ==> Beats(members, i, j)
  }

  predicate NoneEligible(members: seq<Member>, c: Context, n: nat)
    requires n <= |members|
  {
    forall j :: 0 <= j < n ==> !Eligible(members[j], c)
  }

  predicate FirstFallback(members: seq<Member>, i: nat) {
    i < |members| && members[i].fallback && forall j :: 0 <= j < i ==> !members[j].fallback
  }

  predicate NoFallback(members: seq<Member>) {
    forall j :: 0 <= j < |members| ==> !members[j].fallback
  }

  /** The best eligible member; the first fallback only if no member is eligible; nothing
      only if there is neither. */
  method SelectMember(members: seq<Member>, c: Context) returns (r: Option<(nat, bool)>)
    ensures r.Some? && !r.value.1 <==> !NoneEligible(members, c, |members|)
    ensures r.Some? && !r.value.1 ==> Best(members, c, r.value.0, |members|)
    ensures r.Some? && r.value.1 ==> FirstFallback(members, r.value.0)
    ensures r.None? <==> NoneEligible(members, c, |members|) && NoFallback(members)
  {
    var best: Option<nat> := None;
    for k := 0 to |members|
      invariant best.None? <==> NoneEligible(members, c, k)
      invariant best.Some? ==> Best(members, c, best.value, k)
    {
      if Eligible(members[k], c) {
        if best.None? || Beats(members, k, best.value) {
          best := Some(k);
        }
      }
    }
    if best.Some? { return Some((best.value, false)); }
    var k := 0;
    while k < |members|
      invariant 0 <= k <= |members|
      invariant forall j :: 0 <= j < k ==> !members[j].fallback
    {
      if members[k].fallback { return Some((k, true)); }
      k := k + 1;
    }
    return None;
  }

  lemma {:induction false} BeatsIsAsymmetric(members: seq<Member>, i: nat, j: nat)
    requires i < |members| && j < |members|
    ensures !(Beats(members, i, j) && Beats(members, j, i))
  {
  }

  /** There is one best member, so the outcome does not depend on how it is searched for. */
  lemma {:induction false} BestIsUnique(members: seq<Member>, c: Context, i: nat, j: nat)
    requires Best(members, c, i, |members|) && Best(members, c, j, |members|)
    ensures i == j
  {
    BeatsIsAsymmetric(members, i, j);
  }

  /** However the same members are listed, the selected one has the same priority and
      specificity: the order matters only between equals. */
  lemma {:induction false} OrderMattersOnlyForTies(
      members: seq<Member>, other: seq<Member>, c: Context, i: nat, j: nat)
    requires multiset(members) == multiset(other)
    requires Best(members, c, i, |members|) && Best(other, c, j, |other|)
    ensures members[i].priority == other[j].priority && Specificity(members[i]) == Specificity(other[j])
  {
    assert members[i] in multiset(other) && other[j] in multiset(members);
    var k :| 0 <= k < |other| && other[k] == members[i];
    var l :| 0 <= l < |members| && members[l] == other[j];
    assert k == j || Beats(other, j, k);
    assert l == i || Beats(members, i, l);
  }
}
