/** The stable sort and the filter of the standard library, with what is used about them. */
module StableSorting {

  /** A strict comparison whose negation is transitive: what a sort needs. */
  ghost predicate TotalPreorder<T(!new)>(less: (T, T) -> bool) {
    && (forall a, b :: less(a, b) ==> !less(b, a))
    && (forall a, b, c :: !less(b, a) && !less(c, b) ==> !less(c, a))
  }

  function Insert<T>(s: seq<T>, x: T, less: (T, T) -> bool): seq<T> {
    if s == [] || !less(x, s[|s| - 1]) then s + [x]
    else Insert(s[..|s| - 1], x, less) + [s[|s| - 1]]
  }

  function StableSort<T>(s: seq<T>, less: (T, T) -> bool): seq<T> {
    if s == [] then [] else Insert(StableSort(s[..|s| - 1], less), s[|s| - 1], less)
  }

  ghost predicate InOrder<T>(s: seq<T>, less: (T, T) -> bool) {
    forall i, j :: 0 <= i < j < |s| ==> !less(s[j], s[i])
  }

  lemma {:induction false} InsertKeeps<T(!new)>(s: seq<T>, x: T, less: (T, T) -> bool)
    ensures multiset(Insert(s, x, less)) == multiset(s) + multiset{x}
    ensures TotalPreorder(less) && InOrder(s, less) ==> InOrder(Insert(s, x, less), less)
    decreases |s|
  {
    if !(s == [] || !less(x, s[|s| - 1])) {
      var (init, last) := (s[..|s| - 1], s[|s| - 1]);
      assert s == init + [last];
      InsertKeeps(init, x, less);
      var r := Insert(init, x, less);
      if TotalPreorder(less) && InOrder(s, less) {
        assert InOrder(init, less);
        forall i, j | 0 <= i < j < |r + [last]| ensures !less((r + [last])[j], (r + [last])[i]) {
          if j == |r| {
            assert r[i] in multiset(r);
            assert r[i] == x || r[i] in multiset(init);
          }
        }
      }
    }
  }

  /** Sorting permutes and puts in order. */
  lemma {:induction false} SortFacts<T(!new)>(s: seq<T>, less: (T, T) -> bool)
    ensures multiset(StableSort(s, less)) == multiset(s)
    ensures TotalPreorder(less) ==> InOrder(StableSort(s, less), less)
  {
    if s == [] {
    } else {
      var init := s[..|s| - 1];
      assert s == init + [s[|s| - 1]];
      SortFacts(init, less);
      InsertKeeps(StableSort(init, less), s[|s| - 1], less);
    }
  }

  function Filter<T>(s: seq<T>, keep: T -> bool): seq<T> {
    if s == [] then []
    else Filter(s[..|s| - 1], keep) + if keep(s[|s| - 1]) then [s[|s| - 1]] else []
  }

  lemma {:induction false} FilterCounts<T>(s: seq<T>, keep: T -> bool, x: T)
    ensures multiset(Filter(s, keep))[x] == if keep(x) then multiset(s)[x] else 0
  {
    if s == [] {
    } else {
      assert s == s[..|s| - 1] + [s[|s| - 1]];
      FilterCounts(s[..|s| - 1], keep, x);
    }
  }

  lemma {:induction false} FilterOfPermutation<T>(s: seq<T>, t: seq<T>, keep: T -> bool)
    requires multiset(s) == multiset(t)
    ensures multiset(Filter(s, keep)) == multiset(Filter(t, keep))
  {
    var (a, b) := (multiset(Filter(s, keep)), multiset(Filter(t, keep)));
    forall x: T ensures a[x] == b[x] {
      FilterCounts(s, keep, x);
      FilterCounts(t, keep, x);
    }
    assert a == b;
  }

  lemma {:induction false} FilterMember<T>(s: seq<T>, keep: T -> bool, x: T)
    ensures x in Filter(s, keep) <==> x in s && keep(x)
  {
    if s == [] {
    } else {
      assert s == s[..|s| - 1] + [s[|s| - 1]];
      FilterMember(s[..|s| - 1], keep, x);
    }
  }

  lemma {:induction false} FilterKeepsOrder<T>(s: seq<T>, keep: T -> bool, less: (T, T) -> bool)
    requires InOrder(s, less)
    ensures InOrder(Filter(s, keep), less)
  {
    if s != [] {
      var (init, last) := (s[..|s| - 1], s[|s| - 1]);
      FilterKeepsOrder(init, keep, less);
      assert s == init + [last];
      var kept := Filter(init, keep);
      forall i | 0 <= i < |kept| ensures !less(last, kept[i]) {
        FilterMember(init, keep, kept[i]);
        var j :| 0 <= j < |init| && init[j] == kept[i];
        assert s[j] == init[j] && s[|s| - 1] == last;
      }
    }
  }

  function Map<A, B>(s: seq<A>, f: A -> B): (r: seq<B>)
    ensures |r| == |s| && forall i :: 0 <= i < |s| ==> r[i] == f(s[i])
  {
    seq(|s|, i requires 0 <= i < |s| => f(s[i]))
  }

  lemma {:induction false} WithoutOne<A>(s: seq<A>, t: seq<A>, k: nat)
    requires s != [] && multiset(s) == multiset(t) && k < |t| && t[k] == s[|s| - 1]
    ensures multiset(s[..|s| - 1]) == multiset(t[..k] + t[k + 1..])
  {
    var x := t[k];
    assert s == s[..|s| - 1] + [x];
    assert t == t[..k] + [x] + t[k + 1..];
    assert multiset(t) == multiset(t[..k]) + multiset{x} + multiset(t[k + 1..]);
    assert multiset(s) == multiset(s[..|s| - 1]) + multiset{x};
    var (a, b) := (multiset(s[..|s| - 1]), multiset(t[..k] + t[k + 1..]));
    assert b == multiset(t[..k]) + multiset(t[k + 1..]);
    forall y: A ensures a[y] == b[y] {
      assert (a + multiset{x})[y] == (b + multiset{x})[y];
    }
    assert a == b;
  }

  lemma {:induction false} MapOfPermutation<A, B>(s: seq<A>, t: seq<A>, f: A -> B)
    requires multiset(s) == multiset(t)
    ensures multiset(Map(s, f)) == multiset(Map(t, f))
  {
    if s == [] {
      assert |multiset(s)| == 0 == |multiset(t)|;
      assert t == [];
    } else {
      var (init, x) := (s[..|s| - 1], s[|s| - 1]);
      assert x in multiset(s) && x in multiset(t);
      var k :| 0 <= k < |t| && t[k] == x;
      var (left, right) := (t[..k], t[k + 1..]);
      WithoutOne(s, t, k);
      MapOfPermutation(init, left + right, f);
      assert Map(s, f) == Map(init, f) + [f(x)];
      assert Map(left + right, f) == Map(left, f) + Map(right, f);
      assert Map(t, f) == Map(left, f) + [f(x)] + Map(right, f);
    }
  }
}
