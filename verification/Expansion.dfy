/**
 * Exactly when the rewriting loop stops. Texts that close their own placeholders make the
 * current text a list of pending placeholders: a turn replaces the first by those of its
 * text. So the loop stops as an evaluation of the references does, leftmost first: at a
 * failure, or when every reference is expanded; and not when one leads back to itself first.
 */
module Expansion {
  import opened Prelude
  import opened Substitution

  /** A search that finds every opening there is and leaves a true remainder. */
  ghost predicate Splits(scan: string -> Scan) {
    forall s {:trigger scan(s)} :: (scan(s).Plain? <==> Quiet(s))
      && (scan(s).Found? ==> |scan(s).after| <= |s| && s[|s| - |scan(s).after|..] == scan(s).after)
  }

  ghost predicate Regular(rules: Rules) {
    Leftmost(rules) && Splits(rules.scan)
  }

  /** The placeholders of a text, in order. */
  ghost function Paths(rules: Rules, s: string): seq<string>
    requires Leftmost(rules)
    decreases |s|
  {
    var scan := rules.scan(s);
    if scan.Found? then [scan.path] + Paths(rules, scan.after) else []
  }

  /** Every placeholder that is opened is closed. */
  ghost predicate WellClosed(rules: Rules, s: string)
    requires Leftmost(rules)
    decreases |s|
  {
    match rules.scan(s)
    case Plain => true
    case Open => false
    case Found(_, _, after) => WellClosed(rules, after)
  }

  /** Whatever follows such a text, its placeholders stay what they are. */
  ghost predicate Solid(rules: Rules, s: string)
    requires Leftmost(rules)
  {
    WellClosed(rules, s) && (s == "" || s[|s| - 1] != '{')
  }

  ghost predicate SolidTexts(rules: Rules)
    requires Leftmost(rules)
  {
    forall p {:trigger rules.fill(p)} :: rules.fill(p).Ok? ==> Solid(rules, rules.fill(p).value)
  }

  lemma {:induction false} ScanOfConcat(rules: Rules, x: string, y: string, whole: string)
    requires Regular(rules) && Solid(rules, x) && IsJoin(x, y, whole)
    ensures !rules.scan(x).Open?
    ensures rules.scan(x).Plain? ==> rules.scan(whole) == Behind(x, rules.scan(y))
    ensures rules.scan(x).Found? ==> rules.scan(whole) == rules.scan(x).(after := rules.scan(x).after + y)
    ensures rules.scan(x).Found? ==> Solid(rules, rules.scan(x).after) && |rules.scan(x).after| < |x|
  {
    var scan := rules.scan(x);
    if scan.Found? {
      var rest := scan.after;
      assert rest != "" ==> rest[|rest| - 1] == x[|x| - 1];
    }
  }

  /** A text with these placeholders, all closed or not. */
  ghost predicate Has(rules: Rules, s: string, ps: seq<string>, closed: bool)
    requires Leftmost(rules)
  {
    Paths(rules, s) == ps && (WellClosed(rules, s) <==> closed)
  }

  lemma {:induction false} HasBehind(rules: Rules, s: string, t: string, done: string, ps: seq<string>, closed: bool)
    requires Leftmost(rules) && rules.scan(s) == Behind(done, rules.scan(t)) && Has(rules, t, ps, closed)
    ensures Has(rules, s, ps, closed)
  {
  }

  lemma {:induction false} HasFound(rules: Rules, s: string, path: string, after: string, ps: seq<string>, closed: bool)
    requires Leftmost(rules) && Has(rules, after, ps, closed)
    requires rules.scan(s).Found? && rules.scan(s).path == path && rules.scan(s).after == after
    ensures Has(rules, s, [path] + ps, closed)
  {
  }

  lemma {:induction false} PathsOfConcat(
      rules: Rules, x: string, y: string, whole: string, ps: seq<string>, qs: seq<string>, closed: bool)
    requires Regular(rules) && Solid(rules, x) && IsJoin(x, y, whole)
    requires Paths(rules, x) == ps && Has(rules, y, qs, closed)
    ensures Has(rules, whole, ps + qs, closed)
    decreases |x|
  {
    ScanOfConcat(rules, x, y, whole);
    var scan := rules.scan(x);
    if scan.Plain? {
      assert ps + qs == qs;
      HasBehind(rules, whole, y, x, qs, closed);
    } else {
      var (rest, tail) := (scan.after, Paths(rules, scan.after));
      PathsOfConcat(rules, rest, y, rest + y, tail, qs, closed);
      HasFound(rules, whole, scan.path, rest + y, tail + qs, closed);
      FoundFirst(rules, x, scan.path, tail, qs);
    }
  }

  lemma {:induction false} FoundFirst(rules: Rules, s: string, path: string, tail: seq<string>, qs: seq<string>)
    requires Leftmost(rules) && rules.scan(s).Found? && rules.scan(s).path == path && Paths(rules, rules.scan(s).after) == tail
    ensures [path] + (tail + qs) == Paths(rules, s) + qs
  {
    assert Paths(rules, s) == [path] + tail;
  }

  lemma {:induction false} PathsOfTurn(rules: Rules, before: string, text: string, after: string)
    requires Regular(rules) && Clean(before) && Solid(rules, text)
    ensures Paths(rules, before + text + after) == Paths(rules, text) + Paths(rules, after)
    ensures WellClosed(rules, before + text + after) <==> WellClosed(rules, after)
  {
    assert rules.scan(before).Plain?;
    var (behind, ps, qs) := (text + after, Paths(rules, text), Paths(rules, after));
    assert before + text + after == before + behind;
    PathsOfConcat(rules, text, after, behind, ps, qs, WellClosed(rules, after));
    PathsOfConcat(rules, before, behind, before + behind, [], ps + qs, WellClosed(rules, after));
    assert [] + (ps + qs) == ps + qs;
  }

  // ------------------------------------------------------------- evaluating references

  /** What is known at some depth: nothing, or after how many turns everything is expanded or
      a reference fails. */
  datatype Verdict = Unknown | Expanded(turns: nat) | Broken(turns: nat)

  function Then(turns: nat, v: Verdict): Verdict {
    match v
    case Unknown => Unknown
    case Expanded(k) => Expanded(turns + k)
    case Broken(k) => Broken(turns + k)
  }

  function AndThen(v: Verdict, w: Verdict): Verdict {
    if v.Expanded? then Then(v.turns, w) else v
  }

  /** Evaluates the pending placeholders from the left, down to depth `n`. */
  ghost function Evaluate(rules: Rules, ps: seq<string>, n: nat): Verdict
    requires Leftmost(rules)
    decreases n, |ps|
  {
    if ps == [] then Expanded(0)
    else if n == 0 then Unknown
    else
      var text := rules.fill(ps[0]);
      if text.Err? then Broken(0)
      else AndThen(Then(1, Evaluate(rules, Paths(rules, text.value), n - 1)), Evaluate(rules, ps[1..], n))
  }

  /** A verdict does not change at greater depth. */
  lemma {:induction false} EvaluateDeeper(rules: Rules, ps: seq<string>, n: nat, m: nat)
    requires Leftmost(rules) && n <= m && Evaluate(rules, ps, n) != Unknown
    ensures Evaluate(rules, ps, m) == Evaluate(rules, ps, n)
    decreases n, |ps|
  {
    if ps == [] {
    } else {
      var text := rules.fill(ps[0]);
      if text.Ok? {
        EvaluateDeeper(rules, Paths(rules, text.value), n - 1, m - 1);
        if Evaluate(rules, Paths(rules, text.value), n - 1).Expanded? {
          EvaluateDeeper(rules, ps[1..], n, m);
        }
      }
    }
  }

  lemma {:induction false} ThenAssociates(u: Verdict, v: Verdict, w: Verdict)
    ensures AndThen(AndThen(u, v), w) == AndThen(u, AndThen(v, w))
    ensures AndThen(Then(1, u), v) == Then(1, AndThen(u, v))
  {
  }

  lemma {:induction false} EvaluateConcat(rules: Rules, a: seq<string>, b: seq<string>, n: nat)
    requires Leftmost(rules)
    ensures Evaluate(rules, a + b, n) == AndThen(Evaluate(rules, a, n), Evaluate(rules, b, n))
    decreases |a|
  {
    if a == [] {
      assert a + b == b;
    } else {
      assert (a + b)[0] == a[0] && (a + b)[1..] == a[1..] + b;
      if n > 0 && rules.fill(a[0]).Ok? {
        EvaluateConcat(rules, a[1..], b, n);
        ThenAssociates(Then(1, Evaluate(rules, Paths(rules, rules.fill(a[0]).value), n - 1)),
                       Evaluate(rules, a[1..], n), Evaluate(rules, b, n));
      }
    }
  }

  /** A turn of the loop takes one turn off the verdict. */
  lemma {:induction false} EvaluateTurn(rules: Rules, p: string, rest: seq<string>, n: nat)
    requires Leftmost(rules) && rules.fill(p).Ok? && Evaluate(rules, [p] + rest, n) != Unknown
    ensures Evaluate(rules, [p] + rest, n) == Then(1, Evaluate(rules, Paths(rules, rules.fill(p).value) + rest, n))
  {
    var ps := Paths(rules, rules.fill(p).value);
    assert ([p] + rest)[0] == p && ([p] + rest)[1..] == rest;
    EvaluateDeeper(rules, ps, n - 1, n);
    EvaluateConcat(rules, ps, rest, n);
    ThenAssociates(Evaluate(rules, ps, n), Evaluate(rules, rest, n), Unknown);
  }

  lemma {:induction false} EvaluateBack(rules: Rules, p: string, rest: seq<string>, n: nat)
    requires Leftmost(rules) && rules.fill(p).Ok?
    requires Evaluate(rules, Paths(rules, rules.fill(p).value) + rest, n) != Unknown
    ensures Evaluate(rules, [p] + rest, n + 1) != Unknown
  {
    var ps := Paths(rules, rules.fill(p).value);
    assert ([p] + rest)[0] == p && ([p] + rest)[1..] == rest;
    EvaluateConcat(rules, ps, rest, n);
    if Evaluate(rules, ps, n).Expanded? { EvaluateDeeper(rules, rest, n, n + 1); }
  }

  // ------------------------------------------------------------- the loop follows it

  /** A turn that goes on, as seen by the pending placeholders. */
  lemma {:induction false} OneTurn(rules: Rules, s: string) returns (next: string)
    requires Regular(rules) && SolidTexts(rules) && rules.scan(s).Found? && rules.fill(rules.scan(s).path).Ok?
    ensures var (p, rest) := (rules.scan(s).path, Paths(rules, rules.scan(s).after));
      && Rewrite(rules, s) == Next(next)
      && Paths(rules, s) == [p] + rest && Paths(rules, next) == Paths(rules, rules.fill(p).value) + rest
      && (WellClosed(rules, next) <==> WellClosed(rules, s))
  {
    var scan := rules.scan(s);
    var text := rules.fill(scan.path).value;
    next := scan.before + text + scan.after;
    PathsOfTurn(rules, scan.before, text, scan.after);
  }

  /** What the loop comes to after `turns` turns and the one that ends it. */
  ghost predicate Reaches(rules: Rules, s: string, turns: nat, done: bool) {
    && Iterate(rules, s, turns).Next? && !Iterate(rules, s, turns + 1).Next?
    && (Iterate(rules, s, turns + 1).Done? <==> done)
  }

  lemma {:induction false} ReachesLater(rules: Rules, s: string, next: string, turns: nat, done: bool)
    requires Rewrite(rules, s) == Next(next) && Reaches(rules, next, turns, done)
    ensures Reaches(rules, s, turns + 1, done)
  {
    LoopTurn(rules, s, next, turns);
    LoopTurn(rules, s, next, turns + 1);
  }

  lemma {:induction false} VerdictOfTurn(rules: Rules, s: string, n: nat, v: Verdict) returns (next: string, w: Verdict)
    requires Regular(rules) && SolidTexts(rules) && v == Evaluate(rules, Paths(rules, s), n) && v != Unknown
    requires Expandable(rules, s)
    ensures Rewrite(rules, s) == Next(next) && (WellClosed(rules, next) <==> WellClosed(rules, s))
    ensures w == Evaluate(rules, Paths(rules, next), n) && w != Unknown && v == Then(1, w)
  {
    next := OneTurn(rules, s);
    EvaluateTurn(rules, rules.scan(s).path, Paths(rules, rules.scan(s).after), n);
    w := Evaluate(rules, Paths(rules, next), n);
  }

  lemma {:induction false} GoesOn(rules: Rules, s: string, next: string, v: Verdict, w: Verdict)
    requires Leftmost(rules) && Rewrite(rules, s) == Next(next) && (WellClosed(rules, next) <==> WellClosed(rules, s))
    requires w != Unknown && v == Then(1, w) && Reaches(rules, next, w.turns, w.Expanded? && WellClosed(rules, next))
    ensures v != Unknown && Reaches(rules, s, v.turns, v.Expanded? && WellClosed(rules, s))
  {
    ReachesLater(rules, s, next, w.turns, w.Expanded? && WellClosed(rules, next));
  }

  /** A verdict is what the loop comes to, in exactly that many turns. */
  lemma {:induction false} VerdictIsReached(rules: Rules, s: string, n: nat, v: Verdict)
    requires Regular(rules) && SolidTexts(rules) && v == Evaluate(rules, Paths(rules, s), n) && v != Unknown
    ensures Reaches(rules, s, v.turns, v.Expanded? && WellClosed(rules, s))
    decreases v.turns
  {
    if Expandable(rules, s) {
      var next, w := VerdictOfTurn(rules, s, n, v);
      VerdictIsReached(rules, next, n, w);
      GoesOn(rules, s, next, v, w);
    } else {
      StopsAtOnce(rules, s, n, v);
    }
  }

  /** The first placeholder has a text. */
  ghost predicate Expandable(rules: Rules, s: string) {
    rules.scan(s).Found? && rules.fill(rules.scan(s).path).Ok?
  }

  lemma {:induction false} StopsAtOnce(rules: Rules, s: string, n: nat, v: Verdict)
    requires Leftmost(rules) && v == Evaluate(rules, Paths(rules, s), n) && v != Unknown
    requires !Expandable(rules, s)
    ensures v.turns == 0 && Reaches(rules, s, v.turns, v.Expanded? && WellClosed(rules, s))
  {
    assert Iterate(rules, s, 1) == Rewrite(rules, s);
  }

  lemma {:induction false} VerdictBeforeTurn(rules: Rules, s: string, next: string, k: nat)
    requires Regular(rules) && SolidTexts(rules) && Expandable(rules, s) && Rewrite(rules, s) == Next(next)
    requires Evaluate(rules, Paths(rules, next), k) != Unknown
    ensures Evaluate(rules, Paths(rules, s), k + 1) != Unknown
  {
    var scan := rules.scan(s);
    var same := OneTurn(rules, s);
    EvaluateBack(rules, scan.path, Paths(rules, scan.after), k);
  }

  lemma {:induction false} TurnOfStopped(rules: Rules, s: string, k: nat) returns (next: string)
    requires Leftmost(rules) && Expandable(rules, s) && !Iterate(rules, s, k).Next?
    ensures k > 0 && Rewrite(rules, s) == Next(next) && !Iterate(rules, next, k - 1).Next?
  {
    next := rules.scan(s).before + rules.fill(rules.scan(s).path).value + rules.scan(s).after;
    LoopTurn(rules, s, next, k - 1);
  }

  /** A loop that has stopped has found a verdict on the way. */
  lemma {:induction false} StoppedHasVerdict(rules: Rules, s: string, k: nat, ps: seq<string>)
    requires Regular(rules) && SolidTexts(rules) && !Iterate(rules, s, k).Next? && ps == Paths(rules, s)
    ensures Evaluate(rules, ps, k) != Unknown
    decreases k
  {
    if Expandable(rules, s) {
      var next := TurnOfStopped(rules, s, k);
      StoppedHasVerdict(rules, next, k - 1, Paths(rules, next));
      VerdictBeforeTurn(rules, s, next, k - 1);
    } else {
      NothingToExpand(rules, s, k);
    }
  }

  lemma {:induction false} NothingToExpand(rules: Rules, s: string, k: nat)
    requires Leftmost(rules) && k > 0 && (rules.scan(s).Found? ==> rules.fill(rules.scan(s).path).Err?)
    ensures Evaluate(rules, Paths(rules, s), k) != Unknown
  {
  }

  ghost predicate Halts(rules: Rules, s: string) {
    exists k: nat :: !Iterate(rules, s, k).Next?
  }

  ghost predicate Succeeds(rules: Rules, s: string) {
    exists k: nat :: Iterate(rules, s, k).Done?
  }

  ghost predicate Decided(rules: Rules, s: string)
    requires Leftmost(rules)
  {
    exists n: nat :: Evaluate(rules, Paths(rules, s), n) != Unknown
  }

  /** The loop stops, with text or with an error, if and only if the leftmost evaluation of
      the references comes to a verdict at some depth. */
  lemma {:induction false} HaltsExactly(rules: Rules, s: string)
    requires Regular(rules) && SolidTexts(rules)
    ensures Halts(rules, s) <==> Decided(rules, s)
  {
    if Halts(rules, s) {
      var k: nat :| !Iterate(rules, s, k).Next?;
      StoppedHasVerdict(rules, s, k, Paths(rules, s));
    }
    if Decided(rules, s) {
      var n: nat :| Evaluate(rules, Paths(rules, s), n) != Unknown;
      VerdictIsReached(rules, s, n, Evaluate(rules, Paths(rules, s), n));
    }
  }

  /** The reference is defined, and so are all that it reaches, within depth `n`. */
  ghost predicate Expands(rules: Rules, p: string, n: nat)
    requires Leftmost(rules)
    decreases n
  {
    n > 0 && rules.fill(p).Ok? && forall q :: q in Paths(rules, rules.fill(p).value) ==> Expands(rules, q, n - 1)
  }

  ghost predicate AllExpand(rules: Rules, ps: seq<string>, n: nat)
    requires Leftmost(rules)
  {
    forall p :: p in ps ==> Expands(rules, p, n)
  }

  lemma {:induction false} ExpandedExactly(rules: Rules, ps: seq<string>, n: nat)
    requires Leftmost(rules)
    ensures Evaluate(rules, ps, n).Expanded? <==> AllExpand(rules, ps, n)
    decreases n, |ps|
  {
    if ps == [] {
    } else {
      assert ps == [ps[0]] + ps[1..];
      if n > 0 && rules.fill(ps[0]).Ok? {
        ExpandedExactly(rules, Paths(rules, rules.fill(ps[0]).value), n - 1);
        ExpandedExactly(rules, ps[1..], n);
        assert AllExpand(rules, ps, n) <==> Expands(rules, ps[0], n) && AllExpand(rules, ps[1..], n);
      } else {
        assert !Expands(rules, ps[0], n);
      }
    }
  }

  ghost predicate Finite(rules: Rules, s: string)
    requires Leftmost(rules)
  {
    exists n: nat :: AllExpand(rules, Paths(rules, s), n)
  }

  /** The loop stops with a text if and only if the template closes its placeholders and every
      reference that it reaches is defined and none leads back to itself. */
  lemma {:induction false} SucceedsExactly(rules: Rules, s: string)
    requires Regular(rules) && SolidTexts(rules)
    ensures Succeeds(rules, s) <==> WellClosed(rules, s) && Finite(rules, s)
  {
    if Succeeds(rules, s) {
      var k: nat :| Iterate(rules, s, k).Done?;
      StoppedHasVerdict(rules, s, k, Paths(rules, s));
      VerdictIsReached(rules, s, k, Evaluate(rules, Paths(rules, s), k));
      SameEnd(rules, s, k, Evaluate(rules, Paths(rules, s), k).turns + 1);
      ExpandedExactly(rules, Paths(rules, s), k);
    }
    if WellClosed(rules, s) && Finite(rules, s) {
      var n: nat :| AllExpand(rules, Paths(rules, s), n);
      ExpandedExactly(rules, Paths(rules, s), n);
      VerdictIsReached(rules, s, n, Evaluate(rules, Paths(rules, s), n));
    }
  }

  lemma {:induction false} SameEnd(rules: Rules, s: string, k: nat, l: nat)
    requires !Iterate(rules, s, k).Next? && !Iterate(rules, s, l).Next?
    ensures Iterate(rules, s, k) == Iterate(rules, s, l)
  {
    if k <= l { MoreTurnsChangeNothing(rules, s, k, l); } else { MoreTurnsChangeNothing(rules, s, l, k); }
  }

  /** No depth suffices for a set of paths each of which reaches one of the set again. */
  lemma {:induction false} CycleIsInfinite(rules: Rules, cycle: set<string>, p: string, n: nat)
    requires Leftmost(rules) && p in cycle
    requires forall q :: q in cycle && rules.fill(q).Ok? ==> exists r :: r in cycle && r in Paths(rules, rules.fill(q).value)
    ensures !Expands(rules, p, n)
    decreases n
  {
    if n > 0 && rules.fill(p).Ok? {
      var r :| r in cycle && r in Paths(rules, rules.fill(p).value);
      CycleIsInfinite(rules, cycle, r, n - 1);
    }
  }
}
