/**
 * Placeholder substitution by rewriting: a loop that fills the leftmost placeholder of the
 * current text and starts again from its beginning, against a single left-to-right pass
 * that never looks at what it has put in. How a placeholder is found and what fills it
 * are parameters.
 */
module Substitution {
  import opened Prelude

  datatype Error = MissingPlaceholder(path: string) | Unclosed

  datatype Scan = Plain | Open | Found(before: string, path: string, after: string)

  datatype Rules = Rules(scan: string -> Scan, fill: string -> Result<string, Error>)

  predicate PairAt(s: string, c: char, k: int) {
    0 <= k < |s| - 1 && s[k] == c && s[k + 1] == c
  }

  /** Nothing in `s` opens a placeholder. */
  ghost predicate Quiet(s: string) {
    forall k :: !PairAt(s, '{', k)
  }

  /** Nothing in `s` opens one, nor does its end together with what follows it. */
  ghost predicate Clean(s: string) {
    Quiet(s) && (s == "" || s[|s| - 1] != '{')
  }

  /** An opening made of the end of one text and the start of the next. */
  predicate Seam(a: string, b: string) {
    a != "" && b != "" && a[|a| - 1] == '{' && b[0] == '{'
  }

  function Behind(done: string, scan: Scan): Scan {
    if scan.Found? then scan.(before := done + scan.before) else scan
  }

  ghost predicate FindsOpenings(scan: string -> Scan) {
    forall s {:trigger scan(s)} :: (scan(s).Plain? ==> Quiet(s))
      && (scan(s).Found? ==> Clean(scan(s).before) && OpensBehind(scan(s).before, s) && |scan(s).after| < |s|)
  }

  /** The text starts like `before` and goes on with an opening brace. */
  predicate OpensBehind(before: string, s: string) {
    |before| < |s| && s[|before|] == '{' && (before != "" ==> s[0] == before[0])
  }

  predicate IsJoin(a: string, b: string, whole: string) {
    whole == a + b
  }

  /** Quiet text in front does not change what is found next, unless it makes a seam. */
  ghost predicate SkipsQuiet(scan: string -> Scan) {
    forall done, rest, whole {:trigger IsJoin(done, rest, whole)} ::
      IsJoin(done, rest, whole) && Quiet(done) && !Seam(done, rest) ==> scan(whole) == Behind(done, scan(rest))
  }

  /** What was found stays when text is added behind it. */
  ghost predicate IgnoresTail(scan: string -> Scan) {
    forall s, tail, whole {:trigger IsJoin(s, tail, whole)} ::
      IsJoin(s, tail, whole) && scan(s).Found? ==> scan(whole) == scan(s).(after := scan(s).after + tail)
  }

  ghost predicate Leftmost(rules: Rules) {
    FindsOpenings(rules.scan) && SkipsQuiet(rules.scan) && IgnoresTail(rules.scan)
  }

  // ------------------------------------------------------------- the loop

  datatype Progress = Done(text: string) | Failed(error: Error) | Next(text: string)

  /** One turn of the loop. */
  function Rewrite(rules: Rules, s: string): Progress {
    match rules.scan(s)
    case Plain => Done(s)
    case Open => Failed(Unclosed)
    case Found(before, path, after) =>
      var text := rules.fill(path);
      if text.Ok? then Next(before + text.value + after) else Failed(text.error)
  }

  /** At most `n` turns. */
  function Iterate(rules: Rules, s: string, n: nat): Progress
    decreases n
  {
    if n == 0 then Next(s)
    else
      var p := Rewrite(rules, s);
      if p.Next? then Iterate(rules, p.text, n - 1) else p
  }

  function Outcome(p: Progress): Option<Result<string, Error>> {
    match p
    case Done(t) => Some(Ok(t))
    case Failed(e) => Some(Err(e))
    case Next(_) => None
  }

  /** The `while` loop. `bound` stands for any number of turns after which it has stopped. */
  method RunLoop(rules: Rules, template: string, ghost bound: nat) returns (r: Result<string, Error>)
    requires !Iterate(rules, template, bound).Next?
    ensures Outcome(Iterate(rules, template, bound)) == Some(r)
  {
    var rendered := template;
    ghost var turns := 0;
    var scan := rules.scan(rendered);
    while !scan.Plain?
      invariant turns <= bound
      invariant scan == rules.scan(rendered)
      invariant Iterate(rules, template, bound) == Iterate(rules, rendered, bound - turns)
      decreases bound - turns
    {
      if scan.Open? { return Err(Unclosed); }
      var text := rules.fill(scan.path);
      if text.Err? { return Err(text.error); }
      rendered := scan.before + text.value + scan.after;
      turns := turns + 1;
      scan := rules.scan(rendered);
    }
    return Ok(rendered);
  }

  /** The loop ends only with text in which no placeholder is left. */
  lemma {:induction false} DoneIsQuiet(rules: Rules, s: string, n: nat)
    requires Leftmost(rules) && Iterate(rules, s, n).Done?
    ensures Quiet(Iterate(rules, s, n).text)
    decreases n
  {
    var p := Rewrite(rules, s);
    if p.Next? { DoneIsQuiet(rules, p.text, n - 1); }
  }

  /** What the loop ends with; more turns change nothing. */
  lemma {:induction false} MoreTurnsChangeNothing(rules: Rules, s: string, n: nat, m: nat)
    requires n <= m && !Iterate(rules, s, n).Next?
    ensures Iterate(rules, s, m) == Iterate(rules, s, n)
    decreases n
  {
    var p := Rewrite(rules, s);
    if p.Next? { MoreTurnsChangeNothing(rules, p.text, n - 1, m - 1); }
  }

  // ------------------------------------------------------------- one pass

  function Prefixed(done: string, r: Result<string, Error>): Result<string, Error> {
    if r.Ok? then Ok(done + r.value) else r
  }

  /** Left-to-right substitution that never looks at substituted text. */
  ghost function OnePass(rules: Rules, s: string): Result<string, Error>
    requires Leftmost(rules)
    decreases |s|
  {
    match rules.scan(s)
    case Plain => Ok(s)
    case Open => Err(Unclosed)
    case Found(before, path, after) =>
      var text := rules.fill(path);
      if text.Ok? then Prefixed(before + text.value, OnePass(rules, after)) else text
  }

  /** The texts that the single pass puts in, in order. */
  ghost function Inserted(rules: Rules, s: string): seq<string>
    requires Leftmost(rules)
    decreases |s|
  {
    var scan := rules.scan(s);
    if scan.Found? && rules.fill(scan.path).Ok?
    then [rules.fill(scan.path).value] + Inserted(rules, scan.after)
    else []
  }

  ghost predicate AllQuiet(texts: seq<string>) {
    forall k :: 0 <= k < |texts| ==> Quiet(texts[k])
  }

  /** No inserted text makes a seam with the template text behind its placeholder. */
  ghost predicate NoSeams(rules: Rules, s: string)
    requires Leftmost(rules)
    decreases |s|
  {
    var scan := rules.scan(s);
    scan.Found? && rules.fill(scan.path).Ok? ==>
      !Seam(rules.fill(scan.path).value, scan.after) && NoSeams(rules, scan.after)
  }

  lemma {:induction false} PairsInConcat(a: string, b: string, c: char, k: int)
    requires a == "" || a[|a| - 1] != c || b == "" || b[0] != c
    ensures PairAt(a + b, c, k) <==> PairAt(a, c, k) || PairAt(b, c, k - |a|)
  {
    var s := a + b;
    if 0 <= k < |s| - 1 && k + 1 < |a| { assert s[k] == a[k] && s[k + 1] == a[k + 1]; }
    if |a| <= k < |s| - 1 { assert s[k] == b[k - |a|] && s[k + 1] == b[k + 1 - |a|]; }
  }

  lemma {:induction false} QuietConcat(a: string, b: string)
    requires Quiet(a) && Quiet(b) && !Seam(a, b)
    ensures Quiet(a + b)
  {
    forall k ensures !PairAt(a + b, '{', k) {
      PairsInConcat(a, b, '{', k);
    }
  }

  lemma {:induction false} HeadAndTail(text: string, texts: seq<string>)
    requires AllQuiet([text] + texts)
    ensures Quiet(text) && AllQuiet(texts)
  {
    assert ([text] + texts)[0] == text;
    forall k | 0 <= k < |texts| ensures Quiet(texts[k]) {
      assert ([text] + texts)[k + 1] == texts[k];
    }
  }

  lemma {:induction false} PrefixedTwice(a: string, b: string, r: Result<string, Error>)
    ensures Prefixed(a, Prefixed(b, r)) == Prefixed(a + b, r)
  {
    if r.Ok? { assert a + (b + r.value) == a + b + r.value; }
  }

  // ------------------------------------------------------------- the loop is one pass

  lemma {:induction false} LoopTurn(rules: Rules, s: string, t: string, n: nat)
    requires Rewrite(rules, s) == Next(t)
    ensures Iterate(rules, s, n + 1) == Iterate(rules, t, n)
  {
  }

  lemma {:induction false} TurnBehind(rules: Rules, done: string, rest: string)
    requires rules.scan(done + rest) == Behind(done, rules.scan(rest))
    ensures Rewrite(rules, done + rest)
         == match Rewrite(rules, rest)
            case Done(t) => Done(done + t)
            case Next(t) => Next(done + t)
            case Failed(e) => Failed(e)
  {
    var scan := rules.scan(rest);
    if scan.Found? && rules.fill(scan.path).Ok? {
      var text := rules.fill(scan.path).value;
      assert done + scan.before + text + scan.after == done + (scan.before + text + scan.after);
    }
  }

  /** Finished text, the text in front of the next placeholder and what fills it join to
      finished text that makes no seam with what is behind. */
  lemma {:induction false} JoinFinished(done: string, before: string, text: string, rest: string, after: string)
    requires Quiet(done) && !Seam(done, rest) && OpensBehind(before, rest) && Clean(before)
    requires Quiet(text) && !Seam(text, after)
    ensures Quiet(done + before + text) && !Seam(done + before + text, after)
  {
    var front := done + before;
    assert rest[|before|] == '{';
    assert before != "" ==> rest[0] == before[0] && front[|front| - 1] == before[|before| - 1];
    QuietConcat(done, before);
    assert front == "" || front[|front| - 1] != '{' by {
      assert before == "" ==> front == done;
    }
    QuietConcat(front, text);
    var all := front + text;
    assert text != "" ==> all[|all| - 1] == text[|text| - 1];
    assert text == "" ==> all == front;
  }

  /** With finished text in front, the loop does to the rest what one pass does, in as many
      turns as there are placeholders to fill and one more. */
  lemma {:induction false} LoopIsOnePassBehind(rules: Rules, done: string, rest: string)
    requires Leftmost(rules) && Quiet(done) && !Seam(done, rest)
    requires AllQuiet(Inserted(rules, rest)) && NoSeams(rules, rest)
    ensures Outcome(Iterate(rules, done + rest, |Inserted(rules, rest)| + 1))
         == Some(Prefixed(done, OnePass(rules, rest)))
    decreases |rest|
  {
    var scan := rules.scan(rest);
    if scan.Found? && rules.fill(scan.path).Ok? {
      var text := rules.fill(scan.path).value;
      HeadAndTail(text, Inserted(rules, scan.after));
      JoinFinished(done, scan.before, text, rest, scan.after);
      var next := done + scan.before + text;
      assert IsJoin(done, rest, done + rest);
      FilledBehind(rules, done, rest, text, next);
      LoopIsOnePassBehind(rules, next, scan.after);
      LoopTurn(rules, done + rest, next + scan.after, |Inserted(rules, scan.after)| + 1);
      PrefixedTwice(done, scan.before + text, OnePass(rules, scan.after));
    } else {
      assert IsJoin(done, rest, done + rest);
      TurnBehind(rules, done, rest);
    }
  }

  lemma {:induction false} FilledBehind(rules: Rules, done: string, rest: string, text: string, next: string)
    requires rules.scan(done + rest) == Behind(done, rules.scan(rest)) && rules.scan(rest).Found?
    requires rules.fill(rules.scan(rest).path) == Ok(text) && next == done + rules.scan(rest).before + text
    ensures Rewrite(rules, done + rest) == Next(next + rules.scan(rest).after)
    ensures next == done + (rules.scan(rest).before + text)
  {
  }

  /** If no substituted text contains "{{", nor ends in "{" where the template goes on with
      "{", the loop stops, after one turn per placeholder and one more, with exactly the
      outcome of the single pass: the same text or the same failure. */
  lemma {:induction false} LoopIsOnePass(rules: Rules, s: string)
    requires Leftmost(rules) && AllQuiet(Inserted(rules, s)) && NoSeams(rules, s)
    ensures Outcome(Iterate(rules, s, |Inserted(rules, s)| + 1)) == Some(OnePass(rules, s))
  {
    LoopIsOnePassBehind(rules, "", s);
    assert "" + s == s;
    var r := OnePass(rules, s);
    if r.Ok? { assert "" + r.value == r.value; }
  }

  lemma {:induction false} LoopStaysOnePass(rules: Rules, s: string, turns: nat)
    requires Leftmost(rules) && AllQuiet(Inserted(rules, s)) && NoSeams(rules, s) && turns > |Inserted(rules, s)|
    ensures Outcome(Iterate(rules, s, turns)) == Some(OnePass(rules, s))
  {
    LoopIsOnePass(rules, s);
    MoreTurnsChangeNothing(rules, s, |Inserted(rules, s)| + 1, turns);
  }

  lemma {:induction false} QuietParts(a: string, b: string)
    requires Quiet(a + b)
    ensures Quiet(a) && Quiet(b)
  {
    forall k ensures !PairAt(a, '{', k) && !PairAt(b, '{', k) {
      if 0 <= k < |a| - 1 { assert !PairAt(a + b, '{', k) && (a + b)[k] == a[k] && (a + b)[k + 1] == a[k + 1]; }
      if 0 <= k < |b| - 1 {
        assert !PairAt(a + b, '{', |a| + k) && (a + b)[|a| + k] == b[k] && (a + b)[|a| + k + 1] == b[k + 1];
      }
    }
  }

  lemma {:induction false} InsertedTextSurvives(rules: Rules, s: string, t: string, i: nat)
    requires Leftmost(rules) && OnePass(rules, s) == Ok(t)
    requires i < |Inserted(rules, s)| && Quiet(t)
    ensures Quiet(Inserted(rules, s)[i])
    decreases |s|
  {
    var scan := rules.scan(s);
    var text := rules.fill(scan.path).value;
    var rest := OnePass(rules, scan.after).value;
    QuietParts(scan.before + text, rest);
    QuietParts(scan.before, text);
    if i == 0 {
    } else {
      InsertedTextSurvives(rules, scan.after, rest, i - 1);
    }
  }

  ghost predicate Delivers(rules: Rules, s: string, t: string) {
    exists n: nat :: Iterate(rules, s, n) == Done(t)
  }

  /** For a template that the single pass can fill, with texts that make no seam: the loop
      delivers the same text if and only if no substituted text contains "{{". */
  lemma {:induction false} LoopIsOnePassExactlyWhenQuiet(rules: Rules, s: string)
    requires Leftmost(rules) && OnePass(rules, s).Ok? && NoSeams(rules, s)
    ensures AllQuiet(Inserted(rules, s)) <==> Delivers(rules, s, OnePass(rules, s).value)
  {
    var inserted, t := Inserted(rules, s), OnePass(rules, s).value;
    if AllQuiet(inserted) {
      LoopIsOnePass(rules, s);
      assert Iterate(rules, s, |inserted| + 1) == Done(t);
    }
    if Delivers(rules, s, t) {
      var n: nat :| Iterate(rules, s, n) == Done(t);
      DoneIsQuiet(rules, s, n);
      forall i | 0 <= i < |inserted| ensures Quiet(inserted[i]) {
        InsertedTextSurvives(rules, s, t, i);
      }
    }
  }

  // ------------------------------------------------------------- when it does not stop

  /** What fills a path has that path as its own first placeholder. */
  predicate RefersToItself(rules: Rules, path: string) {
    var text := rules.fill(path);
    text.Ok? && rules.scan(text.value).Found? && rules.scan(text.value).path == path
  }

  predicate StartsWith(rules: Rules, s: string, path: string) {
    rules.scan(s).Found? && rules.scan(s).path == path
  }

  /** A template whose first placeholder is such a path is rewritten for ever. */
  lemma {:induction false} SelfReferenceNeverHalts(rules: Rules, s: string, path: string, n: nat)
    requires Leftmost(rules) && StartsWith(rules, s, path) && RefersToItself(rules, path)
    ensures Iterate(rules, s, n).Next?
    decreases n
  {
    if n == 0 {
    } else {
      var scan, text := rules.scan(s), rules.fill(path).value;
      assert IsJoin(scan.before, text, scan.before + text);
      assert IsJoin(scan.before + text, scan.after, scan.before + text + scan.after);
      SelfReferenceNeverHalts(rules, scan.before + text + scan.after, path, n - 1);
    }
  }

  lemma {:induction false} TwoTurns(rules: Rules, s: string, second: string, path: string, before: string, after: string)
    requires Rewrite(rules, s) == Next(second) && rules.scan(second) == Found(before, path, after)
    ensures Iterate(rules, s, 2)
         == if rules.fill(path).Ok? then Next(before + rules.fill(path).value + after) else Failed(rules.fill(path).error)
  {
    LoopTurn(rules, s, second, 1);
    assert Iterate(rules, second, 1) == Rewrite(rules, second);
  }

  /** A text that ends in "{" moves the start of the next placeholder. */
  lemma {:induction false} ShiftedPlaceholder(rules: Rules, t: string, second: string, third: string)
    requires Leftmost(rules) && third == "{" + second
    requires rules.scan(t) == Found("", "a", second) && rules.scan(second) == Found("", "b", "")
    requires rules.scan(third) == Found("", "{b", "") && rules.scan("") == Plain
    requires rules.fill("a") == Ok("{") && rules.fill("b") == Ok("x")
    requires rules.fill("{b") == Err(MissingPlaceholder("{b"))
    ensures OnePass(rules, t) == Ok("{x")
    ensures Iterate(rules, t, 2) == Failed(MissingPlaceholder("{b"))
  {
    assert OnePass(rules, "") == Ok("");
    assert "" + "x" == "x" && "x" + "" == "x" && "" + "{" == "{" && "{" + "x" == "{x";
    assert OnePass(rules, second) == Prefixed("" + "x", OnePass(rules, ""));
    assert OnePass(rules, t) == Prefixed("" + "{", OnePass(rules, second));
    assert "" + "{" + second == third;
    LoopTurn(rules, t, third, 1);
  }

  lemma {:induction false} AgreeingPlaceholder(rules: Rules, t: string, second: string, third: string, result: string)
    requires Leftmost(rules) && third == "{" + second && result == "{x"
    requires rules.scan(t) == Found("", "a", second) && rules.scan(second) == Found("", "b", "")
    requires rules.scan(third) == Found("", "{b", "") && rules.scan("") == Plain && rules.scan(result) == Plain
    requires rules.fill("a") == Ok("{") && rules.fill("b") == Ok("x") && rules.fill("{b") == Ok(result)
    ensures OnePass(rules, t) == Ok(result) && Iterate(rules, t, 3) == Done(result)
  {
    assert OnePass(rules, "") == Ok("");
    assert "" + "x" == "x" && "x" + "" == "x" && "" + "{" == "{" && "{" + "x" == "{x";
    assert OnePass(rules, second) == Prefixed("" + "x", OnePass(rules, ""));
    assert OnePass(rules, t) == Prefixed("" + "{", OnePass(rules, second));
    assert "" + "{" + second == third && "" + result + "" == result;
    LoopTurn(rules, t, third, 2);
    LoopTurn(rules, third, result, 1);
    assert Iterate(rules, result, 1) == Rewrite(rules, result);
  }
}
