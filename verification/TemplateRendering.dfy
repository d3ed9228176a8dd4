/**
 * Output templates. A string that is one whole placeholder becomes the typed value it names;
 * any other string is rewritten in place, one placeholder at a time, always from the start
 * of the current text, so text that was substituted is scanned again.
 */
module TemplateRendering {
  import opened Prelude
  import opened Substitution
  import opened Expansion
  import opened Texts

  /** JSON; the members of an object are in key order. */
  datatype Value =
    | Null
    | Boolean(flag: bool)
    | Number(numeral: string)
    | Text(text: string)
    | Items(items: seq<Value>)
    | Fields(fields: seq<Field>)

  datatype Field = Field(key: string, value: Value)

  /** The document that paths refer to, and how a value that is not a string is written. */
  datatype Context = Context(source: Value, encode: Value -> string)

  // ------------------------------------------------------------------- paths

  function Member(fields: seq<Field>, key: string): Option<Value> {
    if fields == [] then None
    else if fields[0].key == key then Some(fields[0].value)
    else Member(fields[1..], key)
  }

  /** `Value::get` with a string: only objects have members. */
  function Get(v: Value, key: string): Option<Value> {
    if v.Fields? then Member(v.fields, key) else None
  }

  function Follow(v: Value, segments: seq<string>): Option<Value>
    decreases |segments|
  {
    if segments == [] then Some(v)
    else
      var next := Get(v, segments[0]);
      if next.None? then None else Follow(next.value, segments[1..])
  }

  function Lookup(source: Value, path: string): Result<Value, Error> {
    if path == "" then Ok(source)
    else
      var found := Follow(source, Split(path, '.'));
      if found.Some? then Ok(found.value) else Err(MissingPlaceholder(path))
  }

  function TextOf(c: Context, v: Value): string {
    if v.Text? then v.text else c.encode(v)
  }

  // ------------------------------------------------------------- placeholders

  /** The first place at or after `from` where `c` stands twice. */
  function Find(s: string, c: char, from: nat): (r: Option<nat>)
    ensures r.Some? ==> from <= r.value < |s| - 1
    decreases |s| - from
  {
    if from + 1 >= |s| then None
    else if PairAt(s, c, from) then Some(from)
    else Find(s, c, from + 1)
  }

  lemma {:induction false} FindFacts(s: string, c: char, from: nat)
    ensures var r := Find(s, c, from);
      && (r.Some? ==> PairAt(s, c, r.value) && forall k :: from <= k < r.value ==> !PairAt(s, c, k))
      && (r.None? ==> forall k :: from <= k ==> !PairAt(s, c, k))
    decreases |s| - from
  {
    if from + 1 < |s| && !PairAt(s, c, from) { FindFacts(s, c, from + 1); }
  }

  /** The leftmost placeholder: the first "{{" and the first "}}" behind it. */
  function FirstPlaceholder(s: string): (r: Scan)
    ensures r.Found? ==> |r.after| < |s|
  {
    ScanFrom(s, Find(s, '{', 0))
  }

  function ScanFrom(s: string, start: Option<nat>): (r: Scan)
    requires start.Some? ==> start.value + 2 <= |s|
    ensures r.Found? ==> |r.after| < |s|
  {
    if start.None? then Plain
    else
      var end := Find(s, '}', start.value + 2);
      if end.None? then Open else Cut(s, start.value, end.value)
  }

  function Cut(s: string, start: nat, end: nat): (r: Scan)
    requires start + 2 <= end && end + 2 <= |s|
    ensures r.Found? && |r.after| < |s|
  {
    Found(s[..start], s[start + 2..end], s[end + 2..])
  }

  /** Where `Find` must stop, whatever way it searches. */
  lemma {:induction false} FindIs(s: string, c: char, from: nat, at: nat)
    requires from <= at && PairAt(s, c, at)
    requires forall k :: from <= k < at ==> !PairAt(s, c, k)
    ensures Find(s, c, from) == Some(at)
  {
    FindFacts(s, c, from);
  }

  lemma {:induction false} FindIsNone(s: string, c: char, from: nat)
    requires forall k :: from <= k ==> !PairAt(s, c, k)
    ensures Find(s, c, from) == None
  {
    FindFacts(s, c, from);
  }

  function Shift(at: Option<nat>, offset: nat): Option<nat> {
    if at.Some? then Some(at.value + offset) else None
  }

  lemma {:induction false} FindShifts(done: string, rest: string, c: char, from: nat)
    ensures Find(done + rest, c, |done| + from) == Shift(Find(rest, c, from), |done|)
    decreases |rest| - from
  {
    if from + 1 < |rest| {
      assert (done + rest)[|done| + from] == rest[from] && (done + rest)[|done| + from + 1] == rest[from + 1];
      FindShifts(done, rest, c, from + 1);
    }
  }

  /** A search from further left finds the same when nothing is there. */
  lemma {:induction false} FindSkips(s: string, c: char, from: nat, to: nat)
    requires from <= to && forall k :: from <= k < to ==> !PairAt(s, c, k)
    ensures Find(s, c, from) == Find(s, c, to)
  {
    var f := Find(s, c, to);
    FindFacts(s, c, to);
    if f.Some? { FindIs(s, c, from, f.value); } else { FindIsNone(s, c, from); }
  }

  lemma {:induction false} FindBehindQuiet(done: string, rest: string)
    requires Quiet(done) && !Seam(done, rest)
    ensures Find(done + rest, '{', 0) == Shift(Find(rest, '{', 0), |done|)
  {
    forall k | 0 <= k < |done| ensures !PairAt(done + rest, '{', k) {
      PairsInConcat(done, rest, '{', k);
    }
    FindSkips(done + rest, '{', 0, |done|);
    FindShifts(done, rest, '{', 0);
  }

  lemma {:induction false} CutShifts(done: string, rest: string, i: nat, j: nat)
    requires i + 2 <= j && j + 2 <= |rest|
    ensures Cut(done + rest, |done| + i, |done| + j) == Behind(done, Cut(rest, i, j))
  {
    var s := done + rest;
    assert s[..|done| + i] == done + rest[..i];
    assert s[|done| + i + 2..|done| + j] == rest[i + 2..j];
    assert s[|done| + j + 2..] == rest[j + 2..];
  }

  lemma {:induction false} ScanFromShifts(done: string, rest: string, start: nat)
    requires start + 2 <= |rest|
    ensures ScanFrom(done + rest, Some(|done| + start)) == Behind(done, ScanFrom(rest, Some(start)))
  {
    FindShifts(done, rest, '}', start + 2);
    var end := Find(rest, '}', start + 2);
    if end.Some? { CutShifts(done, rest, start, end.value); }
  }

  /** Quiet text in front does not change what is found next, unless it makes a seam. */
  lemma {:induction false} ScanBehindQuiet(done: string, rest: string)
    requires Quiet(done) && !Seam(done, rest)
    ensures FirstPlaceholder(done + rest) == Behind(done, FirstPlaceholder(rest))
  {
    FindBehindQuiet(done, rest);
    var start := Find(rest, '{', 0);
    if start.Some? { ScanFromShifts(done, rest, start.value); }
  }

  /** The text in front of the first placeholder is clean. */
  lemma {:induction false} BeforeIsClean(s: string)
    requires FirstPlaceholder(s).Found?
    ensures Clean(FirstPlaceholder(s).before)
  {
    FindFacts(s, '{', 0);
    var start := Find(s, '{', 0).value;
    var before := s[..start];
    forall k ensures !PairAt(before, '{', k) {
      if 0 <= k < |before| - 1 { assert !PairAt(s, '{', k); }
    }
    if start > 0 { assert !PairAt(s, '{', start - 1); }
  }

  /** A found placeholder stays the same one when text is added behind it. */
  lemma {:induction false} ScanIgnoresTail(s: string, tail: string)
    requires FirstPlaceholder(s).Found?
    ensures FirstPlaceholder(s + tail)
         == Found(FirstPlaceholder(s).before, FirstPlaceholder(s).path, FirstPlaceholder(s).after + tail)
  {
    FindFacts(s, '{', 0);
    var start := Find(s, '{', 0).value;
    FindFacts(s, '}', start + 2);
    var end := Find(s, '}', start + 2).value;
    var longer := s + tail;
    forall k | 0 <= k < start ensures !PairAt(longer, '{', k) {
      assert !PairAt(s, '{', k);
    }
    FindIs(longer, '{', 0, start);
    forall k | start + 2 <= k < end ensures !PairAt(longer, '}', k) {
      assert !PairAt(s, '}', k);
    }
    FindIs(longer, '}', start + 2, end);
    CutIgnoresTail(s, tail, start, end);
  }

  lemma {:induction false} CutIgnoresTail(s: string, tail: string, i: nat, j: nat)
    requires i + 2 <= j && j + 2 <= |s|
    ensures Cut(s + tail, i, j) == Found(s[..i], s[i + 2..j], s[j + 2..] + tail)
  {
    var longer := s + tail;
    assert longer[..i] == s[..i];
    assert longer[i + 2..j] == s[i + 2..j];
    assert longer[j + 2..] == s[j + 2..] + tail;
  }

  lemma {:induction false} FirstPlaceholderFindsOpenings()
    ensures FindsOpenings(FirstPlaceholder)
  {
    forall s
      ensures FirstPlaceholder(s).Plain? ==> Quiet(s)
      ensures FirstPlaceholder(s).Found? ==> Clean(FirstPlaceholder(s).before) && OpensBehind(FirstPlaceholder(s).before, s)
    {
      FindFacts(s, '{', 0);
      if FirstPlaceholder(s).Found? { BeforeIsClean(s); }
    }
  }

  lemma {:induction false} FirstPlaceholderSkipsQuiet()
    ensures SkipsQuiet(FirstPlaceholder)
  {
    forall done, rest, whole | IsJoin(done, rest, whole) && Quiet(done) && !Seam(done, rest)
      ensures FirstPlaceholder(whole) == Behind(done, FirstPlaceholder(rest))
    {
      ScanBehindQuiet(done, rest);
    }
  }

  lemma {:induction false} FirstPlaceholderIgnoresTail()
    ensures IgnoresTail(FirstPlaceholder)
  {
    forall s, tail, whole | IsJoin(s, tail, whole) && FirstPlaceholder(s).Found?
      ensures FirstPlaceholder(whole) == FirstPlaceholder(s).(after := FirstPlaceholder(s).after + tail)
    {
      ScanIgnoresTail(s, tail);
    }
  }

  // ------------------------------------------------------------- strings

  /** What fills a placeholder of a text. */
  function Fill(c: Context, path: string): Result<string, Error> {
    var v := Lookup(c.source, path);
    if v.Ok? then Ok(TextOf(c, v.value)) else Err(v.error)
  }

  function RulesOf(c: Context): Rules {
    Rules(FirstPlaceholder, path => Fill(c, path))
  }

  /** The loop of `render_string` rewrites under rules to which the general results about
      rewriting apply. */
  lemma {:induction false} RulesAreLeftmost(c: Context)
    ensures Leftmost(RulesOf(c))
  {
    FirstPlaceholderFindsOpenings();
    FirstPlaceholderSkipsQuiet();
    FirstPlaceholderIgnoresTail();
  }

  /** The path of a template that is nothing but one placeholder. */
  function WholePath(t: string): Option<string> {
    if |t| >= 4 && PairAt(t, '{', 0) && PairAt(t, '}', |t| - 2) then
      var path := t[2..|t| - 2];
      if Find(path, '{', 0).None? && Find(path, '}', 0).None? then Some(path) else None
    else None
  }

  /** `render_string`, given at most `turns` turns of its loop. */
  function RenderString(t: string, c: Context, turns: nat): Option<Result<Value, Error>> {
    var whole := WholePath(t);
    if whole.Some? then Some(Lookup(c.source, whole.value))
    else
      var outcome := Outcome(Iterate(RulesOf(c), t, turns));
      if outcome.None? then None else Some(AsText(outcome.value))
  }

  function AsText(r: Result<string, Error>): Result<Value, Error> {
    if r.Ok? then Ok(Text(r.value)) else Err(r.error)
  }

  method RenderTemplate(t: string, c: Context, ghost bound: nat) returns (r: Result<Value, Error>)
    requires RenderString(t, c, bound).Some?
    ensures RenderString(t, c, bound) == Some(r)
  {
    var whole := WholePath(t);
    if whole.Some? { return Lookup(c.source, whole.value); }
    var text := RunLoop(RulesOf(c), t, bound);
    return AsText(text);
  }

  /** The reference: a whole placeholder is replaced by its value, other text in one pass. */
  ghost function Substituted(t: string, c: Context): Result<Value, Error> {
    RulesAreLeftmost(c);
    var whole := WholePath(t);
    if whole.Some? then Lookup(c.source, whole.value) else AsText(OnePass(RulesOf(c), t))
  }

  ghost predicate Harmless(t: string, c: Context) {
    RulesAreLeftmost(c);
    WholePath(t).Some? || (AllQuiet(Inserted(RulesOf(c), t)) && NoSeams(RulesOf(c), t))
  }

  ghost function TurnsNeeded(t: string, c: Context): nat {
    RulesAreLeftmost(c);
    |Inserted(RulesOf(c), t)| + 1
  }

  /** Rendering a string whose substituted texts are harmless stops and gives the one-pass
      substitution. */
  lemma {:induction false} StringIsSubstituted(t: string, c: Context, turns: nat)
    requires Harmless(t, c) && turns >= TurnsNeeded(t, c)
    ensures RenderString(t, c, turns) == Some(Substituted(t, c))
  {
    RulesAreLeftmost(c);
    if WholePath(t).None? {
      LoopStaysOnePass(RulesOf(c), t, turns);
    }
  }

  /** The whole-placeholder case and the loop look up the same path exactly when the path
      does not end in "}"; the loop would leave that brace behind the placeholder. */
  lemma {:induction false} WholePathExactlyUnlessBrace(t: string)
    requires WholePath(t).Some?
    ensures var path := WholePath(t).value;
      FirstPlaceholder(t) == Found("", path, "") <==> !(path != "" && path[|path| - 1] == '}')
  {
    var path := WholePath(t).value;
    FindFacts(path, '}', 0);
    assert t == "{{" + path + "}}";
    if path != "" && path[|path| - 1] == '}' {
      var shorter := path[..|path| - 1];
      assert t == "{{" + shorter + "}}" + "}";
      assert shorter + "}" == path;
      FindFirst(t, shorter, "}");
    } else {
      forall k ensures !PairAt(path + "}", '}', k) {
        PairsInConcat(path, "}", '}', k);
      }
      assert t == "{{" + path + "}}" + "";
      FindFirst(t, path, "");
    }
  }

  // ------------------------------------------------------------- values

  type Renderer = string -> Option<Result<Value, Error>>

  /** `render_value`: strings are rendered, members and items in order, the first failure
      wins. None stands for a string that is still being rewritten. */
  function RenderValue(v: Value, f: Renderer): Option<Result<Value, Error>> {
    match v
    case Text(t) => f(t)
    case Items(items) =>
      (match RenderItems(items, f)
       case Some(Ok(r)) => Some(Ok(Items(r)))
       case Some(Err(e)) => Some(Err(e))
       case None => None)
    case Fields(fields) =>
      (match RenderFields(fields, f)
       case Some(Ok(r)) => Some(Ok(Fields(r)))
       case Some(Err(e)) => Some(Err(e))
       case None => None)
    case _ => Some(Ok(v))
  }

  function RenderItems(items: seq<Value>, f: Renderer): Option<Result<seq<Value>, Error>> {
    if items == [] then Some(Ok([]))
    else
      match RenderValue(items[0], f)
      case None => None
      case Some(Err(e)) => Some(Err(e))
      case Some(Ok(first)) =>
        match RenderItems(items[1..], f)
        case Some(Ok(rest)) => Some(Ok([first] + rest))
        case other => other
  }

  function RenderFields(fields: seq<Field>, f: Renderer): Option<Result<seq<Field>, Error>> {
    if fields == [] then Some(Ok([]))
    else
      match RenderValue(fields[0].value, f)
      case None => None
      case Some(Err(e)) => Some(Err(e))
      case Some(Ok(first)) =>
        match RenderFields(fields[1..], f)
        case Some(Ok(rest)) => Some(Ok([Field(fields[0].key, first)] + rest))
        case other => other
  }

  function StringsOf(v: Value): set<string> {
    match v
    case Text(t) => {t}
    case Items(items) => StringsOfItems(items)
    case Fields(fields) => StringsOfFields(fields)
    case _ => {}
  }

  function StringsOfItems(items: seq<Value>): set<string> {
    if items == [] then {} else StringsOf(items[0]) + StringsOfItems(items[1..])
  }

  function StringsOfFields(fields: seq<Field>): set<string> {
    if fields == [] then {} else StringsOf(fields[0].value) + StringsOfFields(fields[1..])
  }

  ghost predicate AgreeOn(strings: set<string>, f: Renderer, g: Renderer) {
    forall t :: t in strings ==> f(t) == g(t)
  }

  lemma {:induction false} ValueDependsOnStrings(v: Value, f: Renderer, g: Renderer)
    requires AgreeOn(StringsOf(v), f, g)
    ensures RenderValue(v, f) == RenderValue(v, g)
  {
    if v.Items? { ItemsDependOnStrings(v.items, f, g); }
    if v.Fields? { FieldsDependOnStrings(v.fields, f, g); }
  }

  lemma {:induction false} ItemsDependOnStrings(items: seq<Value>, f: Renderer, g: Renderer)
    requires AgreeOn(StringsOfItems(items), f, g)
    ensures RenderItems(items, f) == RenderItems(items, g)
  {
    if items == [] {
    } else {
      ValueDependsOnStrings(items[0], f, g);
      ItemsDependOnStrings(items[1..], f, g);
    }
  }

  lemma {:induction false} FieldsDependOnStrings(fields: seq<Field>, f: Renderer, g: Renderer)
    requires AgreeOn(StringsOfFields(fields), f, g)
    ensures RenderFields(fields, f) == RenderFields(fields, g)
  {
    if fields == [] {
    } else {
      ValueDependsOnStrings(fields[0].value, f, g);
      FieldsDependOnStrings(fields[1..], f, g);
    }
  }

  ghost predicate HarmlessWithin(v: Value, c: Context, turns: nat) {
    forall t :: t in StringsOf(v) ==> Harmless(t, c) && TurnsNeeded(t, c) <= turns
  }

  /** A JSON template whose substituted texts are all harmless is rendered, and the result,
      success or first failure, is the one-pass substitution of its strings. */
  lemma {:induction false} ValueIsSubstituted(v: Value, c: Context, turns: nat)
    requires HarmlessWithin(v, c, turns)
    ensures RenderValue(v, t => RenderString(t, c, turns)) == RenderValue(v, t => Some(Substituted(t, c)))
  {
    var f: Renderer := t => RenderString(t, c, turns);
    ghost var g: string -> Option<Result<Value, Error>> := t => Some(Substituted(t, c));
    forall t | t in StringsOf(v) ensures f(t) == g(t) {
      StringIsSubstituted(t, c, turns);
    }
    ValueDependsOnStrings(v, f, g);
  }

  // ------------------------------------------------------------- consequences

  /** A template that starts with, but is not wholly, a placeholder whose value refers to
      itself is never rendered, however long the loop runs. */
  lemma {:induction false} SelfReferenceIsNeverRendered(t: string, c: Context, path: string, turns: nat)
    requires WholePath(t).None?
    requires StartsWith(RulesOf(c), t, path) && RefersToItself(RulesOf(c), path)
    ensures RenderString(t, c, turns) == None
  {
    RulesAreLeftmost(c);
    SelfReferenceNeverHalts(RulesOf(c), t, path, turns);
  }

  lemma {:induction false} RulesAreRegular(c: Context)
    ensures Regular(RulesOf(c))
  {
    RulesAreLeftmost(c);
    forall s
      ensures FirstPlaceholder(s).Plain? <==> Quiet(s)
      ensures var f := FirstPlaceholder(s);
        f.Found? ==> |f.after| <= |s| && s[|s| - |f.after|..] == f.after
    {
      FindFacts(s, '{', 0);
    }
  }

  /** Every text that a path of the document gives closes its placeholders and does not end
      in "{". */
  ghost predicate SolidDocument(c: Context) {
    RulesAreLeftmost(c);
    SolidTexts(RulesOf(c))
  }

  ghost predicate IsRendered(t: string, c: Context) {
    exists turns: nat :: RenderString(t, c, turns).Some?
  }

  ghost predicate IsRenderedAsText(t: string, c: Context) {
    exists turns: nat :: RenderString(t, c, turns).Some? && RenderString(t, c, turns).value.Ok?
  }

  /** Over such a document, the rendering of a string that is not one whole placeholder ends,
      with a text or an error, exactly if the leftmost evaluation of its references comes to a
      verdict; and with a text exactly if it closes its placeholders, every reference that it
      reaches is defined, and none leads back to itself. */
  lemma {:induction false} RenderingEndsExactly(t: string, c: Context)
    requires WholePath(t).None? && SolidDocument(c)
    ensures Regular(RulesOf(c))
    ensures IsRendered(t, c) <==> Decided(RulesOf(c), t)
    ensures IsRenderedAsText(t, c) <==> WellClosed(RulesOf(c), t) && Finite(RulesOf(c), t)
  {
    RulesAreRegular(c);
    var rules := RulesOf(c);
    HaltsExactly(rules, t);
    SucceedsExactly(rules, t);
    if Halts(rules, t) {
      var k: nat :| !Iterate(rules, t, k).Next?;
      assert RenderString(t, c, k).Some?;
    }
    if Succeeds(rules, t) {
      var k: nat :| Iterate(rules, t, k).Done?;
      assert RenderString(t, c, k).Some? && RenderString(t, c, k).value.Ok?;
    }
  }

  lemma {:induction false} FollowAppend(v: Value, a: seq<string>, b: seq<string>)
    ensures Follow(v, a + b) == (var w := Follow(v, a); if w.None? then None else Follow(w.value, b))
    decreases |a|
  {
    if a == [] {
      assert a + b == b;
    } else {
      assert (a + b)[1..] == a[1..] + b;
      var next := Get(v, a[0]);
      if next.Some? { FollowAppend(next.value, a[1..], b); }
    }
  }

  /** A dotted path is looked up in two stages: its front, then its rest in what was found. */
  lemma {:induction false} LookupComposes(source: Value, p: string, q: string)
    requires p != "" && q != ""
    ensures var whole, front := Lookup(source, p + "." + q), Lookup(source, p);
      && (front.Err? ==> whole.Err?)
      && (front.Ok? ==> (whole.Ok? <==> Lookup(front.value, q).Ok?))
      && (whole.Ok? ==> whole == Lookup(front.value, q))
  {
    SplitAtSeparator(p, '.', q);
    FollowAppend(source, Split(p, '.'), Split(q, '.'));
  }

  // ------------------------------------------------------------- the trailing brace

  lemma {:induction false} FindFirst(s: string, path: string, after: string)
    requires s == "{{" + path + "}}" + after
    requires forall k :: !PairAt(path + "}", '}', k)
    ensures FirstPlaceholder(s) == Found("", path, after)
  {
    FindIs(s, '{', 0, 0);
    var end := 2 + |path|;
    forall k | 2 <= k < end ensures !PairAt(s, '}', k) {
      assert s[k] == (path + "}")[k - 2] && s[k + 1] == (path + "}")[k - 1];
      assert !PairAt(path + "}", '}', k - 2);
    }
    FindIs(s, '}', 2, end);
    assert s[2..end] == path && s[end + 2..] == after && s[..0] == "";
  }

  const BRACE_AND_LETTER: Value := Fields([Field("a", Text("{")), Field("b", Text("x"))])

  lemma {:induction false} BraceAndLetterLookups()
    ensures Lookup(BRACE_AND_LETTER, "a") == Ok(Text("{"))
    ensures Lookup(BRACE_AND_LETTER, "b") == Ok(Text("x"))
    ensures Lookup(BRACE_AND_LETTER, "{b") == Err(MissingPlaceholder("{b"))
  {
    SplitWithoutSeparator("a", '.');
    SplitWithoutSeparator("b", '.');
    SplitWithoutSeparator("{b", '.');
    var members := BRACE_AND_LETTER.fields;
    assert members[1..] == [Field("b", Text("x"))] && members[1..][1..] == [];
    assert Member(members, "b") == Member(members[1..], "b");
  }

  /** What a seam does: behind quiet text, the search finds the same as without it if and
      only if the two make no seam (or no search could find a placeholder's end anyway). */
  lemma {:induction false} ScanBehindExactly(done: string, rest: string)
    requires Quiet(done) && FirstPlaceholder(rest) != Open
    ensures FirstPlaceholder(done + rest) == Behind(done, FirstPlaceholder(rest)) <==> !Seam(done, rest)
  {
    if Seam(done, rest) {
      var s := done + rest;
      assert s[|done| - 1] == '{' && s[|done|] == '{';
      assert PairAt(s, '{', |done| - 1);
      FindFacts(s, '{', 0);
    } else {
      ScanBehindQuiet(done, rest);
    }
  }

  /** A placeholder straight behind a text that ends in "{" loses its place to one that starts
      a brace earlier and whose path has that brace in front. */
  lemma {:induction false} SeamShiftsPlaceholder(done: string, rest: string, g: Scan)
    requires Quiet(done) && done != "" && done[|done| - 1] == '{'
    requires g == FirstPlaceholder(rest) && g.Found? && g.before == ""
    ensures FirstPlaceholder(done + rest) == Found(done[..|done| - 1], "{" + g.path, g.after)
  {
    var s, start := done + rest, |done| - 1;
    FindFacts(rest, '{', 0);
    assert Find(rest, '{', 0) == Some(0);
    assert s[start] == '{' && s[start + 1] == '{' by { assert rest[0] == '{'; }
    forall k | 0 <= k < start ensures !PairAt(s, '{', k) {
      assert s[k] == done[k] && s[k + 1] == done[k + 1] && !PairAt(done, '{', k);
    }
    FindIs(s, '{', 0, start);
    var end := Find(rest, '}', 2).value;
    FindFacts(rest, '}', 2);
    FindShifts(done, rest, '}', 1);
    FindSkips(rest, '}', 1, 2) by { assert rest[1] == '{'; }
    SeamCut(done, rest, end);
  }

  lemma {:induction false} SeamCut(done: string, rest: string, end: nat)
    requires done != "" && 2 <= end && end + 2 <= |rest| && rest[1] == '{'
    ensures Cut(done + rest, |done| - 1, |done| + end) == Found(done[..|done| - 1], "{" + rest[2..end], rest[end + 2..])
  {
    var s := done + rest;
    assert s[..|done| - 1] == done[..|done| - 1];
    assert s[|done| + 1..|done| + end] == rest[1..end];
    assert rest[1..end] == "{" + rest[2..end];
    assert s[|done| + end + 2..] == rest[end + 2..];
  }

  /** So the loop looks up the path with the brace, and fails if there is none: whatever the
      single pass would have made of the template. */
  lemma {:induction false} SeamLooksUpShifted(t: string, c: Context, f: Scan, g: Scan, text: string)
    requires WholePath(t).None? && f == FirstPlaceholder(t) && f.Found? && Fill(c, f.path) == Ok(text)
    requires Quiet(text) && text != "" && text[|text| - 1] == '{'
    requires g == FirstPlaceholder(f.after) && g.Found? && g.before == ""
    ensures Fill(c, "{" + g.path).Err? ==> RenderString(t, c, 2) == Some(Err(Fill(c, "{" + g.path).error))
    ensures Fill(c, "{" + g.path).Ok? ==>
      Iterate(RulesOf(c), t, 2) == Next(f.before + text[..|text| - 1] + Fill(c, "{" + g.path).value + g.after)
  {
    BeforeIsClean(t);
    QuietConcat(f.before, text);
    var done := f.before + text;
    assert done[|done| - 1] == '{';
    SeamShiftsPlaceholder(done, f.after, g);
    assert done[..|done| - 1] == f.before + text[..|text| - 1];
    TwoTurns(RulesOf(c), t, done + f.after, "{" + g.path, f.before + text[..|text| - 1], g.after);
  }

  /** An instance: texts without "{{" are not enough, one that ends in "{" makes a template
      fail that one pass fills. */
  lemma {:induction false} TrailingBraceShiftsPlaceholder(c: Context, t: string)
    requires c.source == BRACE_AND_LETTER && t == "{{a}}{{b}}"
    ensures Substituted(t, c) == Ok(Text("{x"))
    ensures RenderString(t, c, 2) == Some(Err(MissingPlaceholder("{b")))
  {
    var second, third := t[5..], "{" + t[5..];
    BraceScans(t, second);
    FindFirstSimple(third, "{b", "");
    BraceFills(c);
    NotWhole(t);
    RulesAreLeftmost(c);
    ShiftedPlaceholder(RulesOf(c), t, second, third);
  }

  /** With a seam quiet texts decide nothing: here the shifted path happens to be defined, and
      the loop delivers what one pass does. */
  lemma {:induction false} SeamCanAgree(c: Context, t: string)
    requires t == "{{a}}{{b}}" && Fill(c, "a") == Ok("{") && Fill(c, "b") == Ok("x") && Fill(c, "{b") == Ok("{x")
    ensures Substituted(t, c) == Ok(Text("{x")) && RenderString(t, c, 3) == Some(Ok(Text("{x")))
  {
    var second, third := t[5..], "{" + t[5..];
    BraceScans(t, second);
    FindFirstSimple(third, "{b", "");
    NotWhole(t);
    RulesAreLeftmost(c);
    AgreeingPlaceholder(RulesOf(c), t, second, third, "{x");
  }

  lemma {:induction false} BraceScans(t: string, second: string)
    requires t == "{{a}}{{b}}" && second == t[5..]
    ensures FirstPlaceholder(t) == Found("", "a", second)
    ensures FirstPlaceholder(second) == Found("", "b", "")
  {
    FindFirstSimple(t, "a", second);
    FindFirstSimple(second, "b", "");
  }

  lemma {:induction false} FindFirstSimple(s: string, path: string, after: string)
    requires s == "{{" + path + "}}" + after && '}' !in path
    ensures FirstPlaceholder(s) == Found("", path, after)
  {
    FindFirst(s, path, after);
  }

  lemma {:induction false} BraceFills(c: Context)
    requires c.source == BRACE_AND_LETTER
    ensures Fill(c, "a") == Ok("{") && Fill(c, "b") == Ok("x")
    ensures Fill(c, "{b") == Err(MissingPlaceholder("{b"))
  {
    BraceAndLetterLookups();
  }

  lemma {:induction false} NotWhole(t: string)
    requires t == "{{a}}{{b}}"
    ensures WholePath(t) == None
  {
    var path := t[2..|t| - 2];
    FindFacts(path, '{', 0);
    assert PairAt(path, '{', 3);
  }
}
