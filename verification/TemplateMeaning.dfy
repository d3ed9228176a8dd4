/**
 * What templates mean, said of their pieces: which value a path names, what a template of
 * literals and placeholders renders to, and what becomes of the parts of a JSON template.
 */
module TemplateMeaning {
  import opened Prelude
  import opened Texts
  import opened Substitution
  import opened TemplateRendering

  // ------------------------------------------------------------------- paths

  /** The first member with that key. */
  predicate IsMember(v: Value, key: string, i: nat) {
    v.Fields? && i < |v.fields| && v.fields[i].key == key && forall j :: 0 <= j < i ==> v.fields[j].key != key
  }

  lemma {:induction false} MemberExactly(fields: seq<Field>, key: string, i: nat)
    requires i < |fields| && fields[i].key == key && forall j :: 0 <= j < i ==> fields[j].key != key
    ensures Member(fields, key) == Some(fields[i].value)
  {
    if i > 0 { MemberExactly(fields[1..], key, i - 1); }
  }

  lemma {:induction false} NoMember(fields: seq<Field>, key: string)
    requires forall j :: 0 <= j < |fields| ==> fields[j].key != key
    ensures Member(fields, key) == None
  {
    if fields != [] { NoMember(fields[1..], key); }
  }

  lemma {:induction false} FirstWithKey(fields: seq<Field>, key: string, n: nat) returns (i: nat)
    requires n < |fields| && fields[n].key == key
    ensures i <= n && fields[i].key == key && forall j :: 0 <= j < i ==> fields[j].key != key
  {
    if j :| 0 <= j < n && fields[j].key == key { i := FirstWithKey(fields, key, j); } else { i := n; }
  }

  /** A path without a dot names the member with that key, and the empty path everything. */
  lemma {:induction false} LookupOfKey(source: Value, key: string)
    requires '.' !in key
    ensures key == "" ==> Lookup(source, key) == Ok(source)
    ensures key != "" ==> forall i: nat :: IsMember(source, key, i) ==> Lookup(source, key) == Ok(source.fields[i].value)
    ensures key != "" && (forall i: nat :: !IsMember(source, key, i)) ==> Lookup(source, key) == Err(MissingPlaceholder(key))
  {
    if key != "" {
      SplitWithoutSeparator(key, '.');
      assert [key][1..] == [];
      assert Follow(source, [key]) == Get(source, key);
      if source.Fields? {
        if n :| 0 <= n < |source.fields| && source.fields[n].key == key {
          var first := FirstWithKey(source.fields, key, n);
          assert IsMember(source, key, first);
          MemberExactly(source.fields, key, first);
        } else {
          NoMember(source.fields, key);
        }
      }
    }
  }

  // ------------------------------------------------------------- strings

  /** A string that is one placeholder gives the value itself, of whatever type. */
  lemma {:induction false} WholePlaceholderIsTyped(c: Context, t: string, path: string, turns: nat)
    requires t == "{{" + path + "}}"
    requires forall k :: !PairAt(path, '{', k) && !PairAt(path, '}', k)
    ensures RenderString(t, c, turns) == Some(Lookup(c.source, path))
  {
    FindFacts(path, '{', 0);
    FindFacts(path, '}', 0);
    assert t[2..|t| - 2] == path;
  }

  /** In other strings a placeholder becomes the text of its value: a string without its
      quotes, anything else as it is written. */
  lemma {:induction false} FilledWithText(c: Context, path: string)
    ensures Lookup(c.source, path).Ok? ==>
      Fill(c, path) == Ok(match Lookup(c.source, path).value case Text(t) => t case v => c.encode(v))
    ensures Lookup(c.source, path).Err? ==> Fill(c, path) == Err(MissingPlaceholder(path))
  {}

  /** Literals with placeholders between them. */
  function Assemble(literals: seq<string>, paths: seq<string>): string
    requires |literals| == |paths| + 1
  {
    if paths == [] then literals[0]
    else literals[0] + ("{{" + paths[0] + "}}" + Assemble(literals[1..], paths[1..]))
  }

  /** Literals with texts between them. */
  function Weave(literals: seq<string>, texts: seq<string>): string
    requires |literals| == |texts| + 1
  {
    if texts == [] then literals[0] else literals[0] + texts[0] + Weave(literals[1..], texts[1..])
  }

  ghost predicate WellPieced(literals: seq<string>, paths: seq<string>) {
    && |literals| == |paths| + 1
    && (forall i :: 0 <= i < |literals| ==> Clean(literals[i]))
    && (forall i :: 0 <= i < |paths| ==> Closes(paths[i]))
  }

  /** The first "}}" behind the path is the one that closes it. */
  ghost predicate Closes(path: string) {
    forall k :: !PairAt(path + "}", '}', k)
  }

  lemma {:induction false} FirstOfPieces(s: string, literal: string, path: string, rest: string)
    requires s == literal + ("{{" + path + "}}" + rest) && Clean(literal) && Closes(path)
    ensures FirstPlaceholder(s) == Found(literal, path, rest)
  {
    var hole := "{{" + path + "}}" + rest;
    FindFirst(hole, path, rest);
    ScanBehindQuiet(literal, hole);
    assert literal + "" == literal;
  }

  lemma {:induction false} TailIsWellPieced(literals: seq<string>, paths: seq<string>)
    requires WellPieced(literals, paths) && paths != []
    ensures WellPieced(literals[1..], paths[1..]) && Clean(literals[0]) && Closes(paths[0])
  {}

  lemma {:induction false} LastPiece(c: Context, literal: string)
    requires Clean(literal)
    ensures Leftmost(RulesOf(c)) && OnePass(RulesOf(c), literal) == Ok(literal)
  {
    RulesAreLeftmost(c);
    RulesAreRegular(c);
    assert RulesOf(c).scan(literal).Plain?;
  }

  lemma {:induction false} FirstPiece(c: Context, s: string, literal: string, path: string, rest: string)
    requires s == literal + ("{{" + path + "}}" + rest) && Clean(literal) && Closes(path)
    ensures Leftmost(RulesOf(c))
    ensures OnePass(RulesOf(c), s)
         == if Fill(c, path).Ok? then Prefixed(literal + Fill(c, path).value, OnePass(RulesOf(c), rest)) else Fill(c, path)
  {
    RulesAreLeftmost(c);
    FirstOfPieces(s, literal, path, rest);
    assert RulesOf(c).scan(s) == FirstPlaceholder(s);
  }

  /** The single pass over such a template puts the text of each value in its place. */
  lemma {:induction false} PiecesAreWoven(c: Context, literals: seq<string>, paths: seq<string>, texts: seq<string>)
    requires WellPieced(literals, paths) && |texts| == |paths|
    requires forall i :: 0 <= i < |paths| ==> Fill(c, paths[i]) == Ok(texts[i])
    ensures Leftmost(RulesOf(c)) && OnePass(RulesOf(c), Assemble(literals, paths)) == Ok(Weave(literals, texts))
    decreases |paths|
  {
    if paths == [] {
      assert Clean(literals[0]);
      LastPiece(c, literals[0]);
    } else {
      TailIsWellPieced(literals, paths);
      PiecesAreWoven(c, literals[1..], paths[1..], texts[1..]);
      FirstPiece(c, Assemble(literals, paths), literals[0], paths[0], Assemble(literals[1..], paths[1..]));
    }
  }

  /** And fails with the first path that names nothing. */
  lemma {:induction false} FirstMissingFails(c: Context, literals: seq<string>, paths: seq<string>, n: nat)
    requires WellPieced(literals, paths) && n < |paths| && Lookup(c.source, paths[n]).Err?
    requires forall i :: 0 <= i < n ==> Lookup(c.source, paths[i]).Ok?
    ensures Leftmost(RulesOf(c)) && OnePass(RulesOf(c), Assemble(literals, paths)) == Err(MissingPlaceholder(paths[n]))
    decreases n
  {
    TailIsWellPieced(literals, paths);
    FirstPiece(c, Assemble(literals, paths), literals[0], paths[0], Assemble(literals[1..], paths[1..]));
    FilledWithText(c, paths[0]);
    if n > 0 { FirstMissingFails(c, literals[1..], paths[1..], n - 1); }
  }

  /** A string of literals and placeholders with harmless values renders to the literals
      with the texts of the values between them. */
  lemma {:induction false} PiecesAreRendered(
      c: Context, t: string, literals: seq<string>, paths: seq<string>, texts: seq<string>, turns: nat)
    requires WellPieced(literals, paths) && |texts| == |paths| && t == Assemble(literals, paths)
    requires forall i :: 0 <= i < |paths| ==> Fill(c, paths[i]) == Ok(texts[i])
    requires WholePath(t).None? && Harmless(t, c) && turns >= TurnsNeeded(t, c)
    ensures RenderString(t, c, turns) == Some(Ok(Text(Weave(literals, texts))))
  {
    PiecesAreWoven(c, literals, paths, texts);
    StringIsSubstituted(t, c, turns);
  }

  // ------------------------------------------------------------- values

  /** The outcome of rendering a list: each item's in its place, or the first failure. */
  ghost predicate ItemsRendered(items: seq<Value>, f: Renderer, r: Option<Result<seq<Value>, Error>>) {
    match r
    case Some(Ok(out)) => |out| == |items| && forall i :: 0 <= i < |items| ==> RenderValue(items[i], f) == Some(Ok(out[i]))
    case Some(Err(e)) => exists n: nat :: FirstStop(items, f, n) && RenderValue(items[n], f) == Some(Err(e))
    case None => exists n: nat :: FirstStop(items, f, n) && RenderValue(items[n], f) == None
  }

  /** Item n is the first that is not rendered. */
  ghost predicate FirstStop(items: seq<Value>, f: Renderer, n: nat) {
    && n < |items|
    && (forall i :: 0 <= i < n ==> RenderedAt(items, f, i))
    && !RenderedAt(items, f, n)
  }

  predicate RenderedAt(items: seq<Value>, f: Renderer, i: nat)
    requires i < |items|
  {
    RenderValue(items[i], f).Some? && RenderValue(items[i], f).value.Ok?
  }

  lemma {:induction false} LaterStop(items: seq<Value>, f: Renderer, n: nat)
    requires items != [] && RenderedAt(items, f, 0) && FirstStop(items[1..], f, n)
    ensures FirstStop(items, f, n + 1)
  {
    forall i | 0 <= i < n + 1 ensures RenderedAt(items, f, i) {
      if i > 0 { assert RenderedAt(items[1..], f, i - 1); }
    }
    assert !RenderedAt(items[1..], f, n);
  }

  lemma {:induction false} ItemsAreRendered(items: seq<Value>, f: Renderer)
    ensures ItemsRendered(items, f, RenderItems(items, f))
  {
    if items == [] {
    } else {
      var (first, rest) := (RenderValue(items[0], f), RenderItems(items[1..], f));
      ItemsAreRendered(items[1..], f);
      if !RenderedAt(items, f, 0) {
        assert FirstStop(items, f, 0);
      } else if rest.Some? && rest.value.Ok? {
        var out := RenderItems(items, f).value.value;
        forall i | 0 <= i < |items| ensures RenderValue(items[i], f) == Some(Ok(out[i])) {
          if i > 0 { assert items[i] == items[1..][i - 1]; }
        }
      } else {
        var n: nat :| FirstStop(items[1..], f, n) && RenderValue(items[1..][n], f) == (if rest.None? then None else Some(Err(rest.value.error)));
        LaterStop(items, f, n);
      }
    }
  }

  function ValuesOf(fields: seq<Field>): (values: seq<Value>)
    ensures |values| == |fields| && forall i :: 0 <= i < |fields| ==> values[i] == fields[i].value
  {
    if fields == [] then [] else [fields[0].value] + ValuesOf(fields[1..])
  }

  function WithValues(fields: seq<Field>, values: seq<Value>): (r: seq<Field>)
    requires |values| == |fields|
    ensures |r| == |fields| && forall i :: 0 <= i < |fields| ==> r[i] == Field(fields[i].key, values[i])
  {
    if fields == [] then [] else [Field(fields[0].key, values[0])] + WithValues(fields[1..], values[1..])
  }

  /** An outcome for the values of an object, under its keys. */
  function Keyed(fields: seq<Field>, r: Option<Result<seq<Value>, Error>>): Option<Result<seq<Field>, Error>> {
    match r
    case Some(Ok(values)) => if |values| == |fields| then Some(Ok(WithValues(fields, values))) else None
    case Some(Err(e)) => Some(Err(e))
    case None => None
  }

  /** The members of an object are rendered like the items of a list, under their keys. */
  lemma {:induction false} FieldsAreItems(fields: seq<Field>, f: Renderer)
    ensures RenderFields(fields, f) == Keyed(fields, RenderItems(ValuesOf(fields), f))
  {
    ItemsAreRendered(ValuesOf(fields), f);
    if fields == [] {
    } else {
      FieldsAreItems(fields[1..], f);
      assert ValuesOf(fields)[1..] == ValuesOf(fields[1..]);
      ItemsAreRendered(ValuesOf(fields[1..]), f);
    }
  }

  /** What a value becomes, given what its parts become. */
  ghost predicate ShapeKept(v: Value, f: Renderer, parts: Option<Result<seq<Value>, Error>>) {
    match v
    case Text(t) => RenderValue(v, f) == f(t)
    case Items(items) =>
      && ItemsRendered(items, f, parts)
      && (parts.Some? && parts.value.Ok? ==> RenderValue(v, f) == Some(Ok(Items(parts.value.value))))
      && (parts.Some? && parts.value.Err? ==> RenderValue(v, f) == Some(Err(parts.value.error)))
      && (parts.None? ==> RenderValue(v, f) == None)
    case Fields(fields) =>
      && ItemsRendered(ValuesOf(fields), f, parts)
      && (parts.Some? && parts.value.Ok? ==> RenderValue(v, f) == Some(Ok(Fields(WithValues(fields, parts.value.value)))))
      && (parts.Some? && parts.value.Err? ==> RenderValue(v, f) == Some(Err(parts.value.error)))
      && (parts.None? ==> RenderValue(v, f) == None)
    case _ => RenderValue(v, f) == Some(Ok(v))
  }

  /** Rendering keeps the shape of a JSON template: lists item by item, objects member by
      member under the same keys, the first failure wins, and what is not a string stays. */
  lemma {:induction false} ValueKeepsShape(v: Value, f: Renderer) returns (parts: Option<Result<seq<Value>, Error>>)
    ensures ShapeKept(v, f, parts)
  {
    parts := None;
    if v.Items? {
      parts := RenderItems(v.items, f);
      ItemsAreRendered(v.items, f);
    } else if v.Fields? {
      parts := RenderItems(ValuesOf(v.fields), f);
      ItemsAreRendered(ValuesOf(v.fields), f);
      FieldsAreItems(v.fields, f);
    }
  }
}
