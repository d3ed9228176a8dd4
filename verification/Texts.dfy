/** Splitting a text at a separator, as `str::split` does. */
module Texts {

  function Split(s: string, separator: char): (parts: seq<string>)
    ensures parts != []
  {
    if s == "" then [""]
    else
      var rest := Split(s[1..], separator);
      if s[0] == separator then [""] + rest else [[s[0]] + rest[0]] + rest[1..]
  }

  lemma {:induction false} SplitHead(letter: char, a: seq<string>, b: seq<string>)
    requires a != []
    ensures [[letter] + (a + b)[0]] + (a + b)[1..] == [[letter] + a[0]] + a[1..] + b
    ensures [""] + (a + b) == [""] + a + b
  {
    assert (a + b)[1..] == a[1..] + b;
  }

  lemma {:induction false} SplitAtSeparator(p: string, c: char, q: string)
    ensures Split(p + [c] + q, c) == Split(p, c) + Split(q, c)
  {
    var s := p + [c] + q;
    if p == "" {
      assert s[1..] == q;
    } else {
      assert s[1..] == p[1..] + [c] + q && s[0] == p[0];
      SplitAtSeparator(p[1..], c, q);
      SplitHead(p[0], Split(p[1..], c), Split(q, c));
    }
  }

  lemma {:induction false} SplitWithoutSeparator(s: string, c: char)
    requires c !in s
    ensures Split(s, c) == [s]
  {
    if s != "" {
      SplitWithoutSeparator(s[1..], c);
      assert [s[0]] + s[1..] == s;
    }
  }

  lemma {:induction false} SplitKeepsLetters(s: string, c: char, i: nat, k: nat)
    requires i < |Split(s, c)| && k < |Split(s, c)[i]|
    ensures Split(s, c)[i][k] in s
    ensures Split(s, c)[i][k] != c
  {
    var rest := Split(s[1..], c);
    if s[0] == c {
      SplitKeepsLetters(s[1..], c, i - 1, k);
    } else if i > 0 {
      SplitKeepsLetters(s[1..], c, i, k);
    } else if k > 0 {
      SplitKeepsLetters(s[1..], c, 0, k - 1);
    }
  }
}
