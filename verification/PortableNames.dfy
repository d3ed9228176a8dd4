/**
 * Names of archive entries and the paths they denote. A path drops empty and "." parts, so
 * different names can denote one path; a backslash is exported as "/".
 */
module PortableNames {
  import opened Prelude
  import opened Texts

  type Path = seq<string>

  /** A part of a path that is neither empty nor ".". */
  predicate Named(part: string) {
    part != "" && part != "."
  }

  function NamedParts(parts: seq<string>): (path: Path)
    ensures forall part :: part in path ==> part in parts && Named(part)
    ensures forall part :: part in parts && Named(part) ==> part in path
  {
    if parts == [] then []
    else (if Named(parts[0]) then [parts[0]] else []) + NamedParts(parts[1..])
  }

  /** Where an accepted name is written. */
  function PathOf(name: string): Path {
    NamedParts(Split(name, '/'))
  }

  /** `safe_portable_name`: a relative name whose components are all normal. */
  predicate Safe(name: string) {
    && name != "" && name[0] != '/'
    && Split(name, '/')[0] != "." && ".." !in Split(name, '/')
    && '\\' !in name
  }

  /** What extraction refuses by the name alone. */
  predicate Hostile(name: string) {
    !Safe(name) || '\0' in name || name[|name| - 1] == '/'
  }

  /** The last part of an accepted name is ".", so the name stands for a folder and no write
      to it can succeed. */
  predicate EndsInDot(name: string) {
    |name| >= 2 && name[|name| - 2] == '/' && name[|name| - 1] == '.'
  }

  /** The name of a file that extraction could write. */
  predicate Writable(name: string) {
    !Hostile(name) && !EndsInDot(name)
  }

  function WithSlashes(s: string): (r: string)
    ensures |r| == |s|
    ensures forall k :: 0 <= k < |s| ==> r[k] == (if s[k] == '\\' then '/' else s[k])
  {
    if s == "" then "" else [if s[0] == '\\' then '/' else s[0]] + WithSlashes(s[1..])
  }

  function Join(path: Path): string {
    if path == [] then ""
    else if |path| == 1 then path[0]
    else path[0] + ['/'] + Join(path[1..])
  }

  /** `portable_name`. */
  function PortableName(path: Path): Option<string> {
    var name := WithSlashes(Join(path));
    if Safe(name) then Some(name) else None
  }

  /** A name that a directory can list. */
  predicate FileName(s: string) {
    s != "" && s != "." && s != ".." && '/' !in s && '\0' !in s
  }

  predicate FilePath(path: Path) {
    path != [] && forall part :: part in path ==> FileName(part)
  }

  predicate HasBackslash(path: Path) {
    exists part :: part in path && '\\' in part
  }

  lemma {:induction false} SplitOfJoin(path: Path)
    requires FilePath(path)
    ensures Split(Join(path), '/') == path
  {
    assert path[0] in path;
    SplitWithoutSeparator(path[0], '/');
    if |path| == 1 {
      assert path == [path[0]];
    } else {
      SplitAtSeparator(path[0], '/', Join(path[1..]));
      SplitOfJoin(path[1..]);
      assert path == [path[0]] + path[1..];
    }
  }

  lemma {:induction false} NamedPartsOfFilePath(path: Path)
    requires forall part :: part in path ==> FileName(part)
    ensures NamedParts(path) == path
  {
    if path == [] {
    } else {
      assert path[0] in path;
      NamedPartsOfFilePath(path[1..]);
    }
  }

  lemma {:induction false} LettersOfJoin(path: Path, c: char)
    requires c != '/'
    ensures c in Join(path) <==> exists part :: part in path && c in part
  {
    if |path| > 1 {
      LettersOfJoin(path[1..], c);
      assert path == [path[0]] + path[1..];
    }
  }

  lemma {:induction false} JoinEnds(path: Path)
    requires FilePath(path)
    ensures Join(path) != "" && Join(path)[0] != '/' && Join(path)[|Join(path)| - 1] != '/'
    ensures !EndsInDot(Join(path)) && Join(path) != "."
  {
    assert path[0] in path;
    if |path| > 1 { JoinEnds(path[1..]); }
  }

  lemma {:induction false} WithoutBackslash(s: string)
    requires '\\' !in s
    ensures WithSlashes(s) == s
  {
  }

  /** A listed path without a backslash has a portable name, which denotes that path again
      and which extraction does not refuse and can write. */
  lemma {:induction false} NameDenotesPath(path: Path)
    requires FilePath(path) && !HasBackslash(path)
    ensures PortableName(path) == Some(Join(path))
    ensures PathOf(Join(path)) == path && Writable(Join(path))
  {
    var name := Join(path);
    LettersOfJoin(path, '\\');
    LettersOfJoin(path, '\0');
    WithoutBackslash(name);
    SplitOfJoin(path);
    JoinEnds(path);
    NamedPartsOfFilePath(path);
    assert path[0] in path;
  }

  /** No name that is accepted denotes a path with a backslash. */
  lemma {:induction false} AcceptedPathHasNoBackslash(name: string)
    requires Safe(name)
    ensures !HasBackslash(PathOf(name))
  {
    forall part | part in PathOf(name) ensures '\\' !in part {
      var parts := Split(name, '/');
      assert part in parts;
      var i :| 0 <= i < |parts| && parts[i] == part;
      if k :| 0 <= k < |part| && part[k] == '\\' { SplitKeepsLetters(name, '/', i, k); }
    }
  }

  /** An accepted name denotes a path below the directory it is extracted to: it has at least
      one part and every part is an ordinary file name. */
  lemma {:induction false} AcceptedPathStaysInside(name: string)
    requires !Hostile(name)
    ensures FilePath(PathOf(name))
  {
    var parts := Split(name, '/');
    var path := PathOf(name);
    forall part | part in path ensures FileName(part) {
      var i :| 0 <= i < |parts| && parts[i] == part;
      forall k | 0 <= k < |part| ensures part[k] != '/' && part[k] != '\0' {
        SplitKeepsLetters(name, '/', i, k);
      }
    }
    FirstPart(name);
    assert parts[0] in path;
  }

  lemma {:induction false} FirstPart(name: string)
    requires name != "" && name[0] != '/'
    ensures Split(name, '/')[0] != ""
  {
  }

  lemma {:induction false} SplitDoubled(a: string, b: string)
    requires '/' !in a && '/' !in b
    ensures Split(a + ['/'] + b, '/') == [a, b]
    ensures Split(a + ['/'] + (['/'] + b), '/') == [a, "", b]
  {
    SplitWithoutSeparator(a, '/');
    SplitWithoutSeparator(b, '/');
    SplitAtSeparator(a, '/', b);
    SplitAtSeparator(a, '/', ['/'] + b);
    SplitAtSeparator("", '/', b);
    assert "" + ['/'] + b == ['/'] + b;
  }

  lemma {:induction false} NamedPartsOfThree(a: string, b: string)
    requires Named(a) && Named(b)
    ensures NamedParts([a, b]) == [a, b] && NamedParts([a, "", b]) == [a, b]
  {
    assert NamedParts([b]) == [b];
    assert [a, b][1..] == [b] && [a, "", b][1..] == ["", b] && ["", b][1..] == [b];
  }

  lemma {:induction false} AcceptedByParts(name: string, parts: seq<string>)
    requires Split(name, '/') == parts && parts[0] != "." && ".." !in parts
    requires name != "" && name[0] != '/' && name[|name| - 1] != '/' && '\\' !in name && '\0' !in name
    ensures !Hostile(name) && PathOf(name) == NamedParts(parts)
  {
  }

  /** A doubled slash gives a second writable name for the same path. */
  lemma {:induction false} DoubledSlashNamesOnePath(a: string, b: string, single: string, doubled: string)
    requires FileName(a) && FileName(b) && '\\' !in a && '\\' !in b
    requires single == a + ['/'] + b && doubled == a + ['/'] + (['/'] + b)
    ensures single != doubled && PathOf(single) == PathOf(doubled) == [a, b]
    ensures Writable(single) && Writable(doubled)
  {
    SplitDoubled(a, b);
    NamedPartsOfThree(a, b);
    assert |doubled| == |single| + 1;
    assert single[|single| - 1] == b[|b| - 1] && doubled[|doubled| - 1] == b[|b| - 1];
    AcceptedByParts(single, [a, b]);
    AcceptedByParts(doubled, [a, "", b]);
  }
}
