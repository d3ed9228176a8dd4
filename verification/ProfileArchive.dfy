/**
 * Export and import of a profile archive. An archive is a sequence of named entries, a
 * directory a map from paths to contents. Hashing, the two JSON documents and the check of
 * the output recipes are parameters.
 */
module ProfileArchive {
  import opened Prelude
  import opened PortableNames
  import opened Texts

  type Bytes = seq<bv8>

  type ProfileId = int

  type Directory = map<Path, Bytes>

  /** `size` is what the entry's header claims. */
  datatype Entry = Entry(name: string, size: nat, bytes: Bytes, symlink: bool)

  datatype FileRecord = FileRecord(path: string, size: nat, digest: string)

  datatype Manifest = Manifest(schema: nat, profileSchema: nat, id: ProfileId, files: seq<FileRecord>)

  datatype Profile = Profile(id: ProfileId, assets: set<Path>)

  datatype Limits = Limits(files: nat, fileBytes: nat, totalBytes: nat)

  datatype Codec = Codec(
    encode: Manifest -> Bytes,
    decode: Bytes -> Option<Manifest>,
    digest: Bytes -> string,
    load: Bytes -> Option<Profile>,
    schemaOf: Bytes -> Option<nat>,
    recipesOk: Directory -> bool)

  datatype Error =
    | StorageFailed | InputOutput | Malformed | UnsafePath | UnsafeEntry | DuplicateEntry | UndeclaredEntry
    | IntegrityMismatch | LimitExceeded | InvalidManifest | UnsupportedSchema | MissingDeclaredFile
    | MissingAsset | InvalidRecipe | AlreadyExists

  const MANIFEST := "manifest.json"
  const PROFILE := "profile.json"
  const PROFILE_SCHEMA_VERSION: nat := 2

  // ------------------------------------------------------------- extraction

  predicate IsProperPrefix(a: Path, b: Path) {
    |a| < |b| && b[..|a|] == a
  }

  /** A parent of `path` is a file. */
  predicate ParentBlocked(files: Directory, path: Path) {
    exists p :: p in files && IsProperPrefix(p, path)
  }

  /** `path` is a folder. */
  predicate TargetBlocked(files: Directory, path: Path) {
    exists p :: p in files && IsProperPrefix(path, p)
  }

  datatype Staged = Staged(seen: set<string>, total: nat, files: Directory)

  /** What `take(limit + 1)` lets through. */
  function Taken(bytes: Bytes, limits: Limits): Bytes {
    if |bytes| <= limits.fileBytes + 1 then bytes else bytes[..limits.fileBytes + 1]
  }

  /** One turn of the extraction loop, for an entry other than the manifest. */
  function ExtractEntry(c: Codec, declared: map<string, FileRecord>, limits: Limits, st: Staged, e: Entry)
    : Result<Staged, Error>
  {
    if e.symlink || Hostile(e.name) then Err(UnsafeEntry)
    else if e.name in st.seen then Err(DuplicateEntry)
    else if e.name !in declared then Err(UndeclaredEntry)
    else
      var expected := declared[e.name];
      var total := st.total + e.size;
      var path := PathOf(e.name);
      var bytes := Taken(e.bytes, limits);
      if e.size != expected.size || e.size > limits.fileBytes then Err(LimitExceeded)
      else if total > limits.totalBytes then Err(LimitExceeded)
      else if ParentBlocked(st.files, path) then Err(InputOutput)
      else if |bytes| != expected.size || c.digest(bytes) != expected.digest then Err(IntegrityMismatch)
      else if TargetBlocked(st.files, path) || EndsInDot(e.name) then Err(InputOutput)
      else Ok(Staged(st.seen + {e.name}, total, st.files[path := bytes]))
  }

  /** The entries that extraction looks at. */
  function Payload(entries: seq<Entry>): seq<Entry> {
    if entries == [] then []
    else
      var last := entries[|entries| - 1];
      Payload(entries[..|entries| - 1]) + if last.name == MANIFEST then [] else [last]
  }

  function ExtractAll(c: Codec, declared: map<string, FileRecord>, limits: Limits, p: seq<Entry>)
    : Result<Staged, Error>
  {
    if p == [] then Ok(Staged({}, 0, map[]))
    else
      var st := ExtractAll(c, declared, limits, p[..|p| - 1]);
      if st.Err? then st else ExtractEntry(c, declared, limits, st.value, p[|p| - 1])
  }

  /** The later of two records with one name is the declared one. */
  function Declared(files: seq<FileRecord>): map<string, FileRecord> {
    if files == [] then map[]
    else
      var last := files[|files| - 1];
      Declared(files[..|files| - 1])[last.path := last]
  }

  /** `extract_archive`. */
  function Extract(c: Codec, m: Manifest, limits: Limits, entries: seq<Entry>): Result<Directory, Error> {
    var declared := Declared(m.files);
    var st := ExtractAll(c, declared, limits, Payload(entries));
    if st.Err? then Err(st.error)
    else if |st.value.seen| != |declared| then Err(MissingDeclaredFile)
    else Ok(st.value.files)
  }

  // ------------------------------------------------------------- exactly when it succeeds

  function TotalSize(p: seq<Entry>): nat {
    if p == [] then 0 else TotalSize(p[..|p| - 1]) + p[|p| - 1].size
  }

  function NamesOf(p: seq<Entry>): set<string> {
    set e | e in p :: e.name
  }

  /** The files the entries leave behind; a later one replaces an earlier one of its path. */
  function FilesOf(p: seq<Entry>): Directory {
    if p == [] then map[] else FilesOf(p[..|p| - 1])[PathOf(p[|p| - 1].name) := p[|p| - 1].bytes]
  }

  predicate Acceptable(c: Codec, declared: map<string, FileRecord>, limits: Limits, e: Entry) {
    && !e.symlink && Writable(e.name)
    && e.name in declared
    && e.size == declared[e.name].size == |e.bytes| && e.size <= limits.fileBytes
    && c.digest(e.bytes) == declared[e.name].digest
  }

  predicate AllAcceptable(c: Codec, declared: map<string, FileRecord>, limits: Limits, p: seq<Entry>) {
    forall i :: 0 <= i < |p| ==> Acceptable(c, declared, limits, p[i])
  }

  /** Two entries can both be written. */
  predicate Compatible(a: Entry, b: Entry) {
    && a.name != b.name
    && !IsProperPrefix(PathOf(a.name), PathOf(b.name))
    && !IsProperPrefix(PathOf(b.name), PathOf(a.name))
  }

  predicate AllCompatible(p: seq<Entry>) {
    forall i, j :: 0 <= i < j < |p| ==> Compatible(p[i], p[j])
  }

  predicate CompatibleWith(p: seq<Entry>, e: Entry) {
    forall i :: 0 <= i < |p| ==> Compatible(p[i], e)
  }

  predicate Extractable(c: Codec, declared: map<string, FileRecord>, limits: Limits, p: seq<Entry>) {
    AllAcceptable(c, declared, limits, p) && AllCompatible(p) && TotalSize(p) <= limits.totalBytes
  }

  function StagedOf(p: seq<Entry>): Staged {
    Staged(NamesOf(p), TotalSize(p), FilesOf(p))
  }

  lemma {:induction false} FilesHavePaths(p: seq<Entry>)
    ensures forall path :: path in FilesOf(p) <==> exists i :: 0 <= i < |p| && path == PathOf(p[i].name)
  {
    if p == [] {
    } else {
      FilesHavePaths(p[..|p| - 1]);
    }
  }

  lemma {:induction false} CompatibleWithExactly(p: seq<Entry>, e: Entry)
    ensures CompatibleWith(p, e)
       <==> (e.name !in NamesOf(p)
          && !ParentBlocked(FilesOf(p), PathOf(e.name)) && !TargetBlocked(FilesOf(p), PathOf(e.name)))
  {
    FilesHavePaths(p);
    var path := PathOf(e.name);
    if CompatibleWith(p, e) {
      forall other | other in FilesOf(p) ensures !IsProperPrefix(other, path) && !IsProperPrefix(path, other) {
        var i :| 0 <= i < |p| && other == PathOf(p[i].name);
        assert Compatible(p[i], e);
      }
    } else {
      var i :| 0 <= i < |p| && !Compatible(p[i], e);
      assert PathOf(p[i].name) in FilesOf(p) && p[i] in p;
    }
  }

  /** One turn of the loop goes through exactly for an acceptable entry that is compatible
      with those before it and stays within the total. */
  lemma {:induction false} EntryExactly(
      c: Codec, declared: map<string, FileRecord>, limits: Limits, p: seq<Entry>, e: Entry)
    ensures ExtractEntry(c, declared, limits, StagedOf(p), e).Ok?
       <==> Acceptable(c, declared, limits, e) && CompatibleWith(p, e) && TotalSize(p) + e.size <= limits.totalBytes
    ensures var r := ExtractEntry(c, declared, limits, StagedOf(p), e);
      r.Ok? ==> r.value == Extended(p, e)
  {
    CompatibleWithExactly(p, e);
  }

  function Extended(p: seq<Entry>, e: Entry): Staged {
    Staged(NamesOf(p) + {e.name}, TotalSize(p) + e.size, FilesOf(p)[PathOf(e.name) := e.bytes])
  }

  lemma {:induction false} StagedOfMore(p: seq<Entry>, e: Entry)
    ensures StagedOf(p + [e]) == Extended(p, e)
  {
    var q := p + [e];
    assert q[..|p|] == p && q[|p|] == e;
    assert NamesOf(q) == NamesOf(p) + {e.name};
  }

  lemma {:induction false} MoreAcceptable(
      c: Codec, declared: map<string, FileRecord>, limits: Limits, p: seq<Entry>, e: Entry)
    ensures AllAcceptable(c, declared, limits, p + [e])
       <==> AllAcceptable(c, declared, limits, p) && Acceptable(c, declared, limits, e)
  {
    var q := p + [e];
    assert forall i :: 0 <= i < |p| ==> q[i] == p[i];
    if AllAcceptable(c, declared, limits, q) {
      assert Acceptable(c, declared, limits, q[|p|]);
      forall i | 0 <= i < |p| ensures Acceptable(c, declared, limits, p[i]) {
        assert Acceptable(c, declared, limits, q[i]);
      }
    }
  }

  lemma {:induction false} MoreCompatible(p: seq<Entry>, e: Entry)
    ensures AllCompatible(p + [e]) <==> AllCompatible(p) && CompatibleWith(p, e)
  {
    var q := p + [e];
    assert forall i :: 0 <= i < |p| ==> q[i] == p[i];
    if AllCompatible(q) {
      forall i, j | 0 <= i < j < |p| ensures Compatible(p[i], p[j]) { assert Compatible(q[i], q[j]); }
      forall i | 0 <= i < |p| ensures Compatible(p[i], e) { assert Compatible(q[i], q[|p|]); }
    }
  }

  /** The loop over the entries succeeds exactly when each entry is writable, declared, within
      its limit and true to its declared size and digest, no two share a name or need the
      same path as a file and as a folder, and the total is within its limit. */
  lemma {:induction false} ExtractAllExactly(
      c: Codec, declared: map<string, FileRecord>, limits: Limits, p: seq<Entry>)
    ensures ExtractAll(c, declared, limits, p).Ok? <==> Extractable(c, declared, limits, p)
    ensures ExtractAll(c, declared, limits, p).Ok? ==> ExtractAll(c, declared, limits, p).value == StagedOf(p)
  {
    if p == [] {
    } else {
      var init, e := p[..|p| - 1], p[|p| - 1];
      ExtractAllExactly(c, declared, limits, init);
      assert p == init + [e];
      MoreAcceptable(c, declared, limits, init, e);
      MoreCompatible(init, e);
      StagedOfMore(init, e);
      EntryExactly(c, declared, limits, init, e);
    }
  }

  lemma {:induction false} SameSize<T>(a: set<T>, b: set<T>)
    requires a <= b
    ensures |a| <= |b|
    ensures |a| == |b| <==> a == b
  {
    if x :| x in a {
      SameSize(a - {x}, b - {x});
      assert a == (a - {x}) + {x} && b == (b - {x}) + {x};
    } else if a != b {
      assert a == {};
      var y :| y in b;
    }
  }

  /** Extraction succeeds exactly when, besides, every declared file has its entry. */
  lemma {:induction false} ExtractExactly(c: Codec, m: Manifest, limits: Limits, entries: seq<Entry>)
    ensures var p := Payload(entries); var declared := Declared(m.files);
      && (Extract(c, m, limits, entries).Ok?
          <==> Extractable(c, declared, limits, p) && NamesOf(p) == declared.Keys)
      && (Extract(c, m, limits, entries).Ok? ==> Extract(c, m, limits, entries).value == FilesOf(p))
  {
    var p, declared := Payload(entries), Declared(m.files);
    ExtractAllExactly(c, declared, limits, p);
    if Extractable(c, declared, limits, p) {
      NamesAreDeclared(c, declared, limits, p);
      SameSize(NamesOf(p), declared.Keys);
    }
  }

  lemma {:induction false} NamesAreDeclared(
      c: Codec, declared: map<string, FileRecord>, limits: Limits, p: seq<Entry>)
    requires AllAcceptable(c, declared, limits, p)
    ensures NamesOf(p) <= declared.Keys
  {
    forall name | name in NamesOf(p) ensures name in declared {
      var e :| e in p && e.name == name;
      var i :| 0 <= i < |p| && p[i] == e;
      assert Acceptable(c, declared, limits, p[i]);
    }
  }

  // ------------------------------------------------------------- what a success holds

  /** The directory holds every declared file, with its declared size and digest. */
  predicate Holds(c: Codec, declared: map<string, FileRecord>, files: Directory) {
    forall name :: name in declared ==> HoldsFile(c, declared[name], PathOf(name), files)
  }

  predicate HoldsFile(c: Codec, f: FileRecord, path: Path, files: Directory) {
    path in files && |files[path]| == f.size && c.digest(files[path]) == f.digest
  }

  /** Names that denote one path declare one content. */
  predicate PathsDetermineContent(declared: map<string, FileRecord>) {
    forall a, b :: a in declared && b in declared && PathOf(a) == PathOf(b)
      ==> declared[a].size == declared[b].size && declared[a].digest == declared[b].digest
  }

  lemma {:induction false} LastWriterStays(p: seq<Entry>, path: Path)
    requires path in FilesOf(p)
    ensures exists i :: 0 <= i < |p| && PathOf(p[i].name) == path && FilesOf(p)[path] == p[i].bytes
  {
    var n := |p| - 1;
    if PathOf(p[n].name) != path {
      LastWriterStays(p[..n], path);
    }
  }

  predicate Recorded(c: Codec, declared: map<string, FileRecord>, path: Path, files: Directory) {
    exists name :: name in declared && PathOf(name) == path && HoldsFile(c, declared[name], path, files)
  }

  predicate AllRecorded(c: Codec, declared: map<string, FileRecord>, files: Directory) {
    forall path :: path in files ==> Recorded(c, declared, path, files)
  }

  predicate AllPresent(declared: map<string, FileRecord>, files: Directory) {
    forall name :: name in declared ==> PathOf(name) in files
  }

  lemma {:induction false} HoldsExactly(c: Codec, declared: map<string, FileRecord>, files: Directory)
    requires AllRecorded(c, declared, files) && AllPresent(declared, files)
    ensures Holds(c, declared, files) <==> PathsDetermineContent(declared)
  {
    if Holds(c, declared, files) {
      forall a, b | a in declared && b in declared && PathOf(a) == PathOf(b)
        ensures declared[a].size == declared[b].size && declared[a].digest == declared[b].digest
      {
        assert HoldsFile(c, declared[a], PathOf(a), files) && HoldsFile(c, declared[b], PathOf(b), files);
      }
    }
    if PathsDetermineContent(declared) {
      forall name | name in declared ensures HoldsFile(c, declared[name], PathOf(name), files) {
        var path := PathOf(name);
        assert Recorded(c, declared, path, files);
        var other :| other in declared && PathOf(other) == path && HoldsFile(c, declared[other], path, files);
      }
    }
  }

  predicate AllWithin(limits: Limits, files: Directory) {
    forall path :: path in files ==> |files[path]| <= limits.fileBytes && FilePath(path)
  }

  /** After a successful extraction there is a file for exactly the paths of the declared
      names, below the directory, within its limit and true to a record that declares its
      path; and all declared files are there with their sizes and digests if and only if
      records with the same path agree. The total is within its limit. */
  lemma {:induction false} ExtractionHoldsExactly(c: Codec, m: Manifest, limits: Limits, entries: seq<Entry>)
    requires Extract(c, m, limits, entries).Ok?
    ensures var files, declared := Extract(c, m, limits, entries).value, Declared(m.files);
      && AllRecorded(c, declared, files) && AllPresent(declared, files) && AllWithin(limits, files)
      && (Holds(c, declared, files) <==> PathsDetermineContent(declared))
    ensures TotalSize(Payload(entries)) <= limits.totalBytes
  {
    var p, declared := Payload(entries), Declared(m.files);
    ExtractExactly(c, m, limits, entries);
    FilesAreRecorded(c, declared, limits, p);
    PathsAreDeclared(c, declared, limits, p);
    HoldsExactly(c, declared, FilesOf(p));
  }

  lemma {:induction false} FilesAreRecorded(
      c: Codec, declared: map<string, FileRecord>, limits: Limits, p: seq<Entry>)
    requires AllAcceptable(c, declared, limits, p)
    ensures AllRecorded(c, declared, FilesOf(p)) && AllWithin(limits, FilesOf(p))
  {
    var files := FilesOf(p);
    forall path | path in files
      ensures |files[path]| <= limits.fileBytes && FilePath(path) && Recorded(c, declared, path, files)
    {
      LastWriterStays(p, path);
      var i :| 0 <= i < |p| && PathOf(p[i].name) == path && files[path] == p[i].bytes;
      assert Acceptable(c, declared, limits, p[i]);
      AcceptedPathStaysInside(p[i].name);
      assert HoldsFile(c, declared[p[i].name], path, files);
    }
  }

  lemma {:induction false} PathsAreDeclared(
      c: Codec, declared: map<string, FileRecord>, limits: Limits, p: seq<Entry>)
    requires NamesOf(p) == declared.Keys
    ensures AllPresent(declared, FilesOf(p))
  {
    FilesHavePaths(p);
    forall name | name in declared ensures PathOf(name) in FilesOf(p) {
      var e :| e in p && e.name == name;
      var i :| 0 <= i < |p| && p[i] == e;
      assert PathOf(p[i].name) in FilesOf(p);
    }
  }

  function RecordOf(c: Codec, e: Entry): FileRecord {
    FileRecord(e.name, |e.bytes|, c.digest(e.bytes))
  }
}
