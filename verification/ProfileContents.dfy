/**
 * What an export holds, by the names of the profile directory: when it succeeds, which
 * files travel, and which paths its entries denote.
 */
module ProfileContents {
  import opened Prelude
  import opened PortableNames
  import opened Texts
  import opened ProfileArchive
  import opened ProfileTransfer
  import opened ProfileRoundTrip

  /** The path is that name or lies below it. */
  predicate Under(path: Path, name: string) {
    path != [] && path[0] == name
  }

  /** A regular file that is neither history nor draft, nor a template that is no asset. */
  predicate Travels(listing: Listing, assets: set<Path>, f: PortableFile) {
    && Item(f.path, File(f.bytes)) in listing
    && !Under(f.path, "revisions") && !Under(f.path, "draft.json")
    && (Under(f.path, "templates") ==> f.path in assets)
  }

  /** A link anywhere else than in the history or at the draft. */
  predicate LinkInTheWay(listing: Listing) {
    exists item :: item in listing && item.node.Link? && !Under(item.path, "revisions") && !Under(item.path, "draft.json")
  }

  lemma {:induction false} SkippedByName(path: Path)
    requires path != []
    ensures Skipped(path) <==> Under(path, "revisions") || Under(path, "draft.json")
    ensures forall assets :: Carried(path, assets) <==> (Under(path, "templates") ==> path in assets)
  {}

  lemma {:induction false} TravelsExactly(listing: Listing, assets: set<Path>, files: seq<PortableFile>)
    requires WellFormed(listing) && Collect(listing, assets) == Ok(files)
    ensures forall f :: f in files <==> Travels(listing, assets, f)
  {
    CollectExactly(listing, assets);
    forall f ensures IsPortable(listing, assets, f) <==> Travels(listing, assets, f) {
      if Item(f.path, File(f.bytes)) in listing {
        var i :| 0 <= i < |listing| && listing[i] == Item(f.path, File(f.bytes));
        SkippedByName(f.path);
      }
    }
  }

  lemma {:induction false} LinkStopsExactly(listing: Listing, assets: set<Path>)
    requires WellFormed(listing)
    ensures Collect(listing, assets).Err? <==> LinkInTheWay(listing)
  {
    CollectExactly(listing, assets);
    forall item | item in listing
      ensures Skipped(item.path) <==> Under(item.path, "revisions") || Under(item.path, "draft.json")
    {
      var i :| 0 <= i < |listing| && listing[i] == item;
      SkippedByName(item.path);
    }
  }

  /** The directory has a profile document that can be read, and all that it asks for. */
  predicate HasProfile(c: Codec, listing: Listing, profile: Profile) {
    && Contents(listing, ["profile.json"]).Some?
    && c.load(Contents(listing, ["profile.json"]).value) == Some(profile)
    && (forall asset :: asset in profile.assets ==>
          exists item :: item in listing && item.path == asset && (item.node.File? || item.node.toFile))
  }

  predicate HasRecipes(c: Codec, listing: Listing) {
    && (forall item :: item in listing && Under(item.path, "output-recipes") ==> item.node.File?)
    && c.recipesOk(map path | path in FilesIn(listing) && Under(path, "output-recipes") :: FilesIn(listing)[path])
  }

  predicate HasSchema(c: Codec, listing: Listing)
    requires Contents(listing, ["profile.json"]).Some?
  {
    var schema := c.schemaOf(Contents(listing, ["profile.json"]).value);
    schema.Some? && 1 <= schema.value <= 2
  }

  lemma {:induction false} RecipesByName(c: Codec, listing: Listing)
    ensures HasRecipes(c, listing) <==> NoRecipeLinks(listing) && c.recipesOk(Recipes(FilesIn(listing)))
  {
    assert Recipes(FilesIn(listing))
        == map path | path in FilesIn(listing) && Under(path, "output-recipes") :: FilesIn(listing)[path];
  }

  lemma {:induction false} ProfileIsExported(c: Codec, listing: Listing, profile: Profile)
    ensures ExportedProfile(c, listing) == Ok(profile) <==> HasProfile(c, listing, profile) && HasRecipes(c, listing)
  {
    RecipesByName(c, listing);
    forall asset ensures IsFile(listing, asset)
      <==> exists item :: item in listing && item.path == asset && (item.node.File? || item.node.toFile) {}
  }

  /** All files that travel have a name for the archive. */
  ghost predicate AllTravelNamed(listing: Listing, assets: set<Path>) {
    forall f :: Travels(listing, assets, f) ==> PortableName(f.path).Some?
  }

  lemma {:induction false} NamedExactly(listing: Listing, assets: set<Path>, files: seq<PortableFile>)
    requires forall f :: f in files <==> Travels(listing, assets, f)
    ensures AllNamed(files) <==> AllTravelNamed(listing, assets)
  {
    if AllNamed(files) {
      forall f | Travels(listing, assets, f) ensures PortableName(f.path).Some? {
        assert f in files;
        var i :| 0 <= i < |files| && files[i] == f;
      }
    }
    if AllTravelNamed(listing, assets) {
      forall i | 0 <= i < |files| ensures PortableName(files[i].path).Some? { assert files[i] in files; }
    }
  }

  /** What export asks of a directory. */
  ghost predicate Exportable(c: Codec, listing: Listing, profile: Profile) {
    && HasProfile(c, listing, profile) && HasRecipes(c, listing) && HasSchema(c, listing)
    && !LinkInTheWay(listing) && AllTravelNamed(listing, profile.assets)
  }

  /** An export succeeds exactly if the profile and its recipes can be read, its assets are
      files, no link is in the way, every file that travels has a portable name and the
      schema is known. */
  lemma {:induction false} ExportSucceedsExactly(c: Codec, listing: Listing)
    requires WellFormed(listing)
    ensures ExportProfile(c, listing).Ok? <==> exists profile :: Exportable(c, listing, profile)
  {
    if profile :| Exportable(c, listing, profile) {
      ProfileIsExported(c, listing, profile);
      CollectedExactly(listing, profile.assets);
    }
    if ExportedProfile(c, listing).Ok? {
      var profile := ExportedProfile(c, listing).value;
      ProfileIsExported(c, listing, profile);
      CollectedExactly(listing, profile.assets);
      assert ExportProfile(c, listing).Ok? <==> Exportable(c, listing, profile);
    }
  }

  lemma {:induction false} CollectedExactly(listing: Listing, assets: set<Path>)
    requires WellFormed(listing)
    ensures Collect(listing, assets).Ok? <==> !LinkInTheWay(listing)
    ensures Collect(listing, assets).Ok? ==>
      (AllNamed(Collect(listing, assets).value) <==> AllTravelNamed(listing, assets))
  {
    LinkStopsExactly(listing, assets);
    if Collect(listing, assets).Ok? {
      TravelsExactly(listing, assets, Collect(listing, assets).value);
      NamedExactly(listing, assets, Collect(listing, assets).value);
    }
  }

  /** How an export is put together. */
  lemma {:induction false} ExportParts(c: Codec, listing: Listing, e: Exported)
    requires ExportProfile(c, listing) == Ok(e)
    ensures var profile := ExportedProfile(c, listing);
      && profile.Ok? && e.manifest.id == profile.value.id && Collect(listing, profile.value.assets) == Ok(e.files)
    ensures AllNamed(e.files) && e.manifest.files == RecordsOf(c, EntriesOf(e.files))
    ensures e.entries == [ManifestEntry(c, e.manifest)] + EntriesOf(e.files)
  {}

  /** The archive has the manifest and then, for each file that travels, one entry with its
      bytes and a record of them. */
  ghost predicate HoldsExactly(c: Codec, e: Exported) {
    && |e.entries| == |e.manifest.files| + 1 == |e.files| + 1
    && e.entries[0] == Entry("manifest.json", |c.encode(e.manifest)|, c.encode(e.manifest), false)
    && forall i :: 0 <= i < |e.files| ==> IsEntryOf(c, e.files[i], e.entries[i + 1], e.manifest.files[i])
  }

  lemma {:induction false} PartsHold(c: Codec, e: Exported)
    requires AllNamed(e.files) && e.manifest.files == RecordsOf(c, EntriesOf(e.files))
    requires e.entries == [ManifestEntry(c, e.manifest)] + EntriesOf(e.files)
    ensures HoldsExactly(c, e)
  {
    forall i | 0 <= i < |e.files| ensures IsEntryOf(c, e.files[i], e.entries[i + 1], e.manifest.files[i]) {
      assert e.entries[i + 1] == EntryOf(e.files[i]);
    }
  }

  /** An export holds exactly the files that travel. */
  lemma {:induction false} ExportHoldsExactly(c: Codec, listing: Listing, e: Exported)
    requires WellFormed(listing) && ExportProfile(c, listing) == Ok(e)
    ensures var profile := ExportedProfile(c, listing);
      && profile.Ok? && e.manifest.id == profile.value.id
      && forall f :: f in e.files <==> Travels(listing, profile.value.assets, f)
    ensures HoldsExactly(c, e)
  {
    ExportParts(c, listing, e);
    PartsHold(c, e);
    TravelsExactly(listing, ExportedProfile(c, listing).value.assets, e.files);
  }

  predicate IsEntryOf(c: Codec, f: PortableFile, e: Entry, r: FileRecord) {
    && PortableName(f.path) == Some(e.name) && e.bytes == f.bytes && e.size == |f.bytes| && !e.symlink
    && r == FileRecord(e.name, |f.bytes|, c.digest(f.bytes))
  }

  // ------------------------------------------------------------- what entries denote

  /** A text up to its first slash or backslash. */
  function Head(s: string): string {
    if s == "" || s[0] == '/' || s[0] == '\\' then "" else [s[0]] + Head(s[1..])
  }

  lemma {:induction false} HeadIsFirstPart(s: string)
    ensures Split(WithSlashes(s), '/')[0] == Head(s)
  {
    if s == "" {
    } else {
      var t := WithSlashes(s);
      assert t[1..] == WithSlashes(s[1..]);
      HeadIsFirstPart(s[1..]);
    }
  }

  lemma {:induction false} HeadBeforeSlash(a: string, b: string)
    requires '/' !in a
    ensures Head(a + ['/'] + b) == Head(a)
  {
    var s := a + ['/'] + b;
    if a == "" {
    } else {
      assert s[1..] == a[1..] + ['/'] + b && s[0] == a[0];
      HeadBeforeSlash(a[1..], b);
    }
  }

  /** An entry's path begins with the first part of its file's path, cut at a backslash. */
  lemma {:induction false} EntryBegins(path: Path)
    requires FilePath(path) && PortableName(path).Some?
    ensures PathOf(PortableName(path).value) != [] && PathOf(PortableName(path).value)[0] == Head(path[0])
  {
    var (name, parts) := (PortableName(path).value, Split(PortableName(path).value, '/'));
    HeadIsFirstPart(Join(path));
    assert path[0] in path;
    if |path| > 1 { HeadBeforeSlash(path[0], Join(path[1..])); }
    FirstPart(name);
    assert Named(parts[0]) && NamedParts(parts) == [parts[0]] + NamedParts(parts[1..]);
  }

  predicate Private(path: Path) {
    Under(path, "revisions") || Under(path, "draft.json")
  }

  /** What entry `i` behind the manifest denotes. */
  function Denoted(e: Exported, i: nat): Path
    requires i < |e.entries| - 1
  {
    PathOf(e.entries[i + 1].name)
  }

  /** No entry behind the manifest denotes a path in the history or at the draft. */
  predicate KeepsPrivate(e: Exported) {
    forall i :: 0 <= i < |e.entries| - 1 ==> !Private(Denoted(e, i))
  }

  /** No file's first part goes on with a backslash behind one of these names. */
  predicate NoneInDisguise(files: seq<PortableFile>) {
    forall i :: 0 <= i < |files| && files[i].path != [] ==>
      Head(files[i].path[0]) != "revisions" && Head(files[i].path[0]) != "draft.json"
  }

  lemma {:induction false} EntryKeepsPrivate(c: Codec, f: PortableFile, e: Entry, r: FileRecord)
    requires IsEntryOf(c, f, e, r) && FilePath(f.path)
    requires !Under(f.path, "revisions") && !Under(f.path, "draft.json")
    ensures Under(PathOf(e.name), Head(f.path[0]))
    ensures !HasBackslash(f.path) ==> Head(f.path[0]) != "revisions" && Head(f.path[0]) != "draft.json"
  {
    EntryBegins(f.path);
    assert f.path[0] in f.path;
    if !HasBackslash(f.path) { WholeHead(f.path[0]); }
  }

  /** No entry of an export denotes the draft or a path in the history, exactly if no file that
      travels has one of their names in front of a backslash; so never without backslashes. */
  lemma {:induction false} PrivateStaysExactly(c: Codec, listing: Listing, e: Exported)
    requires WellFormed(listing) && ExportProfile(c, listing) == Ok(e)
    ensures KeepsPrivate(e) <==> NoneInDisguise(e.files)
    ensures (forall i :: 0 <= i < |e.files| ==> !HasBackslash(e.files[i].path)) ==> KeepsPrivate(e)
  {
    ExportHoldsExactly(c, listing, e);
    CollectedAreApart(listing, ExportedProfile(c, listing).value.assets);
    forall i | 0 <= i < |e.files|
      ensures FilePath(e.files[i].path) && Under(Denoted(e, i), Head(e.files[i].path[0]))
      ensures !HasBackslash(e.files[i].path) ==> Head(e.files[i].path[0]) != "revisions" && Head(e.files[i].path[0]) != "draft.json"
    {
      assert e.files[i] in e.files;
      EntryKeepsPrivate(c, e.files[i], e.entries[i + 1], e.manifest.files[i]);
    }
    EntriesKeepPrivate(e);
  }

  lemma {:induction false} EntriesKeepPrivate(e: Exported)
    requires |e.entries| == |e.files| + 1
    requires forall i :: 0 <= i < |e.files| ==>
      e.files[i].path != [] && Under(Denoted(e, i), Head(e.files[i].path[0]))
    ensures KeepsPrivate(e) <==> NoneInDisguise(e.files)
  {}

  lemma {:induction false} WholeHead(s: string)
    requires '/' !in s && '\\' !in s
    ensures Head(s) == s
  {
    if s != "" { WholeHead(s[1..]); }
  }
}
