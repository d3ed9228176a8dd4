/** Exactly when importing an exported profile reproduces its portable files. */
module ProfileRoundTrip {
  import opened Prelude
  import opened PortableNames
  import opened ProfileArchive
  import opened ProfileTransfer

  // ------------------------------------------------------------- what was collected

  predicate IsPortable(listing: Listing, assets: set<Path>, f: PortableFile) {
    Item(f.path, File(f.bytes)) in listing && !Skipped(f.path) && Carried(f.path, assets)
  }

  /** Export collects exactly the regular files that are neither history nor draft nor an
      unreferenced template asset, and refuses a directory with any other link. */
  lemma {:induction false} CollectExactly(listing: Listing, assets: set<Path>)
    ensures Collect(listing, assets).Ok?
       <==> forall item :: item in listing && !Skipped(item.path) ==> item.node.File?
    ensures Collect(listing, assets).Ok?
        ==> forall f :: f in Collect(listing, assets).value <==> IsPortable(listing, assets, f)
  {
    if listing != [] {
      var init, item := listing[..|listing| - 1], listing[|listing| - 1];
      assert listing == init + [item];
      CollectExactly(init, assets);
    }
  }

  lemma {:induction false} CollectedAreApart(listing: Listing, assets: set<Path>)
    requires WellFormed(listing) && Collect(listing, assets).Ok?
    ensures AllApart(Collect(listing, assets).value)
  {
    if listing != [] {
      var n := |listing| - 1;
      var init, item := listing[..n], listing[n];
      forall i, j | 0 <= i < j < |init| ensures Apart(init[i].path, init[j].path) {
        assert Apart(listing[i].path, listing[j].path);
      }
      CollectedAreApart(init, assets);
      CollectExactly(init, assets);
      var before := Collect(init, assets).value;
      forall i | 0 <= i < |before| ensures Apart(before[i].path, item.path) {
        assert before[i] in before;
        assert IsPortable(init, assets, before[i]);
        var k :| 0 <= k < |init| && init[k] == Item(before[i].path, File(before[i].bytes));
        assert Apart(listing[k].path, listing[n].path);
      }
    }
  }

  lemma {:induction false} DirectoryHolds(files: seq<PortableFile>)
    requires AllApart(files)
    ensures forall path, bytes ::
      (path in DirectoryOf(files) && DirectoryOf(files)[path] == bytes) <==> PortableFile(path, bytes) in files
  {
    if files == [] {
    } else {
      var n := |files| - 1;
      var init, f := files[..n], files[n];
      forall i, j | 0 <= i < j < |init| ensures Apart(init[i].path, init[j].path) {
        assert Apart(files[i].path, files[j].path);
      }
      DirectoryHolds(init);
      assert files == init + [f];
      forall g | g in init ensures g.path != f.path {
        var i :| 0 <= i < |init| && init[i] == g;
        assert Apart(files[i].path, files[n].path);
      }
    }
  }

  lemma {:induction false} ListedFiles(listing: Listing)
    requires WellFormed(listing)
    ensures forall path, bytes ::
      (path in FilesIn(listing) && FilesIn(listing)[path] == bytes) <==> Item(path, File(bytes)) in listing
  {
    if listing == [] {
    } else {
      var n := |listing| - 1;
      var init, item := listing[..n], listing[n];
      forall i, j | 0 <= i < j < |init| ensures Apart(init[i].path, init[j].path) {
        assert Apart(listing[i].path, listing[j].path);
      }
      ListedFiles(init);
      assert listing == init + [item];
      forall g | g in init ensures g.path != item.path {
        var i :| 0 <= i < |init| && init[i] == g;
        assert Apart(listing[i].path, listing[n].path);
      }
    }
  }

  lemma {:induction false} ContentsAreListed(listing: Listing, path: Path)
    requires Contents(listing, path).Some?
    ensures Item(path, File(Contents(listing, path).value)) in listing
  {
    if !(listing[0].path == path && listing[0].node.File?) { ContentsAreListed(listing[1..], path); }
  }

  /** Recipes are never left behind. */
  lemma {:induction false} RecipesTravel(listing: Listing, assets: set<Path>, files: seq<PortableFile>)
    requires WellFormed(listing) && Collect(listing, assets) == Ok(files)
    ensures Recipes(DirectoryOf(files)) == Recipes(FilesIn(listing))
  {
    CollectExactly(listing, assets);
    CollectedAreApart(listing, assets);
    DirectoryHolds(files);
    ListedFiles(listing);
    var sent, all := DirectoryOf(files), FilesIn(listing);
    forall path | path in sent ensures path in all && all[path] == sent[path] {
      assert PortableFile(path, sent[path]) in files;
      assert IsPortable(listing, assets, PortableFile(path, sent[path]));
    }
    forall path | path in all && IsRecipe(path) ensures path in sent {
      assert Item(path, File(all[path])) in listing;
      assert IsPortable(listing, assets, PortableFile(path, all[path]));
    }
  }

  // ------------------------------------------------------------- what the archive holds

  lemma {:induction false} MorePayload(entries: seq<Entry>, e: Entry)
    ensures Payload(entries + [e]) == Payload(entries) + if e.name == MANIFEST then [] else [e]
    ensures ManifestEntries(entries + [e]) == ManifestEntries(entries) + if e.name == MANIFEST then [e] else []
  {
    assert (entries + [e])[..|entries|] == entries;
  }

  predicate NoManifest(entries: seq<Entry>) {
    forall i :: 0 <= i < |entries| ==> entries[i].name != MANIFEST
  }

  lemma {:induction false} PayloadOf(first: Entry, rest: seq<Entry>)
    requires first.name == MANIFEST
    ensures NoManifest(rest) ==> Payload([first] + rest) == rest
    ensures |ManifestEntries([first] + rest)| == 1 <==> NoManifest(rest)
    ensures ManifestEntries([first] + rest) != [] && ManifestEntries([first] + rest)[0] == first
  {
    if rest == [] {
      MorePayload([], first);
      assert [] + [first] == [first] + rest;
    } else {
      var init, e := rest[..|rest| - 1], rest[|rest| - 1];
      PayloadOf(first, init);
      MorePayload([first] + init, e);
      assert [first] + init + [e] == [first] + rest;
      assert NoManifest(rest) <==> NoManifest(init) && e.name != MANIFEST;
    }
  }

  predicate DistinctNames(entries: seq<Entry>) {
    forall i, j :: 0 <= i < j < |entries| ==> entries[i].name != entries[j].name
  }

  predicate Declares(c: Codec, d: map<string, FileRecord>, entries: seq<Entry>) {
    && d.Keys == NamesOf(entries)
    && forall i :: 0 <= i < |entries| ==> entries[i].name in d && d[entries[i].name] == RecordOf(c, entries[i])
  }

  /** A manifest that lists distinct names declares each entry's own record. */
  lemma {:induction false} DeclaredOf(c: Codec, entries: seq<Entry>)
    requires DistinctNames(entries)
    ensures Declares(c, Declared(RecordsOf(c, entries)), entries) && |Declared(RecordsOf(c, entries))| == |entries|
  {
    if entries == [] {
    } else {
      var n := |entries| - 1;
      var init, e := entries[..n], entries[n];
      assert entries == init + [e];
      DeclaredOf(c, init);
      DeclaredMore(c, init, e);
      forall i | 0 <= i < n ensures init[i].name != e.name { assert entries[i].name != entries[n].name; }
      DeclaresMore(c, Declared(RecordsOf(c, init)), init, e);
    }
  }

  lemma {:induction false} DeclaresMore(c: Codec, d: map<string, FileRecord>, init: seq<Entry>, e: Entry)
    requires Declares(c, d, init) && forall i :: 0 <= i < |init| ==> init[i].name != e.name
    ensures Declares(c, d[e.name := RecordOf(c, e)], init + [e]) && e.name !in d
  {
    assert NamesOf(init + [e]) == NamesOf(init) + {e.name};
  }

  lemma {:induction false} DeclaredMore(c: Codec, init: seq<Entry>, e: Entry)
    ensures Declared(RecordsOf(c, init + [e])) == Declared(RecordsOf(c, init))[e.name := RecordOf(c, e)]
  {
    var records := RecordsOf(c, init + [e]);
    assert records[..|init|] == RecordsOf(c, init);
  }

  predicate Exact(entries: seq<Entry>, limits: Limits) {
    forall i :: 0 <= i < |entries| ==>
      && !entries[i].symlink && Writable(entries[i].name)
      && entries[i].size == |entries[i].bytes| <= limits.fileBytes
  }

  lemma {:induction false} AcceptableOf(c: Codec, entries: seq<Entry>, limits: Limits)
    requires DistinctNames(entries) && Exact(entries, limits)
    ensures AllAcceptable(c, Declared(RecordsOf(c, entries)), limits, entries)
  {
    var d := Declared(RecordsOf(c, entries));
    DeclaredOf(c, entries);
    forall i | 0 <= i < |entries| ensures Acceptable(c, d, limits, entries[i]) {
      assert d[entries[i].name] == RecordOf(c, entries[i]);
      assert entries[i] in entries;
    }
  }

  lemma {:induction false} NamesDenotePaths(files: seq<PortableFile>)
    requires AllApart(files) && PlainPaths(files) && AllNamed(files)
    ensures var entries := EntriesOf(files);
      && AllCompatible(entries) && DistinctNames(entries)
      && forall i :: 0 <= i < |files| ==>
           PathOf(entries[i].name) == files[i].path && Writable(entries[i].name) && entries[i].name != MANIFEST
  {
    var entries := EntriesOf(files);
    forall i | 0 <= i < |files|
      ensures PathOf(entries[i].name) == files[i].path && Writable(entries[i].name) && entries[i].name != MANIFEST
    {
      NameDenotesPath(files[i].path);
      ManifestPath();
    }
    forall i, j | 0 <= i < j < |files| ensures Compatible(entries[i], entries[j]) {
      assert Apart(files[i].path, files[j].path);
    }
  }

  lemma {:induction false} ManifestPath()
    ensures PathOf(MANIFEST) == MANIFEST_PATH && PortableName(MANIFEST_PATH) == Some(MANIFEST)
  {
    SimplePath(MANIFEST, MANIFEST_PATH);
  }

  lemma {:induction false} ProfilePath()
    ensures PathOf(PROFILE) == PROFILE_PATH && PortableName(PROFILE_PATH) == Some(PROFILE)
  {
    SimplePath(PROFILE, PROFILE_PATH);
  }

  lemma {:induction false} SimplePath(name: string, path: Path)
    requires FileName(name) && '\\' !in name && path == [name]
    ensures PathOf(name) == path && PortableName(path) == Some(name)
  {
    NameDenotesPath(path);
  }

  lemma {:induction false} EntriesOfPrefix(files: seq<PortableFile>, n: nat)
    requires AllNamed(files) && n <= |files|
    ensures AllNamed(files[..n]) && EntriesOf(files)[..n] == EntriesOf(files[..n])
  {
    var (init, entries) := (EntriesOf(files[..n]), EntriesOf(files));
    assert forall i :: 0 <= i < n ==> entries[..n][i] == init[i];
  }

  lemma {:induction false} SumsOf(files: seq<PortableFile>)
    requires AllNamed(files)
    ensures TotalSize(EntriesOf(files)) == BytesOf(files)
  {
    if files == [] {
    } else {
      var n := |files| - 1;
      EntriesOfPrefix(files, n);
      SumsOf(files[..n]);
    }
  }

  ghost predicate Denotes(files: seq<PortableFile>)
    requires AllNamed(files)
  {
    forall i :: 0 <= i < |files| ==> PathOf(EntriesOf(files)[i].name) == files[i].path
  }

  lemma {:induction false} FilesAre(files: seq<PortableFile>)
    requires AllNamed(files) && Denotes(files)
    ensures FilesOf(EntriesOf(files)) == DirectoryOf(files)
  {
    if files == [] {
    } else {
      var n := |files| - 1;
      EntriesOfPrefix(files, n);
      forall i | 0 <= i < n ensures PathOf(EntriesOf(files[..n])[i].name) == files[..n][i].path {
        assert EntriesOf(files[..n])[i] == EntriesOf(files)[i];
      }
      FilesAre(files[..n]);
    }
  }

  // ------------------------------------------------------------- the round trip

  /** What an export has put together from its directory. */
  predicate Describes(c: Codec, e: Exported, profile: Profile) {
    && AllApart(e.files) && AllNamed(e.files)
    && e.entries == [ManifestEntry(c, e.manifest)] + EntriesOf(e.files)
    && e.manifest.files == RecordsOf(c, EntriesOf(e.files))
    && e.manifest.schema == 1 && e.manifest.id == profile.id
    && c.decode(c.encode(e.manifest)) == Some(e.manifest)
    && var sent := DirectoryOf(e.files);
       && PROFILE_PATH in sent && c.load(sent[PROFILE_PATH]) == Some(profile)
       && c.schemaOf(sent[PROFILE_PATH]) == Some(e.manifest.profileSchema)
       && 0 < e.manifest.profileSchema <= PROFILE_SCHEMA_VERSION
       && c.recipesOk(Recipes(sent))
  }

  function ManifestEntry(c: Codec, m: Manifest): Entry {
    Entry(MANIFEST, |c.encode(m)|, c.encode(m), false)
  }

  lemma {:induction false} ExportDescribes(c: Codec, listing: Listing)
    requires WellFormed(listing) && ExportProfile(c, listing).Ok?
    requires forall m :: c.decode(c.encode(m)) == Some(m)
    ensures Describes(c, ExportProfile(c, listing).value, ExportedProfile(c, listing).value)
  {
    var e, profile := ExportProfile(c, listing).value, ExportedProfile(c, listing).value;
    CollectedAreApart(listing, profile.assets);
    RecipesTravel(listing, profile.assets, e.files);
    ProfileTravels(listing, profile.assets, e.files);
  }

  lemma {:induction false} ProfileTravels(listing: Listing, assets: set<Path>, files: seq<PortableFile>)
    requires WellFormed(listing) && Collect(listing, assets) == Ok(files)
    requires Contents(listing, PROFILE_PATH).Some?
    ensures PROFILE_PATH in DirectoryOf(files)
    ensures DirectoryOf(files)[PROFILE_PATH] == Contents(listing, PROFILE_PATH).value
  {
    ContentsAreListed(listing, PROFILE_PATH);
    CollectExactly(listing, assets);
    CollectedAreApart(listing, assets);
    DirectoryHolds(files);
    var f := PortableFile(PROFILE_PATH, Contents(listing, PROFILE_PATH).value);
    assert IsPortable(listing, assets, f);
    assert f in files;
  }

  /** The first checks on an archive whose first entry is the document of a manifest. */
  lemma {:induction false} ReadFirst(c: Codec, m: Manifest, rest: seq<Entry>, limits: Limits)
    requires c.decode(c.encode(m)) == Some(m)
    ensures var r := ReadManifest(c, [ManifestEntry(c, m)] + rest, limits);
      if |rest| <= limits.files && NoManifest(rest) && |c.encode(m)| <= limits.fileBytes
      then r == CheckManifest(m)
      else r.Err?
  {
    PayloadOf(ManifestEntry(c, m), rest);
  }

  /** The manifest of an exported archive passes the first checks only if the archive is
      small enough and no file travels under the manifest's own name. */
  lemma {:induction false} ManifestIsRead(c: Codec, e: Exported, profile: Profile, limits: Limits)
    requires Describes(c, e, profile) && ReadManifest(c, e.entries, limits).Ok?
    ensures ReadManifest(c, e.entries, limits).value == e.manifest
    ensures |e.files| <= limits.files && |c.encode(e.manifest)| <= limits.fileBytes && NoManifest(EntriesOf(e.files))
  {
    ReadFirst(c, e.manifest, EntriesOf(e.files), limits);
  }

  lemma {:induction false} ManifestIsReadable(c: Codec, e: Exported, profile: Profile, limits: Limits)
    requires Describes(c, e, profile) && PlainPaths(e.files)
    requires |e.files| <= limits.files && |c.encode(e.manifest)| <= limits.fileBytes
    ensures ReadManifest(c, e.entries, limits) == Ok(e.manifest)
  {
    var payload := EntriesOf(e.files);
    NamesDenotePaths(e.files);
    ReadFirst(c, e.manifest, payload, limits);
    DeclaredOf(c, payload);
    ProfileIsDeclared(e.files);
  }

  lemma {:induction false} ProfileIsDeclared(files: seq<PortableFile>)
    requires AllApart(files) && AllNamed(files) && PROFILE_PATH in DirectoryOf(files)
    ensures PROFILE in NamesOf(EntriesOf(files))
  {
    DirectoryHolds(files);
    var f := PortableFile(PROFILE_PATH, DirectoryOf(files)[PROFILE_PATH]);
    var i :| 0 <= i < |files| && files[i] == f;
    ProfilePath();
    assert EntriesOf(files)[i] in EntriesOf(files);
  }

  lemma {:induction false} PayloadExtracts(c: Codec, e: Exported, profile: Profile, limits: Limits)
    requires Describes(c, e, profile) && PlainPaths(e.files) && FitsLimits(c.encode(e.manifest), e.files, limits)
    ensures Extract(c, e.manifest, limits, e.entries) == Ok(DirectoryOf(e.files))
  {
    var payload := EntriesOf(e.files);
    NamesDenotePaths(e.files);
    PayloadOf(ManifestEntry(c, e.manifest), payload);
    DeclaredOf(c, payload);
    assert Exact(payload, limits);
    AcceptableOf(c, payload, limits);
    SumsOf(e.files);
    FilesAre(e.files);
    ExtractExactly(c, e.manifest, limits, e.entries);
  }

  lemma {:induction false} ExtractedPayloadFits(c: Codec, e: Exported, profile: Profile, limits: Limits)
    requires Describes(c, e, profile) && NoManifest(EntriesOf(e.files))
    requires Extract(c, e.manifest, limits, e.entries) == Ok(DirectoryOf(e.files))
    ensures forall i :: 0 <= i < |e.files| ==> |e.files[i].bytes| <= limits.fileBytes
    ensures BytesOf(e.files) <= limits.totalBytes && PlainPaths(e.files)
  {
    var payload := EntriesOf(e.files);
    PayloadOf(ManifestEntry(c, e.manifest), payload);
    ExtractExactly(c, e.manifest, limits, e.entries);
    SumsOf(e.files);
    var declared := Declared(e.manifest.files);
    forall i | 0 <= i < |e.files| ensures |e.files[i].bytes| <= limits.fileBytes {
      assert Acceptable(c, declared, limits, payload[i]);
    }
    forall i | 0 <= i < |e.files| ensures e.files[i].path != MANIFEST_PATH {
      ManifestPath();
      assert payload[i].name != MANIFEST;
    }
    NothingRenamed(c, declared, limits, payload, e.files);
  }

  lemma {:induction false} NothingRenamed(
      c: Codec, declared: map<string, FileRecord>, limits: Limits, payload: seq<Entry>, files: seq<PortableFile>)
    requires AllAcceptable(c, declared, limits, payload) && AllApart(files) && FilesOf(payload) == DirectoryOf(files)
    ensures forall i :: 0 <= i < |files| ==> !HasBackslash(files[i].path)
  {
    DirectoryHolds(files);
    FilesHavePaths(payload);
    forall i | 0 <= i < |files| ensures !HasBackslash(files[i].path) {
      assert PortableFile(files[i].path, files[i].bytes) == files[i] && files[i] in files;
      assert files[i].path in FilesOf(payload);
      var k :| 0 <= k < |payload| && files[i].path == PathOf(payload[k].name);
      assert Acceptable(c, declared, limits, payload[k]);
      AcceptedPathHasNoBackslash(payload[k].name);
    }
  }

  predicate Reproduces(c: Codec, e: Exported, published: map<ProfileId, Directory>, limits: Limits) {
    var r := ImportProfile(c, e.entries, published, limits);
    r.Ok? && r.value.files == DirectoryOf(e.files)
  }

  /** The archive fits the limits, its profile is not installed yet, no collected file lies
      at "manifest.json" or has a backslash in its path, and the assets that the profile
      declares are themselves among the collected files. */
  predicate Fitting(
      c: Codec, e: Exported, profile: Profile, published: map<ProfileId, Directory>, limits: Limits)
  {
    && FitsLimits(c.encode(e.manifest), e.files, limits) && e.manifest.id !in published
    && PlainPaths(e.files) && profile.assets <= DirectoryOf(e.files).Keys
  }

  /** Importing an export publishes exactly the files that were collected, if and only if
      the export is `Fitting`. */
  lemma {:induction false} RoundTripExactly(
      c: Codec, listing: Listing, published: map<ProfileId, Directory>, limits: Limits)
    requires WellFormed(listing) && ExportProfile(c, listing).Ok?
    requires forall m :: c.decode(c.encode(m)) == Some(m)
    ensures var e, profile := ExportProfile(c, listing).value, ExportedProfile(c, listing).value;
      Reproduces(c, e, published, limits) <==> Fitting(c, e, profile, published, limits)
  {
    var e, profile := ExportProfile(c, listing).value, ExportedProfile(c, listing).value;
    ExportDescribes(c, listing);
    DescribedRoundTrip(c, e, profile, published, limits);
  }

  lemma {:induction false} DescribedRoundTrip(
      c: Codec, e: Exported, profile: Profile, published: map<ProfileId, Directory>, limits: Limits)
    requires Describes(c, e, profile)
    ensures Reproduces(c, e, published, limits) <==> Fitting(c, e, profile, published, limits)
  {
    if Reproduces(c, e, published, limits) { ReproducedFits(c, e, profile, published, limits); }
    if Fitting(c, e, profile, published, limits) { FittingReproduces(c, e, profile, published, limits); }
  }

  lemma {:induction false} FittingReproduces(
      c: Codec, e: Exported, profile: Profile, published: map<ProfileId, Directory>, limits: Limits)
    requires Describes(c, e, profile) && Fitting(c, e, profile, published, limits)
    ensures Reproduces(c, e, published, limits)
  {
    ManifestIsReadable(c, e, profile, limits);
    PayloadExtracts(c, e, profile, limits);
    StagedIsAccepted(c, e, profile);
    ImportGoesThrough(c, e.entries, e.manifest, DirectoryOf(e.files), published, limits);
  }

  lemma {:induction false} StagedIsAccepted(c: Codec, e: Exported, profile: Profile)
    requires Describes(c, e, profile) && profile.assets <= DirectoryOf(e.files).Keys
    ensures CheckStaged(c, e.manifest, DirectoryOf(e.files)) == Ok(profile)
  {
  }

  lemma {:induction false} ImportGoesThrough(
      c: Codec, entries: seq<Entry>, m: Manifest, files: Directory, published: map<ProfileId, Directory>, limits: Limits)
    requires ReadManifest(c, entries, limits) == Ok(m) && m.id !in published
    requires Extract(c, m, limits, entries) == Ok(files) && CheckStaged(c, m, files).Ok?
    ensures var r := ImportProfile(c, entries, published, limits); r.Ok? && r.value.files == files
  {
  }

  lemma {:induction false} ReproducedFits(
      c: Codec, e: Exported, profile: Profile, published: map<ProfileId, Directory>, limits: Limits)
    requires Describes(c, e, profile) && Reproduces(c, e, published, limits)
    ensures Fitting(c, e, profile, published, limits)
  {
    ImportedThrough(c, e.entries, published, limits);
    ManifestIsRead(c, e, profile, limits);
    ExtractedPayloadFits(c, e, profile, limits);
  }

  lemma {:induction false} ImportedThrough(
      c: Codec, entries: seq<Entry>, published: map<ProfileId, Directory>, limits: Limits)
    requires ImportProfile(c, entries, published, limits).Ok?
    ensures var m, r := ReadManifest(c, entries, limits), ImportProfile(c, entries, published, limits).value;
      && m.Ok? && m.value.id !in published
      && Extract(c, m.value, limits, entries) == Ok(r.files) && CheckStaged(c, m.value, r.files) == Ok(r.profile)
  {
  }
}
