/**
 * What a successful import has lost: records of two names for one path agree, or the later
 * file has overwritten the earlier one and the profile is published without it.
 */
module ProfileOverwrites {
  import opened Prelude
  import opened PortableNames
  import opened ProfileArchive
  import opened ProfileTransfer
  import opened ProfileRoundTrip

  /** After a successful import all declared files are there, with their sizes and digests,
      if and only if records of one path agree. */
  lemma {:induction false} ImportHoldsExactly(
      c: Codec, entries: seq<Entry>, published: map<ProfileId, Directory>, limits: Limits)
    requires ImportProfile(c, entries, published, limits).Ok?
    ensures ReadManifest(c, entries, limits).Ok?
    ensures var declared := Declared(ReadManifest(c, entries, limits).value.files);
      var files := ImportProfile(c, entries, published, limits).value.files;
      && AllRecorded(c, declared, files) && AllPresent(declared, files) && AllWithin(limits, files)
      && (Holds(c, declared, files) <==> PathsDetermineContent(declared))
  {
    ImportedThrough(c, entries, published, limits);
    ExtractionHoldsExactly(c, ReadManifest(c, entries, limits).value, limits, entries);
  }

  /** Entries an import can write: exact, within the limits, and none in the way of another. */
  predicate Importable(c: Codec, m: Manifest, p: seq<Entry>, limits: Limits) {
    && |p| <= limits.files && |c.encode(m)| <= limits.fileBytes
    && Exact(p, limits) && TotalSize(p) <= limits.totalBytes
    && DistinctNames(p) && NoManifest(p) && AllCompatible(p)
  }

  /** A manifest for these entries that export could have written. */
  predicate Lists(c: Codec, m: Manifest, p: seq<Entry>) {
    && c.decode(c.encode(m)) == Some(m)
    && m.schema == 1 && KnownSchema(Some(m.profileSchema)) && m.files == RecordsOf(c, p)
    && PROFILE in NamesOf(p)
  }

  /** The staged files hold the profile that the manifest announces. */
  predicate Announces(c: Codec, m: Manifest, profile: Profile, files: Directory) {
    && PROFILE_PATH in files && c.load(files[PROFILE_PATH]) == Some(profile) && profile.id == m.id
    && c.schemaOf(files[PROFILE_PATH]) == Some(m.profileSchema)
    && profile.assets <= files.Keys && c.recipesOk(Recipes(files))
  }

  lemma {:induction false} ListedIsRead(c: Codec, m: Manifest, p: seq<Entry>, limits: Limits)
    requires Lists(c, m, p) && Importable(c, m, p, limits)
    ensures ReadManifest(c, [ManifestEntry(c, m)] + p, limits) == Ok(m)
  {
    ReadFirst(c, m, p, limits);
    DeclaredOf(c, p);
  }

  lemma {:induction false} ListedIsExtracted(c: Codec, m: Manifest, p: seq<Entry>, limits: Limits)
    requires Lists(c, m, p) && Importable(c, m, p, limits)
    ensures Extract(c, m, limits, [ManifestEntry(c, m)] + p) == Ok(FilesOf(p))
  {
    PayloadOf(ManifestEntry(c, m), p);
    DeclaredOf(c, p);
    AcceptableOf(c, p, limits);
    ExtractExactly(c, m, limits, [ManifestEntry(c, m)] + p);
  }

  lemma {:induction false} AnnouncedIsAccepted(c: Codec, m: Manifest, profile: Profile, files: Directory)
    requires Announces(c, m, profile, files) && KnownSchema(Some(m.profileSchema))
    ensures CheckStaged(c, m, files) == Ok(profile)
  {}

  lemma {:induction false} ImportOf(
      c: Codec, entries: seq<Entry>, m: Manifest, profile: Profile, files: Directory,
      published: map<ProfileId, Directory>, limits: Limits)
    requires ReadManifest(c, entries, limits) == Ok(m) && m.id !in published
    requires Extract(c, m, limits, entries) == Ok(files) && CheckStaged(c, m, files) == Ok(profile)
    ensures ImportProfile(c, entries, published, limits) == Ok(Imported(profile, files))
  {}

  lemma {:induction false} LastWriterWins(p: seq<Entry>, j: nat)
    requires j < |p| && forall k :: j < k < |p| ==> PathOf(p[k].name) != PathOf(p[j].name)
    ensures PathOf(p[j].name) in FilesOf(p) && FilesOf(p)[PathOf(p[j].name)] == p[j].bytes
  {
    if j < |p| - 1 { LastWriterWins(p[..|p| - 1], j); }
  }

  /**
   * A complete archive in which several names denote one path: its import succeeds, and of
   * the files with that path the profile has the last one.
   */
  lemma {:induction false} LaterNameOverwrites(
      c: Codec, m: Manifest, profile: Profile, p: seq<Entry>, i: nat, j: nat,
      published: map<ProfileId, Directory>, limits: Limits)
    requires Lists(c, m, p) && Importable(c, m, p, limits)
    requires Announces(c, m, profile, FilesOf(p)) && m.id !in published
    requires i < j < |p| && PathOf(p[i].name) == PathOf(p[j].name)
    requires forall k :: j < k < |p| ==> PathOf(p[k].name) != PathOf(p[j].name)
    ensures var r := ImportProfile(c, [ManifestEntry(c, m)] + p, published, limits);
      && r.Ok? && r.value.profile == profile
      && PathOf(p[i].name) in r.value.files && r.value.files[PathOf(p[i].name)] == p[j].bytes
  {
    ListedIsRead(c, m, p, limits);
    ListedIsExtracted(c, m, p, limits);
    AnnouncedIsAccepted(c, m, profile, FilesOf(p));
    ImportOf(c, [ManifestEntry(c, m)] + p, m, profile, FilesOf(p), published, limits);
    LastWriterWins(p, j);
  }
}
