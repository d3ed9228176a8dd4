/** Exactly which archives an import admits, and what it then publishes. */
module ProfileAdmission {
  import opened Prelude
  import opened PortableNames
  import opened ProfileArchive
  import opened ProfileTransfer
  import ProfileContents

  /** Entry k, and no other, is the manifest. */
  predicate OnlyManifest(entries: seq<Entry>, k: nat) {
    && k < |entries| && entries[k].name == "manifest.json"
    && forall j :: 0 <= j < |entries| && j != k ==> entries[j].name != "manifest.json"
  }

  lemma {:induction false} NoManifestEntries(entries: seq<Entry>)
    ensures ManifestEntries(entries) == [] <==> forall j :: 0 <= j < |entries| ==> entries[j].name != MANIFEST
  {
    if entries == [] {
    } else {
      NoManifestEntries(entries[..|entries| - 1]);
    }
  }

  lemma {:induction false} SingleManifest(entries: seq<Entry>, k: nat)
    requires k < |entries|
    ensures ManifestEntries(entries) == [entries[k]] <== OnlyManifest(entries, k)
  {
    var n := |entries| - 1;
    if OnlyManifest(entries, k) {
      if k == n { NoManifestEntries(entries[..n]); } else { SingleManifest(entries[..n], k); }
    }
  }

  lemma {:induction false} ManifestIsSingle(entries: seq<Entry>) returns (k: nat)
    requires |ManifestEntries(entries)| == 1
    ensures OnlyManifest(entries, k) && ManifestEntries(entries)[0] == entries[k]
  {
    var n := |entries| - 1;
    if entries[n].name == MANIFEST {
      NoManifestEntries(entries[..n]);
      k := n;
    } else {
      k := ManifestIsSingle(entries[..n]);
    }
  }

  predicate DistinctRecords(files: seq<FileRecord>) {
    forall i, j :: 0 <= i < j < |files| ==> files[i].path != files[j].path
  }

  lemma {:induction false} DeclaredNames(files: seq<FileRecord>)
    ensures forall name :: name in Declared(files) <==> exists i :: 0 <= i < |files| && files[i].path == name
  {
    if files == [] {
    } else {
      DeclaredNames(files[..|files| - 1]);
    }
  }

  lemma {:induction false} DistinctGrows(files: seq<FileRecord>)
    requires files != []
    ensures var (init, last) := (files[..|files| - 1], files[|files| - 1]);
            DistinctRecords(files) <==> DistinctRecords(init) && last.path !in Declared(init)
  {
    DeclaredNames(files[..|files| - 1]);
  }

  /** Nothing is declared twice exactly if as many names are declared as there are records. */
  lemma {:induction false} DeclaredSize(files: seq<FileRecord>)
    ensures |Declared(files)| <= |files| && (|Declared(files)| == |files| <==> DistinctRecords(files))
  {
    if files == [] {
    } else {
      var (d, last) := (Declared(files[..|files| - 1]), files[|files| - 1]);
      DeclaredSize(files[..|files| - 1]);
      DistinctGrows(files);
      assert d[last.path := last].Keys == d.Keys + {last.path};
      assert |d[last.path := last].Keys| == |d[last.path := last]| && |d.Keys| == |d|;
    }
  }

  /** The document at the head of the archive. */
  predicate Announced(c: Codec, entries: seq<Entry>, limits: Limits, k: nat, m: Manifest) {
    && |entries| <= limits.files + 1
    && OnlyManifest(entries, k) && !entries[k].symlink
    && entries[k].size <= limits.fileBytes && |entries[k].bytes| <= limits.fileBytes
    && c.decode(entries[k].bytes) == Some(m)
    && m.schema == 1 && 1 <= m.profileSchema <= 2
    && DistinctRecords(m.files) && exists i :: 0 <= i < |m.files| && m.files[i].path == "profile.json"
  }

  lemma {:induction false} CheckedExactly(m: Manifest)
    ensures CheckManifest(m) == Ok(m)
      <==> m.schema == 1 && 1 <= m.profileSchema <= 2
           && DistinctRecords(m.files) && exists i :: 0 <= i < |m.files| && m.files[i].path == "profile.json"
    ensures CheckManifest(m).Ok? ==> CheckManifest(m) == Ok(m)
  {
    DeclaredNames(m.files);
    DeclaredSize(m.files);
  }

  lemma {:induction false} ReadExactly(c: Codec, entries: seq<Entry>, limits: Limits, m: Manifest)
    ensures ReadManifest(c, entries, limits) == Ok(m) <==> exists k :: Announced(c, entries, limits, k, m)
  {
    CheckedExactly(m);
    if k :| Announced(c, entries, limits, k, m) {
      SingleManifest(entries, k);
    }
    if ReadManifest(c, entries, limits) == Ok(m) {
      var k := ManifestIsSingle(entries);
      var decoded := c.decode(Taken(entries[k].bytes, limits)).value;
      CheckedExactly(decoded);
      assert Announced(c, entries, limits, k, m);
    }
  }

  /** The files hold the announced profile, its assets and readable recipes. */
  predicate Complete(c: Codec, m: Manifest, files: Directory, profile: Profile) {
    && ["profile.json"] in files
    && c.load(files[["profile.json"]]) == Some(profile) && profile.id == m.id
    && c.schemaOf(files[["profile.json"]]) == Some(m.profileSchema) && 1 <= m.profileSchema <= 2
    && (forall asset :: asset in profile.assets ==> asset in files)
    && c.recipesOk(map path | path in files && ProfileContents.Under(path, "output-recipes") :: files[path])
  }

  lemma {:induction false} StagedExactly(c: Codec, m: Manifest, files: Directory, profile: Profile)
    ensures CheckStaged(c, m, files) == Ok(profile) <==> Complete(c, m, files, profile)
  {
    assert Recipes(files) == map path | path in files && ProfileContents.Under(path, "output-recipes") :: files[path];
  }

  /** All that an import asks of an archive with this manifest and this profile. */
  ghost predicate Admissible(
      c: Codec, entries: seq<Entry>, published: map<ProfileId, Directory>, limits: Limits, m: Manifest, r: Imported)
  {
    && (exists k :: Announced(c, entries, limits, k, m)) && m.id !in published
    && Extractable(c, Declared(m.files), limits, Payload(entries)) && NamesOf(Payload(entries)) == Declared(m.files).Keys
    && r.files == FilesOf(Payload(entries)) && Complete(c, m, r.files, r.profile)
  }

  lemma {:induction false} ImportByParts(
      c: Codec, entries: seq<Entry>, published: map<ProfileId, Directory>, limits: Limits, m: Manifest, r: Imported)
    requires ReadManifest(c, entries, limits) == Ok(m)
    ensures ImportProfile(c, entries, published, limits) == Ok(r)
      <==> m.id !in published && Extract(c, m, limits, entries) == Ok(r.files) && CheckStaged(c, m, r.files) == Ok(r.profile)
  {}

  lemma {:induction false} AdmittedExactly(
      c: Codec, entries: seq<Entry>, published: map<ProfileId, Directory>, limits: Limits, m: Manifest, r: Imported)
    requires ReadManifest(c, entries, limits) == Ok(m)
    ensures ImportProfile(c, entries, published, limits) == Ok(r) <==> Admissible(c, entries, published, limits, m, r)
  {
    ImportByParts(c, entries, published, limits, m, r);
    ReadExactly(c, entries, limits, m);
    ExtractExactly(c, m, limits, entries);
    StagedExactly(c, m, r.files, r.profile);
  }

  /**
   * An import succeeds exactly if its manifest can be read and is of a new profile, each
   * declared file has its exact entry and there is no other, and the files hold the profile,
   * its assets and readable recipes; it then publishes those files.
   */
  lemma {:induction false} ImportSucceedsExactly(
      c: Codec, entries: seq<Entry>, published: map<ProfileId, Directory>, limits: Limits, r: Imported)
    ensures ImportProfile(c, entries, published, limits) == Ok(r)
      <==> exists m :: Admissible(c, entries, published, limits, m, r)
  {
    if ReadManifest(c, entries, limits).Ok? {
      AdmittedExactly(c, entries, published, limits, ReadManifest(c, entries, limits).value, r);
    }
    if m :| Admissible(c, entries, published, limits, m, r) {
      ReadExactly(c, entries, limits, m);
    }
  }
}
