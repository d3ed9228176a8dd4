/**
 * The directory of installed profiles. An import works in a staging directory beside the
 * published ones and publishes it by one rename, or removes it.
 */
module ProfileLibrary {
  import opened Prelude
  import opened PortableNames
  import opened ProfileArchive
  import opened ProfileTransfer

  /** `export_profile`: reads, checks and writes; the entries are what the archive holds. */
  method ExportArchive(c: Codec, listing: Listing) returns (r: Result<Exported, Error>)
    ensures r == ExportProfile(c, listing)
  {
    var profile := ExportedProfile(c, listing);
    if profile.Err? { return Err(profile.error); }
    var collected := CollectPortableFiles(listing, profile.value.assets);
    if collected.Err? { return Err(collected.error); }
    var files := collected.value;
    var payload, records := [], [];
    for k := 0 to |files|
      invariant |payload| == k && |records| == k
      invariant forall i :: 0 <= i < k ==> PortableName(files[i].path).Some? && payload[i] == EntryOf(files[i])
      invariant forall i :: 0 <= i < k ==> records[i] == RecordOf(c, payload[i])
    {
      if PortableName(files[k].path).None? {
        assert !AllNamed(files);
        return Err(UnsafePath);
      }
      payload := payload + [EntryOf(files[k])];
      records := records + [RecordOf(c, payload[k])];
    }
    assert payload == EntriesOf(files) && records == RecordsOf(c, payload);
    var schema := c.schemaOf(Contents(listing, PROFILE_PATH).value);
    if !KnownSchema(schema) { return Err(UnsupportedSchema); }
    var manifest := Manifest(1, schema.value, profile.value.id, records);
    var document := c.encode(manifest);
    return Ok(Exported(manifest, [Entry(MANIFEST, |document|, document, false)] + payload, files));
  }

  class ProfilesRoot {
    var published: map<ProfileId, Directory>
    var staging: Option<Directory>

    constructor ()
      ensures published == map[] && staging == None
    {
      published, staging := map[], None;
    }

    /** The two passes over the entries that look for the manifest. */
    method FindManifest(c: Codec, entries: seq<Entry>, limits: Limits) returns (r: Result<Manifest, Error>)
      ensures r == ReadManifest(c, entries, limits)
    {
      if |entries| > limits.files + 1 { return Err(LimitExceeded); }
      var count := 0;
      var linked := false;
      var found: Option<Entry> := None;
      var k := 0;
      while k < |entries|
        invariant 0 <= k <= |entries|
        invariant count == |ManifestEntries(entries[..k])|
        invariant found.Some? <==> count > 0
        invariant found.Some? ==> found.value == ManifestEntries(entries[..k])[0]
        invariant linked ==> found.Some? && (count > 1 || found.value.symlink)
        invariant count == 1 ==> linked == found.value.symlink
      {
        assert entries[..k + 1][..k] == entries[..k];
        if entries[k].name == MANIFEST {
          count := count + 1;
          linked := linked || entries[k].symlink;
          if found.None? { found := Some(entries[k]); }
        }
        k := k + 1;
      }
      assert entries[..k] == entries;
      if linked || count != 1 { return Err(InvalidManifest); }
      var bytes := Taken(found.value.bytes, limits);
      if found.value.size > limits.fileBytes || |bytes| > limits.fileBytes { return Err(LimitExceeded); }
      var m := c.decode(bytes);
      if m.None? { return Err(Malformed); }
      return CheckManifest(m.value);
    }

    /** `extract_archive`: writes entry by entry into the staging directory. */
    method ExtractArchive(c: Codec, m: Manifest, entries: seq<Entry>, limits: Limits) returns (r: Option<Error>)
      requires staging == Some(map[])
      modifies this`staging
      ensures staging.Some?
      ensures r.None? ==> Extract(c, m, limits, entries) == Ok(staging.value)
      ensures r.Some? ==> Extract(c, m, limits, entries) == Err(r.value)
    {
      var declared := Declared(m.files);
      var st := Staged({}, 0, map[]);
      var k := 0;
      while k < |entries|
        invariant 0 <= k <= |entries| && staging == Some(st.files)
        invariant ExtractAll(c, declared, limits, Payload(entries[..k])) == Ok(st)
      {
        MoreExtracted(c, declared, limits, entries, k);
        var e := entries[k];
        k := k + 1;
        if e.name == MANIFEST { continue; }
        var next := ExtractEntry(c, declared, limits, st, e);
        if next.Err? {
          LaterEntriesKeepError(c, declared, limits, entries, k);
          return Some(next.error);
        }
        st := next.value;
        staging := Some(st.files);
      }
      assert entries[..k] == entries;
      if |st.seen| != |declared| { return Some(MissingDeclaredFile); }
      return None;
    }

    /** `import_profile`: either publishes the staged files under the new id, or leaves the
        published profiles as they were; nothing stays behind in staging. */
    method Import(c: Codec, entries: seq<Entry>, limits: Limits) returns (r: Result<Profile, Error>)
      requires staging == None
      modifies this
      ensures staging == None
      ensures r.Err? ==> published == old(published) && ImportProfile(c, entries, published, limits) == Err(r.error)
      ensures r.Ok? ==> r.value.id !in old(published)
      ensures r.Ok? ==> var i := ImportProfile(c, entries, old(published), limits);
        i.Ok? && i.value.profile == r.value && published == old(published)[r.value.id := i.value.files]
    {
      var m := FindManifest(c, entries, limits);
      if m.Err? { return Err(m.error); }
      if m.value.id in published { return Err(AlreadyExists); }
      staging := Some(map[]);
      var failure := ExtractArchive(c, m.value, entries, limits);
      if failure.Some? {
        staging := None;
        return Err(failure.value);
      }
      var files := staging.value;
      r := CheckStaged(c, m.value, files);
      if r.Ok? { published := published[m.value.id := files]; }
      staging := None;
    }
  }

  function NextStaged(
      c: Codec, declared: map<string, FileRecord>, limits: Limits, st: Result<Staged, Error>, e: Entry)
    : Result<Staged, Error>
  {
    if st.Err? || e.name == MANIFEST then st else ExtractEntry(c, declared, limits, st.value, e)
  }

  lemma {:induction false} MoreExtracted(
      c: Codec, declared: map<string, FileRecord>, limits: Limits, entries: seq<Entry>, k: nat)
    requires k < |entries|
    ensures ExtractAll(c, declared, limits, Payload(entries[..k + 1]))
         == NextStaged(c, declared, limits, ExtractAll(c, declared, limits, Payload(entries[..k])), entries[k])
  {
    assert entries[..k + 1][..k] == entries[..k];
    var before, e := Payload(entries[..k]), entries[k];
    assert (before + [e])[..|before|] == before;
    assert before + [] == before;
  }

  lemma {:induction false} LaterEntriesKeepError(
      c: Codec, declared: map<string, FileRecord>, limits: Limits, entries: seq<Entry>, k: nat)
    requires k <= |entries| && ExtractAll(c, declared, limits, Payload(entries[..k])).Err?
    ensures ExtractAll(c, declared, limits, Payload(entries)) == ExtractAll(c, declared, limits, Payload(entries[..k]))
    decreases |entries| - k
  {
    if k == |entries| {
      assert entries[..k] == entries;
    } else {
      MoreExtracted(c, declared, limits, entries, k);
      LaterEntriesKeepError(c, declared, limits, entries, k + 1);
    }
  }
}
