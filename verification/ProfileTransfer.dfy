/**
 * Exporting a profile directory and importing the archive again: what export collects, the
 * checks import makes and their order, and exactly when the two are inverse.
 */
module ProfileTransfer {
  import opened Prelude
  import opened PortableNames
  import opened ProfileArchive

  datatype Node = File(bytes: Bytes) | Link(toFile: bool)

  datatype Item = Item(path: Path, node: Node)

  /** A profile directory as a walk over it lists it. */
  type Listing = seq<Item>

  const PROFILE_PATH: Path := [PROFILE]
  const MANIFEST_PATH: Path := [MANIFEST]

  datatype PortableFile = PortableFile(path: Path, bytes: Bytes)

  // ------------------------------------------------------------- export

  /** Revisions and the draft stay behind, with all that may lie below. */
  predicate Skipped(path: Path) {
    path != [] && (path[0] == "revisions" || path[0] == "draft.json")
  }

  /** Template assets travel only when the profile refers to them. */
  predicate Carried(path: Path, assets: set<Path>) {
    !(path != [] && path[0] == "templates") || path in assets
  }

  /** `collect_portable_files`. */
  function Collect(listing: Listing, assets: set<Path>): Result<seq<PortableFile>, Error> {
    if listing == [] then Ok([])
    else
      var rest, item := Collect(listing[..|listing| - 1], assets), listing[|listing| - 1];
      if rest.Err? || Skipped(item.path) then rest
      else if item.node.Link? then Err(if PortableName(item.path).Some? then UnsafeEntry else UnsafePath)
      else if Carried(item.path, assets) then Ok(rest.value + [PortableFile(item.path, item.node.bytes)])
      else rest
  }

  method CollectPortableFiles(listing: Listing, assets: set<Path>) returns (r: Result<seq<PortableFile>, Error>)
    ensures r == Collect(listing, assets)
  {
    var files := [];
    var k := 0;
    while k < |listing|
      invariant 0 <= k <= |listing|
      invariant Collect(listing[..k], assets) == Ok(files)
    {
      var item := listing[k];
      assert listing[..k + 1][..k] == listing[..k];
      k := k + 1;
      if Skipped(item.path) { continue; }
      match item.node {
        case Link(_) =>
          LaterItemsKeepError(listing, assets, k);
          return Err(if PortableName(item.path).Some? then UnsafeEntry else UnsafePath);
        case File(bytes) =>
          if Carried(item.path, assets) { files := files + [PortableFile(item.path, bytes)]; }
      }
    }
    assert listing[..k] == listing;
    return Ok(files);
  }

  lemma {:induction false} LaterItemsKeepError(listing: Listing, assets: set<Path>, k: nat)
    requires k <= |listing| && Collect(listing[..k], assets).Err?
    ensures Collect(listing, assets) == Collect(listing[..k], assets)
    decreases |listing| - k
  {
    if k == |listing| {
      assert listing[..k] == listing;
    } else {
      assert listing[..k + 1][..k] == listing[..k];
      LaterItemsKeepError(listing, assets, k + 1);
    }
  }

  /** `is_file`, which follows links. */
  predicate IsFile(listing: Listing, path: Path) {
    exists item :: item in listing && item.path == path && (item.node.File? || item.node.toFile)
  }

  function Contents(listing: Listing, path: Path): Option<Bytes> {
    if listing == [] then None
    else if listing[0].path == path && listing[0].node.File? then Some(listing[0].node.bytes)
    else Contents(listing[1..], path)
  }

  predicate IsRecipe(path: Path) {
    path != [] && path[0] == "output-recipes"
  }

  function Recipes(files: Directory): Directory {
    map path | path in files && IsRecipe(path) :: files[path]
  }

  predicate NoRecipeLinks(listing: Listing) {
    forall item :: item in listing && IsRecipe(item.path) ==> item.node.File?
  }

  function FilesIn(listing: Listing): Directory {
    if listing == [] then map[]
    else
      var init, item := FilesIn(listing[..|listing| - 1]), listing[|listing| - 1];
      if item.node.File? then init[item.path := item.node.bytes] else init
  }

  predicate AllNamed(files: seq<PortableFile>) {
    forall i :: 0 <= i < |files| ==> PortableName(files[i].path).Some?
  }

  function EntryOf(f: PortableFile): Entry
    requires PortableName(f.path).Some?
  {
    Entry(PortableName(f.path).value, |f.bytes|, f.bytes, false)
  }

  function EntriesOf(files: seq<PortableFile>): (entries: seq<Entry>)
    requires AllNamed(files)
    ensures |entries| == |files|
    ensures forall i :: 0 <= i < |files| ==> entries[i] == EntryOf(files[i])
  {
    seq(|files|, i requires 0 <= i < |files| => EntryOf(files[i]))
  }

  function RecordsOf(c: Codec, entries: seq<Entry>): (records: seq<FileRecord>)
    ensures |records| == |entries|
    ensures forall i :: 0 <= i < |entries| ==> records[i] == RecordOf(c, entries[i])
  {
    seq(|entries|, i requires 0 <= i < |entries| => RecordOf(c, entries[i]))
  }

  predicate KnownSchema(schema: Option<nat>) {
    schema.Some? && 0 < schema.value <= PROFILE_SCHEMA_VERSION
  }

  datatype Exported = Exported(manifest: Manifest, entries: seq<Entry>, files: seq<PortableFile>)

  /** The profile that an export reads, once the first checks have passed. */
  function ExportedProfile(c: Codec, listing: Listing): Result<Profile, Error> {
    var bytes := Contents(listing, PROFILE_PATH);
    if bytes.None? || c.load(bytes.value).None? then Err(StorageFailed)
    else
      var profile := c.load(bytes.value).value;
      if exists asset :: asset in profile.assets && !IsFile(listing, asset) then Err(MissingAsset)
      else if !NoRecipeLinks(listing) || !c.recipesOk(Recipes(FilesIn(listing))) then Err(InvalidRecipe)
      else Ok(profile)
  }

  /** `export_profile`: the manifest entry first, then one entry per collected file. */
  function ExportProfile(c: Codec, listing: Listing): Result<Exported, Error> {
    var profile := ExportedProfile(c, listing);
    if profile.Err? then Err(profile.error)
    else
      var files := Collect(listing, profile.value.assets);
      if files.Err? then Err(files.error)
      else if !AllNamed(files.value) then Err(UnsafePath)
      else
        var schema := c.schemaOf(Contents(listing, PROFILE_PATH).value);
        if !KnownSchema(schema) then Err(UnsupportedSchema)
        else
          var payload := EntriesOf(files.value);
          var manifest := Manifest(1, schema.value, profile.value.id, RecordsOf(c, payload));
          var document := c.encode(manifest);
          Ok(Exported(manifest, [Entry(MANIFEST, |document|, document, false)] + payload, files.value))
  }

  // ------------------------------------------------------------- import

  function ManifestEntries(entries: seq<Entry>): seq<Entry> {
    if entries == [] then []
    else
      var last := entries[|entries| - 1];
      ManifestEntries(entries[..|entries| - 1]) + if last.name == MANIFEST then [last] else []
  }

  /** Everything import checks before it looks at the destination. */
  function ReadManifest(c: Codec, entries: seq<Entry>, limits: Limits): Result<Manifest, Error> {
    var manifests := ManifestEntries(entries);
    if |entries| > limits.files + 1 then Err(LimitExceeded)
    else if |manifests| != 1 || manifests[0].symlink then Err(InvalidManifest)
    else
      var bytes := Taken(manifests[0].bytes, limits);
      if manifests[0].size > limits.fileBytes || |bytes| > limits.fileBytes then Err(LimitExceeded)
      else if c.decode(bytes).None? then Err(Malformed)
      else CheckManifest(c.decode(bytes).value)
  }

  function CheckManifest(m: Manifest): Result<Manifest, Error> {
    var declared := Declared(m.files);
    if m.schema != 1 || m.profileSchema == 0 || m.profileSchema > PROFILE_SCHEMA_VERSION then Err(UnsupportedSchema)
    else if |declared| != |m.files| || PROFILE !in declared then Err(InvalidManifest)
    else Ok(m)
  }

  /** The checks on the staged files before they are published. */
  function CheckStaged(c: Codec, m: Manifest, files: Directory): Result<Profile, Error> {
    if PROFILE_PATH !in files || c.load(files[PROFILE_PATH]).None? then Err(StorageFailed)
    else
      var profile := c.load(files[PROFILE_PATH]).value;
      var schema := c.schemaOf(files[PROFILE_PATH]);
      if profile.id != m.id then Err(InvalidManifest)
      else if !KnownSchema(schema) then Err(UnsupportedSchema)
      else if schema.value != m.profileSchema then Err(InvalidManifest)
      else if !(profile.assets <= files.Keys) then Err(MissingAsset)
      else if !c.recipesOk(Recipes(files)) then Err(InvalidRecipe)
      else Ok(profile)
  }

  datatype Imported = Imported(profile: Profile, files: Directory)

  /** `import_profile` as a function of the archive and the published profiles. */
  function ImportProfile(c: Codec, entries: seq<Entry>, published: map<ProfileId, Directory>, limits: Limits)
    : Result<Imported, Error>
  {
    var m := ReadManifest(c, entries, limits);
    if m.Err? then Err(m.error)
    else if m.value.id in published then Err(AlreadyExists)
    else
      var files := Extract(c, m.value, limits, entries);
      if files.Err? then Err(files.error)
      else
        var profile := CheckStaged(c, m.value, files.value);
        if profile.Err? then Err(profile.error) else Ok(Imported(profile.value, files.value))
  }

  // ------------------------------------------------------------- round trip

  predicate WellFormed(listing: Listing) {
    && (forall i :: 0 <= i < |listing| ==> FilePath(listing[i].path))
    && (forall i, j :: 0 <= i < j < |listing| ==> Apart(listing[i].path, listing[j].path))
  }

  /** Neither path is the other or one of its parents. */
  predicate Apart(a: Path, b: Path) {
    a != b && !IsProperPrefix(a, b) && !IsProperPrefix(b, a)
  }

  predicate AllApart(files: seq<PortableFile>) {
    && (forall i :: 0 <= i < |files| ==> FilePath(files[i].path))
    && (forall i, j :: 0 <= i < j < |files| ==> Apart(files[i].path, files[j].path))
  }

  function DirectoryOf(files: seq<PortableFile>): Directory {
    if files == [] then map[] else DirectoryOf(files[..|files| - 1])[files[|files| - 1].path := files[|files| - 1].bytes]
  }

  function BytesOf(files: seq<PortableFile>): nat {
    if files == [] then 0 else BytesOf(files[..|files| - 1]) + |files[|files| - 1].bytes|
  }

  predicate FitsLimits(document: Bytes, files: seq<PortableFile>, limits: Limits) {
    && |files| <= limits.files && |document| <= limits.fileBytes
    && (forall i :: 0 <= i < |files| ==> |files[i].bytes| <= limits.fileBytes)
    && BytesOf(files) <= limits.totalBytes
  }

  predicate PlainPaths(files: seq<PortableFile>) {
    forall i :: 0 <= i < |files| ==> files[i].path != MANIFEST_PATH && !HasBackslash(files[i].path)
  }
}
