/** ZIP export and import of a project. An archive is its list of entries; the bytes of the
    container are abstracted to their number. */
module Archive {
  import opened Common
  import opened Ordering
  import opened Paths
  import opened Project

  datatype FileType = Unspecified | Regular | Link | Special

  datatype Entry = Entry(name: string, encrypted: bool, fileType: FileType, executable: bool, size: nat, data: Bytes)

  predicate IsDirectory(e: Entry) {
    e.name != "" && e.name[|e.name| - 1] == '/'
  }

  function Members(entries: seq<Entry>): seq<Entry> {
    if entries == [] then []
    else
      var last := entries[|entries| - 1];
      Members(entries[..|entries| - 1]) + if IsDirectory(last) then [] else [last]
  }

  // ---------------------------------------------------------------- export

  function RegularEntry(c: Codec, name: string, content: string): Option<Entry> {
    var data := c.encode(content);
    if data.None? then None else Some(Entry(name, false, Regular, false, |data.value|, data.value))
  }

  function FileEntries(c: Codec, files: seq<RevisionFile>): Option<seq<Entry>> {
    if files == [] then Some([])
    else
      var before := FileEntries(c, files[..|files| - 1]);
      var last := RegularEntry(c, files[|files| - 1].path, files[|files| - 1].content);
      if before.None? || last.None? then None else Some(before.value + [last.value])
  }

  /** `export_project_zip`: the manifest, then the files in order. */
  function Export(c: Codec, p: Project): Option<seq<Entry>> {
    var manifest := RegularEntry(c, MANIFEST, c.manifest(p.entrypoint));
    var files := FileEntries(c, p.files);
    if manifest.None? || files.None? then None else Some([manifest.value] + files.value)
  }

  // ---------------------------------------------------------------- import

  /** The path an entry is stored under; None where the entry is refused. */
  function EntryPath(u: Unicode, e: Entry): Option<string> {
    if e.encrypted || e.fileType.Link? || e.executable || e.fileType.Special? || e.size > MAX_FILE_BYTES then None
    else if e.name == MANIFEST then Some(MANIFEST)
    else NormalizePath(u, e.name)
  }

  /** What the import loop has gathered so far. */
  datatype Gathered = Gathered(files: seq<File>, seen: set<string>, total: nat, manifest: Option<string>)

  const NOTHING := Gathered([], {}, 0, None)

  function Gather(u: Unicode, c: Codec, g: Gathered, e: Entry): Option<Gathered> {
    var path := EntryPath(u, e);
    if path.None? || Fold(u, path.value) in g.seen then None
    else if |e.data| > MAX_FILE_BYTES || g.total + |e.data| > MAX_BYTES then None
    else
      var text := c.decode(e.data);
      if text.None? then None
      else
        var seen, total := g.seen + {Fold(u, path.value)}, g.total + |e.data|;
        if path.value == MANIFEST then
          var entrypoint := c.readManifest(text.value);
          if entrypoint.None? then None else Some(Gathered(g.files, seen, total, entrypoint))
        else Some(Gathered(g.files + [File(path.value, text.value)], seen, total, g.manifest))
  }

  function GatherAll(u: Unicode, c: Codec, members: seq<Entry>): Option<Gathered> {
    if members == [] then Some(NOTHING)
    else
      var before := GatherAll(u, c, members[..|members| - 1]);
      if before.None? then None else Gather(u, c, before.value, members[|members| - 1])
  }

  /** `import_project_zip`; `payload` is the size of the uploaded archive. */
  function Import(u: Unicode, c: Codec, entries: seq<Entry>, payload: nat, explicit: string): Option<Project> {
    if payload == 0 || payload > MAX_ZIP_BYTES || |Members(entries)| > MAX_FILES + 1 then None
    else
      var g := GatherAll(u, c, Members(entries));
      if g.None? then None
      else if explicit != "" then Normalize(u, c, g.value.files, explicit)
      else if g.value.manifest.None? then None
      else Normalize(u, c, g.value.files, g.value.manifest.value)
  }

  const CHUNK_SIZE: nat := 64 * 1024

  /** Reading one member in chunks: refused exactly when its whole size breaks a limit. */
  method ReadMember(data: Bytes, total: nat) returns (fits: bool)
    requires total <= MAX_BYTES
    ensures fits <==> |data| <= MAX_FILE_BYTES && total + |data| <= MAX_BYTES
  {
    var size := 0;
    while size < |data|
      invariant 0 <= size <= |data| && size <= MAX_FILE_BYTES && total + size <= MAX_BYTES
    {
      var chunk := if |data| - size < CHUNK_SIZE then |data| - size else CHUNK_SIZE;
      size := size + chunk;
      if size > MAX_FILE_BYTES || total + size > MAX_BYTES {
        return false;
      }
    }
    return true;
  }

  /** The import loop as it runs. */
  method ImportZip(u: Unicode, c: Codec, entries: seq<Entry>, payload: nat, explicit: string)
    returns (r: Option<Project>)
    ensures r == Import(u, c, entries, payload, explicit)
  {
    hide Normalize, Fold, EntryPath;
    if payload == 0 || payload > MAX_ZIP_BYTES {
      return None;
    }
    var members := Members(entries);
    if |members| > MAX_FILES + 1 {
      return None;
    }
    var files: seq<File>, seen: set<string>, total: nat, manifest: Option<string> := [], {}, 0, None;
    for i := 0 to |members|
      invariant GatherAll(u, c, members[..i]) == Some(Gathered(files, seen, total, manifest)) && total <= MAX_BYTES
    {
      GatherStep(u, c, members, i);
      var data, path := members[i].data, EntryPath(u, members[i]);
      if path.None? || Fold(u, path.value) in seen {
        GatherEarly(u, c, members, i + 1);
        return None;
      }
      seen := seen + {Fold(u, path.value)};
      var fits := ReadMember(data, total);
      if !fits || c.decode(data).None? {
        GatherEarly(u, c, members, i + 1);
        return None;
      }
      total := total + |data|;
      var text := c.decode(data).value;
      if path.value == MANIFEST {
        manifest := c.readManifest(text);
        if manifest.None? {
          GatherEarly(u, c, members, i + 1);
          return None;
        }
      } else {
        files := files + [File(path.value, text)];
      }
    }
    assert members[..|members|] == members;
    var entrypoint := if explicit != "" then Some(explicit) else manifest;
    if entrypoint.None? {
      return None;
    }
    r := NormalizeProject(u, c, files, entrypoint.value);
  }

  lemma GatherStep(u: Unicode, c: Codec, members: seq<Entry>, i: nat)
    requires i < |members| && GatherAll(u, c, members[..i]).Some?
    ensures GatherAll(u, c, members[..i + 1]) == Gather(u, c, GatherAll(u, c, members[..i]).value, members[i])
  {
    assert members[..i + 1][..i] == members[..i] && members[..i + 1][i] == members[i];
  }

  lemma {:induction false} GatherEarly(u: Unicode, c: Codec, members: seq<Entry>, n: nat)
    requires n <= |members| && GatherAll(u, c, members[..n]).None?
    ensures GatherAll(u, c, members).None?
    decreases |members|
  {
    if n == |members| {
      assert members[..n] == members;
    } else {
      var init := members[..|members| - 1];
      assert members[..n] == init[..n];
      GatherEarly(u, c, init, n);
    }
  }

  // ---------------------------------------------------------------- the round trip

  /** The size of the manifest entry of a project. */
  function ManifestSize(c: Codec, p: Project): nat {
    var data := c.encode(c.manifest(p.entrypoint));
    if data.None? then 0 else |data.value|
  }

  predicate Clean(u: Unicode, files: seq<RevisionFile>) {
    forall i | 0 <= i < |files| :: !IsManifest(u, files[i].path)
  }

  /** What normalisation says of each file, as the archive needs it. */
  predicate Storable(u: Unicode, c: Codec, f: RevisionFile) {
    && c.encode(f.content).Some? && |c.encode(f.content).value| == f.size <= MAX_FILE_BYTES
    && c.decode(c.encode(f.content).value) == Some(f.content)
    && NormalizePath(u, f.path) == (if IsManifest(u, f.path) then None else Some(f.path))
    && f.path != "" && f.path[|f.path| - 1] != '/' && |f.path| <= MAX_PATH_LENGTH
  }

  lemma {:induction false} TrailingSlash(s: string)
    requires s != "" && s[|s| - 1] == '/'
    ensures |Split(s)| >= 2 && Split(s)[|Split(s)| - 1] == ""
  {
    if |s| > 1 {
      TrailingSlash(s[1..]);
    } else {
      assert s[1..] == "" && Split("") == [""];
    }
  }

  lemma EmptyLastPart(s: string)
    ensures s == "" || s[|s| - 1] == '/' ==> "" in Split(s)
  {
    if s != "" && s[|s| - 1] == '/' {
      TrailingSlash(s);
    }
  }

  lemma NormalizedStorable(u: Unicode, c: Codec, file: File)
    requires LawfulCodec(c) && NormalizeFile(u, c, file).Some?
    ensures Storable(u, c, NormalizeFile(u, c, file).value)
  {
    var f := NormalizeFile(u, c, file).value;
    NormalizedPathAgain(u, c, file);
    NormalizeAgain(u, file.path);
    NormalizedAcceptable(file.path);
    EmptyLastPart(f.path);
    assert c.decode(c.encode(f.content).value) == Some(f.content);
  }

  lemma ProjectStorable(u: Unicode, c: Codec, items: seq<File>, entrypoint: string)
    requires LawfulCodec(c) && Lawful(u) && Normalize(u, c, items, entrypoint).Some?
    ensures var p := Normalize(u, c, items, entrypoint).value;
      && 0 < |p.files| <= MAX_FILES && DistinctFolds(u, p.files) && Total(p.files) == p.size
      && (forall i | 0 <= i < |p.files| :: Storable(u, c, p.files[i]))
      && |p.entrypoint| <= MAX_PATH_LENGTH
  {
    hide Fold, NormalizePath, NormalizeFile, Normalize, Entrypoint, LawfulCodec, Lawful, DistinctFolds;
    var p, sorted := Normalize(u, c, items, entrypoint).value, Sort(items, RawKey(u));
    NormalizedFiles(u, c, items, entrypoint);
    forall i | 0 <= i < |p.files| ensures Storable(u, c, p.files[i]) {
      NormalizedStorable(u, c, sorted[i]);
    }
    EntrypointStable(u, p.files, entrypoint);
    var k :| 0 <= k < |p.files| && p.files[k].path == p.entrypoint;
  }

  function FileEntry(c: Codec, f: RevisionFile): Entry {
    var data := c.encode(f.content);
    Entry(f.path, false, Regular, false, f.size, if data.Some? then data.value else [])
  }

  lemma {:induction false} FileEntriesAt(u: Unicode, c: Codec, files: seq<RevisionFile>)
    requires forall i | 0 <= i < |files| :: Storable(u, c, files[i])
    ensures FileEntries(c, files).Some? && |FileEntries(c, files).value| == |files|
    ensures forall i | 0 <= i < |files| :: FileEntries(c, files).value[i] == FileEntry(c, files[i])
  {
    hide NormalizePath, IsManifest;
    if files != [] {
      FileEntriesAt(u, c, files[..|files| - 1]);
    }
  }

  lemma {:induction false} NoDirectories(entries: seq<Entry>)
    requires forall i | 0 <= i < |entries| :: !IsDirectory(entries[i])
    ensures Members(entries) == entries
  {
    if entries != [] {
      NoDirectories(entries[..|entries| - 1]);
      assert entries == entries[..|entries| - 1] + [entries[|entries| - 1]];
    }
  }

  /** The exported archive of a project, spelled out. */
  lemma ExportedMembers(u: Unicode, c: Codec, p: Project)
    requires LawfulCodec(c) && forall i | 0 <= i < |p.files| :: Storable(u, c, p.files[i])
    ensures Export(c, p).Some?
    ensures var e := Export(c, p).value;
      && Members(e) == e && |e| == |p.files| + 1
      && RegularEntry(c, MANIFEST, c.manifest(p.entrypoint)) == Some(e[0]) && |e[0].data| == ManifestSize(c, p)
      && (forall i | 0 <= i < |p.files| :: e[i + 1] == FileEntry(c, p.files[i]))
  {
    hide Storable, FileEntries, Members, IsDirectory, FileEntry;
    FileEntriesAt(u, c, p.files);
    assert c.encode(c.manifest(p.entrypoint)).Some?;
    var e := Export(c, p).value;
    forall i | 0 <= i < |e| ensures !IsDirectory(e[i]) {
      if i == 0 {
        ManifestNoDirectory(e[0]);
      } else {
        assert Storable(u, c, p.files[i - 1]) && e[i] == FileEntry(c, p.files[i - 1]);
        StorableNoDirectory(u, c, p.files[i - 1]);
      }
    }
    NoDirectories(e);
  }

  lemma ManifestNoDirectory(e: Entry)
    requires e.name == MANIFEST
    ensures !IsDirectory(e)
  {
  }

  lemma StorableNoDirectory(u: Unicode, c: Codec, f: RevisionFile)
    requires Storable(u, c, f)
    ensures !IsDirectory(FileEntry(c, f))
  {
  }

  /** The manifest and the first `k` files, as the import loop gathers them. */
  function Expected(u: Unicode, c: Codec, p: Project, k: nat): Gathered
    requires k <= |p.files|
  {
    Gathered(Back(p.files[..k]), {Fold(u, MANIFEST)} + (set i | 0 <= i < k :: Fold(u, p.files[i].path)),
             ManifestSize(c, p) + Total(p.files[..k]), Some(p.entrypoint))
  }

  lemma GatherManifest(u: Unicode, c: Codec, p: Project, e: Entry)
    requires LawfulCodec(c) && |p.entrypoint| <= MAX_PATH_LENGTH
    requires RegularEntry(c, MANIFEST, c.manifest(p.entrypoint)) == Some(e)
    ensures Gather(u, c, NOTHING, e) == Some(Expected(u, c, p, 0))
  {
    hide Fold;
    assert c.encode(c.manifest(p.entrypoint)) == Some(e.data) && |e.data| <= 64 + 12 * |p.entrypoint|;
    assert c.decode(e.data) == Some(c.manifest(p.entrypoint));
    assert c.readManifest(c.manifest(p.entrypoint)) == Some(p.entrypoint);
    assert p.files[..0] == [] && Back([]) == [];
    var expected := Expected(u, c, p, 0);
    assert expected.seen == {} + {Fold(u, MANIFEST)};
    assert expected.total == |e.data| && expected.files == [];
    assert EntryPath(u, e) == Some(MANIFEST);
    assert Gather(u, c, NOTHING, e).value == expected;
  }

  lemma GatherFile(u: Unicode, c: Codec, p: Project, k: nat)
    requires k < |p.files| && Storable(u, c, p.files[k]) && DistinctFolds(u, p.files)
    ensures Gather(u, c, Expected(u, c, p, k), FileEntry(c, p.files[k])) ==
      if IsManifest(u, p.files[k].path) || ManifestSize(c, p) + Total(p.files[..k + 1]) > MAX_BYTES then None
      else Some(Expected(u, c, p, k + 1))
  {
    hide Fold, NormalizePath;
    var f, g := p.files[k], Expected(u, c, p, k);
    assert p.files[..k + 1][..k] == p.files[..k] && p.files[..k + 1][k] == f;
    assert Total(p.files[..k + 1]) == Total(p.files[..k]) + f.size;
    assert Fold(u, f.path) in g.seen <==> IsManifest(u, f.path);
    assert Back(p.files[..k + 1]) == Back(p.files[..k]) + [File(f.path, f.content)];
    assert Expected(u, c, p, k + 1).seen == g.seen + {Fold(u, f.path)};
  }

  lemma {:induction false} GatherExported(u: Unicode, c: Codec, p: Project, e: seq<Entry>, k: nat)
    requires LawfulCodec(c) && |p.entrypoint| <= MAX_PATH_LENGTH && DistinctFolds(u, p.files) && k <= |p.files|
    requires forall i | 0 <= i < |p.files| :: Storable(u, c, p.files[i])
    requires |e| == |p.files| + 1 && RegularEntry(c, MANIFEST, c.manifest(p.entrypoint)) == Some(e[0])
    requires forall i | 0 <= i < |p.files| :: e[i + 1] == FileEntry(c, p.files[i])
    ensures GatherAll(u, c, e[..k + 1]) ==
      if Clean(u, p.files[..k]) && ManifestSize(c, p) + Total(p.files[..k]) <= MAX_BYTES
      then Some(Expected(u, c, p, k)) else None
  {
    hide Fold, NormalizePath, LawfulCodec, Storable, IsManifest, Gather, Expected, DistinctFolds, FileEntry,
      RegularEntry;
    if k == 0 {
      assert e[..1] == [e[0]] && e[..1][..0] == [];
      GatherManifest(u, c, p, e[0]);
      ManifestSmall(c, p);
    } else {
      GatherExported(u, c, p, e, k - 1);
      assert e[..k + 1][..k] == e[..k] && e[..k + 1][k] == e[k];
      assert e[k] == FileEntry(c, p.files[k - 1]);
      GatherFile(u, c, p, k - 1);
      CleanStep(u, c, p.files, k);
    }
  }

  lemma ManifestSmall(c: Codec, p: Project)
    requires LawfulCodec(c) && |p.entrypoint| <= MAX_PATH_LENGTH
    ensures ManifestSize(c, p) <= MAX_FILE_BYTES
  {
  }

  lemma CleanStep(u: Unicode, c: Codec, files: seq<RevisionFile>, k: nat)
    requires 0 < k <= |files|
    ensures Clean(u, files[..k]) <==> Clean(u, files[..k - 1]) && !IsManifest(u, files[k - 1].path)
    ensures Total(files[..k]) == Total(files[..k - 1]) + files[k - 1].size
  {
    hide IsManifest;
    var now, before := files[..k], files[..k - 1];
    assert now[..k - 1] == before && now[k - 1] == files[k - 1];
    assert forall i | 0 <= i < k - 1 :: now[i] == before[i];
  }

  /** Importing what was exported gives the project back, file for file, in order, with the
      same entrypoint, size and digest, exactly when the project normalises to itself and its
      files and manifest together keep within the project limit. */
  lemma ExportImportIff(u: Unicode, c: Codec, items: seq<File>, entrypoint: string, payload: nat)
    requires LawfulCodec(c) && Lawful(u) && Normalize(u, c, items, entrypoint).Some?
    requires 0 < payload <= MAX_ZIP_BYTES
    ensures var p := Normalize(u, c, items, entrypoint).value;
      && Export(c, p).Some?
      && (Import(u, c, Export(c, p).value, payload, "") == Some(p) <==>
            SortsAlike(u, items) && AvoidsManifest(u, items) && p.size + ManifestSize(c, p) <= MAX_BYTES)
  {
    hide Fold, NormalizePath, Normalize, LawfulCodec, Lawful, Storable, IsManifest, DistinctFolds, SortsAlike,
      AvoidsManifest, RegularEntry, FileEntry, GatherAll, Members;
    var p := Normalize(u, c, items, entrypoint).value;
    ProjectStorable(u, c, items, entrypoint);
    ExportedMembers(u, c, p);
    var e, n := Export(c, p).value, |p.files|;
    GatherExported(u, c, p, e, n);
    assert e[..n + 1] == e && p.files[..n] == p.files;
    AvoidsManifestFiles(u, c, items, entrypoint);
    RenormalizeIff(u, c, items, entrypoint, Back(p.files));
  }
}
