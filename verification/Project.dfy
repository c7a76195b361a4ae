/** Playbook projects: normalisation, its digest, and when normalising again changes nothing. */
module Project {
  import opened Common
  import opened Ordering
  import opened Paths

  type Bytes = seq<int>

  /** UTF-8, SHA-256 and the manifest's JSON, as the code uses them. */
  datatype Codec = Codec(
    encode: string -> Option<Bytes>,
    decode: Bytes -> Option<string>,
    digest: Bytes -> string,
    manifest: string -> string,
    readManifest: string -> Option<string>)

  /** Decoding undoes encoding; the manifest of an entrypoint is short ASCII text that reads
      back as that entrypoint. */
  ghost predicate LawfulCodec(c: Codec) {
    && (forall s :: c.encode(s).Some? ==> c.decode(c.encode(s).value) == Some(s))
    && (forall e :: c.encode(c.manifest(e)).Some? && |c.encode(c.manifest(e)).value| <= 64 + 12 * |e|)
    && (forall e :: c.readManifest(c.manifest(e)) == Some(e))
  }

  const MAX_FILES: nat := 256
  const MAX_BYTES: nat := 10 * 1024 * 1024
  const MAX_FILE_BYTES: nat := 1024 * 1024
  const MAX_ZIP_BYTES: nat := 12 * 1024 * 1024

  // ---------------------------------------------------------------- contents

  /** `.replace("\r\n", "\n")`. */
  function JoinLineEnds(s: string): string {
    if s == "" then ""
    else if |s| >= 2 && s[0] == '\r' && s[1] == '\n' then "\n" + JoinLineEnds(s[2..])
    else [s[0]] + JoinLineEnds(s[1..])
  }

  /** `.replace("\r", "\n")`. */
  function ReplaceReturns(s: string): string {
    if s == "" then "" else [if s[0] == '\r' then '\n' else s[0]] + ReplaceReturns(s[1..])
  }

  function NormalizeContent(s: string): string {
    ReplaceReturns(JoinLineEnds(s))
  }

  lemma {:induction false} NoReturns(s: string)
    ensures '\r' !in ReplaceReturns(s)
  {
    if s != "" {
      NoReturns(s[1..]);
    }
  }

  lemma {:induction false} WithoutReturnsUnchanged(s: string)
    requires '\r' !in s
    ensures JoinLineEnds(s) == s && ReplaceReturns(s) == s
  {
    if s != "" {
      assert s[0] in s;
      WithoutReturnsUnchanged(s[1..]);
      assert s == [s[0]] + s[1..];
    }
  }

  lemma ContentStable(s: string)
    ensures NormalizeContent(NormalizeContent(s)) == NormalizeContent(s)
  {
    NoReturns(JoinLineEnds(s));
    WithoutReturnsUnchanged(NormalizeContent(s));
  }

  lemma {:induction false} ReplaceReturnsConcat(a: string, b: string)
    ensures ReplaceReturns(a + b) == ReplaceReturns(a) + ReplaceReturns(b)
  {
    if a == "" {
      assert a + b == b;
    } else {
      assert (a + b)[1..] == a[1..] + b;
      ReplaceReturnsConcat(a[1..], b);
    }
  }

  lemma {:induction false} JoinLineEndsConcat(a: string, b: string)
    requires !(a != "" && a[|a| - 1] == '\r' && b != "" && b[0] == '\n')
    ensures JoinLineEnds(a + b) == JoinLineEnds(a) + JoinLineEnds(b)
    decreases |a|
  {
    if a == "" {
      assert a + b == b;
    } else if |a| >= 2 && a[0] == '\r' && a[1] == '\n' {
      assert (a + b)[2..] == a[2..] + b;
      JoinLineEndsConcat(a[2..], b);
    } else {
      assert (a + b)[1..] == a[1..] + b;
      JoinLineEndsConcat(a[1..], b);
    }
  }

  /** Each line end, "\r\n", "\r" or "\n", becomes one "\n" and every other character stays: text
      is normalised piece by piece, wherever it is cut except inside a "\r\n". */
  lemma LineEndsExact(a: string, b: string, c: char)
    ensures !(a != "" && a[|a| - 1] == '\r' && b != "" && b[0] == '\n') ==>
            NormalizeContent(a + b) == NormalizeContent(a) + NormalizeContent(b)
    ensures NormalizeContent("\r\n") == "\n" && NormalizeContent("") == ""
    ensures NormalizeContent([c]) == if c == '\r' then "\n" else [c]
  {
    if !(a != "" && a[|a| - 1] == '\r' && b != "" && b[0] == '\n') {
      JoinLineEndsConcat(a, b);
      ReplaceReturnsConcat(JoinLineEnds(a), JoinLineEnds(b));
    }
    var end := "\r\n";
    assert end[2..] == "" && "\n"[1..] == "" && [c][1..] == "";
    assert JoinLineEnds(end) == "\n" + JoinLineEnds("");
    assert JoinLineEnds([c]) == [c] + JoinLineEnds("");
  }

  // ---------------------------------------------------------------- normalize_project

  /** An item of the files dictionary. */
  datatype File = File(path: string, content: string)

  datatype RevisionFile = RevisionFile(path: string, content: string, sha256: string, size: nat)

  datatype Project = Project(files: seq<RevisionFile>, entrypoint: string, sha256: string, size: nat)

  function NormalizeFile(u: Unicode, c: Codec, file: File): Option<RevisionFile> {
    var path := NormalizePath(u, file.path);
    var content := NormalizeContent(file.content);
    var encoded := c.encode(content);
    if path.None? || c.encode(path.value).None? || encoded.None? then None
    else if encoded.value == [] || 0 in encoded.value || |encoded.value| > MAX_FILE_BYTES then None
    else Some(RevisionFile(path.value, content, c.digest(encoded.value), |encoded.value|))
  }

  function NormalizeFiles(u: Unicode, c: Codec, files: seq<File>): (r: Option<seq<RevisionFile>>)
    ensures r.Some? ==> |r.value| == |files|
  {
    if files == [] then Some([])
    else
      var before := NormalizeFiles(u, c, files[..|files| - 1]);
      var last := NormalizeFile(u, c, files[|files| - 1]);
      if before.None? || last.None? then None else Some(before.value + [last.value])
  }

  predicate DistinctFolds(u: Unicode, files: seq<RevisionFile>) {
    forall i, j | 0 <= i < j < |files| :: Fold(u, files[i].path) != Fold(u, files[j].path)
  }

  function Folds(u: Unicode, files: seq<RevisionFile>): set<string> {
    set i | 0 <= i < |files| :: Fold(u, files[i].path)
  }

  function Total(files: seq<RevisionFile>): nat {
    if files == [] then 0 else Total(files[..|files| - 1]) + files[|files| - 1].size
  }

  /** Path, NUL, file digest, NUL, for each file in turn. */
  function DigestInput(c: Codec, files: seq<RevisionFile>): Bytes {
    if files == [] then []
    else
      var last := files[|files| - 1];
      var path := c.encode(last.path);
      var sha := c.encode(last.sha256);
      DigestInput(c, files[..|files| - 1]) + (if path.Some? then path.value else []) + [0] +
      (if sha.Some? then sha.value else []) + [0]
  }

  function MatchingPaths(u: Unicode, files: seq<RevisionFile>, entrypoint: string): seq<string> {
    if files == [] then []
    else
      MatchingPaths(u, files[..|files| - 1], entrypoint) +
      if Fold(u, files[|files| - 1].path) == Fold(u, entrypoint) then [files[|files| - 1].path] else []
  }

  predicate YamlSuffix(u: Unicode, path: string) {
    Fold(u, Suffix(path)) == ".yml" || Fold(u, Suffix(path)) == ".yaml"
  }

  /** The path of the one file an entrypoint names. */
  function Entrypoint(u: Unicode, files: seq<RevisionFile>, entrypoint: string): Option<string> {
    var path := NormalizePath(u, entrypoint);
    if path.None? || !YamlSuffix(u, path.value) then None
    else
      var matching := MatchingPaths(u, files, path.value);
      if |matching| == 1 then Some(matching[0]) else None
  }

  function RawKey(u: Unicode): File -> string {
    (f: File) => Fold(u, f.path)
  }

  function Assemble(u: Unicode, c: Codec, files: seq<RevisionFile>, entrypoint: string): Option<Project> {
    if !DistinctFolds(u, files) || Total(files) > MAX_BYTES then None
    else
      var entry := Entrypoint(u, files, entrypoint);
      if entry.None? then None
      else Some(Project(files, entry.value, c.digest(DigestInput(c, files)), Total(files)))
  }

  /** `normalize_project`, with the dictionary's items in their insertion order. */
  function Normalize(u: Unicode, c: Codec, items: seq<File>, entrypoint: string): Option<Project> {
    if items == [] || |items| > MAX_FILES then None
    else
      var files := NormalizeFiles(u, c, Sort(items, RawKey(u)));
      if files.None? then None else Assemble(u, c, files.value, entrypoint)
  }

  /** `normalize_project` as it runs. */
  method NormalizeProject(u: Unicode, c: Codec, items: seq<File>, entrypoint: string) returns (r: Option<Project>)
    ensures r == Normalize(u, c, items, entrypoint)
  {
    hide Fold, NormalizeFile, Sort, Entrypoint, NormalizeFiles, DistinctFolds, Total, DigestInput, Folds;
    NoFiles(u, c);
    if items == [] || |items| > MAX_FILES {
      return None;
    }
    var sorted := Sort(items, RawKey(u));
    var normalized: seq<RevisionFile> := [];
    var seen: set<string> := {};
    var total := 0;
    var digested: Bytes := [];
    for i := 0 to |sorted|
      invariant NormalizeFiles(u, c, sorted[..i]) == Some(normalized) && |normalized| == i
      invariant seen == Folds(u, normalized)
      invariant DistinctFolds(u, normalized)
      invariant total == Total(normalized) <= MAX_BYTES
      invariant digested == DigestInput(c, normalized)
    {
      var file := NormalizeFile(u, c, sorted[i]);
      NormalizeStep(u, c, sorted, i);
      if file.None? {
        EarlyNone(u, c, sorted, i + 1);
        return None;
      }
      var next := normalized + [file.value];
      AssembleStep(u, c, normalized, file.value);
      if Fold(u, file.value.path) in seen {
        EarlyDuplicate(u, c, sorted, i + 1, next, entrypoint);
        return None;
      }
      seen := seen + {Fold(u, file.value.path)};
      total := total + file.value.size;
      if total > MAX_BYTES {
        EarlyTooBig(u, c, sorted, i + 1, next, entrypoint);
        return None;
      }
      var path, sha := c.encode(file.value.path), c.encode(file.value.sha256);
      digested := digested + (if path.Some? then path.value else []) + [0];
      digested := digested + (if sha.Some? then sha.value else []) + [0];
      normalized := next;
    }
    assert sorted[..|sorted|] == sorted;
    var entry := Entrypoint(u, normalized, entrypoint);
    if entry.None? {
      return None;
    }
    return Some(Project(normalized, entry.value, c.digest(digested), total));
  }

  lemma NoFiles(u: Unicode, c: Codec)
    ensures NormalizeFiles(u, c, []) == Some([]) && DistinctFolds(u, []) && Folds(u, []) == {} &&
            Total([]) == 0 && DigestInput(c, []) == []
  {
  }

  lemma NormalizeStep(u: Unicode, c: Codec, files: seq<File>, i: nat)
    requires i < |files|
    ensures var before, last := NormalizeFiles(u, c, files[..i]), NormalizeFile(u, c, files[i]);
      NormalizeFiles(u, c, files[..i + 1]) ==
        if before.None? || last.None? then None else Some(before.value + [last.value])
  {
    assert files[..i + 1][..i] == files[..i] && files[..i + 1][i] == files[i];
  }

  lemma AssembleStep(u: Unicode, c: Codec, files: seq<RevisionFile>, file: RevisionFile)
    ensures var next := files + [file];
      && Total(next) == Total(files) + file.size
      && DigestInput(c, next) == DigestInput(c, files) +
            (if c.encode(file.path).Some? then c.encode(file.path).value else []) + [0] +
           (if c.encode(file.sha256).Some? then c.encode(file.sha256).value else []) + [0]
      && (DistinctFolds(u, next) <==> DistinctFolds(u, files) && Fold(u, file.path) !in Folds(u, files))
      && Folds(u, next) == Folds(u, files) + {Fold(u, file.path)}
  {
    hide Fold;
    var next := files + [file];
    assert next[..|files|] == files && next[|files|] == file;
    assert forall k | 0 <= k < |files| :: next[k] == files[k];
    FoldsStep(u, files, file);
  }

  lemma FoldsStep(u: Unicode, files: seq<RevisionFile>, file: RevisionFile)
    ensures var next := files + [file];
      && (DistinctFolds(u, next) <==> DistinctFolds(u, files) && Fold(u, file.path) !in Folds(u, files))
      && Folds(u, next) == Folds(u, files) + {Fold(u, file.path)}
  {
    hide Fold;
    var next := files + [file];
    assert next[|files|] == file && forall k | 0 <= k < |files| :: next[k] == files[k];
    if DistinctFolds(u, next) {
      forall i, j | 0 <= i < j < |files| ensures Fold(u, files[i].path) != Fold(u, files[j].path) {
        assert Fold(u, next[i].path) != Fold(u, next[j].path);
      }
      forall k | 0 <= k < |files| ensures Fold(u, files[k].path) != Fold(u, file.path) {
        assert Fold(u, next[k].path) != Fold(u, next[|files|].path);
      }
    }
  }

  lemma {:induction false} EarlyNone(u: Unicode, c: Codec, files: seq<File>, n: nat)
    requires n <= |files| && NormalizeFiles(u, c, files[..n]).None?
    ensures NormalizeFiles(u, c, files).None?
    decreases |files|
  {
    if n == |files| {
      assert files[..n] == files;
    } else {
      var init := files[..|files| - 1];
      assert files[..n] == init[..n];
      EarlyNone(u, c, init, n);
    }
  }

  lemma {:induction false} EarlyPrefix(u: Unicode, c: Codec, files: seq<File>, n: nat)
    requires n <= |files| && NormalizeFiles(u, c, files).Some?
    ensures var part := NormalizeFiles(u, c, files[..n]);
      part.Some? && part.value <= NormalizeFiles(u, c, files).value &&
        Total(part.value) <= Total(NormalizeFiles(u, c, files).value)
    decreases |files|
  {
    if n == |files| {
      assert files[..n] == files;
    } else {
      var init := files[..|files| - 1];
      assert files[..n] == init[..n];
      EarlyPrefix(u, c, init, n);
      var all := NormalizeFiles(u, c, files).value;
      assert all[..|all| - 1] == NormalizeFiles(u, c, init).value;
    }
  }

  lemma EarlyDuplicate(u: Unicode, c: Codec, files: seq<File>, n: nat, part: seq<RevisionFile>, entrypoint: string)
    requires n <= |files| && NormalizeFiles(u, c, files[..n]) == Some(part) && !DistinctFolds(u, part)
    ensures var all := NormalizeFiles(u, c, files); all.Some? ==> Assemble(u, c, all.value, entrypoint).None?
  {
    var all := NormalizeFiles(u, c, files);
    if all.Some? {
      EarlyPrefix(u, c, files, n);
      var i, j :| 0 <= i < j < |part| && Fold(u, part[i].path) == Fold(u, part[j].path);
      assert all.value[i] == part[i] && all.value[j] == part[j];
    }
  }

  lemma EarlyTooBig(u: Unicode, c: Codec, files: seq<File>, n: nat, part: seq<RevisionFile>, entrypoint: string)
    requires n <= |files| && NormalizeFiles(u, c, files[..n]) == Some(part) && Total(part) > MAX_BYTES
    ensures var all := NormalizeFiles(u, c, files); all.Some? ==> Assemble(u, c, all.value, entrypoint).None?
  {
    if NormalizeFiles(u, c, files).Some? {
      EarlyPrefix(u, c, files, n);
    }
  }

  // ---------------------------------------------------------------- normalising again

  function Back(files: seq<RevisionFile>): seq<File> {
    seq(|files|, i requires 0 <= i < |files| => File(files[i].path, files[i].content))
  }

  function NormalKey(u: Unicode): File -> string {
    (f: File) => var path := NormalizePath(u, f.path); if path.Some? then Fold(u, path.value) else ""
  }

  /** Sorting by the raw spelling and by the canonical one give the same order. */
  ghost predicate SortsAlike(u: Unicode, items: seq<File>) {
    Sort(items, RawKey(u)) == Sort(items, NormalKey(u))
  }

  /** No path becomes the manifest's name by losing a "." or an empty segment. */
  predicate AvoidsManifest(u: Unicode, items: seq<File>) {
    forall f | f in items && NormalizePath(u, f.path).Some? :: !IsManifest(u, NormalizePath(u, f.path).value)
  }

  lemma {:induction false} NormalizeFilesAt(u: Unicode, c: Codec, files: seq<File>)
    ensures NormalizeFiles(u, c, files).Some? <==> forall i | 0 <= i < |files| :: NormalizeFile(u, c, files[i]).Some?
    ensures NormalizeFiles(u, c, files).Some? ==>
      forall i | 0 <= i < |files| :: NormalizeFile(u, c, files[i]) == Some(NormalizeFiles(u, c, files).value[i])
  {
    hide NormalizeFile;
    if files != [] {
      var init, last := files[..|files| - 1], files[|files| - 1];
      NormalizeFilesAt(u, c, init);
      assert forall i | 0 <= i < |init| :: init[i] == files[i];
    }
  }

  lemma RenormalizeFile(u: Unicode, c: Codec, file: File)
    requires NormalizeFile(u, c, file).Some?
    ensures var f := NormalizeFile(u, c, file).value;
      NormalizeFile(u, c, File(f.path, f.content)) == if IsManifest(u, f.path) then None else Some(f)
  {
    NormalizeAgain(u, file.path);
    ContentStable(file.content);
  }

  /** What a successful normalisation says of its files. */
  lemma NormalizedFiles(u: Unicode, c: Codec, items: seq<File>, entrypoint: string)
    requires Normalize(u, c, items, entrypoint).Some?
    ensures var p, sorted := Normalize(u, c, items, entrypoint).value, Sort(items, RawKey(u));
      && 0 < |p.files| == |items| == |sorted| <= MAX_FILES
      && DistinctFolds(u, p.files) && Total(p.files) == p.size <= MAX_BYTES
      && p.sha256 == c.digest(DigestInput(c, p.files))
      && Entrypoint(u, p.files, entrypoint) == Some(p.entrypoint)
      && (forall i | 0 <= i < |sorted| :: NormalizeFile(u, c, sorted[i]) == Some(p.files[i]))
  {
    hide NormalizeFile, Entrypoint, DistinctFolds;
    SortMembers(items, RawKey(u));
    NormalizeFilesAt(u, c, Sort(items, RawKey(u)));
  }

  /** What a file of the dictionary becomes: a proper path, the text with its line ends normalised,
      and the digest and size of that text's bytes, which are neither none, nor with a zero among
      them, nor too many. */
  predicate Becomes(u: Unicode, c: Codec, file: File, f: RevisionFile) {
    var bytes := c.encode(f.content);
    && NormalizePath(u, file.path) == Some(f.path) && ProperPath(u, f.path) && c.encode(f.path).Some?
    && f.content == NormalizeContent(file.content)
    && bytes.Some? && 0 < |bytes.value| <= MAX_FILE_BYTES && 0 !in bytes.value
    && f.size == |bytes.value| && f.sha256 == c.digest(bytes.value)
  }

  lemma FileBecomes(u: Unicode, c: Codec, file: File, f: RevisionFile)
    ensures NormalizeFile(u, c, file) == Some(f) <==> Becomes(u, c, file, f)
  {
    hide NormalizePath, NormalizeContent, ProperPath;
    if NormalizePath(u, file.path).Some? {
      AcceptedIsProper(u, file.path);
    }
  }

  /** `entry` is the one file an entrypoint names, and it is YAML. */
  predicate Names(u: Unicode, files: seq<RevisionFile>, entrypoint: string, entry: string) {
    && NormalizePath(u, entrypoint).Some?
    && Fold(u, Suffix(NormalizePath(u, entrypoint).value)) in {".yml", ".yaml"}
    && Fold(u, entry) == Fold(u, NormalizePath(u, entrypoint).value)
    && (exists i :: 0 <= i < |files| && files[i].path == entry)
  }

  lemma {:induction false} MatchingIff(u: Unicode, files: seq<RevisionFile>, path: string)
    requires DistinctFolds(u, files)
    ensures |MatchingPaths(u, files, path)| <= 1
    ensures forall m :: MatchingPaths(u, files, path) == [m] <==>
      exists i :: 0 <= i < |files| && files[i].path == m && Fold(u, m) == Fold(u, path)
  {
    hide Fold;
    if files != [] {
      var init, last := files[..|files| - 1], files[|files| - 1];
      assert forall i | 0 <= i < |init| :: init[i] == files[i];
      MatchingIff(u, init, path);
      forall m ensures MatchingPaths(u, files, path) == [m] <==>
        exists i :: 0 <= i < |files| && files[i].path == m && Fold(u, m) == Fold(u, path)
      {
        MatchingLast(u, files, path, m);
      }
      if |MatchingPaths(u, init, path)| == 1 {
        var m := MatchingPaths(u, init, path)[0];
        assert MatchingPaths(u, init, path) == [m];
        var i :| 0 <= i < |init| && init[i].path == m && Fold(u, m) == Fold(u, path);
        assert Fold(u, files[i].path) != Fold(u, last.path);
      }
    }
  }

  lemma MatchingLast(u: Unicode, files: seq<RevisionFile>, path: string, m: string)
    requires files != [] && DistinctFolds(u, files)
    requires var init := files[..|files| - 1];
      && |MatchingPaths(u, init, path)| <= 1
      && forall q :: MatchingPaths(u, init, path) == [q] <==>
           exists i :: 0 <= i < |init| && init[i].path == q && Fold(u, q) == Fold(u, path)
    ensures MatchingPaths(u, files, path) == [m] <==>
      exists i :: 0 <= i < |files| && files[i].path == m && Fold(u, m) == Fold(u, path)
  {
    hide Fold;
    var init, last := files[..|files| - 1], files[|files| - 1];
    var before := MatchingPaths(u, init, path);
    if before != [] {
      assert before == [before[0]];
      var j :| 0 <= j < |init| && init[j].path == before[0] && Fold(u, before[0]) == Fold(u, path);
      assert Fold(u, files[j].path) != Fold(u, last.path);
    }
    if i :| 0 <= i < |files| && files[i].path == m && Fold(u, m) == Fold(u, path) {
      if i < |init| {
        assert init[i].path == m;
        assert before == [m];
      }
    }
    if MatchingPaths(u, files, path) == [m] {
      if Fold(u, last.path) == Fold(u, path) {
        assert (before + [last.path])[|before|] == last.path;
        assert before == [] && files[|files| - 1].path == m;
      } else {
        assert before == [m];
        var i :| 0 <= i < |init| && init[i].path == m && Fold(u, m) == Fold(u, path);
        assert files[i].path == m;
      }
    }
  }

  lemma EntrypointIff(u: Unicode, files: seq<RevisionFile>, entrypoint: string, entry: string)
    requires DistinctFolds(u, files)
    ensures Entrypoint(u, files, entrypoint) == Some(entry) <==> Names(u, files, entrypoint, entry)
  {
    hide Fold, NormalizePath, Suffix, MatchingPaths, DistinctFolds;
    if NormalizePath(u, entrypoint).Some? {
      var path := NormalizePath(u, entrypoint).value;
      MatchingIff(u, files, path);
      var matching := MatchingPaths(u, files, path);
      assert |matching| == 1 ==> matching == [matching[0]];
    }
  }

  /** A dictionary normalises to a project exactly when there are 1 to 256 files, each becomes a file
      of the project in the order of the folded raw paths, no two paths fold alike, all together
      keep within the limit, and the entrypoint names one of them that is YAML; size and digest
      are those of the files. */
  lemma NormalizeIff(u: Unicode, c: Codec, items: seq<File>, entrypoint: string, p: Project)
    ensures Normalize(u, c, items, entrypoint) == Some(p) <==>
      var sorted := Sort(items, RawKey(u));
      && 0 < |items| <= MAX_FILES && |p.files| == |sorted|
      && (forall i | 0 <= i < |sorted| :: Becomes(u, c, sorted[i], p.files[i]))
      && DistinctFolds(u, p.files) && Total(p.files) <= MAX_BYTES
      && Names(u, p.files, entrypoint, p.entrypoint)
      && p.size == Total(p.files) && p.sha256 == c.digest(DigestInput(c, p.files))
  {
    hide NormalizeFile, Becomes, Names, Entrypoint, DistinctFolds, Fold, Total, DigestInput, Sort;
    var sorted := Sort(items, RawKey(u));
    NormalizeFilesAt(u, c, sorted);
    forall i, f | 0 <= i < |sorted| ensures NormalizeFile(u, c, sorted[i]) == Some(f) <==> Becomes(u, c, sorted[i], f) {
      FileBecomes(u, c, sorted[i], f);
    }
    if NormalizeFiles(u, c, sorted).Some? && DistinctFolds(u, NormalizeFiles(u, c, sorted).value) {
      forall e ensures Entrypoint(u, NormalizeFiles(u, c, sorted).value, entrypoint) == Some(e) <==>
        Names(u, NormalizeFiles(u, c, sorted).value, entrypoint, e)
      {
        EntrypointIff(u, NormalizeFiles(u, c, sorted).value, entrypoint, e);
      }
    }
    if |p.files| == |sorted| && forall i | 0 <= i < |sorted| :: Becomes(u, c, sorted[i], p.files[i]) {
      forall i | 0 <= i < |sorted| ensures NormalizeFile(u, c, sorted[i]) == Some(p.files[i]) {
        assert Becomes(u, c, sorted[i], p.files[i]);
      }
      assert NormalizeFiles(u, c, sorted).value == p.files;
    }
  }

  /** Every path of a project stays inside it. */
  lemma ProjectPathsProper(u: Unicode, c: Codec, items: seq<File>, entrypoint: string)
    requires Normalize(u, c, items, entrypoint).Some?
    ensures var p := Normalize(u, c, items, entrypoint).value;
      (forall f | f in p.files :: ProperPath(u, f.path)) && ProperPath(u, p.entrypoint)
  {
    hide Normalize, ProperPath, Fold;
    var p := Normalize(u, c, items, entrypoint).value;
    NormalizeIff(u, c, items, entrypoint, p);
  }

  lemma BackKeyed(u: Unicode, files: seq<RevisionFile>)
    requires DistinctFolds(u, files)
    ensures Keyed(Back(files), RawKey(u))
  {
  }

  /** The files come out in folded order exactly when the two sorts agree. */
  lemma SortedIffAlike(u: Unicode, c: Codec, items: seq<File>, entrypoint: string)
    requires Normalize(u, c, items, entrypoint).Some?
    ensures SortedBy(Back(Normalize(u, c, items, entrypoint).value.files), RawKey(u)) <==> SortsAlike(u, items)
  {
    hide Fold, LexLe, NormalizePath, Normalize;
    var files, sorted := Normalize(u, c, items, entrypoint).value.files, Sort(items, RawKey(u));
    NormalizedFiles(u, c, items, entrypoint);
    SortSorts(items, RawKey(u));
    SortSorts(items, NormalKey(u));
    var back := Back(files);
    forall i | 0 <= i < |sorted| ensures NormalKey(u)(sorted[i]) == RawKey(u)(back[i]) {
      assert NormalizeFile(u, c, sorted[i]) == Some(files[i]);
    }
    assert SortedBy(back, RawKey(u)) <==> SortedBy(sorted, NormalKey(u));
    if SortedBy(sorted, NormalKey(u)) {
      SortedKeyed(u, sorted, files);
      SortedUnique(sorted, Sort(items, NormalKey(u)), NormalKey(u));
    }
  }

  lemma SortedKeyed(u: Unicode, sorted: seq<File>, files: seq<RevisionFile>)
    requires |sorted| == |files| && DistinctFolds(u, files)
    requires forall i | 0 <= i < |sorted| :: NormalKey(u)(sorted[i]) == RawKey(u)(Back(files)[i])
    ensures Keyed(sorted, NormalKey(u))
  {
    hide Fold, NormalizePath;
    forall x, y | x in sorted && y in sorted && NormalKey(u)(x) == NormalKey(u)(y) ensures x == y {
      var i :| 0 <= i < |sorted| && sorted[i] == x;
      var j :| 0 <= j < |sorted| && sorted[j] == y;
      assert Fold(u, files[i].path) == NormalKey(u)(x) && Fold(u, files[j].path) == NormalKey(u)(y);
      assert i == j;
    }
  }

  lemma {:induction false} MatchingMembers(u: Unicode, files: seq<RevisionFile>, entrypoint: string)
    ensures forall m | m in MatchingPaths(u, files, entrypoint) ::
      Fold(u, m) == Fold(u, entrypoint) && exists i :: 0 <= i < |files| && files[i].path == m
  {
    hide Fold;
    if files != [] {
      var init := files[..|files| - 1];
      MatchingMembers(u, init, entrypoint);
      forall m | m in MatchingPaths(u, files, entrypoint)
        ensures Fold(u, m) == Fold(u, entrypoint) && exists i :: 0 <= i < |files| && files[i].path == m
      {
        if m in MatchingPaths(u, init, entrypoint) {
          var i :| 0 <= i < |init| && init[i].path == m;
          assert files[i].path == m;
        } else {
          assert files[|files| - 1].path == m;
        }
      }
    }
  }

  lemma {:induction false} MatchingByFold(u: Unicode, files: seq<RevisionFile>, a: string, b: string)
    requires Fold(u, a) == Fold(u, b)
    ensures MatchingPaths(u, files, a) == MatchingPaths(u, files, b)
  {
    hide Fold;
    if files != [] {
      MatchingByFold(u, files[..|files| - 1], a, b);
    }
  }

  lemma EntrypointStable(u: Unicode, files: seq<RevisionFile>, entrypoint: string)
    requires Lawful(u) && Entrypoint(u, files, entrypoint).Some?
    ensures var e := Entrypoint(u, files, entrypoint).value;
      && (exists i :: 0 <= i < |files| && files[i].path == e)
      && (NormalizePath(u, e) == Some(e) ==> Entrypoint(u, files, e) == Some(e))
  {
    hide Fold, NormalizePath, Suffix, Lawful;
    var path := NormalizePath(u, entrypoint).value;
    var e := Entrypoint(u, files, entrypoint).value;
    MatchingMembers(u, files, path);
    assert MatchingPaths(u, files, path)[0] in MatchingPaths(u, files, path);
    MatchingByFold(u, files, path, e);
    SuffixFolds(u, path, e);
  }

  /** Assembling files that are already in order, under the entrypoint found before. */
  lemma AssembleAgain(u: Unicode, c: Codec, items: seq<File>, entrypoint: string)
    requires Lawful(u) && Normalize(u, c, items, entrypoint).Some?
    ensures var p := Normalize(u, c, items, entrypoint).value;
      (forall i | 0 <= i < |p.files| :: !IsManifest(u, p.files[i].path)) ==>
        Assemble(u, c, p.files, p.entrypoint) == Some(p)
  {
    hide Fold, NormalizePath, NormalizeFile, Entrypoint, Normalize, Lawful;
    var p, sorted := Normalize(u, c, items, entrypoint).value, Sort(items, RawKey(u));
    NormalizedFiles(u, c, items, entrypoint);
    EntrypointStable(u, p.files, entrypoint);
    var i :| 0 <= i < |p.files| && p.files[i].path == p.entrypoint;
    NormalizedPathAgain(u, c, sorted[i]);
  }

  lemma NormalizedPathAgain(u: Unicode, c: Codec, file: File)
    requires NormalizeFile(u, c, file).Some?
    ensures var path := NormalizeFile(u, c, file).value.path;
      NormalizePath(u, path) == (if IsManifest(u, path) then None else Some(path)) &&
        NormalizePath(u, file.path) == Some(path)
  {
    NormalizeAgain(u, file.path);
  }

  lemma AvoidsManifestFiles(u: Unicode, c: Codec, items: seq<File>, entrypoint: string)
    requires Normalize(u, c, items, entrypoint).Some?
    ensures var files := Normalize(u, c, items, entrypoint).value.files;
      AvoidsManifest(u, items) <==> forall i | 0 <= i < |files| :: !IsManifest(u, files[i].path)
  {
    hide Fold, NormalizePath, NormalizeFile, Entrypoint, Normalize, IsManifest;
    var files, sorted := Normalize(u, c, items, entrypoint).value.files, Sort(items, RawKey(u));
    NormalizedFiles(u, c, items, entrypoint);
    SortMembers(items, RawKey(u));
    forall i | 0 <= i < |sorted| ensures NormalizePath(u, sorted[i].path) == Some(files[i].path) {
      NormalizedPathAgain(u, c, sorted[i]);
    }
    forall i | 0 <= i < |sorted| ensures sorted[i] in items {
      assert sorted[i] in sorted;
    }
    if forall i | 0 <= i < |files| :: !IsManifest(u, files[i].path) {
      forall f | f in items ensures !IsManifest(u, NormalizePath(u, f.path).value) {
        assert f in sorted;
        var i :| 0 <= i < |sorted| && sorted[i] == f;
      }
    }
  }

  /** The items of a project in any order normalise to the project again exactly when the raw
      and canonical spellings sort alike and no path has become the manifest's name. */
  lemma RenormalizeIff(u: Unicode, c: Codec, items: seq<File>, entrypoint: string, again: seq<File>)
    requires Lawful(u) && Normalize(u, c, items, entrypoint).Some?
    requires multiset(again) == multiset(Back(Normalize(u, c, items, entrypoint).value.files))
    ensures var p := Normalize(u, c, items, entrypoint).value;
      Normalize(u, c, again, p.entrypoint) == Some(p) <==> SortsAlike(u, items) && AvoidsManifest(u, items)
  {
    hide Fold, NormalizePath, NormalizeFile, Entrypoint, Assemble, IsManifest, Lawful, SortsAlike, AvoidsManifest,
      DistinctFolds, LexLe, SortedBy, Keyed, NormalizeFiles, Sort, Total, DigestInput;
    var p := Normalize(u, c, items, entrypoint).value;
    var back := Back(p.files);
    NormalizedFiles(u, c, items, entrypoint);
    SortedIffAlike(u, c, items, entrypoint);
    AvoidsManifestFiles(u, c, items, entrypoint);
    BackKeyed(u, p.files);
    SortIgnoresOrder(back, again, RawKey(u));
    assert |multiset(again)| == |multiset(back)| == |items|;
    SortSorts(back, RawKey(u));
    BackAgain(u, c, items, entrypoint);
    if SortedBy(back, RawKey(u)) {
      SortedUnique(back, Sort(back, RawKey(u)), RawKey(u));
      AssembleAgain(u, c, items, entrypoint);
    }
    if Normalize(u, c, again, p.entrypoint) == Some(p) {
      BackFiles(u, c, items, entrypoint);
      ReproducedIsSorted(u, c, p, again);
    }
  }

  lemma BackFiles(u: Unicode, c: Codec, items: seq<File>, entrypoint: string)
    requires Normalize(u, c, items, entrypoint).Some?
    ensures var files := Normalize(u, c, items, entrypoint).value.files;
      forall i | 0 <= i < |files| ::
        NormalizeFile(u, c, Back(files)[i]) == if IsManifest(u, files[i].path) then None else Some(files[i])
  {
    hide Fold, NormalizePath, NormalizeFile, Normalize, IsManifest;
    var files, sorted := Normalize(u, c, items, entrypoint).value.files, Sort(items, RawKey(u));
    NormalizedFiles(u, c, items, entrypoint);
    forall i | 0 <= i < |files|
      ensures NormalizeFile(u, c, Back(files)[i]) == if IsManifest(u, files[i].path) then None else Some(files[i])
    {
      RenormalizeFile(u, c, sorted[i]);
    }
  }

  /** Normalising the project's own files, in the project's own order. */
  lemma BackAgain(u: Unicode, c: Codec, items: seq<File>, entrypoint: string)
    requires Normalize(u, c, items, entrypoint).Some?
    ensures var files := Normalize(u, c, items, entrypoint).value.files;
      var clean := forall i | 0 <= i < |files| :: !IsManifest(u, files[i].path);
      NormalizeFiles(u, c, Back(files)) == if clean then Some(files) else None
  {
    hide Fold, NormalizePath, NormalizeFile, Normalize, IsManifest;
    BackFiles(u, c, items, entrypoint);
    var files := Normalize(u, c, items, entrypoint).value.files;
    var back := Back(files);
    NormalizeFilesAt(u, c, back);
    if forall i | 0 <= i < |files| :: !IsManifest(u, files[i].path) {
      forall i | 0 <= i < |files| ensures NormalizeFile(u, c, back[i]) == Some(files[i]) {
      }
      assert NormalizeFiles(u, c, back).value == files;
    } else {
      var i :| 0 <= i < |files| && IsManifest(u, files[i].path);
      assert NormalizeFile(u, c, back[i]).None?;
    }
  }

  lemma ReproducedIsSorted(u: Unicode, c: Codec, p: Project, again: seq<File>)
    requires multiset(again) == multiset(Back(p.files)) && Normalize(u, c, again, p.entrypoint) == Some(p)
    requires forall i | 0 <= i < |p.files| ::
      var f := NormalizeFile(u, c, Back(p.files)[i]); f.Some? ==> f.value == p.files[i]
    ensures SortedBy(Back(p.files), RawKey(u))
  {
    hide Fold, NormalizePath, Entrypoint, LexLe, NormalizeFile, DistinctFolds, Normalize, Sort, Total, DigestInput;
    var back, sorted := Back(p.files), Sort(again, RawKey(u));
    SortSorts(again, RawKey(u));
    NormalizedFiles(u, c, again, p.entrypoint);
    forall i | 0 <= i < |sorted| ensures back[i] == sorted[i] {
      assert sorted[i] in multiset(sorted) && sorted[i] in back;
      var j :| 0 <= j < |back| && back[j] == sorted[i];
      assert p.files[j] == p.files[i];
    }
    assert back == sorted;
  }

  /** If no raw path has an empty or "." segment, normalisation is a fixpoint, whatever order
      the items come back in, so the worker's digest check accepts the saved project. */
  lemma CanonicalFixpoint(u: Unicode, c: Codec, items: seq<File>, entrypoint: string, again: seq<File>)
    requires Lawful(u) && Normalize(u, c, items, entrypoint).Some?
    requires forall f | f in items :: Canonical(f.path)
    requires multiset(again) == multiset(Back(Normalize(u, c, items, entrypoint).value.files))
    ensures var p := Normalize(u, c, items, entrypoint).value; Normalize(u, c, again, p.entrypoint) == Some(p)
  {
    hide Fold, NormalizeFile, Lawful, Canonical;
    NormalizedFiles(u, c, items, entrypoint);
    var sorted := Sort(items, RawKey(u));
    SortMembers(items, RawKey(u));
    forall f | f in items ensures NormalizePath(u, f.path) == Some(f.path) {
      assert f in sorted;
      var i :| 0 <= i < |sorted| && sorted[i] == f;
      NormalizedPathAgain(u, c, sorted[i]);
      CanonicalUnchanged(u, f.path);
    }
    SortAgrees(items, RawKey(u), NormalKey(u));
    RenormalizeIff(u, c, items, entrypoint, again);
  }

  lemma {:induction false} SortAgrees(items: seq<File>, k: File -> string, l: File -> string)
    requires forall f | f in items :: k(f) == l(f)
    ensures Sort(items, k) == Sort(items, l)
  {
    if items != [] {
      SortAgrees(items[1..], k, l);
      SortMembers(items[1..], k);
      InsertAgrees(items[0], Sort(items[1..], k), k, l);
    }
  }

  lemma {:induction false} InsertAgrees(x: File, s: seq<File>, k: File -> string, l: File -> string)
    requires k(x) == l(x) && forall f | f in s :: k(f) == l(f)
    ensures Insert(x, s, k) == Insert(x, s, l)
  {
    if s != [] {
      InsertAgrees(x, s[1..], k, l);
    }
  }
}
