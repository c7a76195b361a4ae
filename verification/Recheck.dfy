/** The worker's re-check of a saved project: normalise its files again and compare digests. */
module Recheck {
  import opened Common
  import opened Ordering
  import opened Paths
  import opened Project

  predicate Ascii(s: string) {
    forall i | 0 <= i < |s| :: 0 < s[i] as int < 128
  }

  function Codes(s: string): Bytes {
    seq(|s|, i requires 0 <= i < |s| => s[i] as int)
  }

  /** UTF-8 writes ASCII as it stands and a zero byte only for NUL; a digest is written in ASCII. */
  ghost predicate LawfulText(c: Codec) {
    && (forall s | Ascii(s) :: c.encode(s) == Some(Codes(s)))
    && (forall s | c.encode(s).Some? && 0 in c.encode(s).value :: '\0' in s)
    && (forall b :: Ascii(c.digest(b)))
  }

  /** As many files, all of them among `files`. */
  predicate Reorders(g: seq<RevisionFile>, files: seq<RevisionFile>) {
    |g| == |files| && forall f | f in g :: f in files
  }

  /** The digest does not collide on orders of these files. */
  ghost predicate ToldApart(c: Codec, files: seq<RevisionFile>) {
    forall g | Reorders(g, files) && c.digest(DigestInput(c, g)) == c.digest(DigestInput(c, files)) ::
      DigestInput(c, g) == DigestInput(c, files)
  }

  /** The check `execute_run` makes before it uses a project. */
  predicate Accepted(u: Unicode, c: Codec, p: Project, again: seq<File>) {
    var verified := Normalize(u, c, again, p.entrypoint);
    verified.Some? && verified.value.sha256 == p.sha256
  }

  // ---------------------------------------------------------------- reading a digest input back

  lemma LastSegment(a: Bytes, x: Bytes, b: Bytes, y: Bytes)
    requires a + [0] + x == b + [0] + y && 0 !in x && 0 !in y
    ensures a == b && x == y
  {
    var whole := a + [0] + x;
    assert whole[|a|] == 0 && whole[|b|] == 0;
    assert forall i | |a| < i < |whole| :: whole[i] == x[i - |a| - 1];
    assert forall i | |b| < i < |whole| :: whole[i] == y[i - |b| - 1];
    assert |a| == |b|;
    assert a == whole[..|a|] && b == whole[..|b|] && x == whole[|a| + 1..] && y == whole[|b| + 1..];
  }

  /** A file whose path and digest have text forms without a zero byte. */
  predicate Separable(c: Codec, f: RevisionFile) {
    && c.encode(f.path).Some? && 0 !in c.encode(f.path).value && c.decode(c.encode(f.path).value) == Some(f.path)
    && c.encode(f.sha256).Some? && 0 !in c.encode(f.sha256).value
    && c.decode(c.encode(f.sha256).value) == Some(f.sha256)
  }

  lemma SplitLast(c: Codec, files: seq<RevisionFile>)
    requires files != [] && Separable(c, files[|files| - 1])
    ensures var init, last := files[..|files| - 1], files[|files| - 1];
      DigestInput(c, files) ==
        DigestInput(c, init) + c.encode(last.path).value + [0] + c.encode(last.sha256).value + [0]
  {
  }

  lemma {:induction false} EndsInZero(c: Codec, files: seq<RevisionFile>)
    ensures files == [] <==> DigestInput(c, files) == []
    ensures files != [] ==> DigestInput(c, files)[|DigestInput(c, files)| - 1] == 0
  {
  }

  /** The zero bytes separate: a digest input determines the paths and the files' digests, in their
      order. */
  lemma {:induction false} SamePaths(c: Codec, a: seq<RevisionFile>, b: seq<RevisionFile>)
    requires forall f | f in a || f in b :: Separable(c, f)
    requires DigestInput(c, a) == DigestInput(c, b)
    ensures |a| == |b| && forall i | 0 <= i < |a| :: a[i].path == b[i].path && a[i].sha256 == b[i].sha256
  {
    EndsInZero(c, a);
    EndsInZero(c, b);
    if a != [] {
      var a', b', x, y := a[..|a| - 1], b[..|b| - 1], a[|a| - 1], b[|b| - 1];
      assert x in a && y in b;
      SplitLast(c, a);
      SplitLast(c, b);
      EndsInZero(c, a');
      EndsInZero(c, b');
      SameLast(DigestInput(c, a'), c.encode(x.path).value, c.encode(x.sha256).value,
               DigestInput(c, b'), c.encode(y.path).value, c.encode(y.sha256).value);
      SamePaths(c, a', b');
      forall i | 0 <= i < |a| ensures a[i].path == b[i].path && a[i].sha256 == b[i].sha256 {
        if i < |a'| {
          assert a[i] == a'[i] && b[i] == b'[i];
        }
      }
    }
  }

  lemma SameLast(a: Bytes, p: Bytes, x: Bytes, b: Bytes, q: Bytes, y: Bytes)
    requires a + p + [0] + x + [0] == b + q + [0] + y + [0]
    requires 0 !in p && 0 !in q && 0 !in x && 0 !in y
    requires (a != [] ==> a[|a| - 1] == 0) && (b != [] ==> b[|b| - 1] == 0)
    ensures a == b && p == q && x == y
  {
    LastSegment(a + p + [0] + x, [], b + q + [0] + y, []);
    LastSegment(a + p, x, b + q, y);
    var a', b' := [0] + a, [0] + b;
    var a0, b0 := a'[..|a'| - 1], b'[..|b'| - 1];
    assert a' == a0 + [0] && b' == b0 + [0];
    assert a0 + [0] + p == [0] + (a + p) == [0] + (b + q) == b0 + [0] + q;
    LastSegment(a0, p, b0, q);
    assert a == a'[1..] && b == b'[1..];
  }

  // ---------------------------------------------------------------- the re-check

  lemma NormalizedSeparable(u: Unicode, c: Codec, file: File)
    requires LawfulCodec(c) && LawfulText(c) && NormalizeFile(u, c, file).Some?
    ensures Separable(c, NormalizeFile(u, c, file).value)
  {
    hide NormalizePath, NormalizeContent, ProperPath;
    var f := NormalizeFile(u, c, file).value;
    FileBecomes(u, c, file, f);
    assert '\0' !in f.path by { ProperHasNoNul(u, f.path); }
    hide NormalizeFile;
    assert Ascii(f.sha256) && c.encode(f.sha256) == Some(Codes(f.sha256));
  }

  lemma ProperHasNoNul(u: Unicode, path: string)
    requires ProperPath(u, path)
    ensures '\0' !in path
  {
  }

  lemma FilesSeparable(u: Unicode, c: Codec, items: seq<File>, entrypoint: string)
    requires LawfulCodec(c) && LawfulText(c) && Normalize(u, c, items, entrypoint).Some?
    ensures forall f | f in Normalize(u, c, items, entrypoint).value.files :: Separable(c, f)
  {
    hide LawfulCodec, LawfulText, NormalizeFile, Separable, Normalize;
    var files, sorted := Normalize(u, c, items, entrypoint).value.files, Sort(items, RawKey(u));
    NormalizedFiles(u, c, items, entrypoint);
    forall f | f in files ensures Separable(c, f) {
      var i :| 0 <= i < |files| && files[i] == f;
      NormalizedSeparable(u, c, sorted[i]);
    }
  }

  /** Normalising a project's files again only reorders them. */
  lemma AgainReorders(u: Unicode, c: Codec, items: seq<File>, entrypoint: string, again: seq<File>, e: string)
    requires Normalize(u, c, items, entrypoint).Some? && Normalize(u, c, again, e).Some?
    requires multiset(again) == multiset(Back(Normalize(u, c, items, entrypoint).value.files))
    ensures Reorders(Normalize(u, c, again, e).value.files, Normalize(u, c, items, entrypoint).value.files)
  {
    hide Fold, NormalizePath, NormalizeFile, Normalize, IsManifest, LexLe;
    var files, v := Normalize(u, c, items, entrypoint).value.files, Normalize(u, c, again, e).value.files;
    var sorted, back := Sort(again, RawKey(u)), Back(files);
    NormalizedFiles(u, c, again, e);
    BackFiles(u, c, items, entrypoint);
    assert |multiset(again)| == |multiset(back)|;
    SortSorts(again, RawKey(u));
    forall f | f in v ensures f in files {
      var i :| 0 <= i < |v| && v[i] == f;
      assert sorted[i] in multiset(sorted) && sorted[i] in back;
      var j :| 0 <= j < |back| && back[j] == sorted[i];
      assert files[j] == f;
    }
  }

  lemma ReorderedByPath(u: Unicode, g: seq<RevisionFile>, files: seq<RevisionFile>)
    requires Reorders(g, files) && DistinctFolds(u, files) && forall i | 0 <= i < |g| :: g[i].path == files[i].path
    ensures g == files
  {
    hide Fold;
    forall i | 0 <= i < |g| ensures g[i] == files[i] {
      assert g[i] in files;
      var j :| 0 <= j < |files| && files[j] == g[i];
      assert i == j;
    }
  }

  /** The worker accepts a saved project, its files in any order, exactly when the raw and
      canonical spellings sort alike and no path has become the manifest's name: exactly when
      the project normalises to itself. */
  lemma AcceptedIff(u: Unicode, c: Codec, items: seq<File>, entrypoint: string, again: seq<File>)
    requires Lawful(u) && LawfulCodec(c) && LawfulText(c) && Normalize(u, c, items, entrypoint).Some?
    requires multiset(again) == multiset(Back(Normalize(u, c, items, entrypoint).value.files))
    requires ToldApart(c, Normalize(u, c, items, entrypoint).value.files)
    ensures Accepted(u, c, Normalize(u, c, items, entrypoint).value, again) <==>
            SortsAlike(u, items) && AvoidsManifest(u, items)
  {
    hide LawfulCodec, LawfulText, Lawful, Normalize, SortsAlike, AvoidsManifest, Reorders, DigestInput, DistinctFolds,
      Separable;
    var p := Normalize(u, c, items, entrypoint).value;
    RenormalizeIff(u, c, items, entrypoint, again);
    if Accepted(u, c, p, again) {
      var v := Normalize(u, c, again, p.entrypoint).value;
      AgainReorders(u, c, items, entrypoint, again, p.entrypoint);
      NormalizedFiles(u, c, items, entrypoint);
      NormalizedFiles(u, c, again, p.entrypoint);
      FilesSeparable(u, c, items, entrypoint);
      FilesSeparable(u, c, again, p.entrypoint);
      SamePaths(c, v.files, p.files);
      ReorderedByPath(u, v.files, p.files);
      SameEntrypoint(u, c, items, entrypoint);
    }
  }

  lemma SameEntrypoint(u: Unicode, c: Codec, items: seq<File>, entrypoint: string)
    requires Lawful(u) && Normalize(u, c, items, entrypoint).Some?
    ensures var p := Normalize(u, c, items, entrypoint).value;
      Entrypoint(u, p.files, p.entrypoint).Some? ==> Entrypoint(u, p.files, p.entrypoint) == Some(p.entrypoint)
  {
    hide Fold, NormalizePath, NormalizeFile, Normalize, Lawful;
    var p, sorted := Normalize(u, c, items, entrypoint).value, Sort(items, RawKey(u));
    NormalizedFiles(u, c, items, entrypoint);
    EntrypointStable(u, p.files, entrypoint);
    var i :| 0 <= i < |p.files| && p.files[i].path == p.entrypoint;
    NormalizedPathAgain(u, c, sorted[i]);
  }

  // ---------------------------------------------------------------- what a digest vouches for

  /** Two projects with the same digest have the same files, in the same order with the same text,
      unless the digest collides on their digest inputs or on two of their texts: nothing else
      passes for a saved project. */
  lemma SameDigestSameFiles(
    u: Unicode, c: Codec, items: seq<File>, entrypoint: string, others: seq<File>, other: string)
    requires LawfulCodec(c) && LawfulText(c)
    requires Normalize(u, c, items, entrypoint).Some? && Normalize(u, c, others, other).Some?
    requires var p, q := Normalize(u, c, items, entrypoint).value, Normalize(u, c, others, other).value;
      && p.sha256 == q.sha256
      && (c.digest(DigestInput(c, p.files)) == c.digest(DigestInput(c, q.files)) ==>
            DigestInput(c, p.files) == DigestInput(c, q.files))
      && (forall f, g | f in p.files && g in q.files && c.encode(f.content).Some? && c.encode(g.content).Some? &&
                        c.digest(c.encode(f.content).value) == c.digest(c.encode(g.content).value) ::
            c.encode(f.content) == c.encode(g.content))
    ensures Normalize(u, c, items, entrypoint).value.files == Normalize(u, c, others, other).value.files
  {
    hide LawfulCodec, LawfulText, Normalize, Separable, DigestInput, ProperPath, NormalizePath;
    var p, q := Normalize(u, c, items, entrypoint).value, Normalize(u, c, others, other).value;
    NormalizeIff(u, c, items, entrypoint, p);
    NormalizeIff(u, c, others, other, q);
    FilesSeparable(u, c, items, entrypoint);
    FilesSeparable(u, c, others, other);
    SamePaths(c, p.files, q.files);
    forall i | 0 <= i < |p.files| ensures p.files[i] == q.files[i] {
      var f, g := p.files[i], q.files[i];
      assert f in p.files && g in q.files;
      assert c.encode(f.content) == c.encode(g.content);
      EncodesOnce(c, f.content, g.content);
    }
  }

  lemma EncodesOnce(c: Codec, s: string, t: string)
    requires LawfulCodec(c) && c.encode(s).Some? && c.encode(s) == c.encode(t)
    ensures s == t
  {
    assert c.decode(c.encode(s).value) == Some(s) && c.decode(c.encode(t).value) == Some(t);
  }
}
