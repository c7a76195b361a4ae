/** Why the size of the manifest is part of the round trip: ten files of one mebibyte are a project
    of exactly the allowed size, and its export cannot be imported. */
module FullProject {
  import opened Common
  import opened Ordering
  import opened Paths
  import opened Project
  import opened Recheck
  import opened RawSpelling
  import opened Archive

  function Name(i: nat): string
    requires i < 10
  {
    [('a' as int + i) as char] + ".yml"
  }

  const BIG: string := seq(MAX_FILE_BYTES, _ => 'x')

  const ITEMS: seq<File> := seq(10, i requires 0 <= i < 10 => File(Name(i), BIG))

  function BigRevision(c: Codec, i: nat): RevisionFile
    requires i < 10
  {
    RevisionFile(Name(i), BIG, c.digest(Codes(BIG)), MAX_FILE_BYTES)
  }

  function Files(c: Codec): seq<RevisionFile> {
    seq(10, i requires 0 <= i < 10 => BigRevision(c, i))
  }

  lemma NamePath(i: nat)
    requires i < 10
    ensures NormalizePath(PLAIN, Name(i)) == Some(Name(i)) && Canonical(Name(i)) && YamlSuffix(PLAIN, Name(i))
  {
    var name := Name(i);
    YamlPart(name[0], name);
    SplitPlain(name);
    KeepAll([name]);
    PlainFold(name);
    PlainFold(MANIFEST);
    YamlEntry(name[0], name);
  }

  lemma BigText(c: Codec)
    requires LawfulText(c)
    ensures c.encode(BIG) == Some(Codes(BIG)) && |Codes(BIG)| == MAX_FILE_BYTES && 0 !in Codes(BIG)
    ensures NormalizeContent(BIG) == BIG
  {
    assert Ascii(BIG);
    WithoutReturnsUnchanged(BIG);
  }

  lemma ItemRevision(c: Codec, i: nat)
    requires LawfulText(c) && i < 10
    ensures NormalizeFile(PLAIN, c, ITEMS[i]) == Some(BigRevision(c, i))
  {
    hide NormalizePath, NormalizeContent, LawfulText;
    NamePath(i);
    BigText(c);
    assert c.encode(Name(i)).Some? by { NameText(c, i); }
  }

  lemma NameText(c: Codec, i: nat)
    requires LawfulText(c) && i < 10
    ensures c.encode(Name(i)).Some?
  {
    assert Ascii(Name(i));
  }

  lemma ItemsSorted()
    ensures Sort(ITEMS, RawKey(PLAIN)) == ITEMS
  {
    hide Fold;
    forall i, j | 0 <= i < j < 10 ensures LexLe(RawKey(PLAIN)(ITEMS[i]), RawKey(PLAIN)(ITEMS[j])) {
      PlainFold(Name(i));
      PlainFold(Name(j));
    }
    assert Keyed(ITEMS, RawKey(PLAIN)) by {
      forall x, y | x in ITEMS && y in ITEMS && RawKey(PLAIN)(x) == RawKey(PLAIN)(y) ensures x == y {
        PlainFold(x.path);
        PlainFold(y.path);
      }
    }
    SortSorts(ITEMS, RawKey(PLAIN));
    SortedUnique(ITEMS, Sort(ITEMS, RawKey(PLAIN)), RawKey(PLAIN));
  }

  lemma ItemsNormalized(c: Codec)
    requires LawfulText(c)
    ensures NormalizeFiles(PLAIN, c, ITEMS) == Some(Files(c))
  {
    hide NormalizeFile, LawfulText;
    forall i | 0 <= i < 10 ensures NormalizeFile(PLAIN, c, ITEMS[i]) == Some(Files(c)[i]) {
      ItemRevision(c, i);
    }
    NormalizeFilesAt(PLAIN, c, ITEMS);
    assert NormalizeFiles(PLAIN, c, ITEMS).value == Files(c);
  }

  lemma {:induction false} FirstFiles(c: Codec, n: nat)
    requires n <= 10
    ensures Total(Files(c)[..n]) == n * MAX_FILE_BYTES
    ensures MatchingPaths(PLAIN, Files(c)[..n], Name(0)) == if n == 0 then [] else [Name(0)]
  {
    hide Fold;
    if n > 0 {
      FirstFiles(c, n - 1);
      var files := Files(c)[..n];
      assert files[..n - 1] == Files(c)[..n - 1] && files[n - 1] == BigRevision(c, n - 1);
      PlainFold(Name(0));
      PlainFold(Name(n - 1));
      assert Name(n - 1)[0] == ('a' as int + n - 1) as char;
    }
  }

  lemma FilesAssemble(c: Codec)
    ensures var p := Assemble(PLAIN, c, Files(c), Name(0));
      p.Some? && p.value.files == Files(c) && p.value.entrypoint == Name(0) && p.value.size == MAX_BYTES
  {
    hide Fold, NormalizePath, YamlSuffix, MatchingPaths, Total, DigestInput;
    NamePath(0);
    FirstFiles(c, 10);
    assert Files(c)[..10] == Files(c);
    forall i, j | 0 <= i < j < 10 ensures Fold(PLAIN, Files(c)[i].path) != Fold(PLAIN, Files(c)[j].path) {
      PlainFold(Name(i));
      PlainFold(Name(j));
      assert Name(i)[0] != Name(j)[0];
    }
  }

  /** Under every lawful codec the project normalises, to itself, and is within the limit; its
      archive is exported and then refused, because the manifest counts. */
  lemma FullProjectNotImported(c: Codec, payload: nat)
    requires LawfulCodec(c) && LawfulText(c) && c.manifest(Name(0)) != "" && 0 < payload <= MAX_ZIP_BYTES
    ensures var p := Normalize(PLAIN, c, ITEMS, Name(0));
      && p.Some? && p.value.size == MAX_BYTES
      && Normalize(PLAIN, c, Back(p.value.files), p.value.entrypoint) == p
      && Export(c, p.value).Some? && Import(PLAIN, c, Export(c, p.value).value, payload, "") != p
  {
    hide LawfulText, Sort, NormalizeFiles, Assemble, Fold, NormalizePath, Export, Import, Canonical;
    ItemsSorted();
    ItemsNormalized(c);
    FilesAssemble(c);
    var p := Normalize(PLAIN, c, ITEMS, Name(0)).value;
    forall f | f in ITEMS ensures Canonical(f.path) {
      var i :| 0 <= i < 10 && ITEMS[i] == f;
      NamePath(i);
    }
    CanonicalFixpoint(PLAIN, c, ITEMS, Name(0), Back(p.files));
    ManifestNonempty(c, p);
    ExportImportIff(PLAIN, c, ITEMS, Name(0), payload);
  }

  lemma ManifestNonempty(c: Codec, p: Project)
    requires LawfulCodec(c) && LawfulText(c) && c.manifest(p.entrypoint) != ""
    ensures ManifestSize(c, p) > 0
  {
    var text := c.manifest(p.entrypoint);
    assert Ascii("") && c.encode("") == Some([]);
    assert c.decode(c.encode(text).value) == Some(text) && c.decode([]) == Some("");
  }
}
