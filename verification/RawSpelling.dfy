/** Why the canonical-path hypothesis is there: a project saved under a raw spelling that
    sorts differently from its canonical one does not normalise to itself, and the worker
    turns it away. */
module RawSpelling {
  import opened Common
  import opened Ordering
  import opened Paths
  import opened Project
  import opened Recheck

  const PLAIN := Unicode(c => [c], c => c == ' ')
  const DOTTED := File("./b.yml", "x")
  const BARE := File("a.yml", "y")

  lemma {:induction false} PlainFold(s: string)
    ensures Fold(PLAIN, s) == s
  {
    if s != "" {
      PlainFold(s[..|s| - 1]);
    }
  }

  lemma YamlPart(c: char, name: string)
    requires name == [c] + ".yml" && 'a' <= c <= 'j'
    ensures AllowedParts(PLAIN, [name]) && Acceptable(name)
  {
    PlainFold(name);
    assert name[0] == c && name[1] == '.' && |name| == 5;
  }

  lemma DottedParts()
    ensures Parts("./b.yml") == ["b.yml"]
  {
    var raw, name := "./b.yml", "b.yml";
    assert raw == "." + "/" + name;
    SplitCons(".", name);
    SplitPlain(name);
    assert Split(raw) == [".", name];
    assert [".", name][1..] == [name] && [name][1..] == [];
    assert Keep([name]) == [name];
    assert !Kept(".");
  }

  lemma DottedPath()
    ensures NormalizePath(PLAIN, "./b.yml") == Some("b.yml")
  {
    hide Fold, AllowedParts, Parts;
    var raw := "./b.yml";
    YamlPart('b', "b.yml");
    DottedParts();
    PlainFold(raw);
    PlainFold(MANIFEST);
    assert |raw| == 7 && |MANIFEST| == 26;
  }

  lemma BarePath()
    ensures NormalizePath(PLAIN, "a.yml") == Some("a.yml")
  {
    hide Fold, AllowedParts, Split, Keep, Acceptable;
    var name := "a.yml";
    YamlPart('a', name);
    SplitPlain(name);
    KeepAll([name]);
    PlainFold(name);
    PlainFold(MANIFEST);
    assert |name| == 5 && |MANIFEST| == 26;
  }

  lemma Orders()
    ensures Sort([DOTTED, BARE], RawKey(PLAIN)) == [DOTTED, BARE]
    ensures Sort([DOTTED, BARE], NormalKey(PLAIN)) == [BARE, DOTTED]
  {
    hide Fold, NormalizePath;
    DottedPath();
    BarePath();
    PlainFold("./b.yml");
    PlainFold("b.yml");
    PlainFold("a.yml");
    assert [DOTTED, BARE][1..] == [BARE] && [BARE][1..] == [];
    assert Sort([BARE], RawKey(PLAIN)) == [BARE] && Sort([BARE], NormalKey(PLAIN)) == [BARE];
    assert Insert(DOTTED, [], NormalKey(PLAIN)) == [DOTTED];
  }

  /** The revision of a file of one character. */
  function Revision(c: Codec, path: string, content: char): RevisionFile {
    RevisionFile(path, [content], c.digest([content as int]), 1)
  }

  lemma PlainText(c: Codec)
    requires LawfulText(c)
    ensures c.encode("x") == Some(['x' as int]) && c.encode("y") == Some(['y' as int])
    ensures c.encode("a.yml").Some? && c.encode("b.yml").Some?
  {
    assert Ascii("x") && Ascii("y") && Ascii("a.yml") && Ascii("b.yml");
    assert Codes("x") == ['x' as int] && Codes("y") == ['y' as int];
  }

  lemma DottedFile(c: Codec)
    requires LawfulText(c)
    ensures NormalizeFile(PLAIN, c, DOTTED) == Some(Revision(c, "b.yml", 'x'))
    ensures NormalizeFile(PLAIN, c, BARE) == Some(Revision(c, "a.yml", 'y'))
  {
    hide Fold, NormalizePath, JoinLineEnds, ReplaceReturns, LawfulText;
    PlainText(c);
    DottedPath();
    BarePath();
    WithoutReturnsUnchanged("x");
    WithoutReturnsUnchanged("y");
  }

  lemma YamlName(c: char, name: string)
    requires name == [c] + ".yml" && c != '/' && c != '.'
    ensures AfterLast(name, '/') == name
    ensures AfterLast(name, '.') == "yml" && BeforeLast(name, '.') == [c]
  {
    LastAppend("", name, '/');
    assert "" + name == name;
    var stem := [c] + ".";
    assert name == stem + "yml" && stem[..1] == [c] && stem[1] == '.';
    LastAppend(stem, "yml", '.');
  }

  lemma YamlEntry(c: char, name: string)
    requires name == [c] + ".yml" && c != '/' && c != '.'
    ensures YamlSuffix(PLAIN, name)
  {
    hide Fold, AfterLast, BeforeLast;
    YamlName(c, name);
    assert name[1] == '.';
    assert Suffix(name) == ".yml";
    PlainFold(".yml");
  }

  function Saved(c: Codec): seq<RevisionFile> {
    [Revision(c, "b.yml", 'x'), Revision(c, "a.yml", 'y')]
  }

  lemma SavedFiles(c: Codec)
    requires LawfulText(c)
    ensures NormalizeFiles(PLAIN, c, Sort([DOTTED, BARE], RawKey(PLAIN))) == Some(Saved(c))
  {
    hide Fold, NormalizePath, NormalizeFile, Sort, LawfulText;
    Orders();
    DottedFile(c);
    NormalizeFilesAt(PLAIN, c, [DOTTED, BARE]);
    assert NormalizeFiles(PLAIN, c, [DOTTED, BARE]).value == Saved(c);
  }

  lemma SavedAssembles(c: Codec)
    ensures Assemble(PLAIN, c, Saved(c), "a.yml").Some?
  {
    hide Fold, NormalizePath, YamlSuffix;
    var saved := Saved(c);
    PlainFold("b.yml");
    PlainFold("a.yml");
    assert saved[..1] == [saved[0]] && saved[..1][..0] == [];
    assert Total(saved[..1]) == 1 && Total(saved) == 2;
    assert MatchingPaths(PLAIN, saved[..1], "a.yml") == [];
    assert MatchingPaths(PLAIN, saved, "a.yml") == ["a.yml"];
    BarePath();
    YamlEntry('a', "a.yml");
  }

  /** Under every codec whose digest tells apart the orders of these two files, the project
      saves, normalising what was saved gives something else, and the worker refuses it. */
  lemma DottedProjectRefused(c: Codec)
    requires LawfulCodec(c) && LawfulText(c) && ToldApart(c, Saved(c))
    ensures var p := Normalize(PLAIN, c, [DOTTED, BARE], "a.yml");
      && p.Some? && p.value.files == Saved(c)
      && Normalize(PLAIN, c, Back(p.value.files), p.value.entrypoint) != p
      && !Accepted(PLAIN, c, p.value, Back(p.value.files))
  {
    hide Fold, NormalizePath, Sort, NormalizeFiles, Assemble, LawfulCodec, LawfulText, ToldApart;
    var items := [DOTTED, BARE];
    SavedFiles(c);
    SavedAssembles(c);
    Orders();
    assert Assemble(PLAIN, c, Saved(c), "a.yml").value.files == Saved(c) by { AssembledFiles(c); }
    var back := Back(Normalize(PLAIN, c, items, "a.yml").value.files);
    RenormalizeIff(PLAIN, c, items, "a.yml", back);
    AcceptedIff(PLAIN, c, items, "a.yml", back);
  }

  lemma AssembledFiles(c: Codec)
    ensures var p := Assemble(PLAIN, c, Saved(c), "a.yml"); p.Some? ==> p.value.files == Saved(c)
  {
  }
}
