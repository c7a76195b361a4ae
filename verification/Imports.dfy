/** What an import lets in and what it makes of it, said of the archive's entries. */
module Imports {
  import opened Common
  import opened Ordering
  import opened Paths
  import opened Project
  import opened Archive

  /** Directories are passed over, and nothing else is. */
  lemma {:induction false} MembersConcat(a: seq<Entry>, b: seq<Entry>, e: Entry)
    ensures Members(a + b) == Members(a) + Members(b)
    ensures Members([e]) == if e.name != "" && e.name[|e.name| - 1] == '/' then [] else [e]
    decreases |b|
  {
    assert [e][..0] == [] && Members([]) == [];
    if b == [] {
      assert a + b == a;
    } else {
      var init := b[..|b| - 1];
      assert (a + b)[..|a + b| - 1] == a + init;
      MembersConcat(a, init, e);
    }
  }

  /** The path a member is stored under. */
  function StoredPath(u: Unicode, e: Entry): string {
    if e.name != MANIFEST && NormalizePath(u, e.name).Some? then NormalizePath(u, e.name).value else MANIFEST
  }

  /** A member that is let in: not encrypted, a plain file that is not executable, declared and
      actual size within the limit, text, under an acceptable path or the manifest's name, and, if
      it is the manifest, naming an entrypoint. */
  predicate LetIn(u: Unicode, c: Codec, e: Entry) {
    && !e.encrypted && e.fileType in {FileType.Unspecified, FileType.Regular} && !e.executable
    && e.size <= MAX_FILE_BYTES && |e.data| <= MAX_FILE_BYTES && c.decode(e.data).Some?
    && (e.name == MANIFEST || NormalizePath(u, e.name).Some?)
    && (StoredPath(u, e) == MANIFEST ==> c.readManifest(c.decode(e.data).value).Some?)
  }

  function DataTotal(members: seq<Entry>): nat {
    if members == [] then 0 else DataTotal(members[..|members| - 1]) + |members[|members| - 1].data|
  }

  /** The files of the project: every member but the manifest, in order. */
  function TextFiles(u: Unicode, c: Codec, members: seq<Entry>): seq<File> {
    if members == [] then []
    else
      var e := members[|members| - 1];
      TextFiles(u, c, members[..|members| - 1]) +
      if StoredPath(u, e) == MANIFEST || c.decode(e.data).None? then []
      else [File(StoredPath(u, e), c.decode(e.data).value)]
  }

  /** The entrypoint of the manifest among the members. */
  function ManifestEntry(u: Unicode, c: Codec, members: seq<Entry>): Option<string> {
    if members == [] then None
    else
      var e := members[|members| - 1];
      if StoredPath(u, e) == MANIFEST && c.decode(e.data).Some? then c.readManifest(c.decode(e.data).value)
      else ManifestEntry(u, c, members[..|members| - 1])
  }

  function StoredFolds(u: Unicode, members: seq<Entry>): set<string> {
    set i | 0 <= i < |members| :: Fold(u, StoredPath(u, members[i]))
  }

  predicate DistinctPaths(u: Unicode, members: seq<Entry>) {
    forall i, j | 0 <= i < j < |members| :: Fold(u, StoredPath(u, members[i])) != Fold(u, StoredPath(u, members[j]))
  }

  /** Every member is let in, no two are stored under paths that fold alike, and all together keep
      within the limit. */
  predicate AllLetIn(u: Unicode, c: Codec, members: seq<Entry>) {
    && (forall i | 0 <= i < |members| :: LetIn(u, c, members[i]))
    && DistinctPaths(u, members) && DataTotal(members) <= MAX_BYTES
  }

  lemma LastLetIn(u: Unicode, c: Codec, members: seq<Entry>)
    requires members != []
    ensures var init, e := members[..|members| - 1], members[|members| - 1];
      && (AllLetIn(u, c, members) <==>
            && AllLetIn(u, c, init) && LetIn(u, c, e) && DataTotal(init) + |e.data| <= MAX_BYTES
            && Fold(u, StoredPath(u, e)) !in StoredFolds(u, init))
      && StoredFolds(u, members) == StoredFolds(u, init) + {Fold(u, StoredPath(u, e))}
  {
    hide Fold, StoredPath, LetIn;
    var init, e := members[..|members| - 1], members[|members| - 1];
    assert forall i | 0 <= i < |init| :: init[i] == members[i];
    if AllLetIn(u, c, members) {
      forall i | 0 <= i < |init| ensures Fold(u, StoredPath(u, init[i])) != Fold(u, StoredPath(u, e)) {
        assert Fold(u, StoredPath(u, members[i])) != Fold(u, StoredPath(u, members[|init|]));
      }
      forall i, j | 0 <= i < j < |init|
        ensures Fold(u, StoredPath(u, init[i])) != Fold(u, StoredPath(u, init[j]))
      {
        assert Fold(u, StoredPath(u, members[i])) != Fold(u, StoredPath(u, members[j]));
      }
    }
  }

  lemma GatherIff(u: Unicode, c: Codec, g: Gathered, e: Entry)
    ensures var text := c.decode(e.data);
      Gather(u, c, g, e) ==
        if LetIn(u, c, e) && Fold(u, StoredPath(u, e)) !in g.seen && g.total + |e.data| <= MAX_BYTES then
          Some(Gathered(
            if StoredPath(u, e) == MANIFEST then g.files else g.files + [File(StoredPath(u, e), text.value)],
            g.seen + {Fold(u, StoredPath(u, e))}, g.total + |e.data|,
            if StoredPath(u, e) == MANIFEST then c.readManifest(text.value) else g.manifest))
        else None
  {
    hide Fold, NormalizePath;
  }

  function Collected(u: Unicode, c: Codec, members: seq<Entry>): Gathered {
    Gathered(TextFiles(u, c, members), StoredFolds(u, members), DataTotal(members), ManifestEntry(u, c, members))
  }

  lemma {:induction false} GatherAllExact(u: Unicode, c: Codec, members: seq<Entry>)
    ensures GatherAll(u, c, members) ==
      if AllLetIn(u, c, members) then Some(Collected(u, c, members)) else None
  {
    hide Gather, LetIn, Fold, StoredPath;
    if members == [] {
      assert StoredFolds(u, members) == {};
    } else {
      var init, e := members[..|members| - 1], members[|members| - 1];
      GatherAllExact(u, c, init);
      LastLetIn(u, c, members);
      GatherIff(u, c, Collected(u, c, init), e);
      LetInText(u, c, e);
      assert TextFiles(u, c, init) + [] == TextFiles(u, c, init);
      assert AllLetIn(u, c, members) ==> Gather(u, c, Collected(u, c, init), e).value == Collected(u, c, members);
      hide AllLetIn;
    }
  }

  lemma LetInText(u: Unicode, c: Codec, e: Entry)
    ensures LetIn(u, c, e) ==> c.decode(e.data).Some?
  {
  }

  /** An import succeeds, with the project its text members normalise to, exactly when the upload
      has an allowed size and number of members, all of them are let in, and an entrypoint is given
      or in the manifest; one that is given wins. */
  lemma ImportIff(u: Unicode, c: Codec, entries: seq<Entry>, payload: nat, explicit: string, p: Project)
    ensures Import(u, c, entries, payload, explicit) == Some(p) <==>
      var members := Members(entries);
      && 0 < payload <= MAX_ZIP_BYTES && |members| <= MAX_FILES + 1 && AllLetIn(u, c, members)
      && (explicit == "" ==> ManifestEntry(u, c, members).Some?)
      && var entrypoint := if explicit != "" then explicit else ManifestEntry(u, c, members).value;
         Normalize(u, c, TextFiles(u, c, members), entrypoint) == Some(p)
  {
    hide AllLetIn, GatherAll, Normalize;
    GatherAllExact(u, c, Members(entries));
  }

  /** Nothing an archive holds can leave the project. */
  lemma ImportedPathsProper(u: Unicode, c: Codec, entries: seq<Entry>, payload: nat, explicit: string)
    requires Import(u, c, entries, payload, explicit).Some?
    ensures var p := Import(u, c, entries, payload, explicit).value;
      (forall f | f in p.files :: ProperPath(u, f.path)) && ProperPath(u, p.entrypoint)
  {
    hide Import, Normalize, ProperPath, AllLetIn;
    var p, members := Import(u, c, entries, payload, explicit).value, Members(entries);
    ImportIff(u, c, entries, payload, explicit, p);
    var entrypoint := if explicit != "" then explicit else ManifestEntry(u, c, members).value;
    ProjectPathsProper(u, c, TextFiles(u, c, members), entrypoint);
  }
}
