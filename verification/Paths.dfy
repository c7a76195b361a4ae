/** Project paths: splitting, canonicalisation and case folding. */
module Paths {
  import opened Common

  /** The Unicode tables behind `str.casefold` and `str.strip`, one character at a time. */
  datatype Unicode = Unicode(fold: char -> string, space: char -> bool)

  /** Folding keeps '/' and '.' and produces them from nothing else, and erases nothing. */
  ghost predicate Lawful(u: Unicode) {
    && u.fold('/') == "/" && u.fold('.') == "."
    && (forall c :: u.fold(c) != "" && ('/' in u.fold(c) ==> c == '/') && ('.' in u.fold(c) ==> c == '.'))
  }

  function Fold(u: Unicode, s: string): string {
    if s == "" then "" else Fold(u, s[..|s| - 1]) + u.fold(s[|s| - 1])
  }

  const MANIFEST := ".ops-composer-project.json"
  const MAX_PATH_LENGTH: nat := 512
  const MAX_DEPTH: nat := 16

  /** Folding goes character by character. */
  lemma {:induction false} FoldExact(u: Unicode, a: string, b: string, c: char)
    ensures Fold(u, a + b) == Fold(u, a) + Fold(u, b) && Fold(u, "") == "" && Fold(u, [c]) == u.fold(c)
    decreases |b|
  {
    assert [c][..0] == "";
    if b == "" {
      assert a + b == a;
    } else {
      var init := b[..|b| - 1];
      assert (a + b)[..|a + b| - 1] == a + init;
      FoldExact(u, a, init, c);
    }
  }

  // ---------------------------------------------------------------- splitting on '/'

  function Split(s: string): (parts: seq<string>)
    ensures parts != []
  {
    if s == "" then [""]
    else
      var rest := Split(s[1..]);
      if s[0] == '/' then [""] + rest else [[s[0]] + rest[0]] + rest[1..]
  }

  function Join(parts: seq<string>): string {
    if parts == [] then "" else if |parts| == 1 then parts[0] else parts[0] + "/" + Join(parts[1..])
  }

  lemma {:induction false} JoinSplit(s: string)
    ensures Join(Split(s)) == s
  {
    if s != "" {
      JoinSplit(s[1..]);
      var rest := Split(s[1..]);
      assert s == [s[0]] + s[1..];
      if s[0] == '/' {
        assert ([""] + rest)[1..] == rest;
      } else {
        var parts := [[s[0]] + rest[0]] + rest[1..];
        assert parts[1..] == rest[1..];
      }
    }
  }

  lemma {:induction false} SplitCons(a: string, rest: string)
    requires '/' !in a
    ensures Split(a + "/" + rest) == [a] + Split(rest)
  {
    var s := a + "/" + rest;
    if a == "" {
      assert s[0] == '/' && s[1..] == rest;
    } else {
      SplitCons(a[1..], rest);
      assert s[1..] == a[1..] + "/" + rest;
      assert a == [a[0]] + a[1..];
    }
  }

  lemma {:induction false} SplitPlain(a: string)
    requires '/' !in a
    ensures Split(a) == [a]
  {
    if a != "" {
      SplitPlain(a[1..]);
      assert a == [a[0]] + a[1..];
    }
  }

  lemma {:induction false} SplitJoin(parts: seq<string>)
    requires parts != [] && forall p | p in parts :: '/' !in p
    ensures Split(Join(parts)) == parts
  {
    if |parts| == 1 {
      SplitPlain(parts[0]);
    } else {
      SplitJoin(parts[1..]);
      SplitCons(parts[0], Join(parts[1..]));
      assert parts == [parts[0]] + parts[1..];
    }
  }

  lemma {:induction false} SplitParts(s: string)
    ensures forall p | p in Split(s) :: '/' !in p && forall c | c in p :: c in s
  {
    if s != "" {
      SplitParts(s[1..]);
      var rest := Split(s[1..]);
      assert rest[0] in rest;
      assert forall p | p in rest[1..] :: p in rest;
    }
  }

  // ---------------------------------------------------------------- the parts of a path

  /** The components PurePosixPath keeps. */
  predicate Kept(part: string) {
    part != "" && part != "."
  }

  function Keep(parts: seq<string>): seq<string> {
    if parts == [] then [] else (if Kept(parts[0]) then [parts[0]] else []) + Keep(parts[1..])
  }

  function Parts(path: string): seq<string> {
    Keep(Split(path))
  }

  lemma {:induction false} KeepMembers(parts: seq<string>)
    ensures forall p :: p in Keep(parts) <==> p in parts && Kept(p)
  {
    if parts != [] {
      KeepMembers(parts[1..]);
      assert parts == [parts[0]] + parts[1..];
    }
  }

  lemma {:induction false} KeepAll(parts: seq<string>)
    requires forall p | p in parts :: Kept(p)
    ensures Keep(parts) == parts
  {
    if parts != [] {
      KeepAll(parts[1..]);
      assert parts == [parts[0]] + parts[1..];
    }
  }

  lemma {:induction false} KeepShortens(parts: seq<string>)
    ensures |Join(Keep(parts))| <= |Join(parts)|
  {
    if parts != [] {
      var rest := Keep(parts[1..]);
      KeepShortens(parts[1..]);
      assert |Join(parts)| >= |parts[0]| && |Join(parts)| >= |Join(parts[1..])|;
      if Kept(parts[0]) {
        assert Keep(parts) == [parts[0]] + rest && ([parts[0]] + rest)[1..] == rest;
        assert parts[1..] == [] ==> rest == [];
      } else {
        assert Keep(parts) == rest;
      }
    }
  }

  lemma {:induction false} JoinCharacters(parts: seq<string>, c: char)
    requires c in Join(parts) && c != '/'
    ensures exists p :: p in parts && c in p
  {
    if |parts| == 1 {
      assert parts[0] in parts;
    } else {
      if c in parts[0] {
        assert parts[0] in parts;
      } else {
        JoinCharacters(parts[1..], c);
        var p :| p in parts[1..] && c in p;
        assert p in parts;
      }
    }
  }

  // ---------------------------------------------------------------- normalize_project_path

  predicate Control(c: char) {
    c as int < 0x20 || c as int == 0x7f
  }

  predicate Acceptable(raw: string) {
    raw != "" && |raw| <= MAX_PATH_LENGTH && '\\' !in raw && forall c | c in raw :: !Control(c)
  }

  predicate PlainPart(u: Unicode, part: string)
    requires part != ""
  {
    part != ".." && !u.space(part[0]) && !u.space(part[|part| - 1])
  }

  const FORBIDDEN_COMPONENTS: set<string> := {
    ".git", ".ssh", "collections", "library", "module_utils", "action_plugins", "become_plugins",
    "cache_plugins", "callback_plugins", "cliconf_plugins", "connection_plugins", "filter_plugins",
    "httpapi_plugins", "inventory_plugins", "lookup_plugins", "netconf_plugins", "shell_plugins",
    "strategy_plugins", "terminal_plugins", "test_plugins", "vars_plugins"}

  predicate EndsWith(s: string, end: string) {
    |s| >= |end| && s[|s| - |end|..] == end
  }

  predicate ForbiddenPart(u: Unicode, part: string) {
    var lowered := Fold(u, part);
    lowered == "ansible.cfg" || lowered in FORBIDDEN_COMPONENTS || EndsWith(lowered, "_plugins")
  }

  predicate AllowedParts(u: Unicode, parts: seq<string>) {
    && 0 < |parts| <= MAX_DEPTH
    && (forall p | p in parts :: p != "" && PlainPart(u, p) && !ForbiddenPart(u, p))
    && Fold(u, parts[|parts| - 1]) != "inventory" && Fold(u, parts[|parts| - 1]) != "hosts"
  }

  /** The manifest's name is compared with the raw path, not with the canonical one. */
  predicate IsManifest(u: Unicode, path: string) {
    Fold(u, path) == Fold(u, MANIFEST)
  }

  function NormalizePath(u: Unicode, raw: string): Option<string> {
    if Acceptable(raw) && raw[0] != '/' && AllowedParts(u, Parts(raw)) && !IsManifest(u, raw)
    then Some(Join(Parts(raw))) else None
  }

  /** A path with no empty and no "." segment. */
  predicate Canonical(path: string) {
    forall p | p in Split(path) :: Kept(p)
  }

  lemma CanonicalUnchanged(u: Unicode, raw: string)
    requires Canonical(raw)
    ensures NormalizePath(u, raw).Some? ==> NormalizePath(u, raw).value == raw
  {
    KeepAll(Split(raw));
    JoinSplit(raw);
  }

  lemma PartsOfNormalized(raw: string)
    requires Parts(raw) != []
    ensures Parts(Join(Parts(raw))) == Parts(raw) && Canonical(Join(Parts(raw)))
  {
    var parts := Parts(raw);
    SplitParts(raw);
    KeepMembers(Split(raw));
    SplitJoin(parts);
    KeepAll(parts);
  }

  lemma NormalizedAcceptable(raw: string)
    requires Acceptable(raw) && Parts(raw) != []
    ensures Acceptable(Join(Parts(raw))) && Join(Parts(raw))[0] != '/'
  {
    var parts := Parts(raw);
    var path := Join(parts);
    SplitParts(raw);
    KeepMembers(Split(raw));
    KeepShortens(Split(raw));
    JoinSplit(raw);
    assert parts[0] in parts && path[0] == parts[0][0];
    forall c | c in path ensures c != '\\' && !Control(c) {
      if c != '/' {
        JoinCharacters(parts, c);
        var p :| p in parts && c in p;
        assert c in raw;
      }
    }
  }

  /** A canonical path is its own normal form, unless it has become the manifest's name: the
      check looks at the raw spelling only. */
  lemma NormalizeAgain(u: Unicode, raw: string)
    requires NormalizePath(u, raw).Some?
    ensures var path := NormalizePath(u, raw).value;
      && Canonical(path)
      && NormalizePath(u, path) == if IsManifest(u, path) then None else Some(path)
  {
    PartsOfNormalized(raw);
    NormalizedAcceptable(raw);
  }

  // ---------------------------------------------------------------- what is accepted

  lemma EndsWithIff(s: string, end: string)
    ensures EndsWith(s, end) <==> exists start :: s == start + end
  {
    if EndsWith(s, end) {
      assert s == s[..|s| - |end|] + end;
    }
  }

  /** A segment that may occur in a project: not empty, no step in place or upwards, no space at
      either end, and no reserved name in any case. */
  predicate ProperSegment(u: Unicode, p: string) {
    && p != "" && p != "." && p != ".." && !u.space(p[0]) && !u.space(p[|p| - 1])
    && Fold(u, p) != "ansible.cfg" && Fold(u, p) !in FORBIDDEN_COMPONENTS && !EndsWith(Fold(u, p), "_plugins")
  }

  /** A path that stays inside the project and within the limits. */
  predicate ProperPath(u: Unicode, path: string) {
    && 0 < |path| <= MAX_PATH_LENGTH && path[0] != '/' && |Split(path)| <= MAX_DEPTH
    && (forall c | c in path :: c != '\\' && c as int >= 32 && c as int != 127)
    && (forall p | p in Split(path) :: ProperSegment(u, p))
    && Fold(u, Split(path)[|Split(path)| - 1]) !in {"inventory", "hosts"}
  }

  /** Whatever is accepted is a proper path, spelled with the segments of the raw path. */
  lemma AcceptedIsProper(u: Unicode, raw: string)
    requires NormalizePath(u, raw).Some?
    ensures var path := NormalizePath(u, raw).value;
      ProperPath(u, path) && Split(path) == Keep(Split(raw)) && |path| <= |raw|
  {
    var parts := Parts(raw);
    SplitParts(raw);
    KeepMembers(Split(raw));
    KeepShortens(Split(raw));
    JoinSplit(raw);
    SplitJoin(parts);
    NormalizedAcceptable(raw);
    hide Fold;
  }

  /** Splitting off the empty and "." segments is done one by one. */
  lemma {:induction false} KeepConcat(a: seq<string>, b: seq<string>)
    ensures Keep(a + b) == Keep(a) + Keep(b)
    ensures Keep([""]) == [] && Keep(["."]) == []
  {
    if a == [] {
      assert a + b == b;
    } else {
      assert (a + b)[1..] == a[1..] + b;
      KeepConcat(a[1..], b);
    }
  }

  /** A raw path is refused exactly for one of these reasons. */
  lemma RefusedPathIff(u: Unicode, raw: string)
    ensures var parts := Keep(Split(raw));
      NormalizePath(u, raw) == None <==>
        || raw == "" || |raw| > MAX_PATH_LENGTH || raw[0] == '/' || parts == [] || |parts| > MAX_DEPTH
        || (exists c :: c in raw && (c == '\\' || c as int < 32 || c as int == 127))
        || (exists p :: p in Split(raw) && p != "" && p != "." && !ProperSegment(u, p))
        || Fold(u, parts[|parts| - 1]) in {"inventory", "hosts"}
        || Fold(u, raw) == Fold(u, MANIFEST)
  {
    KeepMembers(Split(raw));
    hide Fold;
  }

  // ---------------------------------------------------------------- the suffix of the entrypoint

  function AfterLast(s: string, c: char): string {
    if s == "" || s[|s| - 1] == c then "" else AfterLast(s[..|s| - 1], c) + [s[|s| - 1]]
  }

  function BeforeLast(s: string, c: char): string {
    if s == "" then "" else if s[|s| - 1] == c then s[..|s| - 1] else BeforeLast(s[..|s| - 1], c)
  }

  /** `PurePosixPath.suffix`. */
  function Suffix(path: string): string {
    var name := AfterLast(path, '/');
    if '.' in name && BeforeLast(name, '.') != "" && AfterLast(name, '.') != "" then "." + AfterLast(name, '.') else ""
  }

  lemma {:induction false} LastAppend(s: string, t: string, c: char)
    requires c !in t
    ensures AfterLast(s + t, c) == AfterLast(s, c) + t && BeforeLast(s + t, c) == BeforeLast(s, c)
    decreases |t|
  {
    if t == "" {
      assert s + t == s;
    } else {
      var init := t[..|t| - 1];
      assert (s + t)[..|s + t| - 1] == s + init;
      LastAppend(s, init, c);
      assert init + [t[|t| - 1]] == t;
    }
  }

  /** Folding commutes with cutting at a separator it keeps. */
  lemma {:induction false} FoldLast(u: Unicode, s: string, c: char)
    requires Lawful(u) && (c == '/' || c == '.')
    ensures Fold(u, AfterLast(s, c)) == AfterLast(Fold(u, s), c)
    ensures Fold(u, BeforeLast(s, c)) == BeforeLast(Fold(u, s), c)
    ensures c in s <==> c in Fold(u, s)
  {
    if s != "" {
      var init, last := s[..|s| - 1], s[|s| - 1];
      FoldLast(u, init, c);
      assert s == init + [last];
      var folded := Fold(u, s);
      assert folded == Fold(u, init) + u.fold(last);
      if last == c {
        assert folded[..|folded| - 1] == Fold(u, init) && folded[|folded| - 1] == c;
      } else {
        assert c !in u.fold(last);
        LastAppend(Fold(u, init), u.fold(last), c);
        FoldSnoc(u, AfterLast(init, c), last);
      }
    }
  }

  /** The suffix of a name is its last dot and what follows, if there is something on either side. */
  lemma SuffixExact(dir: string, stem: string, extension: string)
    requires (dir == "" || dir[|dir| - 1] == '/') && '/' !in stem && '/' !in extension && '.' !in extension
    ensures Suffix(dir + (stem + "." + extension)) ==
            if stem != "" && extension != "" then "." + extension else ""
  {
    var name := stem + "." + extension;
    NameAfterSlash(dir, name);
    CutAtDot(stem, extension);
    hide AfterLast, BeforeLast;
    assert name[|stem|] == '.';
  }

  lemma NameAfterSlash(dir: string, name: string)
    requires (dir == "" || dir[|dir| - 1] == '/') && '/' !in name
    ensures AfterLast(dir + name, '/') == name
  {
    LastAppend(dir, name, '/');
    assert "" + name == name;
  }

  lemma CutAtDot(stem: string, extension: string)
    requires '.' !in extension
    ensures var name := stem + "." + extension; AfterLast(name, '.') == extension && BeforeLast(name, '.') == stem
  {
    var head := stem + ".";
    LastAppend(head, extension, '.');
    assert head[|head| - 1] == '.' && head[..|head| - 1] == stem;
    assert "" + extension == extension;
  }

  lemma FoldSnoc(u: Unicode, s: string, c: char)
    ensures Fold(u, s + [c]) == Fold(u, s) + u.fold(c)
  {
  }

  lemma FoldEmpty(u: Unicode, s: string)
    requires Lawful(u)
    ensures Fold(u, s) == "" <==> s == ""
  {
  }

  /** Paths that fold alike have suffixes that fold alike. */
  lemma SuffixFolds(u: Unicode, a: string, b: string)
    requires Lawful(u) && Fold(u, a) == Fold(u, b)
    ensures Fold(u, Suffix(a)) == Fold(u, Suffix(b))
  {
    SuffixOfFold(u, a);
    SuffixOfFold(u, b);
  }

  lemma SuffixOfFold(u: Unicode, a: string)
    requires Lawful(u)
    ensures Fold(u, Suffix(a)) == Suffix(Fold(u, a))
  {
    var name := AfterLast(a, '/');
    FoldLast(u, a, '/');
    FoldLast(u, name, '.');
    FoldEmpty(u, BeforeLast(name, '.'));
    FoldEmpty(u, AfterLast(name, '.'));
    FoldDot(u, AfterLast(name, '.'));
  }

  lemma {:induction false} FoldDot(u: Unicode, s: string)
    requires Lawful(u)
    ensures Fold(u, "." + s) == "." + Fold(u, s)
  {
    if s == "" {
      assert "." + s == "" + ['.'];
      FoldSnoc(u, "", '.');
    } else {
      var init, last := s[..|s| - 1], s[|s| - 1];
      FoldDot(u, init);
      assert "." + s == ("." + init) + [last];
      FoldSnoc(u, "." + init, last);
    }
  }
}
