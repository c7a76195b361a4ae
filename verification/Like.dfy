/** LIKE escaping against PostgreSQL's LIKE matcher. */
module Like {
  import opened Common

  // ---------------------------------------------------------------- escaping

  /** `str.replace` of a single character. */
  function Replace(s: string, c: char, text: string): string {
    if s == [] then [] else (if s[0] == c then text else [s[0]]) + Replace(s[1..], c, text)
  }

  /** `escape_like`: three replacements, one after the other. */
  function EscapeLike(value: string, escape: char): string {
    Replace(Replace(Replace(value, escape, [escape, escape]), '%', [escape, '%']), '_', [escape, '_'])
  }

  predicate Special(c: char, escape: char) {
    c == escape || c == '%' || c == '_'
  }

  function EscapeEach(value: string, escape: char): string {
    if value == [] then []
    else (if Special(value[0], escape) then [escape, value[0]] else [value[0]]) + EscapeEach(value[1..], escape)
  }

  lemma {:induction false} ReplaceConcat(s: string, t: string, c: char, text: string)
    ensures Replace(s + t, c, text) == Replace(s, c, text) + Replace(t, c, text)
  {
    if s == [] {
      assert s + t == t;
    } else {
      assert (s + t)[1..] == s[1..] + t;
      ReplaceConcat(s[1..], t, c, text);
    }
  }

  lemma ReplaceShort(a: char, b: char, c: char, text: string)
    ensures Replace([a], c, text) == if a == c then text else [a]
    ensures Replace([a, b], c, text) == Replace([a], c, text) + Replace([b], c, text)
  {
  }

  lemma {:induction false} SequentialIsPerCharacter(value: string, escape: char)
    requires escape != '%' && escape != '_'
    ensures EscapeLike(value, escape) == EscapeEach(value, escape)
  {
    if value != [] {
      var c := value[0];
      var head := EscapeLike([c], escape);
      SequentialIsPerCharacter(value[1..], escape);
      assert value == [c] + value[1..];
      ReplaceConcat([c], value[1..], escape, [escape, escape]);
      var one, rest := Replace([c], escape, [escape, escape]), Replace(value[1..], escape, [escape, escape]);
      ReplaceConcat(one, rest, '%', [escape, '%']);
      ReplaceConcat(Replace(one, '%', [escape, '%']), Replace(rest, '%', [escape, '%']), '_', [escape, '_']);
      assert EscapeLike(value, escape) == head + EscapeLike(value[1..], escape);
      EscapeOne(c, escape);
    }
  }

  lemma EscapeOne(c: char, escape: char)
    requires escape != '%' && escape != '_'
    ensures EscapeLike([c], escape) == if Special(c, escape) then [escape, c] else [c]
  {
    ReplaceShort(c, c, escape, [escape, escape]);
    ReplaceShort(c, c, '%', [escape, '%']);
    ReplaceShort(c, c, '_', [escape, '_']);
    ReplaceShort(escape, escape, '%', [escape, '%']);
    ReplaceShort(escape, escape, '_', [escape, '_']);
    ReplaceShort(escape, '%', '_', [escape, '_']);
    ReplaceShort('%', '%', '_', [escape, '_']);
  }

  /** The order of the replacements matters: they act as one pass exactly when the escape
      character is not itself a wildcard. */
  lemma EscapeExactIff(escape: char)
    ensures (forall value :: EscapeLike(value, escape) == EscapeEach(value, escape)) <==> escape != '%' && escape != '_'
  {
    if escape != '%' && escape != '_' {
      forall value ensures EscapeLike(value, escape) == EscapeEach(value, escape) {
        SequentialIsPerCharacter(value, escape);
      }
    } else {
      var value := [escape];
      ReplaceShort(escape, escape, escape, [escape, escape]);
      ReplaceShort(escape, escape, '%', [escape, '%']);
      ReplaceShort(escape, escape, '_', [escape, '_']);
      var twice := [escape, escape];
      assert Replace(value, escape, twice) == twice;
      assert Replace(twice, escape, twice) == twice + twice;
      ReplaceConcat(twice, twice, '_', [escape, '_']);
      assert |EscapeLike(value, escape)| >= 4;
      assert EscapeEach(value, escape) == twice by { assert EscapeEach(value[1..], escape) == []; }
    }
  }

  // ---------------------------------------------------------------- matching

  datatype Token = Any | One | Literal(c: char)

  /** Reading a pattern; a pattern ending in the escape character is an error. */
  function Tokens(pattern: string, escape: char): Option<seq<Token>>
    decreases |pattern|
  {
    if pattern == [] then Some([])
    else if pattern[0] == escape then
      if |pattern| == 1 then None
      else
        var rest := Tokens(pattern[2..], escape);
        if rest.None? then None else Some([Literal(pattern[1])] + rest.value)
    else
      var rest := Tokens(pattern[1..], escape);
      var first := if pattern[0] == '%' then Any else if pattern[0] == '_' then One else Literal(pattern[0]);
      if rest.None? then None else Some([first] + rest.value)
  }

  predicate Matches(tokens: seq<Token>, subject: string)
    decreases |tokens|
  {
    if tokens == [] then subject == []
    else
      match tokens[0]
      case Any => exists i :: 0 <= i <= |subject| && Matches(tokens[1..], subject[i..])
      case One => subject != [] && Matches(tokens[1..], subject[1..])
      case Literal(c) => subject != [] && subject[0] == c && Matches(tokens[1..], subject[1..])
  }

  predicate LikeMatch(pattern: string, subject: string, escape: char) {
    Tokens(pattern, escape).Some? && Matches(Tokens(pattern, escape).value, subject)
  }

  function Literals(value: string): seq<Token> {
    seq(|value|, i requires 0 <= i < |value| => Literal(value[i]))
  }

  lemma EscapedCharacter(c: char, rest: string, escape: char)
    requires escape != '%' && escape != '_' && Tokens(rest, escape).Some?
    ensures Tokens((if Special(c, escape) then [escape, c] else [c]) + rest, escape) ==
      Some([Literal(c)] + Tokens(rest, escape).value)
  {
  }

  lemma {:induction false} EscapedTokens(value: string, tail: string, escape: char)
    requires escape != '%' && escape != '_' && Tokens(tail, escape).Some?
    ensures Tokens(EscapeEach(value, escape) + tail, escape) == Some(Literals(value) + Tokens(tail, escape).value)
  {
    hide Tokens, Special;
    var tokens := Tokens(tail, escape).value;
    if value == [] {
      assert EscapeEach(value, escape) + tail == tail;
      assert Literals(value) + tokens == tokens;
    } else {
      var head := if Special(value[0], escape) then [escape, value[0]] else [value[0]];
      var rest := EscapeEach(value[1..], escape);
      EscapedTokens(value[1..], tail, escape);
      EscapedCharacter(value[0], rest + tail, escape);
      assert EscapeEach(value, escape) == head + rest;
      assert (head + rest) + tail == head + (rest + tail);
      LiteralsCons(value, tokens);
    }
  }

  lemma LiteralsCons(value: string, tokens: seq<Token>)
    requires value != []
    ensures Literals(value) + tokens == [Literal(value[0])] + (Literals(value[1..]) + tokens)
  {
  }

  lemma {:induction false} LiteralsMatchPrefix(value: string, tokens: seq<Token>, subject: string)
    ensures Matches(Literals(value) + tokens, subject) <==> value <= subject && Matches(tokens, subject[|value|..])
    decreases |value|
  {
    if value == [] {
      assert Literals(value) + tokens == tokens && subject[0..] == subject;
    } else {
      var all := Literals(value) + tokens;
      assert all[0] == Literal(value[0]) && all[1..] == Literals(value[1..]) + tokens;
      if subject != [] {
        LiteralsMatchPrefix(value[1..], tokens, subject[1..]);
        assert value <= subject <==> value[0] == subject[0] && value[1..] <= subject[1..];
        assert |value| <= |subject| ==> subject[1..][|value| - 1..] == subject[|value|..];
      }
    }
  }

  ghost predicate Occurs(value: string, subject: string) {
    exists i :: 0 <= i <= |subject| && value <= subject[i..]
  }

  /** The pattern `%escape_like(value)%` matches a subject exactly when the value occurs in
      it as it stands. */
  lemma ContainsExact(value: string, subject: string)
    ensures LikeMatch("%" + EscapeLike(value, '\\') + "%", subject, '\\') <==> Occurs(value, subject)
  {
    SequentialIsPerCharacter(value, '\\');
    var body := EscapeEach(value, '\\') + "%";
    var pattern := "%" + EscapeLike(value, '\\') + "%";
    OnlyAny();
    EscapedTokens(value, "%", '\\');
    assert pattern == ['%'] + body && pattern[1..] == body;
    var tokens := Tokens(pattern, '\\').value;
    assert tokens[1..] == Literals(value) + [Any];
    forall i | 0 <= i <= |subject| ensures Matches(tokens[1..], subject[i..]) <==> value <= subject[i..] {
      LiteralsMatchPrefix(value, [Any], subject[i..]);
      if value <= subject[i..] {
        AnyMatches(subject[i..][|value|..]);
      }
    }
  }

  lemma OnlyAny()
    ensures Tokens("%", '\\') == Some([Any])
  {
    var pattern := "%";
    assert pattern[1..] == [];
    assert Tokens([], '\\') == Some([]);
    assert [Token.Any] + [] == [Any];
  }

  lemma AnyMatches(subject: string)
    ensures Matches([Any], subject)
  {
    assert subject[|subject|..] == [] && Matches([], []);
    assert [Any][1..] == [];
  }

  // ---------------------------------------------------------------- ILIKE

  function Lower(s: string, lower: char -> char): string {
    seq(|s|, i requires 0 <= i < |s| => lower(s[i]))
  }

  /** Lower-casing neither produces nor changes the three special characters. */
  ghost predicate KeepsSpecials(lower: char -> char) {
    forall c :: Special(c, '\\') || Special(lower(c), '\\') ==> lower(c) == c
  }

  lemma {:induction false} LowerEscape(value: string, lower: char -> char)
    requires KeepsSpecials(lower)
    ensures Lower(EscapeEach(value, '\\'), lower) == EscapeEach(Lower(value, lower), '\\')
  {
    if value != [] {
      LowerEscape(value[1..], lower);
      var rest := EscapeEach(value[1..], '\\');
      assert Lower(value, lower)[0] == lower(value[0]) && Lower(value, lower)[1..] == Lower(value[1..], lower);
      if Special(value[0], '\\') {
        assert lower('\\') == '\\';
        assert EscapeEach(value, '\\') == ['\\', value[0]] + rest;
        assert Lower(['\\', value[0]] + rest, lower) == ['\\', lower(value[0])] + Lower(rest, lower);
      } else {
        assert EscapeEach(value, '\\') == [value[0]] + rest;
        assert Lower([value[0]] + rest, lower) == [lower(value[0])] + Lower(rest, lower);
      }
    }
  }

  /** `add_ilike_contains`: the case-insensitive search for the same pattern finds exactly the
      subjects that contain the value up to case. */
  lemma ContainsExactIgnoringCase(value: string, subject: string, lower: char -> char)
    requires KeepsSpecials(lower)
    ensures LikeMatch(Lower("%" + EscapeLike(value, '\\') + "%", lower), Lower(subject, lower), '\\') <==>
            Occurs(Lower(value, lower), Lower(subject, lower))
  {
    SequentialIsPerCharacter(value, '\\');
    SequentialIsPerCharacter(Lower(value, lower), '\\');
    LowerEscape(value, lower);
    var body := EscapeLike(value, '\\');
    assert lower('%') == '%';
    assert Lower("%" + body + "%", lower) == "%" + Lower(body, lower) + "%";
    ContainsExact(Lower(value, lower), Lower(subject, lower));
  }
}
