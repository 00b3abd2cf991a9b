/**
 SQL LIKE (ISO/IEC 9075-2, section 8.5, without an escape character) and the anchored regular
 expression two sources compile it to, read back by a small grammar and matched.
 */
module LikePatterns {
  import opened Wrappers

  /** Whether `s` matches the pattern: `%` is any run of characters, `_` any one character. */
  predicate LikeMatch(pattern: string, s: string)
    decreases |pattern| + |s|
  {
    if pattern == [] then s == []
    else if pattern[0] == '%' then LikeMatch(pattern[1..], s) || (s != [] && LikeMatch(pattern, s[1..]))
    else s != [] && (pattern[0] == '_' || pattern[0] == s[0]) && LikeMatch(pattern[1..], s[1..])
  }

  // ---- the compiler ------------------------------------------------------------------------

  /** The two compilers differ in their opening and in which characters they escape. */
  datatype Dialect = Cypher | Bson

  /** The metacharacters of Java and Python regular expressions. */
  predicate RegexSpecial(c: char) {
    c in "\\.^$*+?{}[]|()"
  }

  /** The Neo4j source escapes metacharacters; `re.escape` escapes some harmless characters too. */
  predicate Escapes(d: Dialect, c: char) {
    RegexSpecial(c) || (d.Bson? && c in "-&~# \t\n\r\U{b}\U{c}")
  }

  /** `(?s)` in the text, or the `s` option beside it, makes the dot match newlines. */
  function Opening(d: Dialect): string {
    if d.Cypher? then "(?s)^" else "^"
  }

  const SUFFIX := "$(?!.)"

  function CompileChar(d: Dialect, c: char): string {
    if c == '%' then ".*" else if c == '_' then "." else if Escapes(d, c) then ['\\', c] else [c]
  }

  function CompileChars(d: Dialect, pattern: string): string {
    if pattern == [] then [] else CompileChar(d, pattern[0]) + CompileChars(d, pattern[1..])
  }

  function LikeToRegex(d: Dialect, pattern: string): string {
    Opening(d) + CompileChars(d, pattern) + SUFFIX
  }

  lemma {:induction false} CompileCharsSnoc(d: Dialect, pattern: string, c: char)
    ensures CompileChars(d, pattern + [c]) == CompileChars(d, pattern) + CompileChar(d, c)
  {
    if pattern == [] {
      assert CompileChars(d, [c]) == CompileChar(d, c) + [];
    } else {
      assert (pattern + [c])[1..] == pattern[1..] + [c];
      CompileCharsSnoc(d, pattern[1..], c);
    }
  }

  /** The source's loop: one appended piece per pattern character. */
  method BuildRegex(d: Dialect, pattern: string) returns (regex: string)
    ensures regex == LikeToRegex(d, pattern)
  {
    hide CompileChar;
    regex := Opening(d);
    for i := 0 to |pattern|
      invariant regex == Opening(d) + CompileChars(d, pattern[..i])
    {
      assert pattern[..i + 1] == pattern[..i] + [pattern[i]];
      CompileCharsSnoc(d, pattern[..i], pattern[i]);
      regex := regex + CompileChar(d, pattern[i]);
    }
    assert pattern[..|pattern|] == pattern;
    regex := regex + SUFFIX;
  }

  // ---- reading the emitted text ---------------------------------------------------------------

  /** The fragment of Java and Python regular expressions the reader knows. */
  datatype Atom = Exactly(c: char) | AnyOne | AnyRun | LineEnd | NothingFollows

  /** Reads an expression body; None when it uses a construct outside the fragment. */
  function ReadAtoms(text: string): Option<seq<Atom>>
    decreases |text|
  {
    if text == [] then Some([])
    else if text[0] == '\\' then
      if |text| < 2 then None else Prepend(Exactly(text[1]), ReadAtoms(text[2..]))
    else if text[0] == '.' then
      if |text| >= 2 && text[1] == '*' then Prepend(AnyRun, ReadAtoms(text[2..]))
      else Prepend(AnyOne, ReadAtoms(text[1..]))
    else if text[0] == '$' then Prepend(LineEnd, ReadAtoms(text[1..]))
    else if "(?!.)" <= text then Prepend(NothingFollows, ReadAtoms(text[5..]))
    else if RegexSpecial(text[0]) then None
    else Prepend(Exactly(text[0]), ReadAtoms(text[1..]))
  }

  function Prepend(a: Atom, rest: Option<seq<Atom>>): Option<seq<Atom>> {
    if rest.None? then None else Some([a] + rest.value)
  }

  /** An expression in dot-matches-newline mode, anchored at the start of the input. */
  function ReadRegex(d: Dialect, text: string): Option<seq<Atom>> {
    if Opening(d) <= text then ReadAtoms(text[|Opening(d)|..]) else None
  }

  function AtomOf(c: char): Atom {
    if c == '%' then AnyRun else if c == '_' then AnyOne else Exactly(c)
  }

  function AtomsOf(pattern: string): (atoms: seq<Atom>)
    ensures |atoms| == |pattern|
  {
    seq(|pattern|, i requires 0 <= i < |pattern| => AtomOf(pattern[i]))
  }

  lemma ReadSuffix()
    ensures ReadAtoms(SUFFIX) == Some([LineEnd, NothingFollows])
  {
    var lookahead := "(?!.)";
    assert SUFFIX[1..] == lookahead;
    assert lookahead[5..] == [];
    assert lookahead[0] == '(' && "(?!.)" <= lookahead;
    assert [NothingFollows] + [] == [NothingFollows];
    assert ReadAtoms(lookahead) == Prepend(NothingFollows, ReadAtoms(lookahead[5..]));
    assert [LineEnd] + [NothingFollows] == [LineEnd, NothingFollows];
  }

  /** Reading one compiled character consumes exactly its piece, whatever comes next. */
  lemma ReadCompiledChar(d: Dialect, c: char, rest: string)
    requires rest != [] && rest[0] != '*'
    ensures ReadAtoms(CompileChar(d, c) + rest) == Prepend(AtomOf(c), ReadAtoms(rest))
  {
    var text := CompileChar(d, c) + rest;
    if c == '%' || (c != '_' && Escapes(d, c)) {
      assert text[2..] == rest;
    } else {
      assert text[1..] == rest;
      assert "(?!.)"[0] == '(' && RegexSpecial('(') && RegexSpecial('.');
    }
  }

  lemma {:induction false} ReadCompiledChars(d: Dialect, pattern: string)
    ensures ReadAtoms(CompileChars(d, pattern) + SUFFIX) == Some(AtomsOf(pattern) + [LineEnd, NothingFollows])
    ensures (CompileChars(d, pattern) + SUFFIX)[0] != '*'
  {
    if pattern == [] {
      ReadSuffix();
      assert CompileChars(d, pattern) + SUFFIX == SUFFIX;
      assert AtomsOf(pattern) + [LineEnd, NothingFollows] == [LineEnd, NothingFollows];
    } else {
      var rest := CompileChars(d, pattern[1..]) + SUFFIX;
      ReadCompiledChars(d, pattern[1..]);
      ReadCompiledChar(d, pattern[0], rest);
      assert CompileChars(d, pattern) + SUFFIX == CompileChar(d, pattern[0]) + rest;
      assert [AtomOf(pattern[0])] + (AtomsOf(pattern[1..]) + [LineEnd, NothingFollows])
          == AtomsOf(pattern) + [LineEnd, NothingFollows];
    }
  }

  /**
   No pattern character becomes a metacharacter: the emitted text reads back as the pattern's own
   tokens followed by the absolute end-of-input anchor.
   */
  lemma CompiledTextReadsBack(d: Dialect, pattern: string)
    ensures ReadRegex(d, LikeToRegex(d, pattern)) == Some(AtomsOf(pattern) + [LineEnd, NothingFollows])
  {
    ReadCompiledChars(d, pattern);
    assert LikeToRegex(d, pattern)[|Opening(d)|..] == CompileChars(d, pattern) + SUFFIX;
  }

  // ---- matching ----------------------------------------------------------------------------------

  /** Whether the atoms can match from position `at`; a run stops here or takes one more. */
  predicate Matches(atoms: seq<Atom>, s: string, at: nat)
    requires at <= |s|
    decreases |atoms|, |s| - at
  {
    if atoms == [] then true
    else match atoms[0]
      case Exactly(c) => at < |s| && s[at] == c && Matches(atoms[1..], s, at + 1)
      case AnyOne => at < |s| && Matches(atoms[1..], s, at + 1)
      case AnyRun => Matches(atoms[1..], s, at) || (at < |s| && Matches(atoms, s, at + 1))
      case LineEnd => (at == |s| || (at + 1 == |s| && s[at] == '\n')) && Matches(atoms[1..], s, at)
      case NothingFollows => at == |s| && Matches(atoms[1..], s, at)
  }

  lemma EndAnchor(s: string, at: nat)
    requires at <= |s|
    ensures Matches([LineEnd, NothingFollows], s, at) <==> at == |s|
  {
    assert [LineEnd, NothingFollows][1..] == [NothingFollows];
    assert [NothingFollows][1..] == [];
    assert Matches([NothingFollows], s, at) <==> at == |s|;
  }

  lemma {:induction false} MatchesFrom(pattern: string, s: string, at: nat)
    requires at <= |s|
    ensures Matches(AtomsOf(pattern) + [LineEnd, NothingFollows], s, at) <==> LikeMatch(pattern, s[at..])
    decreases |pattern|, |s| - at
  {
    var end := [LineEnd, NothingFollows];
    if pattern == [] {
      assert AtomsOf(pattern) + end == end;
      EndAnchor(s, at);
    } else {
      var atoms, rest := AtomsOf(pattern) + end, AtomsOf(pattern[1..]) + end;
      assert atoms[1..] == rest;
      if at < |s| {
        assert s[at..][1..] == s[at + 1..];
        MatchesFrom(pattern[1..], s, at + 1);
      }
      if pattern[0] == '%' {
        MatchesFrom(pattern[1..], s, at);
        if at < |s| {
          MatchesFrom(pattern, s, at + 1);
        }
      }
    }
  }

  /** What an engine does with an expression's text: read it, then match from the start. */
  predicate Accepts(d: Dialect, text: string, s: string) {
    var atoms := ReadRegex(d, text);
    atoms.Some? && Matches(atoms.value, s, 0)
  }

  /** The compiled expression accepts a string, newlines included, exactly when LIKE does. */
  lemma CompiledRegexMatchesLike(d: Dialect, pattern: string, s: string)
    ensures ReadRegex(d, LikeToRegex(d, pattern)).Some?
    ensures Accepts(d, LikeToRegex(d, pattern), s) <==> LikeMatch(pattern, s)
  {
    CompiledTextReadsBack(d, pattern);
    MatchesFrom(pattern, s, 0);
    assert s[0..] == s;
  }

  /** Without the trailing lookahead the anchor would accept a final newline LIKE rejects. */
  lemma LookaheadIsNeeded()
    ensures Matches(AtomsOf("a") + [LineEnd], "a\n", 0)
    ensures !LikeMatch("a", "a\n")
  {
    var atoms := AtomsOf("a") + [LineEnd];
    assert atoms[1..] == [LineEnd];
    assert [LineEnd][1..] == [];
    assert Matches([LineEnd], "a\n", 1);
    assert "a\n"[1..] != [];
    assert !LikeMatch("a"[1..], "a\n"[1..]);
  }
}
