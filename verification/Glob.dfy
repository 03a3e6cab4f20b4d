/**
 The glob-to-regex compiler the evidence selector and the worktree digest share.

 A pattern is compiled to regex source text. The model keeps that text, reads it back the way a
 Unicode-mode regex parser does, gives the parsed operators their language semantics, and compares
 the result with a recursive matcher that never mentions a regex.
 */
module Glob {
  import opened Rows
  import Paths

  /** The five regex operators the compiler emits. */
  datatype Atom = Directories | Anything | WithinSegment | OneInSegment | Literal(c: char)

  /** The characters the compiler escapes. */
  predicate IsSyntax(c: char) {
    || c == '\\' || c == '^' || c == '$' || c == '+' || c == '.' || c == '(' || c == ')' || c == '|'
    || c == '{' || c == '}' || c == '[' || c == ']'
  }

  predicate IsStar(c: char) { c == '*' || c == '?' }

  predicate IsLineTerminator(c: char) { c == '\n' || c == '\r' || c == '\U{2028}' || c == '\U{2029}' }

  // --- compiling --------------------------------------------------------------------------

  function AtomSource(a: Atom): string {
    match a
    case Directories => "(?:.*/)?"
    case Anything => ".*"
    case WithinSegment => "[^/]*"
    case OneInSegment => "[^/]"
    case Literal(c) => if IsSyntax(c) then ['\\', c] else [c]
  }

  function Source(atoms: seq<Atom>): string {
    if atoms == [] then "" else AtomSource(atoms[0]) + Source(atoms[1..])
  }

  /** The operator at the front of a non-empty pattern, and how many characters spell it. */
  function Head(p: string): (a: Atom)
    requires p != ""
    ensures a.Literal? ==> !IsStar(a.c)
  {
    if p[0] == '*' then
      if |p| >= 3 && p[1] == '*' && p[2] == '/' then Directories
      else if |p| >= 2 && p[1] == '*' then Anything
      else WithinSegment
    else if p[0] == '?' then OneInSegment
    else Literal(p[0])
  }

  function Width(p: string): (n: nat)
    requires p != ""
    ensures 1 <= n <= |p|
  {
    match Head(p)
    case Directories => 3
    case Anything => 2
    case _ => 1
  }

  /** The operators a pattern stands for, read left to right. */
  function Compile(pattern: string): (atoms: seq<Atom>)
    ensures forall i :: 0 <= i < |atoms| && atoms[i].Literal? ==> !IsStar(atoms[i].c)
  {
    if pattern == "" then [] else [Head(pattern)] + Compile(pattern[Width(pattern)..])
  }

  /** The operator at a position, decided by the characters there. */
  lemma HeadAt(pattern: string, index: nat)
    requires index < |pattern|
    ensures var c, rest := pattern[index], pattern[index..];
            var starred := index + 1 < |pattern| && pattern[index + 1] == '*';
            var slashed := index + 2 < |pattern| && pattern[index + 2] == '/';
            && (Head(rest), Width(rest)) ==
                 (if c == '*' then
                    if starred then (if slashed then (Directories, 3) else (Anything, 2)) else (WithinSegment, 1)
                  else if c == '?' then (OneInSegment, 1) else (Literal(c), 1))
  {
    var rest := pattern[index..];
    assert forall k :: 0 <= k < |rest| ==> rest[k] == pattern[index + k];
  }

  /** One loop step: what was emitted, plus what the unread pattern still compiles to, never changes. */
  lemma EmitStep(pattern: string, index: nat, source: string, width: nat)
    requires index < |pattern| && width == Width(pattern[index..])
    ensures (source + AtomSource(Head(pattern[index..]))) + Source(Compile(pattern[index + width..]))
         == source + Source(Compile(pattern[index..]))
  {
    var rest := pattern[index..];
    assert rest[width..] == pattern[index + width..];
    assert Compile(rest)[1..] == Compile(rest[width..]);
  }

  /** One round's choice: the operator at a position, and where the next one starts. */
  method ReadAtom(pattern: string, start: nat) returns (atom: Atom, index: nat)
    requires start < |pattern|
    ensures atom == Head(pattern[start..]) && index == start + Width(pattern[start..])
  {
    HeadAt(pattern, start);
    index := start;
    atom := Literal(pattern[start]);
    if pattern[start] == '*' {
      if index + 1 < |pattern| && pattern[index + 1] == '*' {
        index := index + 1;
        if index + 1 < |pattern| && pattern[index + 1] == '/' {
          index := index + 1;
          atom := Directories;
        } else {
          atom := Anything;
        }
      } else {
        atom := WithinSegment;
      }
    } else if pattern[start] == '?' {
      atom := OneInSegment;
    }
    index := index + 1;
  }

  /** The compiler's loop: one pass over the pattern, appending regex source. */
  method GlobRegex(pattern: string) returns (source: string)
    ensures source == "^" + Source(Compile(pattern)) + "$"
  {
    source := "^";
    var index := 0;
    assert pattern[0..] == pattern;
    while index < |pattern|
      invariant 0 <= index <= |pattern|
      invariant source + Source(Compile(pattern[index..])) == "^" + Source(Compile(pattern))
    {
      EmitStep(pattern, index, source, Width(pattern[index..]));
      var atom, next := ReadAtom(pattern, index);
      source := source + AtomSource(atom);
      index := next;
    }
    assert pattern[index..] == "";
    source := source + "$";
  }

  // --- reading the source back ------------------------------------------------------------

  predicate IsDirectories(t: string) {
    && |t| >= 8 && t[0] == '(' && t[1] == '?' && t[2] == ':' && t[3] == '.' && t[4] == '*'
    && t[5] == '/' && t[6] == ')' && t[7] == '?'
  }

  predicate IsAnything(t: string) { |t| >= 2 && t[0] == '.' && t[1] == '*' }

  predicate IsOneInSegment(t: string) { |t| >= 4 && t[0] == '[' && t[1] == '^' && t[2] == '/' && t[3] == ']' }

  predicate IsWithinSegment(t: string) { |t| >= 5 && IsOneInSegment(t) && t[4] == '*' }

  /** A Unicode-mode regex body, restricted to the operators above; anything else is no parse. */
  function ParseRegex(text: string): Option<seq<Atom>>
    decreases |text|
  {
    if text == "" then Some([])
    else if IsDirectories(text) then Prepend(Directories, ParseRegex(text[8..]))
    else if IsAnything(text) then Prepend(Anything, ParseRegex(text[2..]))
    else if IsWithinSegment(text) then Prepend(WithinSegment, ParseRegex(text[5..]))
    else if IsOneInSegment(text) then Prepend(OneInSegment, ParseRegex(text[4..]))
    else if text[0] == '\\' && |text| >= 2 && (IsSyntax(text[1]) || IsStar(text[1])) then Prepend(Literal(text[1]), ParseRegex(text[2..]))
    else if !IsSyntax(text[0]) && !IsStar(text[0]) then Prepend(Literal(text[0]), ParseRegex(text[1..]))
    else None
  }

  function Prepend(a: Atom, rest: Option<seq<Atom>>): Option<seq<Atom>> {
    match rest
    case None => None
    case Some(atoms) => Some([a] + atoms)
  }

  lemma SourceNeverStartsWithStar(atoms: seq<Atom>)
    requires forall i :: 0 <= i < |atoms| && atoms[i].Literal? ==> !IsStar(atoms[i].c)
    ensures Source(atoms) != "" ==> Source(atoms)[0] != '*'
  {
    if atoms != [] { assert AtomSource(atoms[0])[0] != '*'; }
  }

  lemma ParseLiteral(c: char, rest: string)
    requires !IsStar(c)
    ensures ParseRegex(AtomSource(Literal(c)) + rest) == Prepend(Literal(c), ParseRegex(rest))
  {
    if IsSyntax(c) {
      assert (['\\', c] + rest)[2..] == rest;
    } else {
      assert ([c] + rest)[1..] == rest;
    }
  }

  lemma ParseSegment(rest: string)
    requires rest != "" ==> rest[0] != '*'
    ensures ParseRegex(AtomSource(OneInSegment) + rest) == Prepend(OneInSegment, ParseRegex(rest))
    ensures ParseRegex(AtomSource(WithinSegment) + rest) == Prepend(WithinSegment, ParseRegex(rest))
  {
    var one, within := AtomSource(OneInSegment) + rest, AtomSource(WithinSegment) + rest;
    assert one[4..] == rest && within[5..] == rest;
    assert IsOneInSegment(one) && !IsWithinSegment(one) by { if |one| > 4 { assert one[4] == rest[0]; } }
    assert IsWithinSegment(within);
  }

  lemma ParseDots(rest: string)
    ensures ParseRegex(AtomSource(Anything) + rest) == Prepend(Anything, ParseRegex(rest))
    ensures ParseRegex(AtomSource(Directories) + rest) == Prepend(Directories, ParseRegex(rest))
  {
    var any, dirs := AtomSource(Anything) + rest, AtomSource(Directories) + rest;
    assert any[2..] == rest && dirs[8..] == rest;
    assert IsAnything(any) && !IsDirectories(any) && IsDirectories(dirs);
  }

  /** One atom's text is recognized as that atom, whatever non-star text follows. */
  lemma ParseHead(a: Atom, rest: string)
    requires a.Literal? ==> !IsStar(a.c)
    requires rest != "" ==> rest[0] != '*'
    ensures ParseRegex(AtomSource(a) + rest) == Prepend(a, ParseRegex(rest))
  {
    if a.Literal? { ParseLiteral(a.c, rest); } else { ParseSegment(rest); ParseDots(rest); }
  }

  /** The escapes are right: the emitted text parses to exactly the operators the pattern meant. */
  lemma {:induction false} SourceParsesBack(atoms: seq<Atom>)
    requires forall i :: 0 <= i < |atoms| && atoms[i].Literal? ==> !IsStar(atoms[i].c)
    ensures ParseRegex(Source(atoms)) == Some(atoms)
  {
    if atoms != [] {
      SourceParsesBack(atoms[1..]);
      SourceNeverStartsWithStar(atoms[1..]);
      ParseHead(atoms[0], Source(atoms[1..]));
      assert atoms == [atoms[0]] + atoms[1..];
    }
  }

  // --- what the regex accepts --------------------------------------------------------------

  /** Whether a star operator may consume the first `k` characters: `.` stops at a line terminator, `[^/]` at a slash. */
  predicate Span(atom: Atom, s: string, k: nat) {
    k <= |s| && forall i :: 0 <= i < k ==> if atom.WithinSegment? then s[i] != '/' else !IsLineTerminator(s[i])
  }

  /** Language membership for `^body$`. */
  predicate Accepts(atoms: seq<Atom>, s: string)
    decreases |atoms|
  {
    if atoms == [] then s == ""
    else
      match atoms[0]
      case Literal(c) => s != "" && s[0] == c && Accepts(atoms[1..], s[1..])
      case OneInSegment => s != "" && s[0] != '/' && Accepts(atoms[1..], s[1..])
      case Directories =>
        || Accepts(atoms[1..], s)
        || exists k: nat :: k < |s| && Span(atoms[0], s, k) && s[k] == '/' && Accepts(atoms[1..], s[k + 1..])
      case _ => exists k: nat :: k <= |s| && Span(atoms[0], s, k) && Accepts(atoms[1..], s[k..])
  }

  /** The first operator consumes `k` characters (and a slash, if it is `.*` followed by one). */
  ghost predicate After(atoms: seq<Atom>, s: string, k: nat)
    requires atoms != []
  {
    && Span(atoms[0], s, k)
    && (if atoms[0].Directories? then k < |s| && s[k] == '/' && Accepts(atoms[1..], s[k + 1..])
        else Accepts(atoms[1..], s[k..]))
  }

  /** What `new RegExp(source, 'u').test(path)` answers for the compiled pattern. */
  predicate RegexTest(pattern: string, path: string) {
    var parsed := ParseRegex(Source(Compile(pattern)));
    parsed.Some? && Accepts(parsed.value, path)
  }

  // --- the recursive glob matcher -----------------------------------------------------------

  /** Index of the first `/`, or the length when there is none. */
  function FirstSlash(s: string): (k: nat)
    ensures Span(WithinSegment, s, k) && (k < |s| ==> s[k] == '/')
  {
    if s == "" || s[0] == '/' then 0 else FirstSlash(s[1..]) + 1
  }

  predicate NoLineTerminator(s: string) {
    Span(Anything, s, |s|)
  }

  /**
   Glob matching character by character: a leading double star with a slash stands for zero or more
   directories, a double star for any text, `*` and `?` stay inside one segment.
   `lines` says whether a double star may run across a line terminator.
   */
  predicate GlobMatch(p: string, s: string, lines: bool)
    decreases |p| + |s|
  {
    if p == "" then s == ""
    else if p[0] == '*' then
      if |p| >= 3 && p[1] == '*' && p[2] == '/' then
        var k := FirstSlash(s);
        || GlobMatch(p[3..], s, lines)
        || (k < |s| && (lines || Span(Anything, s, k)) && GlobMatch(p, s[k + 1..], lines))
      else if |p| >= 2 && p[1] == '*' then
        || GlobMatch(p[2..], s, lines)
        || (s != "" && (lines || !IsLineTerminator(s[0])) && GlobMatch(p, s[1..], lines))
      else
        || GlobMatch(p[1..], s, lines)
        || (s != "" && s[0] != '/' && GlobMatch(p, s[1..], lines))
    else if p[0] == '?' then
      s != "" && s[0] != '/' && GlobMatch(p[1..], s[1..], lines)
    else
      s != "" && s[0] == p[0] && GlobMatch(p[1..], s[1..], lines)
  }

  // --- the compiler preserves meaning ---------------------------------------------------------

  lemma StarUnfold(atoms: seq<Atom>, s: string)
    requires atoms != [] && !atoms[0].Literal? && !atoms[0].OneInSegment?
    ensures Accepts(atoms, s) <==>
              (atoms[0].Directories? && Accepts(atoms[1..], s)) || exists k: nat :: After(atoms, s, k)
  {
    if Accepts(atoms, s) && !(atoms[0].Directories? && Accepts(atoms[1..], s)) {
      if atoms[0].Directories? {
        var k: nat :| k < |s| && Span(atoms[0], s, k) && s[k] == '/' && Accepts(atoms[1..], s[k + 1..]);
        assert After(atoms, s, k);
      } else {
        var k: nat :| k <= |s| && Span(atoms[0], s, k) && Accepts(atoms[1..], s[k..]);
        assert After(atoms, s, k);
      }
    }
  }

  lemma StarMeans(atoms: seq<Atom>, s: string)
    requires atoms != [] && (atoms[0].WithinSegment? || atoms[0].Anything?)
    ensures Accepts(atoms, s) <==>
              Accepts(atoms[1..], s) || (s != "" && Span(atoms[0], s, 1) && Accepts(atoms, s[1..]))
  {
    StarUnfold(atoms, s);
    if s != "" { StarUnfold(atoms, s[1..]); }
    if k: nat :| After(atoms, s, k) {
      if k == 0 {
        assert s[0..] == s;
      } else {
        assert s[1..][k - 1..] == s[k..];
        assert After(atoms, s[1..], k - 1);
      }
    }
    if Accepts(atoms[1..], s) {
      assert s[0..] == s && After(atoms, s, 0);
    } else if s != "" && Span(atoms[0], s, 1) && Accepts(atoms, s[1..]) {
      var k: nat :| After(atoms, s[1..], k);
      assert s[1..][k..] == s[k + 1..];
      assert Span(atoms[0], s, k + 1) by { assert forall i :: 1 <= i <= k ==> s[i] == s[1..][i - 1]; }
      assert After(atoms, s, k + 1);
    }
  }

  lemma DirectoriesUnfold(atoms: seq<Atom>, s: string, k: nat)
    requires atoms != [] && atoms[0].Directories? && After(atoms, s, k)
    ensures var f := FirstSlash(s); f <= k && Span(Anything, s, f) && Accepts(atoms, s[f + 1..])
  {
    var f := FirstSlash(s);
    if f < k {
      var t, j := s[f + 1..], k - f - 1;
      assert t[j + 1..] == s[k + 1..];
      assert Span(atoms[0], t, j) by { assert forall i :: 0 <= i < j ==> t[i] == s[f + 1 + i]; }
      assert After(atoms, t, j);
      StarUnfold(atoms, t);
    } else {
      StarUnfold(atoms, s[f + 1..]);
    }
  }

  /** What the directory operator comes down to at the first slash. */
  predicate EntersDirectory(atoms: seq<Atom>, s: string)
    requires atoms != []
  {
    var f := FirstSlash(s);
    f < |s| && Span(Anything, s, f) && Accepts(atoms, s[f + 1..])
  }

  lemma ConsumeDirectory(atoms: seq<Atom>, s: string, f: nat, j: nat)
    requires atoms != [] && atoms[0].Directories?
    requires f < |s| && s[f] == '/' && Span(Anything, s, f) && After(atoms, s[f + 1..], j)
    ensures After(atoms, s, f + 1 + j)
  {
    var t, k := s[f + 1..], f + 1 + j;
    assert t[j + 1..] == s[k + 1..] && s[k] == t[j];
    assert Span(atoms[0], t, j) && t[j] == '/' && Accepts(atoms[1..], t[j + 1..]);
    forall i | 0 <= i < k ensures !IsLineTerminator(s[i]) {
      if i > f { assert s[i] == t[i - f - 1]; }
    }
  }

  lemma DirectoriesFold(atoms: seq<Atom>, s: string)
    requires atoms != [] && atoms[0].Directories?
    requires EntersDirectory(atoms, s)
    ensures exists k: nat :: After(atoms, s, k)
  {
    var f := FirstSlash(s);
    if Accepts(atoms[1..], s[f + 1..]) {
      assert After(atoms, s, f);
    } else {
      StarUnfold(atoms, s[f + 1..]);
      var j: nat :| After(atoms, s[f + 1..], j);
      ConsumeDirectory(atoms, s, f, j);
    }
  }

  lemma DirectoriesMeans(atoms: seq<Atom>, s: string)
    requires atoms != [] && atoms[0].Directories?
    ensures Accepts(atoms, s) <==> Accepts(atoms[1..], s) || EntersDirectory(atoms, s)
  {
    StarUnfold(atoms, s);
    if EntersDirectory(atoms, s) {
      DirectoriesFold(atoms, s);
    } else if k: nat :| After(atoms, s, k) {
      DirectoriesUnfold(atoms, s, k);
    }
  }

  lemma {:induction false} AcceptsIsGlobMatch(p: string, s: string)
    ensures Accepts(Compile(p), s) <==> GlobMatch(p, s, false)
    decreases |p| + |s|
  {
    if p != "" {
      var atoms, rest := Compile(p), p[Width(p)..];
      assert atoms[1..] == Compile(rest) && atoms[0] == Head(p);
      match Head(p)
      case Directories =>
        DirectoriesMeans(atoms, s);
        AcceptsIsGlobMatch(rest, s);
        if FirstSlash(s) < |s| { AcceptsIsGlobMatch(p, s[FirstSlash(s) + 1..]); }
      case Anything =>
        StarMeans(atoms, s);
        AcceptsIsGlobMatch(rest, s);
        if s != "" { AcceptsIsGlobMatch(p, s[1..]); }
      case WithinSegment =>
        StarMeans(atoms, s);
        AcceptsIsGlobMatch(rest, s);
        if s != "" { AcceptsIsGlobMatch(p, s[1..]); }
      case OneInSegment =>
        if s != "" { AcceptsIsGlobMatch(rest, s[1..]); }
      case Literal(_) =>
        if s != "" { AcceptsIsGlobMatch(rest, s[1..]); }
    }
  }

  /** The compiled regex accepts what the glob means, with a double star held to one line. */
  lemma CompilerPreservesMeaning(pattern: string, path: string)
    ensures RegexTest(pattern, path) <==> GlobMatch(pattern, path, false)
  {
    SourceParsesBack(Compile(pattern));
    AcceptsIsGlobMatch(pattern, path);
  }

  predicate HasDoubleStar(p: string) {
    exists i :: 0 <= i < |p| - 1 && p[i] == '*' && p[i + 1] == '*'
  }

  /** Line terminators only ever matter to a double star, and only by rejecting. */
  lemma {:induction false} LinesOnlyReject(p: string, s: string)
    ensures GlobMatch(p, s, false) ==> GlobMatch(p, s, true)
    ensures NoLineTerminator(s) || !HasDoubleStar(p) ==> (GlobMatch(p, s, false) <==> GlobMatch(p, s, true))
    decreases |p| + |s|
  {
    if p != "" {
      if p[0] == '*' {
        if |p| >= 2 && p[1] == '*' {
          assert HasDoubleStar(p);
          var cut := if |p| >= 3 && p[2] == '/' then 3 else 2;
          LinesOnlyReject(p[cut..], s);
          if cut == 3 && FirstSlash(s) < |s| {
            LinesOnlyReject(p, s[FirstSlash(s) + 1..]);
          } else if cut == 2 && s != "" {
            LinesOnlyReject(p, s[1..]);
          }
        } else {
          TailDoubleStar(p);
          LinesOnlyReject(p[1..], s);
          if s != "" { LinesOnlyReject(p, s[1..]); }
        }
      } else if s != "" {
        TailDoubleStar(p);
        LinesOnlyReject(p[1..], s[1..]);
      }
    }
  }

  lemma TailDoubleStar(p: string)
    requires p != ""
    ensures HasDoubleStar(p[1..]) ==> HasDoubleStar(p)
  {
    if HasDoubleStar(p[1..]) {
      var i :| 0 <= i < |p[1..]| - 1 && p[1..][i] == '*' && p[1..][i + 1] == '*';
      assert p[i + 1] == '*' && p[i + 1 + 1] == '*';
    }
  }

  /** The promised meaning, on every path without a line terminator and every pattern without a double star. */
  lemma CompilerMeansGlob(pattern: string, path: string)
    requires NoLineTerminator(path) || !HasDoubleStar(pattern)
    ensures RegexTest(pattern, path) <==> GlobMatch(pattern, path, true)
  {
    CompilerPreservesMeaning(pattern, path);
    LinesOnlyReject(pattern, path);
  }

  // --- exactly where the plain meaning holds ----------------------------------------------------

  /** The compiled pattern answers as the plain meaning does. */
  predicate Agrees(pattern: string, path: string) {
    RegexTest(pattern, path) <==> GlobMatch(pattern, path, true)
  }

  lemma {:induction false} DoubleStarTakesLines(s: string, lines: bool)
    ensures GlobMatch("**", s, lines) <==> lines || NoLineTerminator(s)
  {
    var p := "**";
    assert p[2..] == "" && (GlobMatch("", s, lines) <==> s == "");
    if s != "" {
      DoubleStarTakesLines(s[1..], lines);
      assert NoLineTerminator(s) <==> !IsLineTerminator(s[0]) && NoLineTerminator(s[1..]) by {
        assert forall i :: 1 <= i < |s| ==> s[i] == s[1..][i - 1];
      }
    }
  }

  /** A path is matched as promised by every pattern exactly when it has no line terminator. */
  lemma PathIsSafeIff(path: string)
    ensures (forall pattern :: Agrees(pattern, path)) <==> NoLineTerminator(path)
  {
    if NoLineTerminator(path) {
      forall pattern ensures Agrees(pattern, path) { CompilerMeansGlob(pattern, path); }
    } else {
      CompilerPreservesMeaning("**", path);
      DoubleStarTakesLines(path, true);
      DoubleStarTakesLines(path, false);
      assert !Agrees("**", path);
    }
  }

  /** How many line feeds stand right before a slash. */
  function BrokenSegments(s: string): nat {
    if |s| < 2 then 0 else (if s[0] == '\n' && s[1] == '/' then 1 else 0) + BrokenSegments(s[1..])
  }

  /** Text without line feeds at its front holds none of them, text without slashes at most one. */
  lemma {:induction false} BrokenAfter(s: string, k: nat)
    requires k <= |s|
    ensures (forall i :: 0 <= i < k ==> s[i] != '\n') ==> BrokenSegments(s) == BrokenSegments(s[k..])
    ensures (forall i :: 0 <= i < k ==> s[i] != '/') || k == 1 ==> BrokenSegments(s) <= BrokenSegments(s[k..]) + 1
  {
    if k == 0 {
      assert s[0..] == s;
    } else {
      assert s[1..][k - 1..] == s[k..];
      assert forall i :: 1 <= i < k ==> s[i] == s[1..][i - 1];
      BrokenAfter(s[1..], k - 1);
    }
  }

  /** Every operator can step over one broken segment at most, so a regex accepts only so many. */
  lemma {:induction false} AcceptsFewBroken(atoms: seq<Atom>, s: string)
    requires Accepts(atoms, s)
    ensures BrokenSegments(s) <= |atoms|
    decreases |atoms|
  {
    if atoms != [] {
      var rest := atoms[1..];
      if atoms[0].Literal? || atoms[0].OneInSegment? {
        BrokenAfter(s, 1);
        AcceptsFewBroken(rest, s[1..]);
      } else if atoms[0].Directories? && Accepts(rest, s) {
        AcceptsFewBroken(rest, s);
      } else {
        var used := StarStepsOver(atoms, s);
        AcceptsFewBroken(rest, s[used..]);
      }
    }
  }

  lemma StarStepsOver(atoms: seq<Atom>, s: string) returns (used: nat)
    requires Accepts(atoms, s) && atoms != [] && !atoms[0].Literal? && !atoms[0].OneInSegment?
    requires !(atoms[0].Directories? && Accepts(atoms[1..], s))
    ensures used <= |s| && Accepts(atoms[1..], s[used..]) && BrokenSegments(s) <= BrokenSegments(s[used..]) + 1
  {
    StarUnfold(atoms, s);
    var k: nat :| After(atoms, s, k);
    used := if atoms[0].Directories? then k + 1 else k;
    BrokenAfter(s, used);
  }

  /** `n` broken segments, then `rest`. */
  function Broken(n: nat, rest: string): string {
    if n == 0 then rest else "\n/" + Broken(n - 1, rest)
  }

  lemma {:induction false} BrokenUnderDoubleStar(p: string, n: nat, rest: string)
    requires |p| >= 2 && p[0] == '*' && p[1] == '*' && GlobMatch(p, rest, true)
    ensures GlobMatch(p, Broken(n, rest), true) && BrokenSegments(Broken(n, rest)) >= n
  {
    if n > 0 {
      var s, t := Broken(n, rest), Broken(n - 1, rest);
      BrokenUnderDoubleStar(p, n - 1, rest);
      assert s[1..] == "/" + t && s[1..][1..] == t && s[2..] == t;
      assert FirstSlash(s) == 1 by { assert FirstSlash(s[1..]) == 0; }
      BrokenAfter(s[1..], 1);
      if !(|p| >= 3 && p[2] == '/') { assert GlobMatch(p, s[1..], true); }
    }
  }

  /** Every pattern matches some text; one with a double star matches text with as many broken segments as one likes. */
  lemma {:induction false} Sample(p: string, n: nat) returns (s: string)
    ensures GlobMatch(p, s, true) && (HasDoubleStar(p) ==> BrokenSegments(s) >= n)
    decreases |p|
  {
    if p == "" {
      s := "";
    } else if Head(p).Directories? || Head(p).Anything? {
      var rest := Sample(p[Width(p)..], n);
      assert GlobMatch(p, rest, true);
      BrokenUnderDoubleStar(p, n, rest);
      s := Broken(n, rest);
    } else {
      var rest := Sample(p[1..], n);
      var front := if Head(p).WithinSegment? then "" else if Head(p).OneInSegment? then "x" else [p[0]];
      s := front + rest;
      assert s[|front|..] == rest;
      if HasDoubleStar(p) { StillDoubleStar(p); }
      if front == "" { assert s == rest; } else { BrokenGrows(front[0], rest); }
    }
  }

  lemma BrokenGrows(c: char, rest: string)
    ensures BrokenSegments([c] + rest) >= BrokenSegments(rest)
  {
    assert ([c] + rest)[1..] == rest;
  }

  lemma StillDoubleStar(p: string)
    requires HasDoubleStar(p) && !Head(p).Directories? && !Head(p).Anything?
    ensures HasDoubleStar(p[1..])
  {
    var i :| 0 <= i < |p| - 1 && p[i] == '*' && p[i + 1] == '*';
    var rest := p[1..];
    assert rest[i - 1] == '*' && rest[i - 1 + 1] == '*';
  }

  /** A pattern means what was promised on every path exactly when it has no double star. */
  lemma PatternIsSafeIff(pattern: string)
    ensures (forall path :: Agrees(pattern, path)) <==> !HasDoubleStar(pattern)
  {
    if HasDoubleStar(pattern) {
      var atoms := Compile(pattern);
      var path := Sample(pattern, |atoms| + 1);
      SourceParsesBack(atoms);
      if Accepts(atoms, path) { AcceptsFewBroken(atoms, path); }
      assert !Agrees(pattern, path);
    } else {
      forall path ensures Agrees(pattern, path) { CompilerMeansGlob(pattern, path); }
    }
  }

  // --- matching a path against a list of patterns ----------------------------------------------

  predicate HasBracket(p: string) {
    exists i :: 0 <= i < |p| && (p[i] == '[' || p[i] == ']' || p[i] == '{' || p[i] == '}')
  }

  /** `pathMatchesPatterns`: no pattern, or any bracket or brace, matches everything. */
  predicate PathMatchesPatterns(path: string, patterns: seq<string>) {
    var normalized := Map(Paths.NormalizePattern, patterns);
    || normalized == []
    || (exists i :: 0 <= i < |normalized| && HasBracket(normalized[i]))
    || (exists i :: 0 <= i < |normalized| && RegexTest(normalized[i], Paths.NormalizePattern(path)))
  }

  /**
   Bracket and brace syntax only widens. Take any matcher at all that reads bracket-free patterns as
   globs, whatever it makes of the others: a path it selects is never missed.
   */
  lemma UnsupportedPatternsWiden(path: string, patterns: seq<string>, extended: (string, string) -> bool)
    requires forall p, s :: !HasBracket(p) && extended(p, s) ==> GlobMatch(p, s, true)
    requires NoLineTerminator(Paths.NormalizePattern(path))
    requires exists i :: 0 <= i < |patterns| && extended(Paths.NormalizePattern(patterns[i]), Paths.NormalizePattern(path))
    ensures PathMatchesPatterns(path, patterns)
  {
    var i :| 0 <= i < |patterns| && extended(Paths.NormalizePattern(patterns[i]), Paths.NormalizePattern(path));
    var normalized := Map(Paths.NormalizePattern, patterns);
    assert normalized[i] == Paths.NormalizePattern(patterns[i]);
    CompilerMeansGlob(normalized[i], Paths.NormalizePattern(path));
  }
}
