/** The rerun command of a warning: quoted, with two words of the verdict masked, and what a shell makes of it. */
module RerunCommand {
  import opened Rows
  import opened Utf16
  import opened CommandTokenizer

  const MARK: string := "[REDACTED]"

  /** Letters that a case-insensitive Unicode expression takes for the same; the long s and the Kelvin sign among them. */
  function Folded(c: char): char {
    if 'A' <= c <= 'Z' then 'a' + (c - 'A')
    else if c == '\U{17F}' then 's'
    else if c == '\U{212A}' then 'k'
    else c
  }

  predicate IsWordChar(c: char) {
    'a' <= Folded(c) <= 'z' || '0' <= c <= '9' || c == '_'
  }

  predicate Leads(s: string, word: string) {
    |word| <= |s| && forall i :: 0 <= i < |word| ==> Folded(s[i]) == word[i]
  }

  /** The text starts with this word as a whole. */
  predicate WholeWord(s: string, word: string) {
    Leads(s, word) && (|s| == |word| || !IsWordChar(s[|word|]))
  }

  /** The length of the masked word at the front, 0 where there is none. */
  function WordAt(s: string): (n: nat)
    ensures n <= |s|
  {
    if WholeWord(s, "blocked") then 7 else if WholeWord(s, "passed") then 6 else 0
  }

  /** The text with both words masked; `inWord` says that the character before it belongs to a word. */
  function Displayed(s: string, inWord: bool): string
    decreases |s|
  {
    if s == "" then ""
    else if !inWord && WordAt(s) > 0 then MARK + Displayed(s[WordAt(s)..], true)
    else [s[0]] + Displayed(s[1..], IsWordChar(s[0]))
  }

  /** How many words are masked. */
  function Masked(s: string, inWord: bool): nat
    decreases |s|
  {
    if s == "" then 0
    else if !inWord && WordAt(s) > 0 then 1 + Masked(s[WordAt(s)..], true)
    else Masked(s[1..], IsWordChar(s[0]))
  }

  function SafeDisplay(value: string): string { Displayed(value, false) }

  /** The command as the warning shows it, for an argv that was redacted already. */
  function Shown(argv: seq<string>): string {
    if argv == [] then ""
    else if |argv| == 1 then SafeDisplay(ShellArgument(argv[0]))
    else SafeDisplay(ShellArgument(argv[0])) + " " + Shown(argv[1..])
  }

  // --- counting brackets --------------------------------------------------------------------------------------------

  function Count(c: char, s: string): nat {
    if s == "" then 0 else (if s[0] == c then 1 else 0) + Count(c, s[1..])
  }

  lemma {:induction false} CountAdds(c: char, a: string, b: string)
    ensures Count(c, a + b) == Count(c, a) + Count(c, b)
  {
    if a == "" {
      assert a + b == b;
    } else {
      assert (a + b)[0] == a[0] && (a + b)[1..] == a[1..] + b;
      CountAdds(c, a[1..], b);
    }
  }

  lemma {:induction false} CountNone(c: char, s: string)
    requires c !in s
    ensures Count(c, s) == 0
  {
    if s != "" {
      assert s[0] in s && forall x :: x in s[1..] ==> x in s;
      CountNone(c, s[1..]);
    }
  }

  lemma OneChar(x: char, c: char, s: string)
    ensures Count(c, [x] + s) == (if x == c then 1 else 0) + Count(c, s)
  {
    assert ([x] + s)[1..] == s;
  }

  lemma {:induction false} ItemsCount(items: seq<Item>, c: char)
    requires c != '\\'
    ensures Count(c, RenderItems(items)) == Count(c, ItemsText(items))
  {
    if items != [] {
      var i := items[0];
      ItemsCount(items[1..], c);
      CountAdds(c, RenderItem(i), RenderItems(items[1..]));
      CountAdds(c, ItemText(i), ItemsText(items[1..]));
      OneChar('\\', c, [i.c]);
      assert ['\\'] + [i.c] == ['\\', i.c];
    }
  }

  predicate Content(c: char) { !IsJsSpace(c) && !IsQuoting(c) }

  lemma LexemeCount(l: Lexeme, c: char)
    requires Content(c) && WellFormed(l, JsSpace)
    ensures Count(c, RenderLexeme(l)) == Count(c, Text(l))
  {
    match l
    case Blank(x) => OneChar(x, c, "");
    case Bare(x) =>
    case Backslash(x) =>
      OneChar('\\', c, [x]);
      assert ['\\'] + [x] == ['\\', x];
    case SingleQuoted(t) => Enclosed('\'', c, t);
    case DoubleQuoted(items) =>
      Enclosed('"', c, RenderItems(items));
      ItemsCount(items, c);
  }

  lemma Enclosed(q: char, c: char, t: string)
    requires q != c
    ensures Count(c, [q] + t + [q]) == Count(c, t)
  {
    CountAdds(c, [q] + t, [q]);
    OneChar(q, c, t);
    OneChar(q, c, "");
    assert [q] + "" == [q];
  }

  lemma {:induction false} RenderCount(ls: seq<Lexeme>, c: char)
    requires Content(c) && AllWellFormed(ls, JsSpace)
    ensures Count(c, Render(ls)) == Count(c, Texts(ls))
  {
    if ls != [] {
      LexemeCount(ls[0], c);
      RenderCount(ls[1..], c);
      CountAdds(c, RenderLexeme(ls[0]), Render(ls[1..]));
      CountAdds(c, Text(ls[0]), Texts(ls[1..]));
    }
  }

  /** A tokenized command has each ordinary character as often as its words have it. */
  lemma TokenizedCount(command: string, argv: seq<string>, c: char)
    requires Tokens(command) == Ok(argv) && Content(c)
    ensures Count(c, command) == Count(c, Concat(argv))
  {
    TokenizerIsGrammar(command, argv);
    var ls :| Reads(ls, command, argv, JsSpace);
    WordsKeepText(ls);
    RenderCount(ls, c);
  }

  // --- masking adds a bracket ---------------------------------------------------------------------------------------

  lemma WordHasNoBracket(s: string)
    ensures Count('[', s[..WordAt(s)]) == 0
  {
    var n := WordAt(s);
    forall i | 0 <= i < n ensures s[i] != '[' {
      if n == 7 { assert Folded(s[i]) == "blocked"[i]; } else { assert Folded(s[i]) == "passed"[i]; }
    }
    CountNone('[', s[..n]);
  }

  lemma MarkCount()
    ensures Count('[', MARK) == 1
  {
    assert MARK[0] == '[' && '[' !in MARK[1..];
    CountNone('[', MARK[1..]);
  }

  lemma {:induction false} MaskingCounts(s: string, inWord: bool)
    ensures Count('[', Displayed(s, inWord)) == Count('[', s) + Masked(s, inWord)
    decreases |s|
  {
    if s != "" {
      if !inWord && WordAt(s) > 0 {
        var n := WordAt(s);
        MaskingCounts(s[n..], true);
        MarkCount();
        WordHasNoBracket(s);
        CountAdds('[', MARK, Displayed(s[n..], true));
        CountAdds('[', s[..n], s[n..]);
        assert s[..n] + s[n..] == s;
      } else {
        MaskingCounts(s[1..], IsWordChar(s[0]));
        OneChar(s[0], '[', Displayed(s[1..], IsWordChar(s[0])));
      }
    }
  }

  lemma {:induction false} NothingMasked(s: string, inWord: bool)
    requires Masked(s, inWord) == 0
    ensures Displayed(s, inWord) == s
    decreases |s|
  {
    if s != "" { NothingMasked(s[1..], IsWordChar(s[0])); }
  }

  lemma {:induction false} EscapeCounts(value: string)
    ensures Count('[', EscapeQuotes(value)) == Count('[', value)
  {
    if value != "" {
      EscapeCounts(value[1..]);
      if value[0] == '\'' {
        CountNone('[', QUOTED_QUOTE);
        CountAdds('[', QUOTED_QUOTE, EscapeQuotes(value[1..]));
      } else {
        OneChar(value[0], '[', EscapeQuotes(value[1..]));
      }
    }
  }

  lemma ArgumentCounts(value: string)
    ensures Count('[', ShellArgument(value)) == Count('[', value)
  {
    EscapeCounts(value);
    Enclosed('\'', '[', EscapeQuotes(value));
    assert "'" == ['\''];
  }

  // --- quoting keeps words ------------------------------------------------------------------------------------------

  /** A whole word to mask starts somewhere, after `inWord` at the front. */
  ghost predicate HasMaskedWord(s: string, inWord: bool) {
    exists i :: 0 <= i < |s| && StartsAt(s, inWord, i)
  }

  predicate StartsAt(s: string, inWord: bool, i: nat)
    requires i < |s|
  {
    (if i == 0 then !inWord else !IsWordChar(s[i - 1])) && WordAt(s[i..]) > 0
  }

  lemma {:induction false} MaskedIff(s: string, inWord: bool)
    ensures Masked(s, inWord) > 0 <==> HasMaskedWord(s, inWord)
    decreases |s|
  {
    if s != "" {
      assert s[0..] == s;
      if !inWord && WordAt(s) > 0 {
        assert StartsAt(s, inWord, 0);
      } else {
        MaskedIff(s[1..], IsWordChar(s[0]));
        HasWordLater(s, inWord);
      }
    }
  }

  lemma HasWordLater(s: string, inWord: bool)
    requires s != "" && !(!inWord && WordAt(s) > 0)
    ensures HasMaskedWord(s, inWord) <==> HasMaskedWord(s[1..], IsWordChar(s[0]))
  {
    var rest := s[1..];
    assert s[0..] == s;
    forall i | 0 <= i < |rest| ensures StartsAt(rest, IsWordChar(s[0]), i) <==> StartsAt(s, inWord, i + 1) {
      assert rest[i..] == s[i + 1..];
    }
    if i :| 0 <= i < |s| && StartsAt(s, inWord, i) { assert StartsAt(rest, IsWordChar(s[0]), i - 1); }
  }

  lemma {:induction false} EscapeKeepsLetters(value: string, n: nat)
    requires n <= |value| && forall i :: 0 <= i < n ==> value[i] != '\''
    ensures EscapeQuotes(value) == value[..n] + EscapeQuotes(value[n..])
  {
    if n > 0 {
      EscapeKeepsLetters(value[1..], n - 1);
      assert value[..n] == [value[0]] + value[1..][..n - 1] && value[1..][n - 1..] == value[n..];
    } else {
      assert value[0..] == value;
    }
  }

  /** Letters at the front of the quoted text are letters at the front of the argument. */
  lemma {:induction false} LettersAtFront(value: string, n: nat)
    requires var text := EscapeQuotes(value) + "'"; n <= |text| && forall i :: 0 <= i < n ==> text[i] != '\''
    ensures n <= |value| && forall i :: 0 <= i < n ==> value[i] != '\''
  {
    var text := EscapeQuotes(value) + "'";
    if n > 0 {
      assert text[0] != '\'';
      assert value != "" && value[0] != '\'';
      assert text == [value[0]] + (EscapeQuotes(value[1..]) + "'");
      assert forall i :: 0 <= i < n - 1 ==> (EscapeQuotes(value[1..]) + "'")[i] == text[i + 1];
      LettersAtFront(value[1..], n - 1);
      assert forall i :: 0 < i < n ==> value[i] == value[1..][i - 1];
    }
  }

  predicate Letters(word: string) {
    forall i :: 0 <= i < |word| ==> 'a' <= word[i] <= 'z'
  }

  /** Quoting neither makes nor breaks a whole word at the front. */
  lemma QuotedWord(value: string, word: string)
    requires Letters(word)
    ensures WholeWord(EscapeQuotes(value) + "'", word) <==> WholeWord(value, word)
  {
    var text, n := EscapeQuotes(value) + "'", |word|;
    if Leads(text, word) {
      forall i | 0 <= i < n ensures text[i] != '\'' { assert Folded(text[i]) == word[i]; }
      LettersAtFront(value, n);
    } else if Leads(value, word) {
      forall i | 0 <= i < n ensures value[i] != '\'' { assert Folded(value[i]) == word[i]; }
    }
    if Leads(text, word) || Leads(value, word) {
      EscapeKeepsLetters(value, n);
      assert text == value[..n] + (EscapeQuotes(value[n..]) + "'");
      assert forall i :: 0 <= i < n ==> text[i] == value[i];
      assert text[n] == (EscapeQuotes(value[n..]) + "'")[0];
    }
  }

  lemma QuotedWordAt(value: string)
    ensures WordAt(EscapeQuotes(value) + "'") == WordAt(value)
  {
    QuotedWord(value, "blocked");
    QuotedWord(value, "passed");
  }

  lemma PastOther(c: char, s: string, inWord: bool)
    requires !IsWordChar(c)
    ensures Masked([c] + s, inWord) == Masked(s, false)
  {
    assert ([c] + s)[1..] == s;
    assert Folded(([c] + s)[0]) != "blocked"[0] && Folded(([c] + s)[0]) != "passed"[0];
  }

  lemma PastQuote(s: string, inWord: bool)
    ensures Masked(QUOTED_QUOTE + s, inWord) == Masked(s, false)
  {
    var q, d := '\'', '"';
    assert QUOTED_QUOTE + s == [q] + ([d] + ([q] + ([d] + ([q] + s))));
    PastOther(q, [d] + ([q] + ([d] + ([q] + s))), inWord);
    PastOther(d, [q] + ([d] + ([q] + s)), false);
    PastOther(q, [d] + ([q] + s), false);
    PastOther(d, [q] + s, false);
    PastOther(q, s, false);
  }

  lemma WordHasNoQuote(s: string)
    ensures forall i :: 0 <= i < WordAt(s) ==> s[i] != '\''
  {
    forall i | 0 <= i < WordAt(s) ensures s[i] != '\'' {
      if WordAt(s) == 7 { assert Folded(s[i]) == "blocked"[i]; } else { assert Folded(s[i]) == "passed"[i]; }
    }
  }

  lemma QuotedPastWord(value: string)
    ensures WordAt(value) <= |EscapeQuotes(value)|
    ensures (EscapeQuotes(value) + "'")[WordAt(value)..] == EscapeQuotes(value[WordAt(value)..]) + "'"
  {
    WordHasNoQuote(value);
    EscapeKeepsLetters(value, WordAt(value));
  }

  lemma PastFirst(s: string, inWord: bool)
    requires s != "" && (inWord || WordAt(s) == 0)
    ensures Masked(s, inWord) == Masked(s[1..], IsWordChar(s[0]))
  {}

  lemma PastWord(s: string)
    requires s != "" && WordAt(s) > 0
    ensures Masked(s, false) == 1 + Masked(s[WordAt(s)..], true)
  {}

  /** A quote in the argument. */
  lemma MaskedAtQuote(value: string, inWord: bool)
    requires value != "" && value[0] == '\''
    ensures Masked(EscapeQuotes(value) + "'", inWord) == Masked(EscapeQuotes(value[1..]) + "'", false)
    ensures Masked(value, inWord) == Masked(value[1..], false)
  {
    PastQuote(EscapeQuotes(value[1..]) + "'", inWord);
    assert EscapeQuotes(value) + "'" == QUOTED_QUOTE + (EscapeQuotes(value[1..]) + "'");
    PastOther('\'', value[1..], inWord);
    assert value == ['\''] + value[1..];
  }

  /** A masked word. */
  lemma MaskedAtWord(value: string)
    requires value != "" && WordAt(value) > 0
    ensures var n := WordAt(value);
            && Masked(EscapeQuotes(value) + "'", false) == 1 + Masked(EscapeQuotes(value[n..]) + "'", true)
            && Masked(value, false) == 1 + Masked(value[n..], true)
  {
    QuotedWordAt(value);
    QuotedPastWord(value);
    PastWord(EscapeQuotes(value) + "'");
    PastWord(value);
  }

  /** Any other character. */
  lemma MaskedAtOther(value: string, inWord: bool)
    requires value != "" && value[0] != '\'' && (inWord || WordAt(value) == 0)
    ensures Masked(EscapeQuotes(value) + "'", inWord) == Masked(EscapeQuotes(value[1..]) + "'", IsWordChar(value[0]))
    ensures Masked(value, inWord) == Masked(value[1..], IsWordChar(value[0]))
  {
    var text := EscapeQuotes(value) + "'";
    QuotedWordAt(value);
    assert text[1..] == EscapeQuotes(value[1..]) + "'" && text[0] == value[0];
    PastFirst(text, inWord);
    PastFirst(value, inWord);
  }

  lemma {:induction false} MaskedQuoted(value: string, inWord: bool)
    ensures Masked(EscapeQuotes(value) + "'", inWord) == Masked(value, inWord)
    decreases |value|
  {
    if value == "" {
      PastOther('\'', "", inWord);
      assert EscapeQuotes(value) + "'" == ['\''] + "";
    } else if value[0] == '\'' {
      MaskedQuoted(value[1..], false);
      MaskedAtQuote(value, inWord);
    } else if !inWord && WordAt(value) > 0 {
      MaskedQuoted(value[WordAt(value)..], true);
      MaskedAtWord(value);
    } else {
      MaskedQuoted(value[1..], IsWordChar(value[0]));
      MaskedAtOther(value, inWord);
    }
  }

  lemma MaskedArgument(value: string)
    ensures Masked(ShellArgument(value), false) == Masked(value, false)
  {
    if !Safe(value) {
      MaskedQuoted(value, false);
      PastOther('\'', EscapeQuotes(value) + "'", false);
      assert ShellArgument(value) == ['\''] + (EscapeQuotes(value) + "'");
    }
  }

  // --- the command of a warning ---------------------------------------------------------------------------------------

  function AllMasked(argv: seq<string>): nat {
    if argv == [] then 0 else Masked(argv[0], false) + AllMasked(argv[1..])
  }

  lemma {:induction false} ShownCounts(argv: seq<string>)
    ensures Count('[', Shown(argv)) == Count('[', Concat(argv)) + AllMasked(argv)
  {
    if argv != [] {
      var first := ShellArgument(argv[0]);
      MaskingCounts(first, false);
      MaskedArgument(argv[0]);
      ArgumentCounts(argv[0]);
      ShownCounts(argv[1..]);
      CountAdds('[', argv[0], Concat(argv[1..]));
      CountAdds('[', SafeDisplay(first) + " ", Shown(argv[1..]));
      CountAdds('[', SafeDisplay(first), " ");
      CountNone('[', " ");
      if |argv| == 1 { assert argv[1..] == []; }
    }
  }

  lemma {:induction false} ShownAsCommand(argv: seq<string>)
    requires AllMasked(argv) == 0
    ensures Shown(argv) == CommandText(argv)
  {
    if argv != [] {
      MaskedArgument(argv[0]);
      NothingMasked(ShellArgument(argv[0]), false);
      ShownAsCommand(argv[1..]);
    }
  }

  lemma {:induction false} AllMaskedIff(argv: seq<string>)
    ensures AllMasked(argv) == 0 <==> forall i :: 0 <= i < |argv| ==> !HasMaskedWord(argv[i], false)
  {
    if argv != [] {
      MaskedIff(argv[0], false);
      AllMaskedIff(argv[1..]);
      assert forall i :: 0 < i < |argv| ==> argv[i] == argv[1..][i - 1];
      assert forall i :: 0 <= i < |argv| - 1 ==> argv[1..][i] == argv[i + 1];
    }
  }

  /**
   The command a warning shows tokenizes back to the redacted argv exactly when that is printable and fits, and none of
   its arguments has one of the two words as a whole word. So it is the gate's own command where redaction changed nothing.
   */
  lemma RerunTokenizesIff(argv: seq<string>)
    ensures Tokens(Shown(argv)) == Ok(argv) <==>
              && Printable(argv) && Utf16Length(CommandText(argv)) <= MAX_SHELL_COMMAND_CHARS
              && forall i :: 0 <= i < |argv| ==> !HasMaskedWord(argv[i], false)
  {
    AllMaskedIff(argv);
    PrintThenTokenize(argv);
    if AllMasked(argv) == 0 {
      ShownAsCommand(argv);
    } else if Tokens(Shown(argv)) == Ok(argv) {
      TokenizedCount(Shown(argv), argv, '[');
      ShownCounts(argv);
    }
  }
}
