/**
 The recognizer for one simple shell command, and the printer that quotes an argument vector.

 The loop is proved equal to a scanner function; the scanner is then compared with the quoting rules
 of the POSIX shell (POSIX.1-2017, Shell Command Language, sections 2.2 and 2.6.7), written as a
 grammar of lexemes that knows nothing of the scanner's state.
 */
module CommandTokenizer {
  import opened Rows
  import opened Utf16

  const MAX_SHELL_COMMAND_CHARS := 65_536

  predicate IsUnsupported(c: char) {
    || c == ';' || c == '|' || c == '&' || c == '<' || c == '>' || c == '(' || c == ')' || c == '$' || c == '`'
    || c == '#' || c == '*' || c == '?' || c == '[' || c == ']' || c == '{' || c == '}' || c == '!' || c == '~'
  }

  /** Two readings of what separates words: the program's, and the POSIX locale's. */
  datatype Blanks = JsSpace | PosixBlank

  predicate IsPosixBlank(c: char) { c == ' ' || c == '\t' }

  /** What the regular-expression class `\s` matches. */
  predicate IsJsSpace(c: char) {
    || c == ' ' || '\t' <= c <= '\r' || c == '\U{00A0}' || c == '\U{1680}' || '\U{2000}' <= c <= '\U{200A}'
    || c == '\U{2028}' || c == '\U{2029}' || c == '\U{202F}' || c == '\U{205F}' || c == '\U{3000}' || c == '\U{FEFF}'
  }

  predicate IsBlank(blanks: Blanks, c: char) {
    if blanks.JsSpace? then IsJsSpace(c) else IsPosixBlank(c)
  }

  predicate IsNewline(c: char) { c == '\n' || c == '\r' }

  predicate IsQuoting(c: char) { c == '\'' || c == '"' || c == '\\' }

  predicate IsDoubleEscapable(c: char) { c == '$' || c == '`' || c == '"' || c == '\\' }

  datatype TokenError =
    | EmptyOversizedOrNul | NewlineControl | ExpansionUnsupported | MalformedEscape
    | UnsupportedSyntax(c: char) | MalformedQuoting | EmptyCommand

  type TokenizeResult = Result<seq<string>, TokenError>

  // --- the scanner ---------------------------------------------------------------------------

  datatype Quote = Unquoted | Single | Double

  datatype State = State(argv: seq<string>, token: string, started: bool, quote: Quote) {
    function Append(c: char): State { this.(token := token + [c], started := true) }
    function Finish(): State {
      if started then this.(argv := argv + [token], token := "", started := false) else this
    }
  }

  const START := State([], "", false, Unquoted)

  /** What one round of the loop does: fail, or move past `width` characters into a new state. */
  datatype Round = Fail(error: TokenError) | Advance(width: nat, next: State)

  function Next(text: string, st: State, blanks: Blanks): (r: Round)
    requires text != ""
    ensures r.Advance? ==> 1 <= r.width <= |text|
  {
    var c := text[0];
    if IsNewline(c) then Fail(NewlineControl)
    else match st.quote
      case Single =>
        Advance(1, if c == '\'' then st.(quote := Unquoted) else st.(token := st.token + [c]))
      case Double =>
        if c == '"' then Advance(1, st.(quote := Unquoted))
        else if c == '$' || c == '`' then Fail(ExpansionUnsupported)
        else if c == '\\' then
          if |text| == 1 || IsNewline(text[1]) then Fail(MalformedEscape)
          else if IsDoubleEscapable(text[1]) then Advance(2, st.Append(text[1]))
          else Advance(1, st.Append('\\'))
        else Advance(1, st.Append(c))
      case Unquoted =>
        if IsBlank(blanks, c) then Advance(1, st.Finish())
        else if c == '\'' then Advance(1, st.(quote := Single, started := true))
        else if c == '"' then Advance(1, st.(quote := Double, started := true))
        else if c == '\\' then
          if |text| == 1 || IsNewline(text[1]) then Fail(MalformedEscape)
          else Advance(2, st.Append(text[1]))
        else if IsUnsupported(c) then Fail(UnsupportedSyntax(c))
        else Advance(1, st.Append(c))
  }

  /** The rest of a scan from a state, with a given set of word separators. */
  function Scan(text: string, st: State, blanks: Blanks): TokenizeResult
    decreases |text|
  {
    if text == "" then
      if st.quote != Unquoted then Err(MalformedQuoting)
      else if st.Finish().argv == [] then Err(EmptyCommand)
      else Ok(st.Finish().argv)
    else match Next(text, st, blanks)
      case Fail(error) => Err(error)
      case Advance(width, next) => Scan(text[width..], next, blanks)
  }

  predicate Admissible(command: string) {
    command != "" && Utf16Length(command) <= MAX_SHELL_COMMAND_CHARS && '\0' !in command
  }

  function Tokens(command: string): TokenizeResult {
    if Admissible(command) then Scan(command, START, JsSpace) else Err(EmptyOversizedOrNul)
  }

  /** The tokenizer: one pass, updating the token, the quote and the argument vector. */
  method TokenizeSimpleCommand(command: string) returns (r: TokenizeResult)
    ensures r == Tokens(command)
  {
    if !Admissible(command) {
      return Err(EmptyOversizedOrNul);
    }
    var argv: seq<string>, token, tokenStarted, quote := [], "", false, Unquoted;
    var index := 0;
    assert command[0..] == command;
    while index < |command|
      invariant index <= |command|
      invariant Scan(command[index..], State(argv, token, tokenStarted, quote), JsSpace) == Tokens(command)
    {
      ghost var text := command[index..];
      assert text[1..] == command[index + 1..];
      assert |text| > 1 ==> text[2..] == command[index + 2..] && text[1] == command[index + 1];
      var c := command[index];
      if c == '\n' || c == '\r' {
        return Err(NewlineControl);
      }
      if quote == Single {
        if c == '\'' { quote := Unquoted; } else { token := token + [c]; }
      } else if quote == Double {
        if c == '"' {
          quote := Unquoted;
        } else if c == '$' || c == '`' {
          return Err(ExpansionUnsupported);
        } else if c == '\\' {
          if index + 1 == |command| || IsNewline(command[index + 1]) {
            return Err(MalformedEscape);
          }
          if IsDoubleEscapable(command[index + 1]) {
            index := index + 1;
            token := token + [command[index]];
          } else {
            token := token + ['\\'];
          }
          tokenStarted := true;
        } else {
          token := token + [c];
          tokenStarted := true;
        }
      } else if IsJsSpace(c) {
        if tokenStarted {
          argv, token, tokenStarted := argv + [token], "", false;
        }
      } else if c == '\'' {
        quote, tokenStarted := Single, true;
      } else if c == '"' {
        quote, tokenStarted := Double, true;
      } else if c == '\\' {
        index := index + 1;
        if index >= |command| || IsNewline(command[index]) {
          return Err(MalformedEscape);
        }
        token, tokenStarted := token + [command[index]], true;
      } else if IsUnsupported(c) {
        return Err(UnsupportedSyntax(c));
      } else {
        token, tokenStarted := token + [c], true;
      }
      index := index + 1;
    }
    assert command[index..] == "";
    if quote != Unquoted {
      return Err(MalformedQuoting);
    }
    if tokenStarted {
      argv := argv + [token];
    }
    if argv == [] {
      return Err(EmptyCommand);
    }
    return Ok(argv);
  }

  // --- the quoting grammar ---------------------------------------------------------------------

  /** Inside double quotes: an ordinary character, a removed backslash, or a backslash that stays. */
  datatype Item = Plain(c: char) | Escaped(c: char) | Kept(c: char)

  datatype Lexeme =
    | Blank(c: char)
    | Bare(c: char)
    | Backslash(c: char)
    | SingleQuoted(text: string)
    | DoubleQuoted(items: seq<Item>)

  predicate WellFormedItem(i: Item) {
    match i
    case Plain(c) => !IsDoubleEscapable(c) && !IsNewline(c)
    case Escaped(c) => IsDoubleEscapable(c)
    case Kept(c) => !IsDoubleEscapable(c) && !IsNewline(c)
  }

  predicate WellFormedItems(items: seq<Item>) {
    forall i :: 0 <= i < |items| ==> WellFormedItem(items[i])
  }

  predicate LiteralText(t: string) {
    forall i :: 0 <= i < |t| ==> t[i] != '\'' && !IsNewline(t[i])
  }

  predicate WellFormed(l: Lexeme, blanks: Blanks) {
    match l
    case Blank(c) => IsBlank(blanks, c) && !IsNewline(c)
    case Bare(c) => !IsBlank(blanks, c) && !IsQuoting(c) && !IsNewline(c) && !IsUnsupported(c)
    case Backslash(c) => !IsNewline(c)
    case SingleQuoted(t) => LiteralText(t)
    case DoubleQuoted(items) => WellFormedItems(items)
  }

  predicate AllWellFormed(ls: seq<Lexeme>, blanks: Blanks) {
    ls == [] || (WellFormed(ls[0], blanks) && AllWellFormed(ls[1..], blanks))
  }

  function RenderItem(i: Item): string { if i.Plain? then [i.c] else ['\\', i.c] }

  function ItemText(i: Item): string { if i.Kept? then ['\\', i.c] else [i.c] }

  function RenderItems(items: seq<Item>): string {
    if items == [] then "" else RenderItem(items[0]) + RenderItems(items[1..])
  }

  function ItemsText(items: seq<Item>): string {
    if items == [] then "" else ItemText(items[0]) + ItemsText(items[1..])
  }

  function RenderLexeme(l: Lexeme): string {
    match l
    case Blank(c) => [c]
    case Bare(c) => [c]
    case Backslash(c) => ['\\', c]
    case SingleQuoted(t) => ['\''] + t + ['\'']
    case DoubleQuoted(items) => ['"'] + RenderItems(items) + ['"']
  }

  function Render(ls: seq<Lexeme>): string {
    if ls == [] then "" else RenderLexeme(ls[0]) + Render(ls[1..])
  }

  /** Quote removal: the characters a lexeme contributes to its word. */
  function Text(l: Lexeme): string {
    match l
    case Blank(_) => ""
    case Bare(c) => [c]
    case Backslash(c) => [c]
    case SingleQuoted(t) => t
    case DoubleQuoted(items) => ItemsText(items)
  }

  function Texts(ls: seq<Lexeme>): string {
    if ls == [] then "" else Text(ls[0]) + Texts(ls[1..])
  }

  /** Length of the word at the front: the longest run without a blank. */
  function WordLength(ls: seq<Lexeme>): (n: nat)
    ensures n <= |ls|
  {
    if ls == [] || ls[0].Blank? then 0 else 1 + WordLength(ls[1..])
  }

  /** The words: maximal runs between blanks, each with its quotes removed. */
  function Words(ls: seq<Lexeme>): seq<string>
    decreases |ls|
  {
    if ls == [] then []
    else if ls[0].Blank? then Words(ls[1..])
    else [Texts(ls[..WordLength(ls)])] + Words(ls[WordLength(ls)..])
  }

  // --- scanning a lexeme ------------------------------------------------------------------------

  function Step(st: State, l: Lexeme): State {
    if l.Blank? then st.Finish() else st.(token := st.token + Text(l), started := true)
  }

  lemma {:induction false} ScanLiteral(t: string, after: string, st: State, blanks: Blanks)
    requires st.quote == Single && LiteralText(t)
    ensures Scan(t + after, st, blanks) == Scan(after, st.(token := st.token + t), blanks)
  {
    if t == "" {
      assert t + after == after && st.token + t == st.token;
    } else {
      assert (t + after)[0] == t[0] && (t + after)[1..] == t[1..] + after;
      ScanLiteral(t[1..], after, st.(token := st.token + [t[0]]), blanks);
      assert (st.token + [t[0]]) + t[1..] == st.token + t;
    }
  }

  lemma ScanItem(i: Item, after: string, st: State, blanks: Blanks)
    requires st.quote == Double && st.started && WellFormedItem(i)
    ensures Scan(RenderItem(i) + after, st, blanks) == Scan(after, st.(token := st.token + ItemText(i)), blanks)
  {
    var text := RenderItem(i) + after;
    if i.Plain? {
      assert text[1..] == after;
    } else {
      assert text[0] == '\\' && text[1..] == [i.c] + after && ([i.c] + after)[1..] == after;
      if i.Kept? {
        assert Scan([i.c] + after, st.Append('\\'), blanks) == Scan(after, st.Append('\\').Append(i.c), blanks);
        assert (st.token + ['\\']) + [i.c] == st.token + ItemText(i);
      }
    }
  }

  lemma {:induction false} ScanItems(items: seq<Item>, after: string, st: State, blanks: Blanks)
    requires st.quote == Double && st.started && WellFormedItems(items)
    ensures Scan(RenderItems(items) + after, st, blanks) == Scan(after, st.(token := st.token + ItemsText(items)), blanks)
  {
    if items == [] {
      assert RenderItems(items) + after == after && st.token + ItemsText(items) == st.token;
    } else {
      var tail := RenderItems(items[1..]) + after;
      assert RenderItems(items) + after == RenderItem(items[0]) + tail;
      ScanItem(items[0], tail, st, blanks);
      ScanItems(items[1..], after, st.(token := st.token + ItemText(items[0])), blanks);
      assert (st.token + ItemText(items[0])) + ItemsText(items[1..]) == st.token + ItemsText(items);
    }
  }

  lemma ScanSingleQuoted(t: string, rest: string, st: State, blanks: Blanks)
    requires LiteralText(t) && st.quote == Unquoted
    ensures Scan(['\''] + t + ['\''] + rest, st, blanks) == Scan(rest, st.(token := st.token + t, started := true), blanks)
  {
    var text, after := ['\''] + t + ['\''] + rest, ['\''] + rest;
    assert text[0] == '\'' && text[1..] == t + after;
    ScanLiteral(t, after, st.(quote := Single, started := true), blanks);
    assert after[1..] == rest;
  }

  lemma ScanDoubleQuoted(items: seq<Item>, rest: string, st: State, blanks: Blanks)
    requires WellFormedItems(items) && st.quote == Unquoted
    ensures Scan(['"'] + RenderItems(items) + ['"'] + rest, st, blanks)
         == Scan(rest, st.(token := st.token + ItemsText(items), started := true), blanks)
  {
    var text, after := ['"'] + RenderItems(items) + ['"'] + rest, ['"'] + rest;
    assert text[0] == '"' && text[1..] == RenderItems(items) + after;
    ScanItems(items, after, st.(quote := Double, started := true), blanks);
    assert after[1..] == rest;
  }

  lemma ScanLexeme(l: Lexeme, rest: string, st: State, blanks: Blanks)
    requires WellFormed(l, blanks) && st.quote == Unquoted
    ensures Scan(RenderLexeme(l) + rest, st, blanks) == Scan(rest, Step(st, l), blanks)
  {
    match l
    case Blank(c) => assert ([c] + rest)[1..] == rest;
    case Bare(c) => assert ([c] + rest)[1..] == rest;
    case Backslash(c) => assert (['\\', c] + rest)[1..] == [c] + rest && ([c] + rest)[1..] == rest;
    case SingleQuoted(t) => ScanSingleQuoted(t, rest, st, blanks);
    case DoubleQuoted(items) => ScanDoubleQuoted(items, rest, st, blanks);
  }

  /** The words a scan still owes: an open token first takes the pieces that touch it. */
  function Owed(st: State, ls: seq<Lexeme>): seq<string> {
    if st.started then st.argv + [st.token + Texts(ls[..WordLength(ls)])] + Words(ls[WordLength(ls)..])
    else st.argv + Words(ls)
  }

  lemma OwedStep(st: State, ls: seq<Lexeme>)
    requires ls != [] && (!st.started ==> st.token == "")
    ensures Owed(Step(st, ls[0]), ls[1..]) == Owed(st, ls)
  {
    var l, tail := ls[0], ls[1..];
    var n := WordLength(ls);
    if l.Blank? {
      assert ls[..0] == [] && ls[0..] == ls;
      if st.started { assert st.token + "" == st.token; }
    } else {
      var m := WordLength(tail);
      assert ls[..n] == [l] + tail[..m] && ls[n..] == tail[m..];
      assert ls[..n][1..] == tail[..m];
      assert st.token + Text(l) + Texts(tail[..m]) == st.token + Texts(ls[..n]);
      if !st.started {
        var word, later := Texts(ls[..n]), Words(ls[n..]);
        assert word == Text(l) + Texts(tail[..m]) && "" + Text(l) == Text(l);
        assert st.argv + ([word] + later) == st.argv + [word] + later;
      }
    }
  }

  /** Completeness: whatever the grammar reads, the scanner returns. */
  lemma {:induction false} ScanRender(ls: seq<Lexeme>, st: State, blanks: Blanks)
    requires AllWellFormed(ls, blanks) && st.quote == Unquoted && (!st.started ==> st.token == "")
    ensures Scan(Render(ls), st, blanks) == (if Owed(st, ls) == [] then Err(EmptyCommand) else Ok(Owed(st, ls)))
  {
    if ls == [] {
      assert st.argv + Words([]) == st.argv && st.token + Texts(ls[..0]) == st.token;
      assert st.argv + [st.token] + [] == st.argv + [st.token];
    } else {
      assert WellFormed(ls[0], blanks);
      ScanLexeme(ls[0], Render(ls[1..]), st, blanks);
      OwedStep(st, ls);
      ScanRender(ls[1..], Step(st, ls[0]), blanks);
    }
  }

  // --- the scanner only accepts what the grammar reads --------------------------------------------

  /** A scan that succeeds from inside single quotes met the closing quote. */
  lemma {:induction false} SingleCloses(text: string, st: State, blanks: Blanks) returns (t: string, rest: string)
    requires st.quote == Single && Scan(text, st, blanks).Ok?
    ensures text == t + ['\''] + rest && LiteralText(t)
    decreases |text|
  {
    if text[0] == '\'' {
      t, rest := "", text[1..];
    } else {
      t, rest := SingleCloses(text[1..], st.(token := st.token + [text[0]]), blanks);
      t := [text[0]] + t;
    }
  }

  lemma {:induction false} DoubleCloses(text: string, st: State, blanks: Blanks) returns (items: seq<Item>, rest: string)
    requires st.quote == Double && Scan(text, st, blanks).Ok?
    ensures text == RenderItems(items) + ['"'] + rest && WellFormedItems(items)
    decreases |text|
  {
    if text[0] == '"' {
      items, rest := [], text[1..];
    } else {
      var item, st', width := NextItem(text, st, blanks);
      var more;
      more, rest := DoubleCloses(text[width..], st', blanks);
      items := [item] + more;
      PrependItem(item, more, text, width, rest);
    }
  }

  lemma PrependItem(item: Item, more: seq<Item>, text: string, width: nat, rest: string)
    requires width <= |text| && text[..width] == RenderItem(item) && text[width..] == RenderItems(more) + ['"'] + rest
    requires WellFormedItem(item) && WellFormedItems(more)
    ensures text == RenderItems([item] + more) + ['"'] + rest && WellFormedItems([item] + more)
  {
    var items := [item] + more;
    assert items[1..] == more;
    assert text == text[..width] + text[width..];
  }

  /** The item at the front of an accepted text inside double quotes. */
  lemma NextItem(text: string, st: State, blanks: Blanks) returns (item: Item, next: State, width: nat)
    requires st.quote == Double && Scan(text, st, blanks).Ok? && text[0] != '"'
    ensures WellFormedItem(item) && 0 < width <= |text| && text[..width] == RenderItem(item)
    ensures next.quote == Double && Scan(text[width..], next, blanks).Ok?
  {
    if text[0] == '\\' {
      var c := text[1];
      item := if IsDoubleEscapable(c) then Escaped(c) else Kept(c);
      next := if IsDoubleEscapable(c) then st.Append(c) else st.Append('\\').Append(c);
      width := 2;
      assert text[1..][1..] == text[2..];
    } else {
      item, next, width := Plain(text[0]), st.Append(text[0]), 1;
    }
  }

  /** The lexeme at the front of an accepted text. */
  lemma FirstLexeme(text: string, st: State, blanks: Blanks) returns (l: Lexeme, rest: string)
    requires st.quote == Unquoted && text != "" && Scan(text, st, blanks).Ok?
    ensures WellFormed(l, blanks) && text == RenderLexeme(l) + rest && |rest| < |text|
  {
    var c := text[0];
    rest := text[1..];
    if IsBlank(blanks, c) {
      l := Blank(c);
    } else if c == '\'' {
      var t;
      t, rest := SingleCloses(text[1..], st.(quote := Single, started := true), blanks);
      l := SingleQuoted(t);
    } else if c == '"' {
      var items;
      items, rest := DoubleCloses(text[1..], st.(quote := Double, started := true), blanks);
      l := DoubleQuoted(items);
    } else if c == '\\' {
      l, rest := Backslash(text[1]), text[2..];
    } else {
      l := Bare(c);
    }
  }

  lemma {:induction false} ScanHasReading(text: string, st: State, blanks: Blanks) returns (ls: seq<Lexeme>)
    requires st.quote == Unquoted && Scan(text, st, blanks).Ok?
    ensures AllWellFormed(ls, blanks) && Render(ls) == text
    decreases |text|
  {
    if text == "" {
      ls := [];
    } else {
      var l, rest := FirstLexeme(text, st, blanks);
      ScanLexeme(l, rest, st, blanks);
      ls := ScanHasReading(rest, Step(st, l), blanks);
      ls := [l] + ls;
    }
  }

  /** A reading of a text under the grammar, with its non-empty word list. */
  predicate Reads(ls: seq<Lexeme>, text: string, argv: seq<string>, blanks: Blanks) {
    AllWellFormed(ls, blanks) && Render(ls) == text && Words(ls) == argv && argv != []
  }

  /** Scanner and grammar agree, so every reading of a text has the same words. */
  lemma ScanIsGrammar(text: string, argv: seq<string>, blanks: Blanks)
    ensures Scan(text, START, blanks) == Ok(argv) <==> exists ls :: Reads(ls, text, argv, blanks)
  {
    if Scan(text, START, blanks) == Ok(argv) {
      var ls := ScanHasReading(text, START, blanks);
      ScanRender(ls, START, blanks);
      assert [] + Words(ls) == Words(ls);
      assert Reads(ls, text, argv, blanks);
    }
    if ls :| Reads(ls, text, argv, blanks) {
      ScanRender(ls, START, blanks);
      assert [] + Words(ls) == Words(ls);
    }
  }

  /** What the tokenizer accepts and returns, without mentioning how it scans. */
  lemma TokenizerIsGrammar(command: string, argv: seq<string>)
    ensures Tokens(command) == Ok(argv) <==> Admissible(command) && exists ls :: Reads(ls, command, argv, JsSpace)
  {
    if Admissible(command) { ScanIsGrammar(command, argv, JsSpace); }
  }

  // --- acceptance, stated on the characters of the text ---------------------------------------------

  /** Where a character stands: outside quotes, inside them, or right after a backslash that acts on it. */
  datatype Place = Outside | InSingle | InDouble | EscapedOutside | EscapedInDouble

  /** Where the next character stands. */
  function Moved(p: Place, c: char): Place {
    match p
    case Outside => if c == '\'' then InSingle else if c == '"' then InDouble else if c == '\\' then EscapedOutside else Outside
    case InSingle => if c == '\'' then Outside else InSingle
    case InDouble => if c == '"' then Outside else if c == '\\' then EscapedInDouble else InDouble
    case EscapedOutside => Outside
    case EscapedInDouble => InDouble
  }

  /** Where the character at a position stands, in a text whose first one stands at `p`. */
  function PlaceFrom(text: string, p: Place, i: nat): Place
    requires i <= |text|
  {
    if i == 0 then p else PlaceFrom(text[1..], Moved(p, text[0]), i - 1)
  }

  /** No newline anywhere, no operator, expansion or glob character outside quotes, no live expansion in double quotes. */
  predicate Allowed(p: Place, c: char) {
    && !IsNewline(c) && (p == Outside ==> !IsUnsupported(c))
    && (p == InDouble ==> c != '$' && c != '`')
  }

  predicate AllAllowed(text: string, p: Place) {
    && (forall i :: 0 <= i < |text| ==> Allowed(PlaceFrom(text, p, i), text[i]))
    && PlaceFrom(text, p, |text|) == Outside
  }

  predicate HasWord(text: string) {
    exists i :: 0 <= i < |text| && !IsJsSpace(text[i])
  }

  lemma AllAllowedStep(text: string, p: Place)
    requires text != ""
    ensures AllAllowed(text, p) <==> Allowed(p, text[0]) && AllAllowed(text[1..], Moved(p, text[0]))
  {
    var rest, q := text[1..], Moved(p, text[0]);
    forall i | 0 <= i < |rest| ensures PlaceFrom(text, p, i + 1) == PlaceFrom(rest, q, i) && text[i + 1] == rest[i] {}
    if AllAllowed(text, p) {
      assert PlaceFrom(text, p, 0) == p;
      forall i | 0 <= i < |rest| ensures Allowed(PlaceFrom(rest, q, i), rest[i]) {
        assert Allowed(PlaceFrom(text, p, i + 1), text[i + 1]);
      }
    }
    if Allowed(p, text[0]) && AllAllowed(rest, q) {
      forall i | 0 <= i < |text| ensures Allowed(PlaceFrom(text, p, i), text[i]) {
        if i > 0 { assert Allowed(PlaceFrom(rest, q, i - 1), rest[i - 1]); }
      }
    }
  }

  lemma HasWordStep(text: string)
    requires text != ""
    ensures HasWord(text) <==> !IsJsSpace(text[0]) || HasWord(text[1..])
  {
    assert forall i :: 1 <= i < |text| ==> text[i] == text[1..][i - 1];
  }

  function PlaceOf(q: Quote): Place {
    match q
    case Unquoted => Outside
    case Single => InSingle
    case Double => InDouble
  }

  /** A scan in progress: something was read already, or there is a word to come. */
  predicate WillHaveWord(text: string, st: State) {
    st.started || st.argv != [] || HasWord(text)
  }

  /** A backslash and the character it acts on. */
  lemma BackslashStep(text: string, p: Place)
    requires text != "" && text[0] == '\\' && (p == Outside || p == InDouble)
    ensures |text| == 1 || IsNewline(text[1]) ==> !AllAllowed(text, p)
    ensures |text| >= 2 && !IsNewline(text[1]) ==> (AllAllowed(text, p) <==> AllAllowed(text[2..], p))
  {
    AllAllowedStep(text, p);
    if |text| >= 2 {
      AllAllowedStep(text[1..], Moved(p, '\\'));
      assert text[1..][1..] == text[2..];
    }
  }

  lemma {:induction false} ScanOkIff(text: string, st: State)
    requires st.quote != Unquoted ==> st.started
    ensures Scan(text, st, JsSpace).Ok? <==> AllAllowed(text, PlaceOf(st.quote)) && WillHaveWord(text, st)
    decreases |text|
  {
    if text != "" {
      var p, c := PlaceOf(st.quote), text[0];
      AllAllowedStep(text, p);
      HasWordStep(text);
      if c == '\\' && st.quote != Single { BackslashStep(text, p); }
      match Next(text, st, JsSpace)
      case Fail(error) =>
      case Advance(width, next) =>
        ScanOkIff(text[width..], next);
        if c == '\\' && st.quote == Double && width == 1 { KeptBackslash(text); }
    }
  }

  /** A backslash that stays is no different from the plain character it is followed by. */
  lemma KeptBackslash(text: string)
    requires |text| >= 2 && text[0] == '\\' && !IsDoubleEscapable(text[1]) && !IsNewline(text[1])
    ensures AllAllowed(text, InDouble) <==> AllAllowed(text[1..], InDouble)
  {
    BackslashStep(text, InDouble);
    AllAllowedStep(text[1..], InDouble);
    assert text[1..][1..] == text[2..];
  }

  /**
   Exactly which commands are accepted, character by character: no newline, no operator, expansion or glob character
   outside quotes, no `$` or backquote in double quotes, every quote and backslash closed, and something besides space.
   */
  lemma AcceptedIff(command: string)
    ensures Tokens(command).Ok? <==> Admissible(command) && AllAllowed(command, Outside) && HasWord(command)
  {
    if Admissible(command) { ScanOkIff(command, START); }
  }

  // --- where the tokenizer and POSIX word splitting part ------------------------------------------

  /** Whether an unquoted character of the text separates words here but not in POSIX. */
  predicate OddBlank(text: string, quote: Quote)
    decreases |text|
  {
    if text == "" then false
    else
      var c, rest := text[0], text[1..];
      match quote
      case Single => OddBlank(rest, if c == '\'' then Unquoted else Single)
      case Double =>
        if c == '\\' && rest != "" then OddBlank(rest[1..], Double)
        else OddBlank(rest, if c == '"' then Unquoted else Double)
      case Unquoted =>
        || (IsJsSpace(c) && !IsPosixBlank(c))
        || (if c == '\\' && rest != "" then OddBlank(rest[1..], Unquoted)
            else OddBlank(rest, if c == '\'' then Single else if c == '"' then Double else Unquoted))
  }

  predicate IsOdd(l: Lexeme) { l.Blank? && !IsPosixBlank(l.c) }

  lemma {:induction false} OddBlankSingle(t: string, after: string)
    requires LiteralText(t)
    ensures OddBlank(t + after, Single) == OddBlank(after, Single)
  {
    if t == "" { assert t + after == after; }
    else {
      assert (t + after)[0] == t[0] && (t + after)[1..] == t[1..] + after;
      OddBlankSingle(t[1..], after);
    }
  }

  lemma {:induction false} OddBlankDouble(items: seq<Item>, after: string)
    requires WellFormedItems(items)
    ensures OddBlank(RenderItems(items) + after, Double) == OddBlank(after, Double)
  {
    if items == [] { assert RenderItems(items) + after == after; }
    else {
      var i, tail := items[0], RenderItems(items[1..]) + after;
      assert WellFormedItem(i);
      assert RenderItems(items) + after == RenderItem(i) + tail;
      if i.Plain? { assert ([i.c] + tail)[1..] == tail; }
      else { assert (['\\', i.c] + tail)[1..] == [i.c] + tail && ([i.c] + tail)[1..] == tail; }
      OddBlankDouble(items[1..], after);
    }
  }

  predicate HasOdd(ls: seq<Lexeme>) { ls != [] && (IsOdd(ls[0]) || HasOdd(ls[1..])) }

  lemma OddBlankQuoted(open: char, body: string, rest: string)
    requires open == '\'' || open == '"'
    requires var q := if open == '"' then Double else Single;
             OddBlank(body + ([open] + rest), q) == OddBlank([open] + rest, q)
    ensures OddBlank([open] + body + [open] + rest, Unquoted) == OddBlank(rest, Unquoted)
  {
    var text := [open] + body + [open] + rest;
    assert text[0] == open && text[1..] == body + ([open] + rest);
    assert ([open] + rest)[1..] == rest;
  }

  lemma OddBlankLexeme(l: Lexeme, rest: string)
    requires WellFormed(l, JsSpace)
    ensures OddBlank(RenderLexeme(l) + rest, Unquoted) == (IsOdd(l) || OddBlank(rest, Unquoted))
  {
    match l
    case Blank(c) => assert ([c] + rest)[1..] == rest;
    case Bare(c) => assert ([c] + rest)[1..] == rest;
    case Backslash(c) => assert (['\\', c] + rest)[1..] == [c] + rest && ([c] + rest)[1..] == rest;
    case SingleQuoted(t) =>
      OddBlankSingle(t, ['\''] + rest);
      OddBlankQuoted('\'', t, rest);
    case DoubleQuoted(items) =>
      OddBlankDouble(items, ['"'] + rest);
      OddBlankQuoted('"', RenderItems(items), rest);
  }

  lemma {:induction false} OddBlankRender(ls: seq<Lexeme>)
    requires AllWellFormed(ls, JsSpace)
    ensures OddBlank(Render(ls), Unquoted) <==> HasOdd(ls)
  {
    if ls != [] {
      OddBlankLexeme(ls[0], Render(ls[1..]));
      OddBlankRender(ls[1..]);
    }
  }

  /** The POSIX reading of the same characters: an odd blank is an ordinary character of a word. */
  function Posix(l: Lexeme): Lexeme { if IsOdd(l) then Bare(l.c) else l }

  function PosixLexemes(ls: seq<Lexeme>): seq<Lexeme> {
    if ls == [] then [] else [Posix(ls[0])] + PosixLexemes(ls[1..])
  }

  lemma PosixLexeme(l: Lexeme)
    requires WellFormed(l, JsSpace)
    ensures WellFormed(Posix(l), PosixBlank) && RenderLexeme(Posix(l)) == RenderLexeme(l)
    ensures if IsOdd(l) then |Text(Posix(l))| == 1 && Text(l) == "" else Posix(l) == l
  {}

  lemma {:induction false} PosixReading(ls: seq<Lexeme>)
    requires AllWellFormed(ls, JsSpace)
    ensures var posix := PosixLexemes(ls);
            && AllWellFormed(posix, PosixBlank) && Render(posix) == Render(ls)
            && (if HasOdd(ls) then |Texts(posix)| > |Texts(ls)| else posix == ls)
  {
    if ls != [] {
      var posix, rest := PosixLexemes(ls), PosixLexemes(ls[1..]);
      PosixReading(ls[1..]);
      PosixLexeme(ls[0]);
      assert posix[0] == Posix(ls[0]) && posix[1..] == rest;
      assert Texts(posix) == Text(Posix(ls[0])) + Texts(rest);
      assert Texts(ls) == Text(ls[0]) + Texts(ls[1..]);
    }
  }

  function Concat(words: seq<string>): string {
    if words == [] then "" else words[0] + Concat(words[1..])
  }

  lemma {:induction false} TextsSplit(a: seq<Lexeme>, b: seq<Lexeme>)
    ensures Texts(a + b) == Texts(a) + Texts(b)
  {
    if a == [] { assert a + b == b; }
    else { assert (a + b)[1..] == a[1..] + b; TextsSplit(a[1..], b); }
  }

  lemma TextsCut(ls: seq<Lexeme>, n: nat)
    requires n <= |ls|
    ensures Texts(ls[..n]) + Texts(ls[n..]) == Texts(ls)
  {
    var a, b := ls[..n], ls[n..];
    assert a + b == ls;
    TextsSplit(a, b);
  }

  lemma {:induction false} WordsKeepText(ls: seq<Lexeme>)
    ensures Concat(Words(ls)) == Texts(ls)
    decreases |ls|
  {
    if ls != [] {
      if ls[0].Blank? {
        WordsKeepText(ls[1..]);
        assert Texts(ls) == Texts(ls[1..]);
      } else {
        var n := WordLength(ls);
        TextsCut(ls, n);
        WordsKeepText(ls[n..]);
        ConcatCons(Texts(ls[..n]), Words(ls[n..]));
      }
    }
  }

  lemma ConcatCons(word: string, words: seq<string>)
    ensures Concat([word] + words) == word + Concat(words)
  {
    assert ([word] + words)[1..] == words;
  }

  /**
   An accepted command has the POSIX word list exactly when no unquoted vertical tab, form feed or
   non-ASCII space occurs in it: those end a word here and are part of one in the shell.
   */
  lemma PosixWordSplit(command: string)
    requires Tokens(command).Ok?
    ensures Scan(command, START, PosixBlank) == Tokens(command) <==> !OddBlank(command, Unquoted)
  {
    var argv := Tokens(command).value;
    TokenizerIsGrammar(command, argv);
    var ls :| Reads(ls, command, argv, JsSpace);
    var posix := PosixLexemes(ls);
    OddBlankRender(ls);
    PosixReading(ls);
    ScanRender(posix, START, PosixBlank);
    assert [] + Words(posix) == Words(posix);
    WordsKeepText(ls);
    WordsKeepText(posix);
  }

  /** A vertical tab is the smallest case: two words here, one in POSIX. */
  lemma VerticalTabSplits()
    ensures var text := ['a', '\U{000B}', 'b'];
            Tokens(text) == Ok(["a", "b"]) && Scan(text, START, PosixBlank) == Ok([text])
  {
    var tab, text := '\U{000B}', ['a', '\U{000B}', 'b'];
    var a := State([], ['a'], true, Unquoted);
    assert text[1..] == [tab, 'b'] && [tab, 'b'][1..] == ['b'] && ['b'][1..] == [];
    assert Utf16Length(['b']) == 1 && Utf16Length([tab, 'b']) == 2;
    assert Step(START, Bare('a')) == a by { assert "" + ['a'] == ['a']; }
    ScanLexeme(Bare('a'), [tab, 'b'], START, JsSpace);
    ScanLexeme(Bare('a'), [tab, 'b'], START, PosixBlank);
    assert RenderLexeme(Bare('a')) + [tab, 'b'] == text;
    TabStep(tab, a);
  }

  lemma TabStep(tab: char, a: State)
    requires tab == '\U{000B}' && a == State([], ['a'], true, Unquoted)
    ensures Scan([tab, 'b'], a, JsSpace) == Ok(["a", "b"]) && Scan([tab, 'b'], a, PosixBlank) == Ok([['a', tab, 'b']])
  {
    assert RenderLexeme(Blank(tab)) + ['b'] == [tab, 'b'] == RenderLexeme(Bare(tab)) + ['b'];
    ScanLexeme(Blank(tab), ['b'], a, JsSpace);
    ScanLexeme(Bare(tab), ['b'], a, PosixBlank);
    assert Step(a, Blank(tab)) == State(["a"], "", false, Unquoted);
    assert Step(a, Bare(tab)) == State([], ['a', tab], true, Unquoted);
    FinalB(["a"], "", false, JsSpace);
    FinalB([], ['a', tab], true, PosixBlank);
    assert ["a"] + [['b']] == ["a", "b"] && [] + [['a', tab, 'b']] == [['a', tab, 'b']] && "" + ['b'] == ['b'];
    assert ['a', tab] + ['b'] == ['a', tab, 'b'];
  }

  lemma FinalB(argv: seq<string>, token: string, started: bool, blanks: Blanks)
    ensures Scan(['b'], State(argv, token, started, Unquoted), blanks) == Ok(argv + [token + ['b']])
  {
    var st := State(argv, token, started, Unquoted);
    assert RenderLexeme(Bare('b')) + [] == ['b'];
    ScanLexeme(Bare('b'), [], st, blanks);
    assert Step(st, Bare('b')).token == token + ['b'];
  }

  // --- printing and reading back --------------------------------------------------------------------

  predicate SafeChar(c: char) {
    || 'A' <= c <= 'Z' || 'a' <= c <= 'z' || '0' <= c <= '9'
    || c == '_' || c == '@' || c == '%' || c == '+' || c == '=' || c == ':' || c == ',' || c == '.' || c == '/' || c == '-'
  }

  predicate Safe(value: string) {
    value != "" && forall i :: 0 <= i < |value| ==> SafeChar(value[i])
  }

  const QUOTED_QUOTE: string := ['\'', '"', '\'', '"', '\'']

  /** Every single quote becomes: close, a double-quoted quote, reopen. */
  function EscapeQuotes(value: string): string {
    if value == "" then ""
    else (if value[0] == '\'' then QUOTED_QUOTE else [value[0]]) + EscapeQuotes(value[1..])
  }

  function ShellArgument(value: string): string {
    if Safe(value) then value else "'" + EscapeQuotes(value) + "'"
  }

  function CommandText(argv: seq<string>): string {
    if argv == [] then ""
    else if |argv| == 1 then ShellArgument(argv[0])
    else ShellArgument(argv[0]) + " " + CommandText(argv[1..])
  }

  function BareLexemes(value: string): seq<Lexeme> {
    if value == "" then [] else [Bare(value[0])] + BareLexemes(value[1..])
  }

  /** The reading of a quoted argument, given the single-quoted run already open. */
  function QuotedLexemes(value: string, open: string): seq<Lexeme> {
    if value == "" then [SingleQuoted(open)]
    else if value[0] == '\'' then [SingleQuoted(open), DoubleQuoted([Plain('\'')])] + QuotedLexemes(value[1..], "")
    else QuotedLexemes(value[1..], open + [value[0]])
  }

  function ArgumentLexemes(value: string): seq<Lexeme> {
    if Safe(value) then BareLexemes(value) else QuotedLexemes(value, "")
  }

  function CommandLexemes(argv: seq<string>): seq<Lexeme> {
    if argv == [] then []
    else if |argv| == 1 then ArgumentLexemes(argv[0])
    else ArgumentLexemes(argv[0]) + [Blank(' ')] + CommandLexemes(argv[1..])
  }

  predicate OneLine(value: string) { '\n' !in value && '\r' !in value }

  predicate NoBlank(ls: seq<Lexeme>) { ls == [] || (!ls[0].Blank? && NoBlank(ls[1..])) }

  lemma {:induction false} RenderConcat(a: seq<Lexeme>, b: seq<Lexeme>)
    ensures Render(a + b) == Render(a) + Render(b)
  {
    if a == [] { assert a + b == b; }
    else { assert (a + b)[1..] == a[1..] + b; RenderConcat(a[1..], b); }
  }

  lemma {:induction false} BareReading(value: string)
    requires forall i :: 0 <= i < |value| ==> SafeChar(value[i])
    ensures var ls := BareLexemes(value);
            |ls| == |value| && AllWellFormed(ls, JsSpace) && NoBlank(ls) && Render(ls) == value && Texts(ls) == value
  {
    if value != "" {
      BareReading(value[1..]);
      SafeIsBare(value[0]);
      assert BareLexemes(value)[0] == Bare(value[0]) && BareLexemes(value)[1..] == BareLexemes(value[1..]);
    }
  }

  lemma SafeIsBare(c: char)
    requires SafeChar(c)
    ensures WellFormed(Bare(c), JsSpace)
  {}

  lemma QuoteLexeme()
    ensures var l := DoubleQuoted([Plain('\'')]);
            WellFormed(l, JsSpace) && RenderLexeme(l) == ['"', '\'', '"'] && Text(l) == ['\'']
  {
    var items := [Plain('\'')];
    assert items[1..] == [];
    assert RenderItems(items) == ['\''] && ItemsText(items) == ['\''];
  }

  lemma Prepend(l: Lexeme, tail: seq<Lexeme>)
    requires WellFormed(l, JsSpace) && !l.Blank? && AllWellFormed(tail, JsSpace) && NoBlank(tail)
    ensures var ls := [l] + tail;
            && AllWellFormed(ls, JsSpace) && NoBlank(ls)
            && Render(ls) == RenderLexeme(l) + Render(tail) && Texts(ls) == Text(l) + Texts(tail)
  {
    assert ([l] + tail)[1..] == tail;
  }

  /** `ls` is one blank-free word that prints as `rendered` and means `value`. */
  predicate IsWord(ls: seq<Lexeme>, rendered: string, value: string) {
    ls != [] && AllWellFormed(ls, JsSpace) && NoBlank(ls) && Render(ls) == rendered && Texts(ls) == value
  }

  lemma CloseQuote(open: string)
    requires OneLine(open) && '\'' !in open
    ensures IsWord([SingleQuoted(open)], "'" + open + "'", open)
  {
    Prepend(SingleQuoted(open), []);
    assert [SingleQuoted(open)] + [] == [SingleQuoted(open)];
  }

  lemma EmbedQuote(open: string, tail: seq<Lexeme>, e: string, value: string)
    requires OneLine(open) && '\'' !in open && IsWord(tail, "'" + e + "'", value)
    ensures IsWord([SingleQuoted(open), DoubleQuoted([Plain('\'')])] + tail, "'" + open + (QUOTED_QUOTE + e) + "'", open + ("'" + value))
  {
    var first, quote := SingleQuoted(open), DoubleQuoted([Plain('\'')]);
    QuoteLexeme();
    Prepend(quote, tail);
    Prepend(first, [quote] + tail);
    assert [first, quote] + tail == [first] + ([quote] + tail);
    QuoteText(open, e);
  }

  lemma QuoteText(open: string, e: string)
    ensures ("'" + open + "'") + (['"', '\'', '"'] + ("'" + e + "'")) == "'" + open + (QUOTED_QUOTE + e) + "'"
  {
    var q := ['\''];
    assert q == "'";
    var x := ['"', '\'', '"'] + (q + e + q);
    assert (q + open + q) + x == (q + open) + (q + x);
    assert q + x == (QUOTED_QUOTE + e) + q;
    assert (q + open) + ((QUOTED_QUOTE + e) + q) == q + open + (QUOTED_QUOTE + e) + q;
  }

  lemma Regroup(a: string, b: string, c: string, d: string, z: string)
    ensures a + b + (c + d) + z == a + (b + c) + d + z
  {
    assert a + b + (c + d) == a + (b + c) + d;
  }

  /** Moving one ordinary character into the open run changes neither the text nor the value. */
  lemma EscapeStep(c: char, tail: string, open: string)
    requires c != '\''
    ensures "'" + open + EscapeQuotes([c] + tail) + "'" == "'" + (open + [c]) + EscapeQuotes(tail) + "'"
    ensures open + ([c] + tail) == (open + [c]) + tail
  {
    assert ([c] + tail)[1..] == tail;
    Regroup("'", open, [c], EscapeQuotes(tail), "'");
  }

  lemma {:induction false} QuotedReading(value: string, open: string)
    requires OneLine(value) && OneLine(open) && '\'' !in open
    ensures IsWord(QuotedLexemes(value, open), "'" + open + EscapeQuotes(value) + "'", open + value)
    decreases |value|
  {
    if value == "" {
      CloseQuote(open);
      assert "'" + open + EscapeQuotes(value) == "'" + open && open + value == open;
    } else if value[0] != '\'' {
      EscapeStep(value[0], value[1..], open);
      assert [value[0]] + value[1..] == value;
      QuotedReading(value[1..], open + [value[0]]);
    } else {
      var e := EscapeQuotes(value[1..]);
      assert EscapeQuotes(value) == QUOTED_QUOTE + e && value == "'" + value[1..];
      assert "'" + "" == "'" && "" + value[1..] == value[1..];
      QuotedReading(value[1..], "");
      EmbedQuote(open, QuotedLexemes(value[1..], ""), e, value[1..]);
    }
  }

  lemma ArgumentReading(value: string)
    requires OneLine(value)
    ensures IsWord(ArgumentLexemes(value), ShellArgument(value), value)
  {
    if Safe(value) {
      BareReading(value);
    } else {
      QuotedReading(value, "");
      assert "'" + "" + EscapeQuotes(value) + "'" == "'" + EscapeQuotes(value) + "'" && "" + value == value;
    }
  }

  lemma {:induction false} WordFirst(word: seq<Lexeme>, rest: seq<Lexeme>)
    requires word != [] && NoBlank(word) && (rest == [] || rest[0].Blank?)
    ensures WordLength(word + rest) == |word| && Words(word + rest) == [Texts(word)] + Words(rest)
  {
    var ls := word + rest;
    if |word| == 1 {
      assert ls[1..] == rest;
    } else {
      assert ls[1..] == word[1..] + rest;
      WordFirst(word[1..], rest);
    }
    assert ls[..|word|] == word && ls[|word|..] == rest;
  }

  lemma {:induction false} AllWellFormedConcat(a: seq<Lexeme>, b: seq<Lexeme>, blanks: Blanks)
    requires AllWellFormed(a, blanks) && AllWellFormed(b, blanks)
    ensures AllWellFormed(a + b, blanks)
  {
    if a == [] { assert a + b == b; }
    else { assert (a + b)[1..] == a[1..] + b; AllWellFormedConcat(a[1..], b, blanks); }
  }

  /** Putting an argument's reading in front of the rest of the command. */
  lemma PrependWord(word: seq<Lexeme>, value: string, tail: seq<Lexeme>, text: string, argv: seq<string>)
    requires word != [] && AllWellFormed(word, JsSpace) && NoBlank(word) && Texts(word) == value
    requires Reads(tail, text, argv, JsSpace)
    ensures Reads(word + [Blank(' ')] + tail, Render(word) + " " + text, [value] + argv, JsSpace)
  {
    var rest := [Blank(' ')] + tail;
    assert rest[1..] == tail && word + [Blank(' ')] + tail == word + rest;
    WordFirst(word, rest);
    RenderConcat(word, rest);
    AllWellFormedConcat(word, rest, JsSpace);
    assert Render(rest) == " " + text;
    assert Render(word) + " " + text == Render(word) + (" " + text);
  }

  lemma CommandUnfold(argv: seq<string>)
    requires |argv| > 1
    ensures CommandText(argv) == ShellArgument(argv[0]) + " " + CommandText(argv[1..])
    ensures CommandLexemes(argv) == ArgumentLexemes(argv[0]) + [Blank(' ')] + CommandLexemes(argv[1..])
  {}

  lemma OneArgument(value: string)
    requires OneLine(value)
    ensures Reads(CommandLexemes([value]), CommandText([value]), [value], JsSpace)
  {
    var word := ArgumentLexemes(value);
    ArgumentReading(value);
    WordFirst(word, []);
    assert word + [] == word;
  }

  lemma {:induction false} CommandReading(argv: seq<string>)
    requires argv != [] && forall i :: 0 <= i < |argv| ==> OneLine(argv[i])
    ensures Reads(CommandLexemes(argv), CommandText(argv), argv, JsSpace)
  {
    if |argv| == 1 {
      OneArgument(argv[0]);
      assert argv == [argv[0]];
    } else {
      ArgumentReading(argv[0]);
      CommandReading(argv[1..]);
      CommandUnfold(argv);
      PrependWord(ArgumentLexemes(argv[0]), argv[0], CommandLexemes(argv[1..]), CommandText(argv[1..]), argv[1..]);
      assert argv == [argv[0]] + argv[1..];
    }
  }

  lemma {:induction false} CharsSurvive(argv: seq<string>, i: nat, c: char)
    requires i < |argv| && c in argv[i] && c != '\''
    ensures c in CommandText(argv)
  {
    if i == 0 { EscapeKeeps(argv[0], c); }
    else { CharsSurvive(argv[1..], i - 1, c); }
  }

  lemma {:induction false} EscapeKeeps(value: string, c: char)
    requires c in value && c != '\''
    ensures c in EscapeQuotes(value)
  {
    if value[0] != c { EscapeKeeps(value[1..], c); }
  }

  lemma {:induction false} CharsComeFrom(argv: seq<string>, c: char)
    requires c != '\'' && c != '"' && c != ' ' && forall i :: 0 <= i < |argv| ==> c !in argv[i]
    ensures c !in CommandText(argv)
  {
    if argv != [] {
      EscapeAdds(argv[0], c);
      CharsComeFrom(argv[1..], c);
    }
  }

  lemma {:induction false} EscapeAdds(value: string, c: char)
    requires c !in value && c != '\'' && c != '"'
    ensures c !in EscapeQuotes(value)
  {
    if value != "" { EscapeAdds(value[1..], c); }
  }

  predicate Printable(argv: seq<string>) {
    argv != [] && forall i :: 0 <= i < |argv| ==> OneLine(argv[i]) && '\0' !in argv[i]
  }

  /** Printing then tokenizing returns the argument vector exactly when it is printable and the text fits. */
  lemma PrintThenTokenize(argv: seq<string>)
    ensures Tokens(CommandText(argv)) == Ok(argv)
       <==> Printable(argv) && Utf16Length(CommandText(argv)) <= MAX_SHELL_COMMAND_CHARS
  {
    var text := CommandText(argv);
    if Printable(argv) {
      CommandReading(argv);
      CharsComeFrom(argv, '\0');
      TokenizerIsGrammar(text, argv);
      if text == "" { ScanRender(CommandLexemes(argv), START, JsSpace); }
    } else if Tokens(text) == Ok(argv) {
      var i :| 0 <= i < |argv| && !(OneLine(argv[i]) && '\0' !in argv[i]);
      TokenizedIsPrintable(text);
    }
  }

  lemma {:induction false} TextsInRender(ls: seq<Lexeme>, blanks: Blanks, c: char)
    requires AllWellFormed(ls, blanks) && c in Texts(ls)
    ensures c in Render(ls) && !IsNewline(c)
  {
    var l := ls[0];
    assert WellFormed(l, blanks);
    if c in Text(l) {
      if l.DoubleQuoted? { ItemsTextInRender(l.items, c); }
    } else {
      TextsInRender(ls[1..], blanks, c);
    }
  }

  lemma {:induction false} ItemsTextInRender(items: seq<Item>, c: char)
    requires c in ItemsText(items) && WellFormedItems(items)
    ensures c in RenderItems(items) && !IsNewline(c)
  {
    assert WellFormedItem(items[0]);
    if c in ItemsText(items[1..]) { ItemsTextInRender(items[1..], c); }
  }

  lemma {:induction false} ConcatHas(words: seq<string>, i: nat, c: char)
    requires i < |words| && c in words[i]
    ensures c in Concat(words)
  {
    if i > 0 { ConcatHas(words[1..], i - 1, c); }
  }

  lemma WordChar(ls: seq<Lexeme>, command: string, argv: seq<string>, i: nat, c: char)
    requires Reads(ls, command, argv, JsSpace) && i < |argv| && c in argv[i]
    ensures c in command && !IsNewline(c)
  {
    WordsKeepText(ls);
    ConcatHas(argv, i, c);
    TextsInRender(ls, JsSpace, c);
  }

  /** What the tokenizer returns can always be printed. */
  lemma TokenizedIsPrintable(command: string)
    requires Tokens(command).Ok?
    ensures Printable(Tokens(command).value)
  {
    var argv := Tokens(command).value;
    TokenizerIsGrammar(command, argv);
    var ls :| Reads(ls, command, argv, JsSpace);
    forall i | 0 <= i < |argv| ensures OneLine(argv[i]) && '\0' !in argv[i] {
      if '\n' in argv[i] { WordChar(ls, command, argv, i, '\n'); }
      if '\r' in argv[i] { WordChar(ls, command, argv, i, '\r'); }
      if '\0' in argv[i] { WordChar(ls, command, argv, i, '\0'); }
    }
  }

  /** So every tokenized command round-trips through the printer, up to the length bound. */
  lemma TokenizePrintTokenize(command: string)
    requires Tokens(command).Ok?
    ensures var text := CommandText(Tokens(command).value);
            Tokens(text) == Tokens(command) <==> Utf16Length(text) <= MAX_SHELL_COMMAND_CHARS
  {
    TokenizedIsPrintable(command);
    PrintThenTokenize(Tokens(command).value);
  }
}
