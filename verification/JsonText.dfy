/** JSON texts over UTF-16 code units: strings and their decoding, and the concrete syntax with its whitespace. */
module JsonText {
  import opened Rows

  type Unit = c: int | 0 <= c < 0x1_0000

  type Text = seq<Unit>

  const TAB: Unit := 0x09
  const LINE_FEED: Unit := 0x0A
  const CARRIAGE_RETURN: Unit := 0x0D
  const SPACE: Unit := 0x20
  const QUOTE: Unit := 0x22
  const COMMA: Unit := 0x2C
  const SLASH: Unit := 0x2F
  const ZERO: Unit := 0x30
  const COLON: Unit := 0x3A
  const OPEN_BRACKET: Unit := 0x5B
  const BACKSLASH: Unit := 0x5C
  const CLOSE_BRACKET: Unit := 0x5D
  const LETTER_U: Unit := 0x75
  const OPEN_BRACE: Unit := 0x7B
  const CLOSE_BRACE: Unit := 0x7D
  const TILDE: Unit := 0x7E

  /** Whitespace between JSON tokens. */
  predicate IsJsonSpace(c: Unit) {
    c == TAB || c == LINE_FEED || c == CARRIAGE_RETURN || c == SPACE
  }

  predicate AllSpace(text: Text) {
    forall i :: 0 <= i < |text| ==> IsJsonSpace(text[i])
  }

  // --- strings ----------------------------------------------------------------------------------

  predicate IsDigit(c: Unit) { ZERO <= c <= 0x39 }

  /** The value of a hexadecimal digit. */
  function HexValue(c: Unit): Option<nat> {
    if IsDigit(c) then Some(c - ZERO)
    else if 0x41 <= c <= 0x46 then Some(c - 0x41 + 10)
    else if 0x61 <= c <= 0x66 then Some(c - 0x61 + 10)
    else None
  }

  predicate IsHex(c: Unit) { HexValue(c).Some? }

  /** What the letter of a two-character escape stands for. */
  function ShortEscape(c: Unit): Option<Unit> {
    if c == QUOTE || c == BACKSLASH || c == SLASH then Some(c)
    else if c == 0x62 then Some(0x08)
    else if c == 0x66 then Some(0x0C)
    else if c == 0x6E then Some(LINE_FEED)
    else if c == 0x72 then Some(CARRIAGE_RETURN)
    else if c == 0x74 then Some(TAB)
    else None
  }

  /** One element of a string body: a character as itself, a short escape, or four hexadecimal digits. */
  datatype Piece = Plain(c: Unit) | Short(letter: Unit) | Hex(a: Unit, b: Unit, c: Unit, d: Unit)

  predicate WellFormedPiece(p: Piece) {
    match p
    case Plain(c) => c >= 0x20 && c != QUOTE && c != BACKSLASH
    case Short(letter) => ShortEscape(letter).Some?
    case Hex(a, b, c, d) => IsHex(a) && IsHex(b) && IsHex(c) && IsHex(d)
  }

  predicate WellFormedPieces(ps: seq<Piece>) {
    forall i :: 0 <= i < |ps| ==> WellFormedPiece(ps[i])
  }

  function PieceText(p: Piece): Text {
    match p
    case Plain(c) => [c]
    case Short(letter) => [BACKSLASH, letter]
    case Hex(a, b, c, d) => [BACKSLASH, LETTER_U, a, b, c, d]
  }

  function HexUnit(a: Unit, b: Unit, c: Unit, d: Unit): Unit
    requires IsHex(a) && IsHex(b) && IsHex(c) && IsHex(d)
  {
    HexValue(a).value * 0x1000 + HexValue(b).value * 0x100 + HexValue(c).value * 0x10 + HexValue(d).value
  }

  function PieceUnit(p: Piece): Unit
    requires WellFormedPiece(p)
  {
    match p
    case Plain(c) => c
    case Short(letter) => ShortEscape(letter).value
    case Hex(a, b, c, d) => HexUnit(a, b, c, d)
  }

  function PiecesText(ps: seq<Piece>): Text {
    if ps == [] then [] else PieceText(ps[0]) + PiecesText(ps[1..])
  }

  /** The decoded value of a string body. */
  function Decoded(ps: seq<Piece>): Text
    requires WellFormedPieces(ps)
  {
    if ps == [] then [] else [PieceUnit(ps[0])] + Decoded(ps[1..])
  }

  /** Parsing a string body; `None` where the parser throws. */
  function ParseBody(body: Text): Option<Text> {
    if body == [] then Some([])
    else if body[0] == BACKSLASH then
      if |body| >= 2 && ShortEscape(body[1]).Some? then Cons(ShortEscape(body[1]).value, ParseBody(body[2..]))
      else if |body| >= 6 && body[1] == LETTER_U && IsHex(body[2]) && IsHex(body[3]) && IsHex(body[4]) && IsHex(body[5]) then
        Cons(HexUnit(body[2], body[3], body[4], body[5]), ParseBody(body[6..]))
      else None
    else if body[0] < 0x20 || body[0] == QUOTE then None
    else Cons(body[0], ParseBody(body[1..]))
  }

  function Cons(c: Unit, rest: Option<Text>): Option<Text> {
    if rest.Some? then Some([c] + rest.value) else None
  }

  lemma {:induction false} ParsePieces(ps: seq<Piece>)
    requires WellFormedPieces(ps)
    ensures ParseBody(PiecesText(ps)) == Some(Decoded(ps))
  {
    if ps != [] {
      ParsePieces(ps[1..]);
      ParsePiece(ps[0], PiecesText(ps[1..]));
    }
  }

  lemma ParsePiece(p: Piece, rest: Text)
    requires WellFormedPiece(p)
    ensures ParseBody(PieceText(p) + rest) == Cons(PieceUnit(p), ParseBody(rest))
  {
    var text := PieceText(p) + rest;
    assert text[|PieceText(p)|..] == rest;
  }

  // --- texts ------------------------------------------------------------------------------------------

  /** A JSON value with the whitespace around its parts. */
  datatype Json =
    | Scalar(text: Text)
    | String(pieces: seq<Piece>)
    | Array(pad: Text, elements: Elements)
    | Object(pad: Text, members: Members)

  datatype Elements =
    | NoElements
    | Element(before: Text, value: Json, after: Text, rest: Elements)

  datatype Members =
    | NoMembers
    | Member(before: Text, name: seq<Piece>, afterName: Text, beforeValue: Text, value: Json, after: Text, rest: Members)

  /** Where a bare token stops: any space, a comma, or a closing bracket. */
  predicate Ends(c: Unit) {
    IsSpace(c) || c == COMMA || c == CLOSE_BRACE || c == CLOSE_BRACKET
  }

  /** The `\s` class of regular expressions. */
  predicate IsSpace(c: Unit) {
    || TAB <= c <= CARRIAGE_RETURN || c == SPACE || c == 0xA0 || c == 0x1680 || 0x2000 <= c <= 0x200A
    || c == 0x2028 || c == 0x2029 || c == 0x202F || c == 0x205F || c == 0x3000 || c == 0xFEFF
  }

  /** Literals and numbers, and any other token that only the parser proper would reject. */
  predicate IsScalar(text: Text) {
    && text != [] && text[0] != OPEN_BRACE && text[0] != OPEN_BRACKET && text[0] != QUOTE
    && forall i :: 0 <= i < |text| ==> !Ends(text[i])
  }

  predicate WellFormed(v: Json) {
    match v
    case Scalar(text) => IsScalar(text)
    case String(pieces) => WellFormedPieces(pieces)
    case Array(pad, elements) => AllSpace(pad) && WellFormedElements(elements)
    case Object(pad, members) => AllSpace(pad) && WellFormedMembers(members)
  }

  predicate WellFormedElements(es: Elements) {
    es.NoElements? || (AllSpace(es.before) && WellFormed(es.value) && AllSpace(es.after) && WellFormedElements(es.rest))
  }

  predicate WellFormedMembers(ms: Members) {
    ms.NoMembers? ||
    (&& AllSpace(ms.before) && WellFormedPieces(ms.name) && AllSpace(ms.afterName) && AllSpace(ms.beforeValue)
     && WellFormed(ms.value) && AllSpace(ms.after) && WellFormedMembers(ms.rest))
  }

  /** The text of a value, followed by `tail`. */
  function Put(v: Json, tail: Text): Text
    decreases v
  {
    match v
    case Scalar(text) => text + tail
    case String(pieces) => [QUOTE] + (PiecesText(pieces) + ([QUOTE] + tail))
    case Array(pad, es) => [OPEN_BRACKET] + (if es.NoElements? then pad + ([CLOSE_BRACKET] + tail) else PutElements(es, [CLOSE_BRACKET] + tail))
    case Object(pad, ms) => [OPEN_BRACE] + (if ms.NoMembers? then pad + ([CLOSE_BRACE] + tail) else PutMembers(ms, [CLOSE_BRACE] + tail))
  }

  function PutElements(es: Elements, tail: Text): Text
    decreases es
  {
    if es.NoElements? then tail
    else es.before + Put(es.value, es.after + (if es.rest.NoElements? then tail else [COMMA] + PutElements(es.rest, tail)))
  }

  /** A member without its leading space, followed by `tail`. */
  function PutMember(ms: Members, tail: Text): Text
    requires ms.Member?
    decreases ms, 0
  {
    [QUOTE] + (PiecesText(ms.name) + ([QUOTE] + (ms.afterName + ([COLON] + (ms.beforeValue + Put(ms.value, tail))))))
  }

  function PutMembers(ms: Members, tail: Text): Text
    decreases ms, 1
  {
    if ms.NoMembers? then tail
    else ms.before + PutMember(ms, ms.after + (if ms.rest.NoMembers? then tail else [COMMA] + PutMembers(ms.rest, tail)))
  }

  // --- pointers -------------------------------------------------------------------------------------------

  datatype Step = Name(name: Text) | Index(index: nat)

  function ReplaceAll(text: Text, c: Unit, token: Text): Text {
    if text == [] then [] else (if text[0] == c then token else [text[0]]) + ReplaceAll(text[1..], c, token)
  }

  /** A member name as a reference token. */
  function Escaped(name: Text): Text {
    ReplaceAll(ReplaceAll(name, TILDE, [TILDE, ZERO]), SLASH, [TILDE, ZERO + 1])
  }

  function Decimal(n: nat): Text {
    if n < 10 then [ZERO + n] else Decimal(n / 10) + [ZERO + n % 10]
  }

  function Token(s: Step): Text {
    match s
    case Name(name) => Escaped(name)
    case Index(index) => Decimal(index)
  }

  function Pointer(path: seq<Step>): Text {
    if path == [] then [] else Pointer(path[..|path| - 1]) + [SLASH] + Token(path[|path| - 1])
  }

  /** One step deeper. */
  lemma PointerStep(path: seq<Step>, s: Step)
    ensures Pointer(path + [s]) == Pointer(path) + [SLASH] + Token(s)
  {
    assert (path + [s])[..|path|] == path;
  }

  /** Reading a reference token: `~1` is a slash, `~0` a tilde. */
  function Unescaped(token: Text): Text {
    if |token| >= 2 && token[0] == TILDE && token[1] == ZERO + 1 then [SLASH] + Unescaped(token[2..])
    else if |token| >= 2 && token[0] == TILDE && token[1] == ZERO then [TILDE] + Unescaped(token[2..])
    else if token == [] then [] else [token[0]] + Unescaped(token[1..])
  }

  lemma EscapedCons(c: Unit, rest: Text)
    ensures Escaped([c] + rest) == (if c == TILDE then [TILDE, ZERO] else if c == SLASH then [TILDE, ZERO + 1] else [c]) + Escaped(rest)
  {
    assert ([c] + rest)[1..] == rest;
    var inner := ReplaceAll(rest, TILDE, [TILDE, ZERO]);
    if c == TILDE {
      assert ([TILDE, ZERO] + inner)[1..] == [ZERO] + inner && ([ZERO] + inner)[1..] == inner;
      assert ReplaceAll([ZERO] + inner, SLASH, [TILDE, ZERO + 1]) == [ZERO] + Escaped(rest);
    } else {
      assert ([c] + inner)[1..] == inner;
    }
  }

  /** Tokens decode to the names they were made from and hold no slash, so a pointer names one path of names. */
  lemma {:induction false} EscapedBack(name: Text)
    ensures Unescaped(Escaped(name)) == name && SLASH !in Escaped(name)
  {
    if name != [] {
      var c, rest := name[0], name[1..];
      assert name == [c] + rest;
      EscapedCons(c, rest);
      EscapedBack(rest);
      var e := Escaped(rest);
      if c == TILDE {
        assert ([TILDE, ZERO] + e)[2..] == e;
      } else if c == SLASH {
        assert ([TILDE, ZERO + 1] + e)[2..] == e;
      } else {
        assert ([c] + e)[1..] == e;
      }
    }
  }

  lemma {:induction false} DecimalDigits(n: nat)
    ensures SLASH !in Decimal(n)
  {
    if n >= 10 { DecimalDigits(n / 10); }
  }

  lemma TokenHasNoSlash(s: Step)
    ensures SLASH !in Token(s)
  {
    match s
    case Name(name) => EscapedBack(name);
    case Index(index) => DecimalDigits(index);
  }

  lemma SlashAfter(a: Text, t: Text, b: Text, u: Text)
    requires a + [SLASH] + t == b + [SLASH] + u
    ensures |b| <= |a| || SLASH in t
  {
    var x := a + [SLASH] + t;
    if |a| < |b| { assert x[|b|] == t[|b| - |a| - 1]; }
  }

  lemma LastToken(a: Text, t: Text, b: Text, u: Text)
    requires SLASH !in t && SLASH !in u && a + [SLASH] + t == b + [SLASH] + u
    ensures a == b && t == u
  {
    var x := a + [SLASH] + t;
    SlashAfter(a, t, b, u);
    SlashAfter(b, u, a, t);
    assert a == x[..|a|] && b == x[..|b|] && t == x[|a| + 1..] && u == x[|b| + 1..];
  }

  function Tokens(path: seq<Step>): seq<Text> {
    Map(Token, path)
  }

  /** A pointer determines its reference tokens, and so the member names it goes through. */
  lemma {:induction false} PointerTokens(p: seq<Step>, q: seq<Step>)
    requires Pointer(p) == Pointer(q)
    ensures Tokens(p) == Tokens(q)
    decreases |p|
  {
    if p != [] && q != [] {
      var n, m := |p| - 1, |q| - 1;
      TokenHasNoSlash(p[n]);
      TokenHasNoSlash(q[m]);
      LastToken(Pointer(p[..n]), Token(p[n]), Pointer(q[..m]), Token(q[m]));
      PointerTokens(p[..n], q[..m]);
      assert Tokens(p) == Tokens(p[..n]) + [Token(p[n])] && Tokens(q) == Tokens(q[..m]) + [Token(q[m])];
    }
  }
}
