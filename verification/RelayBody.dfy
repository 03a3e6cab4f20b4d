/** The relay's check of a governance answer before it is passed on. */
module RelayBody {
  import opened Rows
  import opened JsonText
  import Utf8

  /** The text before the message: an object whose first member is `systemMessage`, up to the opening quote. */
  const PREFIX: Text := [0x7B, 0x22, 0x73, 0x79, 0x73, 0x74, 0x65, 0x6D, 0x4D, 0x65, 0x73, 0x73, 0x61, 0x67, 0x65, 0x22, 0x3A, 0x22]

  function TrimLeft(text: Text): Text {
    if text != [] && IsJsonSpace(text[0]) then TrimLeft(text[1..]) else text
  }

  function TrimRight(text: Text): Text {
    if text != [] && IsJsonSpace(text[|text| - 1]) then TrimRight(text[..|text| - 1]) else text
  }

  /** The letters the check accepts after a backslash: the JSON ones, and the terminator the library search ends on. */
  predicate IsEscape(c: Unit) {
    c == 0 || ShortEscape(c).Some?
  }

  /** What the character loop accepts between the quotes. */
  predicate Accepts(body: Text) {
    if body == [] then true
    else if body[0] < 0x20 || body[0] == QUOTE then false
    else if body[0] != BACKSLASH then Accepts(body[1..])
    else if |body| < 2 then false
    else if IsEscape(body[1]) then Accepts(body[2..])
    else |body| >= 6 && body[1] == LETTER_U && IsHex(body[2]) && IsHex(body[3]) && IsHex(body[4]) && IsHex(body[5]) && Accepts(body[6..])
  }

  /** Some backslash is followed by a zero byte. */
  predicate EscapesNul(body: Text) {
    |body| >= 2 && ((body[0] == BACKSLASH && body[1] == 0)
                    || (if body[0] == BACKSLASH then EscapesNul(body[2..]) else EscapesNul(body[1..])))
  }

  /** The loop's tests without that letter. */
  predicate AcceptsStrictly(body: Text) {
    if body == [] then true
    else if body[0] < 0x20 || body[0] == QUOTE then false
    else if body[0] != BACKSLASH then AcceptsStrictly(body[1..])
    else if |body| < 2 then false
    else if ShortEscape(body[1]).Some? then AcceptsStrictly(body[2..])
    else body[1] == LETTER_U && FourHex(body[2..]) && AcceptsStrictly(body[6..])
  }

  predicate FourHex(text: Text) {
    |text| >= 4 && IsHex(text[0]) && IsHex(text[1]) && IsHex(text[2]) && IsHex(text[3])
  }

  lemma {:induction false} HexDigitsPlain(body: Text)
    requires FourHex(body)
    ensures EscapesNul(body) == EscapesNul(body[4..])
  {
    assert body[1..][1..] == body[2..] && body[2..][1..] == body[3..] && body[3..][1..] == body[4..];
    assert EscapesNul(body) == EscapesNul(body[1..]);
    assert EscapesNul(body[1..]) == EscapesNul(body[2..]);
    assert EscapesNul(body[2..]) == EscapesNul(body[3..]);
    assert EscapesNul(body[3..]) == EscapesNul(body[4..]);
  }

  /** The loop accepts the strict texts, and those in which a zero byte follows a backslash besides. */
  lemma {:induction false} StrictlyIff(body: Text)
    ensures AcceptsStrictly(body) <==> Accepts(body) && !EscapesNul(body)
    decreases |body|
  {
    if body != [] {
      if body[0] != BACKSLASH {
        StrictlyIff(body[1..]);
      } else if |body| >= 2 {
        if IsEscape(body[1]) {
          StrictlyIff(body[2..]);
        } else if body[1] == LETTER_U && FourHex(body[2..]) {
          HexDigitsPlain(body[2..]);
          assert body[2..][4..] == body[6..];
          StrictlyIff(body[6..]);
        }
      }
    }
  }

  /** On code units the strict tests are the grammar of string bodies. */
  lemma {:induction false} StrictlyParses(body: Text)
    ensures AcceptsStrictly(body) <==> ParseBody(body).Some?
    decreases |body|
  {
    if body != [] {
      if body[0] != BACKSLASH {
        StrictlyParses(body[1..]);
      } else if |body| >= 2 && ShortEscape(body[1]).Some? {
        StrictlyParses(body[2..]);
      } else if |body| >= 2 && FourHex(body[2..]) {
        StrictlyParses(body[6..]);
      }
    }
  }

  /** Characters beyond ASCII are let through, as bytes and as code units. */
  lemma {:induction false} HighIsPlain(body: Text, n: nat)
    requires n <= |body| && forall i :: 0 <= i < n ==> !Utf8.IsAscii(body[i])
    ensures AcceptsStrictly(body) == AcceptsStrictly(body[n..])
  {
    if n == 0 {
      assert body[0..] == body;
    } else {
      HighIsPlain(body[1..], n - 1);
      assert body[1..][n - 1..] == body[n..];
    }
  }

  /** Hexadecimal digits at the front. */
  predicate HexRun(text: Text, n: nat) {
    n == 0 || (text != [] && IsHex(text[0]) && HexRun(text[1..], n - 1))
  }

  lemma {:induction false} RunIndexes(text: Text, n: nat)
    ensures HexRun(text, n) <==> |text| >= n && forall i :: 0 <= i < n ==> IsHex(text[i])
  {
    if n > 0 && text != [] {
      RunIndexes(text[1..], n - 1);
      assert |text| >= n ==> forall i :: 1 <= i < n ==> text[i] == text[1..][i - 1];
      assert forall i :: 0 <= i < |text| - 1 ==> text[1..][i] == text[i + 1];
    }
  }

  lemma {:induction false} RunTogether(bytes: seq<Byte>, t: Text, n: nat)
    requires Utf8.Decode(bytes) == Some(t)
    ensures HexRun(bytes, n) <==> HexRun(t, n)
    ensures HexRun(t, n) ==> n <= |bytes| && n <= |t| && Utf8.Decode(bytes[n..]) == Some(t[n..])
    decreases n
  {
    Utf8.Front(bytes, t);
    if n == 0 {
      assert bytes[0..] == bytes && t[0..] == t;
    } else if bytes != [] && IsHex(t[0]) {
      RunTogether(bytes[1..], t[1..], n - 1);
      if HexRun(t, n) { assert bytes[1..][n - 1..] == bytes[n..] && t[1..][n - 1..] == t[n..]; }
    }
  }

  lemma HexOfBytes(bytes: seq<Byte>, t: Text)
    requires Utf8.Decode(bytes) == Some(t)
    ensures FourHex(bytes) <==> FourHex(t)
    ensures FourHex(t) ==> Utf8.Decode(bytes[4..]) == Some(t[4..])
  {
    RunIndexes(bytes, 4);
    RunIndexes(t, 4);
    RunTogether(bytes, t, 4);
  }

  /** The loop reads bytes; where they are UTF-8, it decides as it would on the characters. */
  lemma {:induction false} BytesAsText(bytes: seq<Byte>, t: Text)
    requires Utf8.Decode(bytes) == Some(t)
    ensures AcceptsStrictly(bytes) <==> AcceptsStrictly(t)
    decreases |bytes|
  {
    Utf8.Front(bytes, t);
    if bytes != [] && !Utf8.IsAscii(bytes[0]) {
      var n := Utf8.Width(bytes);
      var units, rest := Utf8.Units(bytes), Utf8.Decode(bytes[n..]).value;
      Utf8.BytesOfHigh(bytes);
      assert t[|units|..] == rest && forall i :: 0 <= i < |units| ==> t[i] == units[i];
      HighIsPlain(bytes, n);
      HighIsPlain(t, |units|);
      BytesAsText(bytes[n..], rest);
    } else if bytes != [] && bytes[0] != BACKSLASH {
      BytesAsText(bytes[1..], t[1..]);
    } else if bytes != [] {
      Utf8.Front(bytes[1..], t[1..]);
      if |bytes| >= 2 && Utf8.IsAscii(bytes[1]) {
        assert bytes[1..][1..] == bytes[2..] && t[1..][1..] == t[2..];
        BytesAsText(bytes[2..], t[2..]);
        HexOfBytes(bytes[2..], t[2..]);
        if FourHex(t[2..]) {
          assert bytes[2..][4..] == bytes[6..] && t[2..][4..] == t[6..];
          BytesAsText(bytes[6..], t[6..]);
        }
      }
    }
  }

  /** A message in the sense of section 7 of RFC 8259: UTF-8 text of a string body. */
  predicate IsJsonString(bytes: seq<Byte>) {
    var t := Utf8.Decode(bytes);
    t.Some? && ParseBody(t.value).Some?
  }

  /** An accepted message is a JSON string body exactly when it is UTF-8 and no zero byte follows a backslash; no other message is one. */
  lemma AcceptsIsJson(bytes: seq<Byte>)
    ensures IsJsonString(bytes) <==> Accepts(bytes) && Utf8.Decode(bytes).Some? && !EscapesNul(bytes)
  {
    StrictlyIff(bytes);
    if Utf8.Decode(bytes).Some? {
      BytesAsText(bytes, Utf8.Decode(bytes).value);
      StrictlyParses(Utf8.Decode(bytes).value);
    }
  }

  /** Neither condition can be left out: a backslash before a zero byte, and a byte that starts no character. */
  lemma AcceptedButNotJson()
    ensures Accepts([BACKSLASH, 0]) && Utf8.Decode([BACKSLASH, 0]).Some? && !IsJsonString([BACKSLASH, 0])
    ensures Accepts([0xFF]) && !EscapesNul([0xFF]) && !IsJsonString([0xFF])
  {
    var nul: seq<Byte>, stray: seq<Byte> := [BACKSLASH, 0], [0xFF];
    assert nul[1..] == [0] && nul[2..] == [] && nul[1..][1..] == [] && stray[1..] == [];
    assert Utf8.Decode(nul[1..]) == Some([0] + []);
    AcceptsIsJson(nul);
  }

  /** An answer the relay may print: nothing but space, or the one-member object. */
  predicate Passes(trimmed: Text) {
    || trimmed == []
    || (&& |trimmed| >= |PREFIX| + 2 && trimmed[..|PREFIX|] == PREFIX
        && trimmed[|trimmed| - 2] == QUOTE && trimmed[|trimmed| - 1] == CLOSE_BRACE
        && Accepts(trimmed[|PREFIX|..|trimmed| - 2]))
  }

  lemma {:induction false} TrimLeftStep(text: Text, start: nat)
    requires start < |text| && IsJsonSpace(text[start])
    ensures TrimLeft(text[start..]) == TrimLeft(text[start + 1..])
  {
    assert text[start..][1..] == text[start + 1..];
  }

  lemma {:induction false} TrimRightStep(text: Text, start: nat, end: nat)
    requires start < end <= |text| && IsJsonSpace(text[end - 1])
    ensures TrimRight(text[start..end]) == TrimRight(text[start..end - 1])
  {
    var t := text[start..end];
    assert t[|t| - 1] == text[end - 1] && t[..|t| - 1] == text[start..end - 1];
  }

  /** The loop over the message, with its three ways forward. */
  method CheckMessage(body: seq<Byte>, first: nat, last: nat) returns (ok: bool)
    requires first <= last <= |body|
    ensures ok == Accepts(body[first..last])
  {
    var i := first;
    while i < last
      invariant first <= i <= last
      invariant Accepts(body[first..last]) == Accepts(body[i..last])
    {
      var rest := body[i..last];
      var current := body[i];
      if current < 0x20 || current == QUOTE { return false; }
      if current != BACKSLASH {
        assert rest[1..] == body[i + 1..last];
        i := i + 1;
      } else {
        if i + 1 >= last { return false; }
        if IsEscape(body[i + 1]) {
          assert rest[2..] == body[i + 2..last];
          i := i + 2;
        } else {
          if body[i + 1] != LETTER_U || i + 5 >= last { return false; }
          for hex := 0 to 4
            invariant forall h :: 2 <= h < 2 + hex ==> IsHex(rest[h])
          {
            assert rest[2 + hex] == body[i + 2 + hex];
            if !IsHex(body[i + 2 + hex]) { return false; }
          }
          assert rest[6..] == body[i + 6..last];
          i := i + 6;
        }
      }
    }
    ok := true;
  }

  lemma Slice(text: seq<Byte>, a: nat, b: nat, i: nat, j: nat)
    requires a <= b <= |text| && i <= j <= b - a
    ensures text[a..b][i..j] == text[a + i..a + j]
  {
    var t := text[a..b];
    assert forall k :: 0 <= k < j - i ==> t[i..j][k] == t[i + k] == text[a + i + k] == text[a + i..a + j][k];
  }

  /** The two trimming loops. */
  method Trim(body: seq<Byte>) returns (start: nat, end: nat)
    ensures start <= end <= |body| && body[start..end] == TrimRight(TrimLeft(body))
  {
    start, end := 0, |body|;
    assert body[0..] == body;
    while start < end && IsJsonSpace(body[start])
      invariant start <= end == |body| && TrimLeft(body[start..]) == TrimLeft(body)
    {
      TrimLeftStep(body, start);
      start := start + 1;
    }
    assert TrimLeft(body[start..]) == body[start..] == body[start..end];
    while end > start && IsJsonSpace(body[end - 1])
      invariant start <= end <= |body| && TrimRight(body[start..end]) == TrimRight(TrimLeft(body))
    {
      TrimRightStep(body, start, end);
      end := end - 1;
    }
  }

  method ValidGovernanceBody(body: seq<Byte>) returns (ok: bool)
    ensures ok == Passes(TrimRight(TrimLeft(body)))
  {
    var start, end := Trim(body);
    ghost var trimmed := body[start..end];
    if start == end { return true; }
    if end - start < |PREFIX| + 2 || body[start..start + |PREFIX|] != PREFIX || body[end - 2] != QUOTE || body[end - 1] != CLOSE_BRACE {
      assert |trimmed| >= |PREFIX| ==> trimmed[..|PREFIX|] == body[start..start + |PREFIX|];
      return false;
    }
    assert trimmed[..|PREFIX|] == body[start..start + |PREFIX|];
    Slice(body, start, end, |PREFIX|, end - start - 2);
    ok := CheckMessage(body, start + |PREFIX|, end - 2);
  }

  // --- the answer as JSON ---------------------------------------------------------------------------------------

  /** The pieces of a name spelled without escapes. */
  function Spelled(name: Text): seq<Piece> {
    if name == [] then [] else [Plain(name[0])] + Spelled(name[1..])
  }

  lemma {:induction false} SpelledText(name: Text)
    ensures PiecesText(Spelled(name)) == name
  {
    if name != [] {
      SpelledText(name[1..]);
      assert Spelled(name)[1..] == Spelled(name[1..]);
    }
  }

  const NAME: Text := [0x73, 0x79, 0x73, 0x74, 0x65, 0x6D, 0x4D, 0x65, 0x73, 0x73, 0x61, 0x67, 0x65]

  /** The object with one member, without any space. */
  function OneMember(name: Text, pieces: seq<Piece>): Json {
    Object([], Member([], Spelled(name), [], [], String(pieces), [], NoMembers))
  }

  function Opening(name: Text): Text {
    [OPEN_BRACE, QUOTE] + name + [QUOTE, COLON, QUOTE]
  }

  lemma StringText(pieces: seq<Piece>)
    ensures Put(String(pieces), [CLOSE_BRACE]) == [QUOTE] + PiecesText(pieces) + [QUOTE, CLOSE_BRACE]
  {
    var tail: Text := [CLOSE_BRACE];
    assert [QUOTE] + tail == [QUOTE, CLOSE_BRACE];
    assert [QUOTE] + (PiecesText(pieces) + [QUOTE, CLOSE_BRACE]) == [QUOTE] + PiecesText(pieces) + [QUOTE, CLOSE_BRACE];
  }

  lemma Unpadded(ms: Members, tail: Text)
    requires ms.Member? && ms.afterName == [] && ms.beforeValue == []
    ensures PutMember(ms, tail) == [QUOTE] + PiecesText(ms.name) + [QUOTE, COLON] + Put(ms.value, tail)
  {
    var v, name := Put(ms.value, tail), PiecesText(ms.name);
    assert [] + v == v && [] + ([COLON] + v) == [COLON] + v;
    assert [QUOTE] + (name + ([QUOTE] + ([COLON] + v))) == [QUOTE] + name + [QUOTE, COLON] + v;
  }

  lemma MemberText(name: Text, value: Json)
    ensures var ms := Member([], Spelled(name), [], [], value, [], NoMembers);
            PutMembers(ms, [CLOSE_BRACE]) == [QUOTE] + name + [QUOTE, COLON] + Put(value, [CLOSE_BRACE])
  {
    SpelledText(name);
    var ms, tail: Text := Member([], Spelled(name), [], [], value, [], NoMembers), [CLOSE_BRACE];
    Unpadded(ms, tail);
    assert [] + tail == tail;
    assert PutMembers(ms, tail) == [] + PutMember(ms, tail);
  }

  lemma OneMemberText(name: Text, pieces: seq<Piece>)
    ensures Put(OneMember(name, pieces), []) == Opening(name) + PiecesText(pieces) + [QUOTE, CLOSE_BRACE]
  {
    MemberText(name, String(pieces));
    StringText(pieces);
    assert [CLOSE_BRACE] + [] == [CLOSE_BRACE];
    Assembled(name, PiecesText(pieces));
  }

  lemma Assembled(name: Text, body: Text)
    ensures [OPEN_BRACE] + ([QUOTE] + name + [QUOTE, COLON] + ([QUOTE] + body + [QUOTE, CLOSE_BRACE]))
         == Opening(name) + body + [QUOTE, CLOSE_BRACE]
  {
    var left, right := [QUOTE] + name + [QUOTE, COLON], [QUOTE] + body + [QUOTE, CLOSE_BRACE];
    assert Opening(name) == [OPEN_BRACE] + left + [QUOTE];
    assert ([OPEN_BRACE] + left + [QUOTE]) + body + [QUOTE, CLOSE_BRACE] == [OPEN_BRACE] + left + right;
  }

  lemma PrefixOpens()
    ensures PREFIX == Opening(NAME) && forall i :: 0 <= i < |PREFIX| ==> Utf8.IsAscii(PREFIX[i])
  {}

  lemma {:induction false} ParsedHasPieces(body: Text) returns (pieces: seq<Piece>)
    requires ParseBody(body).Some?
    ensures WellFormedPieces(pieces) && PiecesText(pieces) == body
    decreases |body|
  {
    if body == [] {
      pieces := [];
    } else if body[0] != BACKSLASH {
      var rest := ParsedHasPieces(body[1..]);
      pieces := [Plain(body[0])] + rest;
      assert pieces[1..] == rest;
      assert body == [body[0]] + body[1..];
    } else if ShortEscape(body[1]).Some? {
      var rest := ParsedHasPieces(body[2..]);
      pieces := [Short(body[1])] + rest;
      assert pieces[1..] == rest;
      assert body == [BACKSLASH, body[1]] + body[2..];
    } else {
      var rest := ParsedHasPieces(body[6..]);
      pieces := [Hex(body[2], body[3], body[4], body[5])] + rest;
      assert pieces[1..] == rest;
      assert body == [BACKSLASH, LETTER_U, body[2], body[3], body[4], body[5]] + body[6..];
    }
  }

  /** Prefix, string body, quote and brace. */
  predicate Framed(text: Text, prefix: Text) {
    prefix <= text && Closed(text[|prefix|..])
  }

  /** A quote and a brace end the text. */
  predicate Closed(rest: Text) {
    |rest| >= 2 && rest[|rest| - 2] == QUOTE && rest[|rest| - 1] == CLOSE_BRACE
  }

  function Inside(text: Text, prefix: Text): Text
    requires Framed(text, prefix)
  {
    var rest := text[|prefix|..];
    rest[..|rest| - 2]
  }

  /** The text of an object whose only member has this name and a string as its value. */
  ghost predicate IsOneMember(t: Text, name: Text) {
    exists pieces :: WellFormedPieces(pieces) && t == Put(OneMember(name, pieces), [])
  }

  lemma FramedBody(prefix: Text, body: Text)
    ensures var t := prefix + body + [QUOTE, CLOSE_BRACE]; Framed(t, prefix) && Inside(t, prefix) == body
  {
    var t := prefix + body + [QUOTE, CLOSE_BRACE];
    assert t[..|prefix|] == prefix && t[|prefix|..] == body + [QUOTE, CLOSE_BRACE];
  }

  lemma Reassembled(t: Text, prefix: Text)
    requires Framed(t, prefix)
    ensures t == prefix + Inside(t, prefix) + [QUOTE, CLOSE_BRACE]
  {
    var rest := t[|prefix|..];
    assert t == prefix + rest && rest == rest[..|rest| - 2] + [QUOTE, CLOSE_BRACE];
  }

  lemma FramedIsOneMember(t: Text, name: Text)
    requires Framed(t, Opening(name)) && ParseBody(Inside(t, Opening(name))).Some?
    ensures IsOneMember(t, name)
  {
    var pieces := ParsedHasPieces(Inside(t, Opening(name)));
    OneMemberText(name, pieces);
    Reassembled(t, Opening(name));
  }

  lemma OneMemberIsFramed(pieces: seq<Piece>, name: Text)
    requires WellFormedPieces(pieces)
    ensures var t := Put(OneMember(name, pieces), []);
            Framed(t, Opening(name)) && ParseBody(Inside(t, Opening(name))).Some?
  {
    OneMemberText(name, pieces);
    ParsePieces(pieces);
    FramedBody(Opening(name), PiecesText(pieces));
  }

  lemma OneMemberIff(t: Text, name: Text)
    ensures IsOneMember(t, name) <==> Framed(t, Opening(name)) && ParseBody(Inside(t, Opening(name))).Some?
  {
    if Framed(t, Opening(name)) && ParseBody(Inside(t, Opening(name))).Some? { FramedIsOneMember(t, name); }
    if IsOneMember(t, name) {
      var pieces :| WellFormedPieces(pieces) && t == Put(OneMember(name, pieces), []);
      OneMemberIsFramed(pieces, name);
    }
  }

  predicate EndsWith(text: Text, c: Unit) { text != [] && text[|text| - 1] == c }

  lemma LastTogether(bytes: seq<Byte>, t: Text, c: Unit)
    requires Utf8.Decode(bytes) == Some(t) && Utf8.IsAscii(c)
    ensures EndsWith(bytes, c) <==> EndsWith(t, c)
    ensures EndsWith(t, c) ==> Utf8.Decode(bytes[..|bytes| - 1]) == Some(t[..|t| - 1])
  {
    Utf8.Front(bytes, t);
    if bytes != [] { Utf8.Back(bytes, t); }
  }

  lemma ClosedByLast(text: Text)
    ensures Closed(text) <==> EndsWith(text, CLOSE_BRACE) && EndsWith(text[..|text| - 1], QUOTE)
    ensures Closed(text) ==> text[..|text| - 1][..|text| - 2] == text[..|text| - 2]
  {}

  lemma EndsTogether(bytes: seq<Byte>, t: Text)
    requires Utf8.Decode(bytes) == Some(t)
    ensures Closed(bytes) <==> Closed(t)
    ensures Closed(t) ==> Utf8.Decode(bytes[..|bytes| - 2]) == Some(t[..|t| - 2])
  {
    ClosedByLast(bytes);
    ClosedByLast(t);
    LastTogether(bytes, t, CLOSE_BRACE);
    if EndsWith(t, CLOSE_BRACE) { LastTogether(bytes[..|bytes| - 1], t[..|t| - 1], QUOTE); }
  }

  /** The frame is ASCII, so bytes and text have it together, around the same message. */
  lemma FramedTogether(bytes: seq<Byte>, t: Text, prefix: Text)
    requires Utf8.Decode(bytes) == Some(t) && forall i :: 0 <= i < |prefix| ==> Utf8.IsAscii(prefix[i])
    ensures Framed(bytes, prefix) <==> Framed(t, prefix)
    ensures Framed(t, prefix) ==> Utf8.Decode(Inside(bytes, prefix)) == Some(Inside(t, prefix))
  {
    Utf8.Prefix(bytes, t, prefix);
    if prefix <= t { EndsTogether(bytes[|prefix|..], t[|prefix|..]); }
  }

  /** The bytes are UTF-8 text of the object whose only member is `systemMessage`, a string. */
  ghost predicate IsMessage(bytes: seq<Byte>) {
    var t := Utf8.Decode(bytes);
    t.Some? && IsOneMember(t.value, NAME)
  }

  /**
   A passed answer that is not blank is the UTF-8 text of the JSON object `{"systemMessage": <string>}` exactly when it is
   UTF-8 and no zero byte hides behind a backslash; and every such object written without space passes.
   */
  lemma PassesIsMessage(trimmed: seq<Byte>)
    requires trimmed != []
    ensures IsMessage(trimmed)
       <==> Passes(trimmed) && Utf8.Decode(trimmed).Some? && !EscapesNul(trimmed[|PREFIX|..|trimmed| - 2])
  {
    PrefixOpens();
    PassesFramed(trimmed, PREFIX);
    var t := Utf8.Decode(trimmed);
    if t.Some? {
      OneMemberIff(t.value, NAME);
      FramedTogether(trimmed, t.value, PREFIX);
      if Framed(trimmed, PREFIX) { AcceptsIsJson(Inside(trimmed, PREFIX)); }
    }
  }

  lemma PassesFramed(text: seq<Byte>, prefix: Text)
    ensures Framed(text, prefix) <==>
              && |text| >= |prefix| + 2 && text[..|prefix|] == prefix && text[|text| - 2] == QUOTE && text[|text| - 1] == CLOSE_BRACE
    ensures Framed(text, prefix) ==> Inside(text, prefix) == text[|prefix|..|text| - 2]
  {
    if |text| >= |prefix| + 2 { assert text[|prefix|..][..|text| - |prefix| - 2] == text[|prefix|..|text| - 2]; }
  }
}
