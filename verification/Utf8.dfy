/** Bytes as UTF-8 text (RFC 3629), read as UTF-16 code units. */
module Utf8 {
  import opened Rows
  import opened JsonText

  predicate IsAscii(c: int) { c < 0x80 }

  predicate Continues(b: Byte) { 0x80 <= b < 0xC0 }

  /** How many bytes the character at the front takes, 0 where none is well-formed (section 4 of RFC 3629). */
  function Width(bytes: seq<Byte>): (n: nat)
    ensures n <= |bytes| && n <= 4
  {
    if bytes == [] then 0
    else if IsAscii(bytes[0]) then 1
    else if 0xC2 <= bytes[0] <= 0xDF then (if |bytes| >= 2 && Continues(bytes[1]) then 2 else 0)
    else if 0xE0 <= bytes[0] <= 0xEF then (if |bytes| >= 3 && ThreeBytes(bytes[0], bytes[1]) && Continues(bytes[2]) then 3 else 0)
    else if 0xF0 <= bytes[0] <= 0xF4 then
      (if |bytes| >= 4 && FourBytes(bytes[0], bytes[1]) && Continues(bytes[2]) && Continues(bytes[3]) then 4 else 0)
    else 0
  }

  /** Neither overlong nor a surrogate. */
  predicate ThreeBytes(lead: Byte, next: Byte) {
    Continues(next) && (lead == 0xE0 ==> next >= 0xA0) && (lead == 0xED ==> next < 0xA0)
  }

  /** Neither overlong nor beyond the last code point. */
  predicate FourBytes(lead: Byte, next: Byte) {
    Continues(next) && (lead == 0xF0 ==> next >= 0x90) && (lead == 0xF4 ==> next < 0x90)
  }

  /** The code units of the character at the front. */
  function Units(bytes: seq<Byte>): (t: Text)
    requires Width(bytes) > 0
    ensures t != [] && forall i :: 0 <= i < |t| ==> (Width(bytes) == 1 <==> IsAscii(t[i]))
  {
    match Width(bytes)
    case 1 => [bytes[0]]
    case 2 => [Bits(bytes[0] - 0xC0, bytes[1])]
    case 3 => [Bits(Bits(bytes[0] - 0xE0, bytes[1]), bytes[2])]
    case _ =>
      var c := Bits(Bits(Bits(bytes[0] - 0xF0, bytes[1]), bytes[2]), bytes[3]) - 0x10000;
      [0xD800 + c / 0x400, 0xDC00 + c % 0x400]
  }

  /** Six more bits from a continuation byte. */
  function Bits(high: int, next: Byte): int {
    high * 0x40 + next - 0x80
  }

  function Decode(bytes: seq<Byte>): Option<Text> {
    if bytes == [] then Some([])
    else if Width(bytes) == 0 then None
    else
      var rest := Decode(bytes[Width(bytes)..]);
      if rest.None? then None else Some(Units(bytes) + rest.value)
  }

  /** At the front bytes and units agree on what is ASCII, and then are the same. */
  lemma Front(bytes: seq<Byte>, t: Text)
    requires Decode(bytes) == Some(t)
    ensures bytes == [] <==> t == []
    ensures bytes != [] ==> (IsAscii(bytes[0]) <==> IsAscii(t[0]))
    ensures bytes != [] && IsAscii(bytes[0]) ==> bytes[0] == t[0] && Decode(bytes[1..]) == Some(t[1..])
  {
    if bytes != [] { assert t[0] == Units(bytes)[0]; }
  }

  lemma WidthOfLead(bytes: seq<Byte>, k: nat)
    requires Width(bytes) <= k <= |bytes| && Width(bytes) > 0
    ensures Width(bytes[..k]) == Width(bytes) && Units(bytes[..k]) == Units(bytes)
  {}

  lemma BytesOfHigh(bytes: seq<Byte>)
    requires Width(bytes) > 1
    ensures forall i :: 0 <= i < Width(bytes) ==> !IsAscii(bytes[i])
  {}

  /** The same at the end. */
  lemma {:induction false} Back(bytes: seq<Byte>, t: Text)
    requires Decode(bytes) == Some(t) && bytes != []
    ensures t != [] && (IsAscii(bytes[|bytes| - 1]) <==> IsAscii(t[|t| - 1]))
    ensures IsAscii(t[|t| - 1]) ==> bytes[|bytes| - 1] == t[|t| - 1] && Decode(bytes[..|bytes| - 1]) == Some(t[..|t| - 1])
    decreases |bytes|
  {
    if bytes[Width(bytes)..] == [] {
      BackOne(bytes, t);
    } else {
      var rest := bytes[Width(bytes)..];
      CutLast(bytes);
      Back(rest, Decode(rest).value);
      BackMore(bytes, rest, Units(bytes), Decode(rest).value);
    }
  }

  /** What holds at the end of the rest holds at the end of the whole. */
  lemma BackMore(bytes: seq<Byte>, rest: seq<Byte>, head: Text, u: Text)
    requires rest != [] && |rest| <= |bytes| && bytes[|bytes| - |rest|..] == rest && u != []
    requires (IsAscii(rest[|rest| - 1]) <==> IsAscii(u[|u| - 1])) && (IsAscii(u[|u| - 1]) ==> rest[|rest| - 1] == u[|u| - 1])
    requires IsAscii(u[|u| - 1]) ==> Decode(rest[..|rest| - 1]) == Some(u[..|u| - 1])
    requires var cut := Decode(rest[..|rest| - 1]); cut.Some? ==> Decode(bytes[..|bytes| - 1]) == Some(head + cut.value)
    ensures var t := head + u;
            && (IsAscii(bytes[|bytes| - 1]) <==> IsAscii(t[|t| - 1]))
            && (IsAscii(t[|t| - 1]) ==> bytes[|bytes| - 1] == t[|t| - 1] && Decode(bytes[..|bytes| - 1]) == Some(t[..|t| - 1]))
  {
    LastOf(head, u);
  }

  lemma LastOf(head: Text, u: Text)
    requires u != []
    ensures (head + u)[|head + u| - 1] == u[|u| - 1] && (head + u)[..|head + u| - 1] == head + u[..|u| - 1]
  {}

  /** Cutting the text somewhere after its first character. */
  lemma DecodeCut(bytes: seq<Byte>, m: nat, cut: Text)
    requires 0 < Width(bytes) <= m <= |bytes| && Decode(bytes[Width(bytes)..][..m - Width(bytes)]) == Some(cut)
    ensures Decode(bytes[..m]) == Some(Units(bytes) + cut)
  {
    WidthOfLead(bytes, m);
    assert bytes[..m][Width(bytes)..] == bytes[Width(bytes)..][..m - Width(bytes)];
  }

  /** The same of one character. */
  lemma BackOne(bytes: seq<Byte>, t: Text)
    requires Decode(bytes) == Some(t) && bytes != [] && bytes[Width(bytes)..] == []
    ensures t != [] && (IsAscii(bytes[|bytes| - 1]) <==> IsAscii(t[|t| - 1]))
    ensures IsAscii(t[|t| - 1]) ==> bytes[|bytes| - 1] == t[|t| - 1] && Decode(bytes[..|bytes| - 1]) == Some(t[..|t| - 1])
  {
    assert t == Units(bytes);
    if Width(bytes) > 1 { BytesOfHigh(bytes); } else { assert bytes[..|bytes| - 1] == [] && t[..|t| - 1] == []; }
  }

  /** Cutting the last byte, where it is not in the first character. */
  lemma CutLast(bytes: seq<Byte>)
    requires 0 < Width(bytes) < |bytes|
    ensures var rest := bytes[Width(bytes)..];
            var cut := Decode(rest[..|rest| - 1]);
            cut.Some? ==> Decode(bytes[..|bytes| - 1]) == Some(Units(bytes) + cut.value)
  {
    var rest := bytes[Width(bytes)..];
    var cut := Decode(rest[..|rest| - 1]);
    if cut.Some? { DecodeCut(bytes, |bytes| - 1, cut.value); }
  }

  /** An ASCII prefix of the bytes is one of the text, and the other way round. */
  lemma {:induction false} Prefix(bytes: seq<Byte>, t: Text, prefix: Text)
    requires Decode(bytes) == Some(t) && forall i :: 0 <= i < |prefix| ==> IsAscii(prefix[i])
    ensures prefix <= bytes <==> prefix <= t
    ensures prefix <= t ==> Decode(bytes[|prefix|..]) == Some(t[|prefix|..])
    decreases |prefix|
  {
    Front(bytes, t);
    if prefix == [] {
      assert bytes[0..] == bytes && t[0..] == t;
    } else if bytes != [] && bytes[0] == prefix[0] {
      var rest := prefix[1..];
      Prefix(bytes[1..], t[1..], rest);
      assert prefix == [prefix[0]] + rest && bytes == [bytes[0]] + bytes[1..] && t == [t[0]] + t[1..];
      assert prefix <= bytes <==> rest <= bytes[1..];
      assert prefix <= t <==> rest <= t[1..];
      assert rest <= t[1..] ==> bytes[1..][|rest|..] == bytes[|prefix|..] && t[1..][|rest|..] == t[|prefix|..];
    }
  }
}
