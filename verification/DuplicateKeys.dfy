/** The scanner that looks for a repeated member name before a JSON text is parsed. */
module DuplicateKeys {
  import opened Rows
  import opened JsonText

  function First<T>(a: Option<T>, b: Option<T>): Option<T> {
    if a.Some? then a else b
  }

  // --- what the nested scanners compute --------------------------------------------------------------

  /** The unread text and the first repeated name met on the way; a syntax error is no result. */
  datatype Scanned = Scanned(rest: Text, found: Option<Text>)

  predicate Next(text: Text, c: Unit) {
    text != [] && text[0] == c
  }

  function SkipSpace(text: Text): (rest: Text)
    ensures |rest| <= |text|
  {
    if text != [] && IsSpace(text[0]) then SkipSpace(text[1..]) else text
  }

  function SkipToken(text: Text): (rest: Text)
    ensures |rest| <= |text|
  {
    if text != [] && !Ends(text[0]) then SkipToken(text[1..]) else text
  }

  /** The body of a string and the text after its closing quote; a backslash hides the character after it. */
  function StringBody(text: Text): (r: Option<(Text, Text)>)
    ensures r.Some? ==> |r.value.1| < |text|
  {
    if text == [] then None
    else if text[0] == BACKSLASH then if |text| < 2 then None else Longer(text[..2], StringBody(text[2..]))
    else if text[0] == QUOTE then Some(([], text[1..]))
    else Longer(text[..1], StringBody(text[1..]))
  }

  function Longer(head: Text, r: Option<(Text, Text)>): Option<(Text, Text)> {
    if r.Some? then Some((head + r.value.0, r.value.1)) else None
  }

  /** A decoded string and the text after it. */
  function ScanString(text: Text): (r: Option<(Text, Text)>)
    ensures r.Some? ==> |r.value.1| < |text|
  {
    if !Next(text, QUOTE) then None
    else
      var body := StringBody(text[1..]);
      if body.None? then None
      else
        var value := ParseBody(body.value.0);
        if value.None? then None else Some((value.value, body.value.1))
  }

  function ScanValue(text: Text, pointer: Text): (r: Option<Scanned>)
    ensures r.Some? ==> |r.value.rest| <= |text|
    decreases |text|, 3
  {
    var t := SkipSpace(text);
    if Next(t, OPEN_BRACE) then ScanObject(t, pointer)
    else if Next(t, OPEN_BRACKET) then ScanArray(t, pointer)
    else if Next(t, QUOTE) then
      var s := ScanString(t);
      if s.None? then None else Some(Scanned(s.value.1, None))
    else Some(Scanned(SkipToken(t), None))
  }

  function ScanObject(text: Text, pointer: Text): (r: Option<Scanned>)
    requires text != []
    ensures r.Some? ==> |r.value.rest| <= |text|
    decreases |text|, 2
  {
    var t := SkipSpace(text[1..]);
    if Next(t, CLOSE_BRACE) then Some(Scanned(t[1..], None)) else ScanMembers(t, {}, pointer)
  }

  function Child(pointer: Text, token: Text): Text {
    pointer + [SLASH] + token
  }

  /** One member: its decoded name, and the text after it with the first repeat met so far. */
  function ScanMember(text: Text, names: set<Text>, pointer: Text): (r: Option<(Text, Scanned)>)
    ensures r.Some? ==> |r.value.1.rest| < |text|
    decreases |text|, 0
  {
    var s := ScanString(text);
    if s.None? then None
    else
      var name, child := s.value.0, Child(pointer, Escaped(s.value.0));
      var t := SkipSpace(s.value.1);
      if !Next(t, COLON) then None
      else
        var v := ScanValue(t[1..], child);
        if v.None? then None
        else Some((name, Scanned(v.value.rest, if name in names then Some(child) else v.value.found)))
  }

  function ScanMembers(text: Text, names: set<Text>, pointer: Text): (r: Option<Scanned>)
    ensures r.Some? ==> |r.value.rest| <= |text|
    decreases |text|, 1
  {
    var m := ScanMember(text, names, pointer);
    if m.None? then None
    else
      var name, rest, found := m.value.0, SkipSpace(m.value.1.rest), m.value.1.found;
      if Next(rest, CLOSE_BRACE) then Some(Scanned(rest[1..], found))
      else if !Next(rest, COMMA) then None
      else
        var more := ScanMembers(SkipSpace(rest[1..]), names + {name}, pointer);
        if more.None? then None else Some(Scanned(more.value.rest, First(found, more.value.found)))
  }

  function ScanArray(text: Text, pointer: Text): (r: Option<Scanned>)
    requires text != []
    ensures r.Some? ==> |r.value.rest| <= |text|
    decreases |text|, 1
  {
    var t := SkipSpace(text[1..]);
    if Next(t, CLOSE_BRACKET) then Some(Scanned(t[1..], None)) else ScanElements(t, 0, pointer)
  }

  function ScanElements(text: Text, item: nat, pointer: Text): (r: Option<Scanned>)
    ensures r.Some? ==> |r.value.rest| <= |text|
    decreases |text|, 4
  {
    if text == [] then None
    else
      var v := ScanValue(text, Child(pointer, Decimal(item)));
      if v.None? then None
      else
        var u := SkipSpace(v.value.rest);
        if Next(u, CLOSE_BRACKET) then Some(Scanned(u[1..], v.value.found))
        else if !Next(u, COMMA) then None
        else
          var more := ScanElements(SkipSpace(u[1..]), item + 1, pointer);
          if more.None? then None else Some(Scanned(more.value.rest, First(v.value.found, more.value.found)))
  }

  // --- the scanner itself: an index into the text and one shared result -------------------------------------

  /** The unread text of a scan together with the shared result it leaves. */
  function Settle(r: Option<Scanned>, before: Option<Text>): Option<(Text, Option<Text>)> {
    if r.None? then None else Some((r.value.rest, First(before, r.value.found)))
  }

  datatype Round = Failed | Closed(end: nat) | Continue(index: nat)

  class Scanner {
    const source: Text
    var duplicate: Option<Text>

    constructor (source: Text)
      ensures this.source == source && duplicate == None
    {
      this.source := source;
      duplicate := None;
    }

    /** Where a scan ended, as the unread text, with the shared result; `None` after a syntax error. */
    ghost function Reached(end: Option<nat>): Option<(Text, Option<Text>)>
      requires end.Some? ==> end.value <= |source|
      reads this
    {
      if end.None? then None else Some((source[end.value..], duplicate))
    }

    method SkipWhitespace(start: nat) returns (index: nat)
      requires start <= |source|
      ensures start <= index <= |source| && source[index..] == SkipSpace(source[start..])
    {
      index := start;
      while index < |source| && IsSpace(source[index])
        invariant start <= index <= |source| && SkipSpace(source[index..]) == SkipSpace(source[start..])
      {
        assert source[index..][0] == source[index] && source[index..][1..] == source[index + 1..];
        index := index + 1;
      }
    }

    /** The closing quote of a string whose body starts here. */
    method FindQuote(first: nat) returns (close: Option<nat>)
      requires first <= |source|
      ensures close.Some? ==> first <= close.value < |source|
      ensures StringBody(source[first..]) ==
                if close.None? then None else Some((source[first..close.value], source[close.value + 1..]))
    {
      var index := first;
      ghost var whole := StringBody(source[first..]);
      BodyStart(source, first);
      while index < |source|
        invariant first <= index
        invariant if index <= |source| then whole == Longer(source[first..index], StringBody(source[index..])) else whole == None
      {
        if source[index] == BACKSLASH {
          BodyStep(source, first, index, 2, whole);
          index := index + 2;
        } else if source[index] == QUOTE {
          BodyEnd(source, first, index, whole);
          return Some(index);
        } else {
          BodyStep(source, first, index, 1, whole);
          index := index + 1;
        }
      }
      close := None;
    }

    /** The end of the string starting here and its decoded value. */
    method ReadString(start: nat) returns (r: Option<(nat, Text)>)
      requires start < |source| && source[start] == QUOTE
      ensures r.Some? ==> start < r.value.0 <= |source|
      ensures var spec := ScanString(source[start..]);
              if spec.None? then r.None? else r.Some? && source[r.value.0..] == spec.value.1 && r.value.1 == spec.value.0
    {
      assert source[start..][1..] == source[start + 1..];
      var close := FindQuote(start + 1);
      if close.None? { return None; }
      var value := ParseBody(source[start + 1..close.value]);
      r := if value.None? then None else Some((close.value + 1, value.value));
    }

    method ScanToken(start: nat) returns (index: nat)
      requires start <= |source|
      ensures start <= index <= |source| && source[index..] == SkipToken(source[start..])
    {
      index := start;
      while index < |source| && !Ends(source[index])
        invariant start <= index <= |source| && SkipToken(source[index..]) == SkipToken(source[start..])
      {
        assert source[index..][0] == source[index] && source[index..][1..] == source[index + 1..];
        index := index + 1;
      }
    }

    method ReadValue(start: nat, pointer: Text) returns (end: Option<nat>)
      requires start <= |source|
      modifies this
      ensures end.Some? ==> start <= end.value <= |source|
      ensures Reached(end) == Settle(ScanValue(source[start..], pointer), old(duplicate))
      decreases |source| - start, 2
    {
      var index := SkipWhitespace(start);
      assert index < |source| ==> source[index..][0] == source[index];
      if index < |source| && source[index] == OPEN_BRACE { end := ReadObject(index, pointer); return; }
      if index < |source| && source[index] == OPEN_BRACKET { end := ReadArray(index, pointer); return; }
      if index < |source| && source[index] == QUOTE {
        var s := ReadString(index);
        return if s.None? then None else Some(s.value.0);
      }
      index := ScanToken(index);
      end := Some(index);
    }

    /** One round of the object loop: a name, which may be the first repeat, and its value. */
    method ReadMember(start: nat, names: set<Text>, pointer: Text) returns (r: Option<(Text, nat)>)
      requires start < |source|
      modifies this
      ensures r.Some? ==> start < r.value.1 <= |source|
      ensures var spec := ScanMember(source[start..], names, pointer);
              if spec.None? then r.None?
              else r.Some? && r.value.0 == spec.value.0 && source[r.value.1..] == spec.value.1.rest
                   && duplicate == First(old(duplicate), spec.value.1.found)
      decreases |source| - start, 0
    {
      assert source[start..][0] == source[start];
      // What is not a string here ends in a quote at best, and is rejected when it is parsed.
      if source[start] != QUOTE { return None; }
      var s := ReadString(start);
      if s.None? { return None; }
      var name, child := s.value.1, Child(pointer, Escaped(s.value.1));
      if name in names && duplicate.None? { duplicate := Some(child); }
      var colon := SkipWhitespace(s.value.0);
      if !At(colon, COLON) { return None; }
      var v := ReadValue(colon + 1, child);
      r := if v.None? then None else Some((name, v.value));
    }

    /** After a value: a closing bracket, a comma and the next round, or an error. */
    method AfterValue(start: nat, close: Unit) returns (r: Round)
      requires start <= |source|
      ensures r.Closed? ==> start < r.end <= |source|
      ensures r.Continue? ==> start < r.index <= |source|
      ensures var rest := SkipSpace(source[start..]);
              if Next(rest, close) then r.Closed? && source[r.end..] == rest[1..]
              else if Next(rest, COMMA) then r.Continue? && source[r.index..] == SkipSpace(rest[1..])
              else r.Failed?
    {
      var after := SkipWhitespace(start);
      if At(after, close) { return Closed(after + 1); }
      if !At(after, COMMA) { return Failed; }
      var index := SkipWhitespace(after + 1);
      r := Continue(index);
    }

    method ReadMembers(start: nat, pointer: Text) returns (end: Option<nat>)
      requires start <= |source|
      modifies this
      ensures end.Some? ==> start <= end.value <= |source|
      ensures Reached(end) == Settle(ScanMembers(source[start..], {}, pointer), old(duplicate))
      decreases |source| - start, 1
    {
      var names: set<Text>, index := {}, start;
      ghost var target := Settle(ScanMembers(source[start..], names, pointer), duplicate);
      while index < |source|
        invariant start <= index <= |source|
        invariant Settle(ScanMembers(source[index..], names, pointer), duplicate) == target
        decreases |source| - index
      {
        var m := ReadMember(index, names, pointer);
        if m.None? { return None; }
        names := names + {m.value.0};
        var round := AfterValue(m.value.1, CLOSE_BRACE);
        match round
        case Failed => return None;
        case Closed(e) => return Some(e);
        case Continue(i) => index := i;
      }
      end := None;
    }

    method ReadObject(start: nat, pointer: Text) returns (end: Option<nat>)
      requires start < |source|
      modifies this
      ensures end.Some? ==> start <= end.value <= |source|
      ensures Reached(end) == Settle(ScanObject(source[start..], pointer), old(duplicate))
      decreases |source| - start, 1
    {
      assert source[start..][1..] == source[start + 1..];
      var index := SkipWhitespace(start + 1);
      if At(index, CLOSE_BRACE) { return Some(index + 1); }
      end := ReadMembers(index, pointer);
    }

    method ReadElements(start: nat, pointer: Text) returns (end: Option<nat>)
      requires start <= |source|
      modifies this
      ensures end.Some? ==> start <= end.value <= |source|
      ensures Reached(end) == Settle(ScanElements(source[start..], 0, pointer), old(duplicate))
      decreases |source| - start, 3
    {
      var item, index := 0, start;
      ghost var target := Settle(ScanElements(source[start..], item, pointer), duplicate);
      while index < |source|
        invariant start <= index <= |source|
        invariant Settle(ScanElements(source[index..], item, pointer), duplicate) == target
        decreases |source| - index
      {
        var v := ReadValue(index, Child(pointer, Decimal(item)));
        if v.None? { return None; }
        item := item + 1;
        var round := AfterValue(v.value, CLOSE_BRACKET);
        match round
        case Failed => return None;
        case Closed(e) => return Some(e);
        case Continue(i) => index := i;
      }
      end := None;
    }

    method ReadArray(start: nat, pointer: Text) returns (end: Option<nat>)
      requires start < |source|
      modifies this
      ensures end.Some? ==> start <= end.value <= |source|
      ensures Reached(end) == Settle(ScanArray(source[start..], pointer), old(duplicate))
      decreases |source| - start, 1
    {
      assert source[start..][1..] == source[start + 1..];
      var index := SkipWhitespace(start + 1);
      if At(index, CLOSE_BRACKET) { return Some(index + 1); }
      end := ReadElements(index, pointer);
    }

    /** The character at an index, seen as the front of the unread text. */
    predicate At(index: nat, c: Unit)
      requires index <= |source|
      ensures At(index, c) == Next(source[index..], c)
      ensures At(index, c) ==> source[index..][1..] == source[index + 1..]
    {
      assert index < |source| ==> source[index..][1..] == source[index + 1..];
      index < |source| && source[index] == c
    }
  }

  lemma BodyStart(source: Text, first: nat)
    requires first <= |source|
    ensures StringBody(source[first..]) == Longer(source[first..first], StringBody(source[first..]))
  {
    var r := StringBody(source[first..]);
    if r.Some? { assert source[first..first] + r.value.0 == r.value.0; }
  }

  lemma BodyEnd(source: Text, first: nat, index: nat, whole: Option<(Text, Text)>)
    requires first <= index < |source| && source[index] == QUOTE
    requires whole == Longer(source[first..index], StringBody(source[index..]))
    ensures whole == Some((source[first..index], source[index + 1..]))
  {
    assert source[index..][1..] == source[index + 1..] && source[first..index] + [] == source[first..index];
  }

  lemma BodyStep(source: Text, first: nat, index: nat, width: nat, whole: Option<(Text, Text)>)
    requires first <= index < |source| && source[index] != QUOTE && width == (if source[index] == BACKSLASH then 2 else 1)
    requires whole == Longer(source[first..index], StringBody(source[index..]))
    ensures index + width <= |source| ==> whole == Longer(source[first..index + width], StringBody(source[index + width..]))
    ensures index + width > |source| ==> whole == None
  {
    var text := source[index..];
    if width <= |text| {
      assert text[width..] == source[index + width..];
      assert source[first..index] + text[..width] == source[first..index + width];
      var rest := StringBody(text[width..]);
      if rest.Some? {
        assert source[first..index] + (text[..width] + rest.value.0) == source[first..index + width] + rest.value.0;
      }
    }
  }

  /** The check made before parsing: a syntax error, or the pointer of the first repeated name, if any. */
  method DuplicateJsonKey(source: Text) returns (r: Result<Option<Text>, ()>)
    ensures var spec := ScanValue(source, []); r == if spec.None? then Err(()) else Ok(spec.value.found)
  {
    var scanner := new Scanner(source);
    assert source[0..] == source;
    var end := scanner.ReadValue(0, []);
    r := if end.None? then Err(()) else Ok(scanner.duplicate);
  }
}
