/**
 Trust state in the Codex configuration: scanning it line by line, and pruning sections from it.

 A line is what the scans see of it and what part it has in the TOML document.
 */
module CodexTrust {
  import opened Rows

  /** A position of our hooks file, or a state section of something else. */
  datatype Key = Pinned(event: string, group: nat, handler: nat) | Unrelated(text: string)

  /** What a table header opens: a state entry, `[hooks.state]`, a `[hooks]` with nothing in it but its state, another table. */
  datatype Table = State(key: Key) | States | BareHooks | OtherTable

  /**
   Blank or a comment; a table header; a line of a value, which may start with a bracket inside an array or a multi-line
   string, and which may write a state entry without a section of its own; a line that starts with `enabled = false`.
   */
  datatype Role = Silent | Opens(table: Table) | Holds(bracket: bool, entry: Option<Key>) | Disables

  /** The state headers it mentions, in order, anywhere in its text; whether it mentions a trusted hash. */
  datatype Line = Line(mentions: seq<Key>, hash: bool, role: Role, text: string)

  datatype Entry = Entry(key: Key, trusted: bool, disabled: bool)

  /** The scans take a body to end at the next line that starts with a bracket. */
  predicate Section(line: Line) {
    line.role.Opens? || (line.role.Holds? && line.role.bracket)
  }

  /** The header the pruning sees: the first one. */
  predicate Names(line: Line, keys: set<Key>) {
    line.mentions != [] && line.mentions[0] in keys
  }

  function FirstPinned(mentions: seq<Key>): (r: Option<Key>)
    ensures r.Some? ==> r.value.Pinned?
    ensures mentions != [] && mentions[0].Pinned? ==> r == Some(mentions[0])
  {
    if mentions == [] then None
    else if mentions[0].Pinned? then Some(mentions[0])
    else FirstPinned(mentions[1..])
  }

  /** The header the reading sees: the first one of our hooks file. */
  function EntryKey(line: Line): (r: Option<Key>)
    ensures r.Some? ==> r.value.Pinned?
    ensures line.mentions != [] && line.mentions[0].Pinned? ==> r == Some(line.mentions[0])
  {
    FirstPinned(line.mentions)
  }

  /** Flags of a body: the lines before the next section. */
  predicate HashIn(lines: seq<Line>) {
    lines != [] && !Section(lines[0]) && (lines[0].hash || HashIn(lines[1..]))
  }

  predicate DisabledIn(lines: seq<Line>) {
    lines != [] && !Section(lines[0]) && (lines[0].role.Disables? || DisabledIn(lines[1..]))
  }

  function EntryAt(key: Key, body: seq<Line>): Entry {
    Entry(key, HashIn(body) && !DisabledIn(body), DisabledIn(body))
  }

  /** The entry of a line with this body, if it names one. */
  function EntriesOf(line: Line, body: seq<Line>): seq<Entry> {
    var k := EntryKey(line);
    if k.Some? then [EntryAt(k.value, body)] else []
  }

  function Parse(lines: seq<Line>): seq<Entry> {
    if lines == [] then [] else EntriesOf(lines[0], lines[1..]) + Parse(lines[1..])
  }

  function SkipBody(lines: seq<Line>): (r: seq<Line>)
    ensures |r| <= |lines|
    ensures r == [] || Section(r[0])
  {
    if lines == [] || Section(lines[0]) then lines else SkipBody(lines[1..])
  }

  /** The lines without the sections of some keys. */
  function Prune(lines: seq<Line>, keys: set<Key>): seq<Line>
    decreases |lines|
  {
    if lines == [] then []
    else if Names(lines[0], keys) then Prune(SkipBody(lines[1..]), keys)
    else [lines[0]] + Prune(lines[1..], keys)
  }

  /** The flags of the section whose body starts here. */
  method ReadFlags(lines: seq<Line>, first: nat) returns (trusted: bool, disabled: bool)
    requires first <= |lines|
    ensures trusted == HashIn(lines[first..]) && disabled == DisabledIn(lines[first..])
  {
    var j := first;
    trusted, disabled := false, false;
    while j < |lines| && !Section(lines[j])
      invariant first <= j <= |lines|
      invariant HashIn(lines[first..]) == (trusted || HashIn(lines[j..]))
      invariant DisabledIn(lines[first..]) == (disabled || DisabledIn(lines[j..]))
    {
      assert lines[j..][0] == lines[j] && lines[j..][1..] == lines[j + 1..];
      if lines[j].hash { trusted := true; }
      if lines[j].role.Disables? { disabled := true; }
      j := j + 1;
    }
    assert j < |lines| ==> lines[j..][0] == lines[j];
  }

  lemma ParseStep(lines: seq<Line>, i: nat, entries: seq<Entry>)
    requires i < |lines|
    ensures entries + Parse(lines[i..]) == (entries + EntriesOf(lines[i], lines[i + 1..])) + Parse(lines[i + 1..])
  {
    assert lines[i..][0] == lines[i] && lines[i..][1..] == lines[i + 1..];
  }

  method ParseTrustState(lines: seq<Line>) returns (entries: seq<Entry>)
    ensures entries == Parse(lines)
  {
    entries := [];
    assert lines[0..] == lines;
    for i := 0 to |lines|
      invariant entries + Parse(lines[i..]) == Parse(lines)
    {
      ParseStep(lines, i, entries);
      var k := EntryKey(lines[i]);
      if k.Some? {
        var trusted, disabled := ReadFlags(lines, i + 1);
        assert EntriesOf(lines[i], lines[i + 1..]) == [Entry(k.value, trusted && !disabled, disabled)];
        entries := entries + [Entry(k.value, trusted && !disabled, disabled)];
      } else {
        assert entries + EntriesOf(lines[i], lines[i + 1..]) == entries;
      }
    }
  }

  method PruneTrustKeys(lines: seq<Line>, keys: set<Key>) returns (kept: seq<Line>)
    ensures kept == Prune(lines, keys)
  {
    kept := [];
    var i := 0;
    assert lines[0..] == lines;
    while i < |lines|
      invariant 0 <= i <= |lines| && kept + Prune(lines[i..], keys) == Prune(lines, keys)
      decreases |lines| - i
    {
      assert lines[i..][0] == lines[i] && lines[i..][1..] == lines[i + 1..];
      if lines[i].mentions != [] && lines[i].mentions[0] in keys {
        var j := i + 1;
        while j < |lines| && !Section(lines[j])
          invariant i + 1 <= j <= |lines| && SkipBody(lines[i + 1..]) == SkipBody(lines[j..])
        {
          assert lines[j..][0] == lines[j] && lines[j..][1..] == lines[j + 1..];
          j := j + 1;
        }
        assert SkipBody(lines[j..]) == lines[j..] by { if j < |lines| { assert lines[j..][0] == lines[j]; } }
        i := j;
      } else {
        assert kept + ([lines[i]] + Prune(lines[i + 1..], keys)) == (kept + [lines[i]]) + Prune(lines[i + 1..], keys);
        kept := kept + [lines[i]];
        i := i + 1;
      }
    }
  }

  // --- what a body loses ------------------------------------------------------------------------------------------

  /** Flags of a body that stand before the first header to remove. */
  predicate HashBefore(body: seq<Line>, keys: set<Key>) {
    body != [] && !Section(body[0]) && !Names(body[0], keys) && (body[0].hash || HashBefore(body[1..], keys))
  }

  predicate DisabledBefore(body: seq<Line>, keys: set<Key>) {
    body != [] && !Section(body[0]) && !Names(body[0], keys) && (body[0].role.Disables? || DisabledBefore(body[1..], keys))
  }

  lemma {:induction false} PruneStops(lines: seq<Line>, keys: set<Key>)
    requires lines == [] || Section(lines[0])
    ensures var r := Prune(lines, keys); r == [] || (Section(r[0]) && !Names(r[0], keys))
    decreases |lines|
  {
    if lines != [] && Names(lines[0], keys) { PruneStops(SkipBody(lines[1..]), keys); }
  }

  /** After pruning a body ends at the first header that was removed from it. */
  lemma {:induction false} BodyAfterPrune(body: seq<Line>, keys: set<Key>)
    ensures HashIn(Prune(body, keys)) == HashBefore(body, keys) && DisabledIn(Prune(body, keys)) == DisabledBefore(body, keys)
    decreases |body|
  {
    if body != [] {
      if Names(body[0], keys) {
        PruneStops(SkipBody(body[1..]), keys);
      } else {
        BodyAfterPrune(body[1..], keys);
        assert ([body[0]] + Prune(body[1..], keys))[1..] == Prune(body[1..], keys);
      }
    }
  }

  /** What is left of an entry when its body ends at the first header to remove. */
  function EntryBefore(key: Key, body: seq<Line>, keys: set<Key>): Entry {
    Entry(key, HashBefore(body, keys) && !DisabledBefore(body, keys), DisabledBefore(body, keys))
  }

  /** A line that stays gives its entry, with what is left of its body. */
  lemma ParseKept(lines: seq<Line>, keys: set<Key>)
    requires lines != [] && !Names(lines[0], keys)
    ensures var k := EntryKey(lines[0]);
            Parse(Prune(lines, keys))
              == (if k.Some? then [EntryBefore(k.value, lines[1..], keys)] else []) + Parse(Prune(lines[1..], keys))
  {
    assert ([lines[0]] + Prune(lines[1..], keys))[1..] == Prune(lines[1..], keys);
    BodyAfterPrune(lines[1..], keys);
  }

  // --- when pruning removes exactly the named entries ---------------------------------------------------------

  function Outside(keys: set<Key>): Entry -> bool {
    (e: Entry) => e.key !in keys
  }

  predicate KeptEntry(line: Line, keys: set<Key>) {
    EntryKey(line).Some? && EntryKey(line).value !in keys
  }

  /** A body holds the header of an entry to keep, inside a comment or a string. */
  predicate KeptHeaderIn(body: seq<Line>, keys: set<Key>) {
    body != [] && !Section(body[0]) && (KeptEntry(body[0], keys) || KeptHeaderIn(body[1..], keys))
  }

  /**
   No removed section holds the header of an entry to keep; no line that stays gives an entry to remove, whose header
   stands behind another one; and no entry to keep has a header to remove in its body that takes a flag along.
   */
  predicate Harmless(lines: seq<Line>, keys: set<Key>)
    decreases |lines|
  {
    lines != [] ==>
      var k, rest := EntryKey(lines[0]), lines[1..];
      (if Names(lines[0], keys) then !KeptEntry(lines[0], keys) && !KeptHeaderIn(rest, keys) && Harmless(SkipBody(rest), keys)
       else
         && (k.Some? ==> k.value !in keys && EntryBefore(k.value, rest, keys) == EntryAt(k.value, rest))
         && Harmless(rest, keys))
  }

  lemma EntryFirst(lines: seq<Line>, keys: set<Key>)
    requires lines != []
    ensures var rest := Filter(Outside(keys), Parse(lines[1..]));
            Filter(Outside(keys), Parse(lines))
              == if KeptEntry(lines[0], keys) then [EntryAt(EntryKey(lines[0]).value, lines[1..])] + rest else rest
  {
    var first := EntriesOf(lines[0], lines[1..]);
    FilterConcat(Outside(keys), first, Parse(lines[1..]));
    assert Filter(Outside(keys), Parse(lines)) == Filter(Outside(keys), first) + Filter(Outside(keys), Parse(lines[1..]));
    if first != [] { assert first[1..] == []; }
  }

  /** The entries to keep in a removed body come first. */
  lemma {:induction false} SkippedEntries(body: seq<Line>, keys: set<Key>) returns (lost: seq<Entry>)
    ensures Filter(Outside(keys), Parse(body)) == lost + Filter(Outside(keys), Parse(SkipBody(body)))
    ensures lost == [] <==> !KeptHeaderIn(body, keys)
  {
    if body == [] || Section(body[0]) {
      lost := [];
    } else {
      var rest := SkippedEntries(body[1..], keys);
      EntryFirst(body, keys);
      lost := if KeptEntry(body[0], keys) then [EntryAt(EntryKey(body[0]).value, body[1..])] + rest else rest;
    }
  }

  lemma {:induction false} PruneNeverAdds(lines: seq<Line>, keys: set<Key>)
    ensures |Filter(Outside(keys), Parse(Prune(lines, keys)))| <= |Filter(Outside(keys), Parse(lines))|
    decreases |lines|
  {
    if lines != [] {
      var rest := lines[1..];
      EntryFirst(lines, keys);
      if Names(lines[0], keys) {
        var lost := SkippedEntries(rest, keys);
        PruneNeverAdds(SkipBody(rest), keys);
      } else {
        PruneNeverAdds(rest, keys);
        EntryFirst(Prune(lines, keys), keys);
        assert Prune(lines, keys)[1..] == Prune(rest, keys);
      }
    }
  }

  /** Entries that are all outside are not filtered. */
  lemma AllOutside(keys: set<Key>, a: seq<Entry>, lost: seq<Entry>, b: seq<Entry>)
    requires a == lost + Filter(Outside(keys), b) && Filter(Outside(keys), lost) == lost
    ensures Filter(Outside(keys), a) == a
  {
    FilterConcat(Outside(keys), lost, Filter(Outside(keys), b));
    FilterWithin(Outside(keys), Outside(keys), b);
  }

  lemma AreOutside(all: seq<Line>, skip: seq<Line>, keys: set<Key>, lost: seq<Entry>)
    requires Filter(Outside(keys), Parse(all)) == lost + Filter(Outside(keys), Parse(skip))
    ensures Filter(Outside(keys), lost) == lost
  {
    var rest := Filter(Outside(keys), Parse(skip));
    FilterWithin(Outside(keys), Outside(keys), Parse(all));
    FilterWithin(Outside(keys), Outside(keys), Parse(skip));
    FilterConcat(Outside(keys), lost, rest);
    assert Filter(Outside(keys), lost) + rest == lost + rest;
    assert (lost + rest)[..|lost|] == lost;
    assert (Filter(Outside(keys), lost) + rest)[..|lost|] == Filter(Outside(keys), lost);
  }

  lemma SameHeadAndTail(a: seq<Entry>, b: seq<Entry>)
    ensures forall x, y :: [x] + a == [y] + b <==> x == y && a == b
  {
    forall x, y ensures [x] + a == [y] + b <==> x == y && a == b {
      if [x] + a == [y] + b { assert x == ([x] + a)[0] && a == ([x] + a)[1..] && b == ([y] + b)[1..]; }
    }
  }

  /** Entries lost with a removed section are not made up for by the rest. */
  lemma LostForGood(all: seq<Line>, skip: seq<Line>, keys: set<Key>, lost: seq<Entry>)
    requires Filter(Outside(keys), Parse(all)) == lost + Filter(Outside(keys), Parse(skip))
    ensures var after := Parse(Prune(skip, keys));
            after == Filter(Outside(keys), Parse(all)) <==> lost == [] && after == Filter(Outside(keys), Parse(skip))
  {
    var after := Parse(Prune(skip, keys));
    PruneNeverAdds(skip, keys);
    AreOutside(all, skip, keys, lost);
    if after == Filter(Outside(keys), Parse(all)) { AllOutside(keys, after, lost, Parse(skip)); }
  }

  /** A removed section loses nothing exactly when it holds no entry to keep. */
  lemma RemovedWhole(lines: seq<Line>, keys: set<Key>)
    requires lines != [] && Names(lines[0], keys)
    ensures var rest := lines[1..];
            (Parse(Prune(lines, keys)) == Filter(Outside(keys), Parse(lines))) <==>
              && !KeptEntry(lines[0], keys) && !KeptHeaderIn(rest, keys)
              && Parse(Prune(SkipBody(rest), keys)) == Filter(Outside(keys), Parse(SkipBody(rest)))
  {
    EntryFirst(lines, keys);
    var lost := SkippedEntries(lines[1..], keys);
    if KeptEntry(lines[0], keys) { lost := [EntryAt(EntryKey(lines[0]).value, lines[1..])] + lost; }
    LostForGood(lines, SkipBody(lines[1..]), keys, lost);
  }

  /** A line that stays keeps its entry exactly when it is one to keep and loses no flag. */
  lemma KeptAsItWas(lines: seq<Line>, keys: set<Key>)
    requires lines != [] && !Names(lines[0], keys)
    ensures var k, rest := EntryKey(lines[0]), lines[1..];
            (Parse(Prune(lines, keys)) == Filter(Outside(keys), Parse(lines))) <==>
              && (k.Some? ==> k.value !in keys && EntryBefore(k.value, rest, keys) == EntryAt(k.value, rest))
              && Parse(Prune(rest, keys)) == Filter(Outside(keys), Parse(rest))
  {
    EntryFirst(lines, keys);
    ParseKept(lines, keys);
    SameHeadAndTail(Parse(Prune(lines[1..], keys)), Filter(Outside(keys), Parse(lines[1..])));
    var k, after := EntryKey(lines[0]), Parse(Prune(lines, keys));
    if k.Some? { assert after[0].key == k.value && after[0] in after; }
  }

  /**
   Reading a pruned configuration gives exactly the entries of the other keys, flags unchanged, exactly when the pruning
   is harmless.
   */
  lemma {:induction false} ParseAfterPruneIff(lines: seq<Line>, keys: set<Key>)
    ensures Parse(Prune(lines, keys)) == Filter(Outside(keys), Parse(lines)) <==> Harmless(lines, keys)
    decreases |lines|
  {
    if lines != [] {
      var rest := lines[1..];
      if Names(lines[0], keys) {
        RemovedWhole(lines, keys);
        ParseAfterPruneIff(SkipBody(rest), keys);
      } else {
        KeptAsItWas(lines, keys);
        ParseAfterPruneIff(rest, keys);
      }
    }
  }

  // --- disabled entries ------------------------------------------------------------------------------------------

  function IsDisabled(): Entry -> bool {
    (e: Entry) => e.disabled
  }

  /** The user's recorded decisions, as the scan reads them. */
  function DisabledEntries(lines: seq<Line>): seq<Entry> {
    Filter(IsDisabled(), Parse(lines))
  }

  /** A disabling line of the body that does not mention a header to remove first. */
  predicate FlagAlone(body: seq<Line>, keys: set<Key>) {
    body != [] && !Section(body[0]) && ((body[0].role.Disables? && !Names(body[0], keys)) || FlagAlone(body[1..], keys))
  }

  /** The line gives a disabled entry. */
  predicate GivesDisabled(line: Line, body: seq<Line>) {
    EntryKey(line).Some? && DisabledIn(body)
  }

  /** No line that gives a disabled entry is one to remove, and each has a disabling line of its own. */
  predicate Spared(lines: seq<Line>, keys: set<Key>) {
    lines != [] ==>
      && (GivesDisabled(lines[0], lines[1..]) ==> !Names(lines[0], keys) && FlagAlone(lines[1..], keys))
      && Spared(lines[1..], keys)
  }

  predicate AllPinned(keys: set<Key>) {
    forall k :: k in keys ==> k.Pinned?
  }

  /** The disabled entry of a line whose body disables. */
  function DisabledOf(line: Line, flag: bool): seq<Entry> {
    var k := EntryKey(line);
    if k.Some? && flag then [Entry(k.value, false, true)] else []
  }

  lemma DisabledFirst(lines: seq<Line>)
    requires lines != []
    ensures DisabledEntries(lines)
              == DisabledOf(lines[0], DisabledIn(lines[1..])) + DisabledEntries(lines[1..])
  {
    var first := EntriesOf(lines[0], lines[1..]);
    FilterConcat(IsDisabled(), first, Parse(lines[1..]));
    if first != [] { assert first[1..] == []; }
  }

  lemma DisabledKept(lines: seq<Line>, keys: set<Key>)
    requires lines != [] && !Names(lines[0], keys)
    ensures DisabledEntries(Prune(lines, keys))
              == DisabledOf(lines[0], DisabledBefore(lines[1..], keys)) + DisabledEntries(Prune(lines[1..], keys))
  {
    assert Prune(lines, keys)[1..] == Prune(lines[1..], keys);
    DisabledFirst(Prune(lines, keys));
    BodyAfterPrune(lines[1..], keys);
  }

  lemma {:induction false} BeforeIsIn(body: seq<Line>, keys: set<Key>)
    ensures DisabledBefore(body, keys) ==> FlagAlone(body, keys)
    ensures FlagAlone(body, keys) ==> DisabledIn(body)
  {
    if body != [] && !Section(body[0]) { BeforeIsIn(body[1..], keys); }
  }

  /** A header to remove in front of the flag would itself give a disabled entry. */
  lemma {:induction false} AloneIsBefore(body: seq<Line>, keys: set<Key>)
    requires AllPinned(keys) && Spared(body, keys)
    ensures FlagAlone(body, keys) ==> DisabledBefore(body, keys)
  {
    if body != [] && !Section(body[0]) {
      AloneIsBefore(body[1..], keys);
      BeforeIsIn(body[1..], keys);
    }
  }

  /** The disabled entries of a removed body come first; there are none when nothing in it disables. */
  lemma {:induction false} SkippedDisabled(body: seq<Line>) returns (lost: seq<Entry>)
    ensures DisabledEntries(body) == lost + DisabledEntries(SkipBody(body))
    ensures !DisabledIn(body) ==> lost == []
  {
    if body == [] || Section(body[0]) {
      lost := [];
    } else {
      var rest := SkippedDisabled(body[1..]);
      DisabledFirst(body);
      lost := DisabledOf(body[0], DisabledIn(body[1..])) + rest;
      Regroup(DisabledOf(body[0], DisabledIn(body[1..])), rest, DisabledEntries(SkipBody(body)));
    }
  }

  lemma Regroup(a: seq<Entry>, b: seq<Entry>, c: seq<Entry>)
    ensures a + (b + c) == (a + b) + c
  {}

  /** Where nothing in it disables, a removed body has nothing to spare. */
  lemma {:induction false} SparedBody(body: seq<Line>, keys: set<Key>)
    requires !DisabledIn(body)
    ensures Spared(body, keys) <==> Spared(SkipBody(body), keys)
  {
    if body != [] && !Section(body[0]) { SparedBody(body[1..], keys); }
  }

  lemma {:induction false} PruneDisablesNothing(lines: seq<Line>, keys: set<Key>)
    ensures |DisabledEntries(Prune(lines, keys))| <= |DisabledEntries(lines)|
    decreases |lines|
  {
    if lines != [] {
      DisabledFirst(lines);
      if Names(lines[0], keys) {
        var lost := SkippedDisabled(lines[1..]);
        PruneDisablesNothing(SkipBody(lines[1..]), keys);
      } else {
        DisabledKept(lines, keys);
        BeforeIsIn(lines[1..], keys);
        PruneDisablesNothing(lines[1..], keys);
      }
    }
  }

  lemma SameFirstAndRest(x: seq<Entry>, a: seq<Entry>, y: seq<Entry>, b: seq<Entry>)
    requires (x == y || x == []) && |a| <= |b|
    ensures x + a == y + b <==> x == y && a == b
  {
    if x + a == y + b {
      assert |x + a| == |x| + |a| && |y + b| == |y| + |b|;
      assert (x + a)[|x|..] == a && (y + b)[|y|..] == b;
    }
  }

  /** A line that stays keeps its disabled entry exactly when a disabling line is left before the first removed header. */
  lemma KeptStaysDisabled(lines: seq<Line>, keys: set<Key>)
    requires lines != [] && !Names(lines[0], keys)
    ensures DisabledEntries(Prune(lines, keys)) == DisabledEntries(lines) <==>
              && (EntryKey(lines[0]).Some? && DisabledIn(lines[1..]) ==> DisabledBefore(lines[1..], keys))
              && DisabledEntries(Prune(lines[1..], keys)) == DisabledEntries(lines[1..])
  {
    var was := DisabledOf(lines[0], DisabledIn(lines[1..]));
    var now := DisabledOf(lines[0], DisabledBefore(lines[1..], keys));
    DisabledFirst(lines);
    DisabledKept(lines, keys);
    PruneDisablesNothing(lines[1..], keys);
    BeforeIsIn(lines[1..], keys);
    SameFirstAndRest(now, DisabledEntries(Prune(lines[1..], keys)), was, DisabledEntries(lines[1..]));
  }

  /**
   Pruning any of our keys leaves the disabled entries as they were, all of them and still disabled, exactly when none
   stands on a line to remove and each has a disabling line that does not itself mention a header to remove.
   */
  lemma {:induction false} DisabledStayIff(lines: seq<Line>, keys: set<Key>)
    requires AllPinned(keys)
    ensures DisabledEntries(Prune(lines, keys)) == DisabledEntries(lines) <==> Spared(lines, keys)
    decreases |lines|
  {
    if lines != [] {
      var rest := lines[1..];
      if Names(lines[0], keys) {
        DisabledFirst(lines);
        var lost := SkippedDisabled(rest);
        if !DisabledIn(rest) { SparedBody(rest, keys); }
        DisabledStayIff(SkipBody(rest), keys);
        PruneDisablesNothing(SkipBody(rest), keys);
      } else {
        KeptStaysDisabled(lines, keys);
        DisabledStayIff(rest, keys);
        BeforeIsIn(rest, keys);
        if Spared(rest, keys) { AloneIsBefore(rest, keys); }
      }
    }
  }
}
