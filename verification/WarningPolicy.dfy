/** Governance warnings: how often a session sees one, and how long it can get. */
module WarningPolicy {
  import opened Rows
  import opened Utf16

  // --- emission ----------------------------------------------------------------------------------------------

  const MAX_PER_SESSION := 5
  const ROWS_READ := 6

  datatype Observation = Observation(session: string, emitted: bool, fingerprint: string)

  datatype Decision = Eligible | DuplicateFingerprint | SessionCeiling

  function EmittedIn(session: string): Observation -> bool {
    (o: Observation) => o.emitted && o.session == session
  }

  predicate HasFingerprint(rows: seq<Observation>, fingerprint: string) {
    exists i :: 0 <= i < |rows| && rows[i].fingerprint == fingerprint
  }

  function Decide(fingerprint: string, rows: seq<Observation>): Decision {
    if HasFingerprint(rows, fingerprint) then DuplicateFingerprint
    else if |rows| >= MAX_PER_SESSION then SessionCeiling
    else Eligible
  }

  function FirstRows(rows: seq<Observation>): seq<Observation> {
    if |rows| <= ROWS_READ then rows else rows[..ROWS_READ]
  }

  /** One transaction: read the session's first emissions, decide, and append what was decided. */
  function Commit(audit: seq<Observation>, session: string, fingerprint: string): seq<Observation> {
    var rows := FirstRows(Filter(EmittedIn(session), audit));
    audit + [Observation(session, Decide(fingerprint, rows).Eligible?, fingerprint)]
  }

  datatype Request = Request(session: string, fingerprint: string)

  function CommitAll(requests: seq<Request>): seq<Observation> {
    if requests == [] then []
    else
      var last := requests[|requests| - 1];
      Commit(CommitAll(requests[..|requests| - 1]), last.session, last.fingerprint)
  }

  predicate Fingerprinted(rows: seq<Observation>) {
    forall i, j :: 0 <= i < j < |rows| ==> rows[i].fingerprint != rows[j].fingerprint
  }

  /** However many unresolved stops and whatever their order: five warnings a session at most, no two the same. */
  lemma {:induction false} SessionIsSpared(requests: seq<Request>, session: string)
    ensures var emitted := Filter(EmittedIn(session), CommitAll(requests));
            |emitted| <= MAX_PER_SESSION && Fingerprinted(emitted)
    decreases |requests|
  {
    if requests != [] {
      var before, last := CommitAll(requests[..|requests| - 1]), requests[|requests| - 1];
      SessionIsSpared(requests[..|requests| - 1], session);
      SessionIsSpared(requests[..|requests| - 1], last.session);
      EmittedAfter(before, last.session, last.fingerprint, session);
    }
  }

  lemma EmittedAfter(audit: seq<Observation>, session: string, fingerprint: string, other: string)
    ensures var rows, after := Filter(EmittedIn(session), audit), Filter(EmittedIn(other), Commit(audit, session, fingerprint));
            after == Filter(EmittedIn(other), audit)
                     + (if other == session && Decide(fingerprint, FirstRows(rows)).Eligible? then [Observation(session, true, fingerprint)] else [])
  {
    var rows := Filter(EmittedIn(session), audit);
    var o := Observation(session, Decide(fingerprint, FirstRows(rows)).Eligible?, fingerprint);
    FilterConcat(EmittedIn(other), audit, [o]);
    assert [o][1..] == [];
  }

  // --- rendering ------------------------------------------------------------------------------------------------

  const MAX_CHARS := 4_000
  const RULES_CHARS := 1_024

  const OVERRIDE_LINE: string := "Governance " + "warning: " + "a user-" + "confirmed " + "temporary " + "override " + "is active."
  const UNRESOLVED_LINE: string := "Governance " + "warning: " + "pre-exit " + "checks " + "remain " + "unresolved."
  const CLOSING: string := "Completion " + "continues; " + "this " + "warning is " + "non-controlling."
  const ACTIVE: string := "A prior Stop " + "hook is " + "active; no " + "escalation " + "is performed."
  const OMITTED: string := "- Additional " + "unresolved " + "checks " + "omitted by " + "the message " + "size limit."
  const RULES: string := "Rules: "
  const NONE: string := "(none)"
  const MORE: string := ", \U{2026}"

  function JoinWith(parts: seq<string>, separator: string): string {
    if parts == [] then ""
    else if |parts| == 1 then parts[0]
    else JoinWith(parts[..|parts| - 1], separator) + separator + parts[|parts| - 1]
  }

  function JoinedLength(values: seq<string>): nat { Utf16Length(JoinWith(values, ", ")) }

  /** The first `shown` values, which fit where one more would not, and a mark when some are missing. */
  ghost predicate ShowsFirst(text: string, values: seq<string>, maxChars: nat, shown: nat) {
    && shown <= |values| && text == JoinWith(values[..shown], ", ") + (if shown < |values| then MORE else "")
    && JoinedLength(values[..shown]) <= maxChars
    && (shown < |values| ==> JoinedLength(values[..shown + 1]) > maxChars)
  }

  method BoundedJoin(values: seq<string>, maxChars: nat) returns (text: string)
    ensures exists shown :: ShowsFirst(text, values, maxChars, shown)
  {
    var included: seq<string> := [];
    for k := 0 to |values|
      invariant included == values[..k] && JoinedLength(included) <= maxChars
    {
      assert values[..k + 1] == included + [values[k]];
      var candidate := JoinWith(included + [values[k]], ", ");
      if Utf16Length(candidate) > maxChars {
        text := JoinWith(included, ", ") + MORE;
        assert ShowsFirst(text, values, maxChars, k);
        return;
      }
      included := included + [values[k]];
    }
    text := JoinWith(included, ", ");
    assert values[..|values|] == values && text + "" == text;
    assert ShowsFirst(text, values, maxChars, |values|);
  }

  /** The two lines about one unresolved gate. */
  datatype Item = Item(status: string, rerun: string)

  function Tail(stopHookActive: bool): seq<string> {
    if stopHookActive then [ACTIVE, CLOSING] else [CLOSING]
  }

  function ItemLines(items: seq<Item>): seq<string> {
    if items == [] then [] else ItemLines(items[..|items| - 1]) + [items[|items| - 1].status, items[|items| - 1].rerun]
  }

  function Size(lines: seq<string>): nat { Utf16Length(JoinWith(lines, "\n")) }

  /** The size of the message with its first `shown` gates and its closing. */
  function BodySize(head: seq<string>, items: seq<Item>, shown: nat, stopHookActive: bool): nat
    requires shown <= |items|
  {
    Size(head + ItemLines(items[..shown]) + Tail(stopHookActive))
  }

  /** The head of the message, all gates that fit, a note when some did not, and the closing. */
  ghost predicate IsMessage(lines: seq<string>, head: seq<string>, items: seq<Item>, shown: nat, stopHookActive: bool) {
    && shown <= |items|
    && lines == head + ItemLines(items[..shown]) + (if shown < |items| then [OMITTED] else []) + Tail(stopHookActive)
    && BodySize(head, items, shown, stopHookActive) <= MAX_CHARS
    && (shown < |items| ==> BodySize(head, items, shown + 1, stopHookActive) > MAX_CHARS)
  }

  /** What lines add to a message: each with its line break. */
  function Lengths(lines: seq<string>): nat {
    if lines == [] then 0 else Lengths(lines[..|lines| - 1]) + 1 + Utf16Length(lines[|lines| - 1])
  }

  lemma OneMoreLine(lines: seq<string>, line: string)
    requires lines != []
    ensures Size(lines + [line]) == Size(lines) + 1 + Utf16Length(line)
  {
    var all := lines + [line];
    assert all[..|all| - 1] == lines;
    LengthAdds(JoinWith(lines, "\n") + "\n", line);
    LengthAdds(JoinWith(lines, "\n"), "\n");
    NarrowLength("\n");
  }

  lemma {:induction false} SizeAdds(a: seq<string>, b: seq<string>)
    requires a != []
    ensures Size(a + b) == Size(a) + Lengths(b)
  {
    if b == [] {
      assert a + b == a;
    } else {
      var init, last := b[..|b| - 1], b[|b| - 1];
      SizeAdds(a, init);
      assert a + b == (a + init) + [last];
      OneMoreLine(a + init, last);
    }
  }

  lemma {:induction false} LengthsAdd(a: seq<string>, b: seq<string>)
    ensures Lengths(a + b) == Lengths(a) + Lengths(b)
  {
    if b == [] {
      assert a + b == a;
    } else {
      assert (a + b)[..|a + b| - 1] == a + b[..|b| - 1];
      LengthsAdd(a, b[..|b| - 1]);
    }
  }

  /** Lines that share a longer head and the same tail. */
  lemma SizeSplit(head: seq<string>, middle: seq<string>, tail: seq<string>)
    requires head != []
    ensures Size(head + middle + tail) == Size(head) + Lengths(middle) + Lengths(tail)
  {
    SizeAdds(head, middle);
    SizeAdds(head + middle, tail);
  }

  /** The rendering loop: gates in order while the message with its closing still fits. */
  method RenderLines(head: seq<string>, items: seq<Item>, stopHookActive: bool) returns (lines: seq<string>)
    requires head != [] && Size(head + Tail(stopHookActive)) <= MAX_CHARS
    ensures exists shown :: IsMessage(lines, head, items, shown, stopHookActive)
  {
    lines := head;
    var k, tail := 0, Tail(stopHookActive);
    assert items[..0] == [] && head + ItemLines(items[..0]) == head;
    while k < |items|
      invariant 0 <= k <= |items| && lines == head + ItemLines(items[..k])
      invariant Size(lines + tail) <= MAX_CHARS
      decreases |items| - k
    {
      var candidate := [items[k].status, items[k].rerun];
      assert items[..k + 1][..k] == items[..k];
      assert head + ItemLines(items[..k + 1]) == lines + candidate;
      if Size(lines + candidate + tail) > MAX_CHARS {
        lines := lines + [OMITTED] + tail;
        assert IsMessage(lines, head, items, k, stopHookActive);
        return;
      }
      lines := lines + candidate;
      k := k + 1;
    }
    assert items[..|items|] == items && lines + [] == lines;
    lines := lines + tail;
    assert IsMessage(lines, head, items, |items|, stopHookActive);
  }

  // --- how long a message gets ------------------------------------------------------------------------------------

  lemma ItemsAdd(items: seq<Item>, i: nat, j: nat)
    requires i < j <= |items|
    ensures Lengths(ItemLines(items[..i])) < Lengths(ItemLines(items[..j]))
    decreases j
  {
    var last := items[j - 1];
    assert items[..j][..j - 1] == items[..j - 1];
    LengthsAdd(ItemLines(items[..j - 1]), [last.status, last.rerun]);
    assert [last.status, last.rerun][..1] == [last.status];
    if i < j - 1 { ItemsAdd(items, i, j - 1); }
  }

  /** More gates make a longer message, so what is shown is determined by the sizes. */
  lemma MessageIsUnique(a: seq<string>, b: seq<string>, head: seq<string>, items: seq<Item>, i: nat, j: nat, stopHookActive: bool)
    requires head != [] && IsMessage(a, head, items, i, stopHookActive) && IsMessage(b, head, items, j, stopHookActive)
    ensures i == j && a == b
  {
    if i < j { LaterIsLonger(head, items, i + 1, j, stopHookActive); }
    if j < i { LaterIsLonger(head, items, j + 1, i, stopHookActive); }
  }

  lemma LaterIsLonger(head: seq<string>, items: seq<Item>, i: nat, j: nat, stopHookActive: bool)
    requires head != [] && i <= j <= |items|
    ensures BodySize(head, items, i, stopHookActive) <= BodySize(head, items, j, stopHookActive)
  {
    SizeSplit(head, ItemLines(items[..i]), Tail(stopHookActive));
    SizeSplit(head, ItemLines(items[..j]), Tail(stopHookActive));
    if i < j { ItemsAdd(items, i, j); }
  }

  const NOTE_CHARS := 66

  lemma OmittedLength()
    ensures Utf16Length(OMITTED) == NOTE_CHARS - 1
  {
    NarrowLength(OMITTED);
  }

  lemma NoteLength()
    ensures Lengths([OMITTED]) == NOTE_CHARS
  {
    OmittedLength();
    OneLine(OMITTED);
  }

  lemma OneLine(line: string)
    ensures Lengths([line]) == 1 + Utf16Length(line)
  {
    assert [line][..0] == [];
  }

  lemma WithNote(head: seq<string>, body: seq<string>, note: seq<string>, tail: seq<string>)
    requires head != []
    ensures Size(head + body + note + tail) == Size(head + body + tail) + Lengths(note)
  {
    SizeSplit(head + body, note, tail);
    SizeAdds(head, body);
    SizeSplit(head, body, tail);
  }

  /** A message is exactly its body, and the note where a gate was left out. */
  lemma MessageSize(lines: seq<string>, head: seq<string>, items: seq<Item>, shown: nat, stopHookActive: bool)
    requires head != [] && IsMessage(lines, head, items, shown, stopHookActive)
    ensures Size(lines) == BodySize(head, items, shown, stopHookActive) + if shown < |items| then NOTE_CHARS else 0
  {
    var note := if shown < |items| then [OMITTED] else [];
    WithNote(head, ItemLines(items[..shown]), note, Tail(stopHookActive));
    NoteLength();
  }

  /** A message exceeds its limit exactly when a gate was left out and what is shown comes within the note's length of it; never by more. */
  lemma TooLongIff(lines: seq<string>, head: seq<string>, items: seq<Item>, shown: nat, stopHookActive: bool)
    requires head != [] && IsMessage(lines, head, items, shown, stopHookActive)
    ensures Size(lines) > MAX_CHARS <==> shown < |items| && BodySize(head, items, shown, stopHookActive) > MAX_CHARS - NOTE_CHARS
    ensures Size(lines) <= MAX_CHARS + NOTE_CHARS
  {
    MessageSize(lines, head, items, shown, stopHookActive);
  }

  function HeadLines(rules: string, overrideValid: bool): seq<string> {
    [if overrideValid then OVERRIDE_LINE else UNRESOLVED_LINE, RULES + (if rules == "" then NONE else rules)]
  }

  lemma HeadSize(rules: string, overrideValid: bool, tail: seq<string>)
    ensures var head := HeadLines(rules, overrideValid);
            Size(head + tail) == Utf16Length(head[0]) + 1 + Utf16Length(head[1]) + Lengths(tail)
  {
    var head := HeadLines(rules, overrideValid);
    assert head == [head[0]] + [head[1]];
    OneMoreLine([head[0]], head[1]);
    SizeAdds(head, tail);
  }

  lemma OverrideLength()
    ensures Utf16Length(OVERRIDE_LINE) == 66
  {
    NarrowLength(OVERRIDE_LINE);
  }

  lemma UnresolvedLength()
    ensures Utf16Length(UNRESOLVED_LINE) == 54
  {
    NarrowLength(UNRESOLVED_LINE);
  }

  lemma RulesLengths()
    ensures Utf16Length(RULES) == 7 && Utf16Length(NONE) == 6 && Utf16Length(MORE) == 3
  {
    NarrowLength(RULES);
    NarrowLength(NONE);
    NarrowLength(MORE);
  }

  lemma ClosingLength()
    ensures Utf16Length(CLOSING) == 54
  {
    NarrowLength(CLOSING);
  }

  lemma ActiveLength()
    ensures Utf16Length(ACTIVE) == 56
  {
    NarrowLength(ACTIVE);
  }

  lemma TwoLines(closing: string, active: string)
    ensures Lengths([closing]) == 1 + Utf16Length(closing)
    ensures Lengths([active, closing]) == 2 + Utf16Length(active) + Utf16Length(closing)
  {
    assert [closing][..0] == [];
    assert [active, closing] == [active] + [closing];
    LengthsAdd([active], [closing]);
    assert [active][..0] == [];
  }

  lemma FixedLengths()
    ensures Utf16Length(OVERRIDE_LINE) == 66 && Utf16Length(UNRESOLVED_LINE) == 54
    ensures Utf16Length(RULES) == 7 && Utf16Length(NONE) == 6 && Utf16Length(MORE) == 3
    ensures Lengths(Tail(false)) == 55 && Lengths(Tail(true)) == 112
  {
    OverrideLength();
    UnresolvedLength();
    RulesLengths();
    ClosingLength();
    ActiveLength();
    TwoLines(CLOSING, ACTIVE);
  }

  lemma HeadFits(rules: string, overrideValid: bool, stopHookActive: bool)
    requires Utf16Length(rules) <= RULES_CHARS + 3
    ensures Size(HeadLines(rules, overrideValid) + Tail(stopHookActive)) <= MAX_CHARS
  {
    FixedLengths();
    HeadSize(rules, overrideValid, Tail(stopHookActive));
    LengthAdds(RULES, if rules == "" then NONE else rules);
  }

  /** The warning's text: the lines of a message under its head, with as many rule ids as fit. */
  ghost predicate IsWarning(text: string, rules: seq<string>, items: seq<Item>, overrideValid: bool, stopHookActive: bool,
                            ruleText: string, ids: nat, lines: seq<string>, shown: nat)
  {
    && ShowsFirst(ruleText, rules, RULES_CHARS, ids) && text == JoinWith(lines, "\n")
    && IsMessage(lines, HeadLines(ruleText, overrideValid), items, shown, stopHookActive)
  }

  /** The warning for sorted, displayed rule ids and gates. */
  method RenderGovernanceWarning(rules: seq<string>, items: seq<Item>, overrideValid: bool, stopHookActive: bool) returns (text: string)
    ensures exists ruleText, ids, lines, shown :: IsWarning(text, rules, items, overrideValid, stopHookActive, ruleText, ids, lines, shown)
    ensures Utf16Length(text) <= MAX_CHARS + NOTE_CHARS
  {
    var ruleText := BoundedJoin(rules, RULES_CHARS);
    ghost var ids :| ShowsFirst(ruleText, rules, RULES_CHARS, ids);
    RuleTextFits(ruleText, rules, ids);
    HeadFits(ruleText, overrideValid, stopHookActive);
    var head := HeadLines(ruleText, overrideValid);
    var lines := RenderLines(head, items, stopHookActive);
    ghost var shown :| IsMessage(lines, head, items, shown, stopHookActive);
    TooLongIff(lines, head, items, shown, stopHookActive);
    text := JoinWith(lines, "\n");
    assert IsWarning(text, rules, items, overrideValid, stopHookActive, ruleText, ids, lines, shown);
  }

  lemma RuleTextFits(text: string, rules: seq<string>, ids: nat)
    requires ShowsFirst(text, rules, RULES_CHARS, ids)
    ensures Utf16Length(text) <= RULES_CHARS + 3
  {
    var mark := if ids < |rules| then MORE else "";
    LengthAdds(JoinWith(rules[..ids], ", "), mark);
    FixedLengths();
  }

  // --- a message above the limit -------------------------------------------------------------------------------------

  const LONG_COMMAND := 3_839

  const STATUS: string := "- g: no " + "eligible run"
  const RERUN: string := "  Rerun " + "from .: "

  /** A gate with a long command. */
  function LongItem(): Item {
    Item(STATUS, RERUN + seq(LONG_COMMAND, _ => 'x'))
  }

  lemma LettersLength(n: nat)
    ensures Utf16Length(seq(n, _ => 'x')) == n
  {
    NarrowLength(seq(n, _ => 'x'));
  }

  lemma LongItemLength()
    ensures Lengths([LongItem().status, LongItem().rerun]) == 3_877
  {
    LettersLength(LONG_COMMAND);
    StatusLength();
    RerunLength();
    LengthAdds(RERUN, seq(LONG_COMMAND, _ => 'x'));
    TwoLines(LongItem().rerun, STATUS);
  }

  lemma StatusLength()
    ensures Utf16Length(STATUS) == 20
  {
    NarrowLength(STATUS);
  }

  lemma RerunLength()
    ensures Utf16Length(RERUN) == 16
  {
    NarrowLength(RERUN);
  }

  /** Two such gates: the first fills the message to its limit, and the note about the second comes on top. */
  lemma LongestMessage(lines: seq<string>, shown: nat)
    requires IsMessage(lines, HeadLines("", false), [LongItem(), LongItem()], shown, false)
    ensures shown == 1 && Size(lines) == MAX_CHARS + NOTE_CHARS
  {
    BodyOfLong(0);
    BodyOfLong(1);
    BodyOfLong(2);
    MessageSize(lines, HeadLines("", false), [LongItem(), LongItem()], shown, false);
  }

  lemma TwiceLengths(item: Item, n: nat)
    requires n <= 2
    ensures Lengths(ItemLines([item, item][..n])) == n * Lengths([item.status, item.rerun])
  {
    var two, items := [item.status, item.rerun], [item, item];
    assert items[..0] == [] && items[..1] == [item] && items[..2] == items && [item][..0] == [];
    assert ItemLines([item]) == [] + two && ItemLines(items) == ItemLines([item]) + two;
    LengthsAdd([], two);
    LengthsAdd(ItemLines([item]), two);
  }

  lemma BodyOfLong(n: nat)
    requires n <= 2
    ensures BodySize(HeadLines("", false), [LongItem(), LongItem()], n, false) == 123 + 3_877 * n
  {
    var head, items, tail := HeadLines("", false), [LongItem(), LongItem()], Tail(false);
    FixedLengths();
    LengthAdds(RULES, NONE);
    HeadSize("", false, tail);
    LongItemLength();
    TwiceLengths(LongItem(), n);
    SizeSplit(head, ItemLines(items[..n]), tail);
    SizeAdds(head, tail);
  }
}
