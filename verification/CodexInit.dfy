/**
 The Codex part of an init run: merging the hooks, and pruning the trust that the merge made stale, behind a comparison
 of the parsed configuration files.
 */
module CodexInit {
  import opened Rows
  import opened CodexHooks
  import opened CodexTrust

  // --- stale trust ------------------------------------------------------------------------------------------------

  /** The groups at the first event whose trust-state name this is. */
  function EventGroups(file: File, name: string, snake: string -> string): Option<seq<Group>> {
    if file == [] then None
    else if snake(file[0].event) == name then Some(file[0].groups)
    else EventGroups(file[1..], name, snake)
  }

  function GroupCommand(groups: seq<Group>, g: nat, h: nat): Option<string> {
    if g < |groups| && h < |groups[g].handlers| then Some(groups[g].handlers[h].command) else None
  }

  /** The command a pinned position resolves to. */
  function CommandAt(file: File, key: Key, snake: string -> string): Option<string> {
    if !key.Pinned? then None
    else
      var groups := EventGroups(file, key.event, snake);
      if groups.None? then None else GroupCommand(groups.value, key.group, key.handler)
  }

  type Shadow = Option<map<Key, string>>

  /** One of ours that is not what the last run recorded at this position. */
  predicate Unattested(shadow: Shadow, key: Key, command: Option<string>, ours: string -> bool) {
    shadow.Some? && command.Some? && ours(command.value) && (key !in shadow.value || shadow.value[key] != command.value)
  }

  /** What a run starts from, with the TOML parser's verdict on a text as a whole. */
  datatype Run = Run(existing: File, generated: File, shadow: Shadow, ours: string -> bool, snake: string -> string,
                     parses: seq<Line> -> bool)

  function Merged(r: Run): File { Merge(r.existing, r.generated, r.ours) }

  /** The position no longer holds the command it was trusted for, as far as that can be told. */
  predicate Moved(r: Run, key: Key) {
    || CommandAt(Merged(r), key, r.snake) != CommandAt(r.existing, key, r.snake)
    || Unattested(r.shadow, key, CommandAt(Merged(r), key, r.snake), r.ours)
  }

  /** Disabled entries are never invalidated. */
  predicate Stale(r: Run, e: Entry) {
    !e.disabled && Moved(r, e.key)
  }

  function StaleKeys(r: Run, lines: seq<Line>): (keys: set<Key>)
    ensures forall k :: k in keys <==> exists e :: e in Parse(lines) && Stale(r, e) && e.key == k
  {
    var entries := Parse(lines);
    var keys := set i | 0 <= i < |entries| && Stale(r, entries[i]) :: entries[i].key;
    assert forall e :: e in entries && Stale(r, e) ==> e.key in keys;
    keys
  }

  lemma {:induction false} EntriesArePinned(lines: seq<Line>)
    ensures forall e :: e in Parse(lines) ==> e.key.Pinned?
  {
    if lines != [] { EntriesArePinned(lines[1..]); }
  }

  lemma StaleArePinned(r: Run, lines: seq<Line>)
    ensures AllPinned(StaleKeys(r, lines)) && forall k :: k in StaleKeys(r, lines) ==> Moved(r, k)
  {
    EntriesArePinned(lines);
  }

  function NotStale(r: Run): Entry -> bool {
    (e: Entry) => !Stale(r, e)
  }

  /**
   Where pruning the stale keys is harmless, exactly the entries that are not stale are left, flags unchanged, exactly
   when no disabled entry has the key of a stale one.
   */
  lemma PruningIsExactIff(r: Run, lines: seq<Line>)
    requires Harmless(lines, StaleKeys(r, lines))
    ensures Parse(Prune(lines, StaleKeys(r, lines))) == Filter(NotStale(r), Parse(lines)) <==>
              forall e :: e in Parse(lines) && e.disabled ==> e.key !in StaleKeys(r, lines)
  {
    var keys, entries := StaleKeys(r, lines), Parse(lines);
    StaleArePinned(r, lines);
    ParseAfterPruneIff(lines, keys);
    if forall e :: e in entries && e.disabled ==> e.key !in keys {
      SameFilter(Outside(keys), NotStale(r), entries);
    } else {
      var e :| e in entries && e.disabled && e.key in keys;
      assert e in Filter(NotStale(r), entries) && e !in Filter(Outside(keys), entries);
    }
  }

  lemma {:induction false} SameFilter(p: Entry -> bool, q: Entry -> bool, entries: seq<Entry>)
    requires forall e :: e in entries ==> p(e) == q(e)
    ensures Filter(p, entries) == Filter(q, entries)
  {
    if entries != [] {
      assert entries[0] in entries && forall e :: e in entries[1..] ==> e in entries;
      SameFilter(p, q, entries[1..]);
    }
  }

  // --- what the TOML parser sees ------------------------------------------------------------------------------------

  /** The lines that say something: headers and values, in order. */
  function Items(lines: seq<Line>): seq<Line> {
    if lines == [] then []
    else (if lines[0].role.Silent? then [] else [lines[0]]) + Items(lines[1..])
  }

  /** The header of a table of a removed entry. */
  predicate OpensRemoved(line: Line, keys: set<Key>) {
    line.role.Opens? && line.role.table.State? && line.role.table.key in keys
  }

  /** A line that writes a removed entry without a section of its own. */
  predicate WritesRemoved(line: Line, keys: set<Key>) {
    line.role.Holds? && line.role.entry.Some? && line.role.entry.value in keys
  }

  /** Whether the next line is in a table to delete. */
  function DeletingAfter(line: Line, keys: set<Key>, deleting: bool): bool {
    if line.role.Opens? then OpensRemoved(line, keys) else deleting
  }

  /** What a line adds to the document without the entries to delete. */
  function ItemKept(line: Line, keys: set<Key>, deleting: bool): seq<Line> {
    if line.role.Silent? || OpensRemoved(line, keys) || WritesRemoved(line, keys) || (deleting && !line.role.Opens?) then [] else [line]
  }

  /** The document without the entries of some keys. */
  function WithoutKeys(lines: seq<Line>, keys: set<Key>, deleting: bool): seq<Line> {
    if lines == [] then []
    else ItemKept(lines[0], keys, deleting) + WithoutKeys(lines[1..], keys, DeletingAfter(lines[0], keys, deleting))
  }

  predicate WritesState(line: Line) {
    (line.role.Opens? && line.role.table.State?) || (line.role.Holds? && line.role.entry.Some?)
  }

  /**
   The comparison deletes a state table that became empty, and the hooks table above it; a header of its own would keep
   that table in the pruned text.
   */
  predicate LeavesBare(lines: seq<Line>, after: seq<Line>) {
    && (forall i :: 0 <= i < |after| ==> !WritesState(after[i]))
    && ((exists i :: 0 <= i < |after| && after[i].role == Opens(States))
        || ((exists i :: 0 <= i < |after| && after[i].role == Opens(BareHooks)) && exists i :: 0 <= i < |lines| && WritesState(lines[i])))
  }

  predicate BodyHasItem(body: seq<Line>) {
    body != [] && !Section(body[0]) && (!body[0].role.Silent? || BodyHasItem(body[1..]))
  }

  /** A removed section ends inside a value: what follows no longer parses as it did. */
  predicate Torn(lines: seq<Line>, keys: set<Key>)
    decreases |lines|
  {
    lines != [] &&
      var rest := lines[1..];
      var next := SkipBody(rest);
      (if Names(lines[0], keys) then
         ((!lines[0].role.Silent? || BodyHasItem(rest)) && next != [] && next[0].role.Holds?) || Torn(next, keys)
       else Torn(rest, keys))
  }

  /** Both texts parse, and the pruned one is the document without the removed entries: nothing else was touched. */
  predicate Accepts(r: Run, lines: seq<Line>) {
    var keys := StaleKeys(r, lines);
    var pruned := Prune(lines, keys);
    && r.parses(lines) && r.parses(pruned) && !Torn(lines, keys)
    && WithoutKeys(lines, keys, false) == Items(pruned) && !LeavesBare(lines, Items(pruned))
  }

  /** The configuration after a run: pruned where the comparison accepts it, as it was otherwise. */
  function AfterInit(r: Run, lines: seq<Line>): seq<Line> {
    if Accepts(r, lines) then Prune(lines, StaleKeys(r, lines)) else lines
  }

  // --- what acceptance means for the scans ---------------------------------------------------------------------------

  /** Every line that stays and gave a disabled entry still does. */
  predicate FlagsStay(lines: seq<Line>, keys: set<Key>)
    decreases |lines|
  {
    lines != [] ==>
      (if Names(lines[0], keys) then FlagsStay(SkipBody(lines[1..]), keys)
       else
         && (GivesDisabled(lines[0], lines[1..]) ==> DisabledBefore(lines[1..], keys))
         && FlagsStay(lines[1..], keys))
  }

  predicate Removed(line: Line, keys: set<Key>) {
    OpensRemoved(line, keys) || WritesRemoved(line, keys)
  }

  lemma {:induction false} NoRemovedKept(lines: seq<Line>, keys: set<Key>, deleting: bool)
    ensures forall x :: x in WithoutKeys(lines, keys, deleting) ==> !Removed(x, keys)
  {
    if lines != [] { NoRemovedKept(lines[1..], keys, DeletingAfter(lines[0], keys, deleting)); }
  }

  /** What a removed body adds, if anything, comes first and starts no section. */
  lemma {:induction false} BodyItems(body: seq<Line>, keys: set<Key>, deleting: bool) returns (lost: seq<Line>)
    ensures WithoutKeys(body, keys, deleting) == lost + WithoutKeys(SkipBody(body), keys, deleting)
    ensures lost != [] ==> !Section(lost[0]) && !deleting
    ensures !deleting && DisabledIn(body) ==> lost != []
  {
    if body == [] || Section(body[0]) {
      lost := [];
    } else {
      lost := BodyItems(body[1..], keys, deleting);
      lost := ItemKept(body[0], keys, deleting) + lost;
    }
  }

  lemma {:induction false} HeadOfPruned(lines: seq<Line>, keys: set<Key>)
    requires lines == [] || Section(lines[0])
    ensures var items := Items(Prune(lines, keys)); items == [] || (Section(items[0]) && !Names(items[0], keys))
  {
    PruneStops(lines, keys);
  }

  /** A removed section adds nothing to the document that the comparison accepts. */
  lemma RemovedAddsNothing(lines: seq<Line>, keys: set<Key>, deleting: bool)
    requires lines != [] && Names(lines[0], keys)
    requires WithoutKeys(lines, keys, deleting) == Items(Prune(lines, keys))
    ensures var next, after := SkipBody(lines[1..]), DeletingAfter(lines[0], keys, deleting);
            && ItemKept(lines[0], keys, deleting) == [] && WithoutKeys(next, keys, after) == Items(Prune(next, keys))
            && (after || !DisabledIn(lines[1..]))
  {
    var after := DeletingAfter(lines[0], keys, deleting);
    var lost := BodyItems(lines[1..], keys, after);
    var own, rest := ItemKept(lines[0], keys, deleting), WithoutKeys(SkipBody(lines[1..]), keys, after);
    HeadOfPruned(SkipBody(lines[1..]), keys);
    NothingInFront(own, lost, rest, Items(Prune(lines, keys)));
  }

  lemma NothingInFront(own: seq<Line>, lost: seq<Line>, rest: seq<Line>, items: seq<Line>)
    requires own + (lost + rest) == items
    requires own <= items ==> own == []
    requires lost <= items ==> lost == []
    ensures own == [] && lost == [] && rest == items
  {
    assert own <= own + (lost + rest);
    assert items == lost + rest;
    assert lost <= lost + rest;
    assert lost + rest == rest;
  }

  /** The comparison sees every disabling line that goes while the header above it stays. */
  lemma {:induction false} AcceptedKeepsFlags(lines: seq<Line>, keys: set<Key>, deleting: bool)
    requires WithoutKeys(lines, keys, deleting) == Items(Prune(lines, keys)) && !Torn(lines, keys)
    requires deleting && lines != [] ==> lines[0].role.Opens?
    ensures FlagsStay(lines, keys)
    ensures !deleting && DisabledIn(lines) ==> DisabledBefore(lines, keys)
    decreases |lines|
  {
    if lines != [] {
      var l, rest := lines[0], lines[1..];
      var after := DeletingAfter(l, keys, deleting);
      if Names(l, keys) {
        RemovedAddsNothing(lines, keys, deleting);
        AcceptedKeepsFlags(SkipBody(rest), keys, after);
      } else {
        var items := Items(Prune(rest, keys));
        assert Prune(lines, keys)[1..] == Prune(rest, keys);
        NoRemovedKept(lines, keys, deleting);
        if l.role.Silent? {
          assert [] + items == items;
        } else {
          assert ([l] + items)[0] == l;
          assert l in WithoutKeys(lines, keys, deleting);
          assert ItemKept(l, keys, deleting) == [l];
          assert ([l] + items)[1..] == items && ([l] + WithoutKeys(rest, keys, after))[1..] == WithoutKeys(rest, keys, after);
        }
        AcceptedKeepsFlags(rest, keys, after);
      }
    }
  }

  // --- the whole run --------------------------------------------------------------------------------------------------

  /** Every enabled entry stands for the command it was given for, and one of ours is what the shadow attests. */
  predicate TrustIsRight(r: Run, entries: seq<Entry>) {
    forall e :: e in entries && !e.disabled ==> !Moved(r, e.key)
  }

  /** A line that stays gives an enabled entry to remove, whose header stands behind another one. */
  predicate HiddenStale(lines: seq<Line>, keys: set<Key>)
    decreases |lines|
  {
    lines != [] &&
      var k, rest := EntryKey(lines[0]), lines[1..];
      (if Names(lines[0], keys) then HiddenStale(SkipBody(rest), keys)
       else (k.Some? && k.value in keys && !DisabledIn(rest)) || HiddenStale(rest, keys))
  }

  lemma {:induction false} SkipKeepsEntries(body: seq<Line>)
    ensures forall e :: e in Parse(SkipBody(body)) ==> e in Parse(body)
  {
    if body != [] && !Section(body[0]) { SkipKeepsEntries(body[1..]); }
  }

  /** Where no flag goes, what pruning leaves of the stale trust is what the headers hide. */
  lemma {:induction false} TrustLeft(r: Run, lines: seq<Line>, keys: set<Key>)
    requires FlagsStay(lines, keys)
    requires forall k :: k in keys ==> Moved(r, k)
    requires forall e :: e in Parse(lines) && Stale(r, e) ==> e.key in keys
    ensures TrustIsRight(r, Parse(Prune(lines, keys))) <==> !HiddenStale(lines, keys)
    decreases |lines|
  {
    if lines != [] {
      var rest := lines[1..];
      assert forall e :: e in Parse(rest) ==> e in Parse(lines);
      if Names(lines[0], keys) {
        SkipKeepsEntries(rest);
        TrustLeft(r, SkipBody(rest), keys);
      } else {
        var k := EntryKey(lines[0]);
        ParseKept(lines, keys);
        TrustLeft(r, rest, keys);
        BeforeIsIn(rest, keys);
        if k.Some? {
          assert EntriesOf(lines[0], rest)[0] in Parse(lines);
          var e, after := EntryBefore(k.value, rest, keys), Parse(Prune(rest, keys));
          assert forall x :: x in [e] + after <==> x == e || x in after;
        }
      }
    }
  }

  lemma {:induction false} PruneNothing(lines: seq<Line>)
    ensures Prune(lines, {}) == lines
  {
    if lines != [] { PruneNothing(lines[1..]); }
  }

  /**
   A run always writes the merged hooks, but the pruned configuration only where the comparison accepts it. The trust that
   it leaves beside the new hooks is right exactly when nothing was stale, or the pruning was accepted and no line that
   stays mentions a stale header of ours behind another header.
   */
  lemma InitTrustIsRightIff(r: Run, lines: seq<Line>)
    ensures var keys := StaleKeys(r, lines);
            TrustIsRight(r, Parse(AfterInit(r, lines))) <==> keys == {} || (Accepts(r, lines) && !HiddenStale(lines, keys))
  {
    var keys, entries := StaleKeys(r, lines), Parse(lines);
    StaleArePinned(r, lines);
    if keys == {} {
      PruneNothing(lines);
      forall e | e in entries && !e.disabled ensures !Moved(r, e.key) {
        assert Stale(r, e) ==> e.key in keys;
      }
    } else if Accepts(r, lines) {
      AcceptedKeepsFlags(lines, keys, false);
      TrustLeft(r, lines, keys);
    } else {
      var k :| k in keys;
      var e :| e in entries && Stale(r, e) && e.key == k;
    }
  }

  // --- the user's recorded decisions ----------------------------------------------------------------------------------

  /** The header of a disabled entry is one to remove: an enabled entry with the same key was stale. */
  predicate DisabledNamed(lines: seq<Line>, keys: set<Key>) {
    exists i :: 0 <= i < |lines| && Names(lines[i], keys) && GivesDisabled(lines[i], lines[i + 1..])
  }

  lemma DisabledNamedStep(lines: seq<Line>, keys: set<Key>)
    requires lines != []
    ensures DisabledNamed(lines, keys) <==> (Names(lines[0], keys) && GivesDisabled(lines[0], lines[1..])) || DisabledNamed(lines[1..], keys)
  {
    var rest := lines[1..];
    assert forall i :: 0 <= i < |rest| ==> rest[i] == lines[i + 1] && rest[i + 1..] == lines[i + 1 + 1..];
    if i :| 0 <= i < |lines| && Names(lines[i], keys) && GivesDisabled(lines[i], lines[i + 1..]) {
      if i > 0 { assert Names(rest[i - 1], keys) && GivesDisabled(rest[i - 1], rest[i - 1 + 1..]); }
    }
    if i :| 0 <= i < |rest| && Names(rest[i], keys) && GivesDisabled(rest[i], rest[i + 1..]) {
      assert Names(lines[i + 1], keys) && GivesDisabled(lines[i + 1], lines[i + 1 + 1..]);
    }
  }

  lemma {:induction false} NamedInBody(body: seq<Line>, keys: set<Key>)
    requires !DisabledIn(body)
    ensures DisabledNamed(body, keys) <==> DisabledNamed(SkipBody(body), keys)
  {
    if body != [] && !Section(body[0]) {
      DisabledNamedStep(body, keys);
      NamedInBody(body[1..], keys);
    }
  }

  lemma {:induction false} SparedIff(lines: seq<Line>, keys: set<Key>)
    requires AllPinned(keys) && FlagsStay(lines, keys)
    ensures Spared(lines, keys) <==> !DisabledNamed(lines, keys)
    decreases |lines|
  {
    if lines != [] {
      var rest := lines[1..];
      DisabledNamedStep(lines, keys);
      if Names(lines[0], keys) {
        if !DisabledIn(rest) {
          SparedBody(rest, keys);
          NamedInBody(rest, keys);
          SparedIff(SkipBody(rest), keys);
        }
      } else {
        BeforeIsIn(rest, keys);
        SparedIff(rest, keys);
      }
    }
  }

  /**
   A run leaves the disabled entries as they were exactly when its pruning was refused, or no disabled entry stands under
   a header that it removes for the sake of an enabled entry with the same key.
   */
  lemma InitKeepsDisabledIff(r: Run, lines: seq<Line>)
    ensures DisabledEntries(AfterInit(r, lines)) == DisabledEntries(lines) <==>
              !(Accepts(r, lines) && DisabledNamed(lines, StaleKeys(r, lines)))
  {
    var keys := StaleKeys(r, lines);
    StaleArePinned(r, lines);
    if Accepts(r, lines) {
      AcceptedKeepsFlags(lines, keys, false);
      DisabledStayIff(lines, keys);
      SparedIff(lines, keys);
    }
  }

  // --- configurations with headers only where they belong -------------------------------------------------------------

  /** The line mentions a state header exactly when it is that header. */
  predicate PlainLine(line: Line) {
    && line.mentions == (if line.role.Opens? && line.role.table.State? then [line.role.table.key] else [])
    && (line.role.Holds? ==> line.role.entry.None?)
  }

  predicate Plain(lines: seq<Line>) {
    forall i :: 0 <= i < |lines| ==> PlainLine(lines[i])
  }

  predicate OneHeaderPerKey(lines: seq<Line>) {
    forall i, j :: 0 <= i < j < |lines| && lines[i].mentions != [] ==> lines[i].mentions != lines[j].mentions
  }

  lemma {:induction false} PlainBody(body: seq<Line>)
    requires Plain(body)
    ensures Plain(SkipBody(body))
  {
    if body != [] && !Section(body[0]) { PlainBody(body[1..]); }
  }

  /** Line by line, pruning such a text is deleting the entries from the document. */
  lemma {:induction false} PlainAgrees(lines: seq<Line>, keys: set<Key>, deleting: bool)
    requires Plain(lines) && !Torn(lines, keys)
    requires deleting && lines != [] ==> lines[0].role.Opens?
    ensures WithoutKeys(lines, keys, deleting) == Items(Prune(lines, keys))
    decreases |lines|
  {
    if lines != [] {
      var l, rest := lines[0], lines[1..];
      if Names(l, keys) {
        var lost := BodyItems(rest, keys, true);
        PlainBody(rest);
        PlainAgrees(SkipBody(rest), keys, true);
        assert lost == [];
      } else {
        PlainAgrees(rest, keys, DeletingAfter(l, keys, deleting));
        assert Prune(lines, keys)[1..] == Prune(rest, keys);
      }
    }
  }

  lemma {:induction false} PlainHidesNothing(lines: seq<Line>, keys: set<Key>)
    requires Plain(lines)
    ensures !HiddenStale(lines, keys)
    decreases |lines|
  {
    if lines != [] {
      PlainBody(lines[1..]);
      PlainHidesNothing(if Names(lines[0], keys) then SkipBody(lines[1..]) else lines[1..], keys);
      if lines[0].mentions != [] { assert FirstPinned(lines[0].mentions[1..]) == None; }
    }
  }

  lemma {:induction false} EntryHasLine(lines: seq<Line>, e: Entry) returns (i: nat)
    requires e in Parse(lines)
    ensures i < |lines| && EntryKey(lines[i]) == Some(e.key) && e == EntryAt(e.key, lines[i + 1..])
  {
    if e in EntriesOf(lines[0], lines[1..]) {
      i := 0;
    } else {
      i := EntryHasLine(lines[1..], e);
      i := i + 1;
    }
  }

  lemma PlainKey(line: Line)
    requires PlainLine(line) && EntryKey(line).Some?
    ensures line.mentions == [EntryKey(line).value]
  {
    assert FirstPinned([]) == None && FirstPinned(line.mentions) == EntryKey(line);
    assert line.mentions != [] ==> line.mentions[1..] == [];
  }

  lemma PlainNamesNoDisabled(r: Run, lines: seq<Line>)
    requires Plain(lines) && OneHeaderPerKey(lines)
    ensures !DisabledNamed(lines, StaleKeys(r, lines))
  {
    forall i | 0 <= i < |lines| && Names(lines[i], StaleKeys(r, lines)) ensures !GivesDisabled(lines[i], lines[i + 1..]) {
      var e :| e in Parse(lines) && Stale(r, e) && e.key == lines[i].mentions[0];
      var j := EntryHasLine(lines, e);
      assert PlainLine(lines[i]) && PlainLine(lines[j]);
      PlainKey(lines[j]);
      assert lines[j].mentions == lines[i].mentions;
      assert i == j;
    }
  }

  /**
   With state headers only where they open their section, the comparison accepts the pruning unless a text does not parse,
   a value is torn or an empty table is left bare, and no stale trust is hidden; with one section per key, no disabled
   entry shares a stale one's.
   */
  lemma PlainIsAccepted(r: Run, lines: seq<Line>)
    requires Plain(lines)
    ensures var keys := StaleKeys(r, lines);
            var pruned := Prune(lines, keys);
            && (Accepts(r, lines) <==> r.parses(lines) && r.parses(pruned) && !Torn(lines, keys) && !LeavesBare(lines, Items(pruned)))
            && !HiddenStale(lines, keys) && (OneHeaderPerKey(lines) ==> !DisabledNamed(lines, keys))
  {
    var keys := StaleKeys(r, lines);
    if !Torn(lines, keys) { PlainAgrees(lines, keys, false); }
    PlainHidesNothing(lines, keys);
    if OneHeaderPerKey(lines) { PlainNamesNoDisabled(r, lines); }
  }

  /** The shadow a run writes: the command at every position of the hooks it wrote. */
  ghost predicate Records(shadow: Shadow, file: File, snake: string -> string) {
    shadow.Some? && forall key :: CommandAt(file, key, snake).Some? ==>
      key in shadow.value && shadow.value[key] == CommandAt(file, key, snake).value
  }

  /** An entry the reports count as live trust for the command at its position. */
  predicate CountsAsTrusted(r: Run, after: Shadow, e: Entry) {
    var command := CommandAt(Merged(r), e.key, r.snake);
    e.trusted && command.Some? && !Unattested(after, e.key, command, r.ours)
  }

  /** Where the pruning was refused, the new shadow vouches for every stale entry whose position still holds a command. */
  lemma RefusedPruneIsTrusted(r: Run, lines: seq<Line>, after: Shadow, e: Entry)
    requires e in Parse(lines) && e.trusted && Stale(r, e) && !Accepts(r, lines) && Records(after, Merged(r), r.snake)
    ensures e in Parse(AfterInit(r, lines))
    ensures CountsAsTrusted(r, after, e) <==> CommandAt(Merged(r), e.key, r.snake).Some?
  {}

  // --- three configurations --------------------------------------------------------------------------------------------

  const A := Pinned("stop", 0, 0)
  const B := Pinned("start", 0, 0)
  const X := Unrelated("x")

  /** A run that replaces our command at `B`, in front of any parser that accepts everything. */
  function Replacing(ours: string -> bool): Run {
    Run(OneHook("old"), OneHook("new"), None, ours, (event: string) => event, (lines: seq<Line>) => true)
  }

  function OneHook(command: string): File {
    [EventHooks("start", [Group(None, [Handler(command, 0)])])]
  }

  lemma MergeReplaces(ours: string -> bool)
    requires ours("old") && ours("new")
    ensures Merge(OneHook("old"), OneHook("new"), ours) == OneHook("new")
  {
    var existing, generated := OneHook("old"), OneHook("new");
    var g, mine := existing[0].groups[0], generated[0].groups;
    assert g.handlers[1..] == [] && ForeignHandlers(g, ours) == [];
    assert [g][1..] == [] && MergeGroups([g], mine, false, ours) == mine + MergeGroups([], mine, true, ours) == mine;
    assert existing[1..] == [] && SetGroups(existing, "start", mine) == [EventHooks("start", mine)] + [] == generated;
    assert Groups(existing, "start") == [g] && generated[1..] == [] && Merge(generated, [], ours) == generated;
  }


  lemma OnlyBMoves(ours: string -> bool)
    requires ours("old") && ours("new")
    ensures Moved(Replacing(ours), B) && !Moved(Replacing(ours), A)
  {
    MergeReplaces(ours);
    var r := Replacing(ours);
    assert CommandAt(r.existing, B, r.snake) == Some("old") && CommandAt(Merged(r), B, r.snake) == Some("new");
    assert CommandAt(r.existing, A, r.snake) == None == CommandAt(Merged(r), A, r.snake);
  }

  const HEADER_A := Line([A], false, Opens(State(A)), "[A]")
  const HASH := Line([], true, Holds(false, None), "trusted_hash = 1")
  const REMARK_B := Line([B], false, Silent, "# enable [B] later")
  const HEADER_B := Line([B], false, Opens(State(B)), "[B]")
  const DISABLING := Line([], false, Disables, "enabled = false")
  const DISABLING_B := Line([B], false, Disables, "enabled = false # [B]")
  const HEADER_X := Line([X, B], false, Opens(State(X)), "[X] # was [B]")

  lemma ParseTwo(a: Line, b: Line)
    ensures Parse([a, b]) == EntriesOf(a, [b]) + EntriesOf(b, [])
    ensures Items([a, b]) == (if a.role.Silent? then [] else [a]) + (if b.role.Silent? then [] else [b])
  {
    assert [a, b][1..] == [b] && [b][1..] == [];
    assert Parse([b]) == EntriesOf(b, []) + Parse([]) && Items([b]) == (if b.role.Silent? then [] else [b]) + [];
  }

  const ERASED := [HEADER_A, HASH, REMARK_B, HEADER_B, DISABLING]

  lemma ErasedTails()
    ensures ERASED[1..] == [HASH, REMARK_B, HEADER_B, DISABLING] && ERASED[1..][1..] == [REMARK_B, HEADER_B, DISABLING]
    ensures ERASED[1..][1..][1..] == [HEADER_B, DISABLING] && [HEADER_B, DISABLING][1..] == [DISABLING] && [DISABLING][1..] == []
  {}

  lemma ErasedParses()
    ensures Parse(ERASED) == [Entry(A, true, false), Entry(B, false, false), Entry(B, false, true)]
    ensures DisabledEntries(ERASED) == [Entry(B, false, true)]
  {
    ErasedTails();
    var l1, l2, l3 := ERASED[1..], ERASED[1..][1..], [HEADER_B, DISABLING];
    ParseTwo(HEADER_B, DISABLING);
    assert Section(HEADER_B) && DisabledIn([DISABLING]) && !HashIn([DISABLING]);
    assert !DisabledIn(l3) && !HashIn(l3) && !DisabledIn(l2) && !DisabledIn(l1) && HashIn(l1);
    var a, b, c := Entry(A, true, false), Entry(B, false, false), Entry(B, false, true);
    assert Parse(l2) == [b] + [c];
    assert Parse(l1) == [] + Parse(l2);
    assert Parse(ERASED) == [a] + Parse(l1) == [a, b, c];
    assert [c][1..] == [] && [b, c][1..] == [c] && [a, b, c][1..] == [b, c];
    assert Filter(IsDisabled(), [c]) == [c] && Filter(IsDisabled(), [b, c]) == [c];
  }

  lemma ErasedPrunes()
    ensures Prune(ERASED, {B}) == [HEADER_A, HASH]
    ensures DisabledEntries([HEADER_A, HASH]) == []
  {
    ErasedTails();
    var l1, l2, l3 := ERASED[1..], ERASED[1..][1..], [HEADER_B, DISABLING];
    assert SkipBody([DISABLING]) == [] && Names(HEADER_B, {B}) && Prune(l3, {B}) == [];
    assert SkipBody(l3) == l3 && Names(REMARK_B, {B}) && Prune(l2, {B}) == [];
    assert Prune(l1, {B}) == [HASH] + [] && Prune(ERASED, {B}) == [HEADER_A] + Prune(l1, {B});
    ParseTwo(HEADER_A, HASH);
    var a := EntryAt(A, [HASH]);
    assert [HASH][1..] == [] && !DisabledIn([HASH]);
    assert !a.disabled && Parse([HEADER_A, HASH]) == [a] && [a][1..] == [];
  }

  lemma ErasedCompares()
    ensures WithoutKeys(ERASED, {B}, false) == [HEADER_A, HASH] && !Torn(ERASED, {B})
  {
    ErasedTails();
    var l1, l2, l3 := ERASED[1..], ERASED[1..][1..], [HEADER_B, DISABLING];
    assert OpensRemoved(HEADER_B, {B}) && WithoutKeys([DISABLING], {B}, true) == [] + WithoutKeys([], {B}, true);
    assert WithoutKeys(l3, {B}, false) == ItemKept(HEADER_B, {B}, false) + WithoutKeys([DISABLING], {B}, true) == [];
    assert WithoutKeys(l2, {B}, false) == [] + WithoutKeys(l3, {B}, false) == [];
    assert WithoutKeys(l1, {B}, false) == [HASH] + WithoutKeys(l2, {B}, false) == [HASH];
    assert !OpensRemoved(HEADER_A, {B}) && WithoutKeys(ERASED, {B}, false) == [HEADER_A] + WithoutKeys(l1, {B}, false);
    assert SkipBody([DISABLING]) == [] && !Torn(l3, {B}) && SkipBody(l3) == l3 && !Torn(l2, {B}) && !Torn(l1, {B});
  }

  /**
   A comment under one section mentions another one, which is disabled, and whose position moved. The comment reads as an
   enabled entry, so its key is stale; the pruning takes the comment and the section, and the comparison sees only that the
   section of a stale key is gone. The user's decision is erased.
   */
  lemma CommentErasesDisabled(ours: string -> bool)
    requires ours("old") && ours("new")
    ensures var r := Replacing(ours);
            && StaleKeys(r, ERASED) == {B} && Accepts(r, ERASED)
            && DisabledEntries(ERASED) == [Entry(B, false, true)] && DisabledEntries(AfterInit(r, ERASED)) == []
  {
    var r := Replacing(ours);
    OnlyBMoves(ours);
    ErasedParses();
    ErasedPrunes();
    ErasedCompares();
    assert StaleKeys(r, ERASED) == {B} by { assert Stale(r, Parse(ERASED)[1]) && Parse(ERASED)[1] in Parse(ERASED); }
    ParseTwo(HEADER_A, HASH);
    assert WritesState([HEADER_A, HASH][0]);
  }

  const ENABLED := [HEADER_A, HASH, DISABLING_B]

  lemma EnabledPrunes()
    ensures Parse(ENABLED) == [Entry(A, false, true), Entry(B, false, false)] && DisabledEntries(ENABLED) == [Entry(A, false, true)]
    ensures Prune(ENABLED, {B}) == [HEADER_A, HASH] && Parse([HEADER_A, HASH]) == [Entry(A, true, false)]
  {
    var l1 := ENABLED[1..];
    assert l1 == [HASH, DISABLING_B] && l1[1..] == [DISABLING_B] && [DISABLING_B][1..] == [];
    ParseTwo(HASH, DISABLING_B);
    assert DisabledIn([DISABLING_B]) && DisabledIn(l1);
    var a, b := Entry(A, false, true), Entry(B, false, false);
    assert Parse(ENABLED) == [a] + Parse(l1) == [a, b];
    assert [a, b][1..] == [b] && [b][1..] == [] && Filter(IsDisabled(), [b]) == [];
    assert Names(DISABLING_B, {B}) && SkipBody([]) == [] && Prune([DISABLING_B], {B}) == [];
    assert !Names(l1[0], {B}) && Prune(l1, {B}) == [l1[0]] + Prune(l1[1..], {B}) == [HASH];
    assert !Names(ENABLED[0], {B}) && Prune(ENABLED, {B}) == [HEADER_A] + Prune(l1, {B});
    ParseTwo(HEADER_A, HASH);
    assert [HASH][1..] == [] && HashIn([HASH]) && !DisabledIn([HASH]);
  }

  lemma EnabledCompares()
    ensures WithoutKeys(ENABLED, {B}, false) == ENABLED && Items([HEADER_A, HASH]) == [HEADER_A, HASH]
  {
    var l1 := ENABLED[1..];
    assert l1 == [HASH, DISABLING_B] && l1[1..] == [DISABLING_B] && [DISABLING_B][1..] == [];
    assert WithoutKeys([DISABLING_B], {B}, false) == [DISABLING_B] + [];
    assert WithoutKeys(l1, {B}, false) == [HASH] + WithoutKeys(l1[1..], {B}, false) == [HASH] + [DISABLING_B];
    assert !OpensRemoved(HEADER_A, {B}) && WithoutKeys(ENABLED, {B}, false) == [HEADER_A] + WithoutKeys(l1, {B}, false);
    ParseTwo(HEADER_A, HASH);
  }

  /**
   A section is disabled on a line whose comment mentions a stale header. The pruning alone would take that line and read
   back as trust; the comparison refuses it, whatever else the parser makes of the texts.
   */
  lemma CommentedHeaderEnables(ours: string -> bool, parses: seq<Line> -> bool)
    requires ours("old") && ours("new")
    ensures var r := Replacing(ours).(parses := parses);
            && StaleKeys(r, ENABLED) == {B} && !Accepts(r, ENABLED)
            && DisabledEntries(ENABLED) == [Entry(A, false, true)]
            && Parse(Prune(ENABLED, {B})) == [Entry(A, true, false)] && !Harmless(ENABLED, {B})
  {
    var r := Replacing(ours).(parses := parses);
    OnlyBMoves(ours);
    assert Moved(r, B) && !Moved(r, A);
    EnabledPrunes();
    EnabledCompares();
    assert StaleKeys(r, ENABLED) == {B} by { assert Stale(r, Parse(ENABLED)[1]) && Parse(ENABLED)[1] in Parse(ENABLED); }
    ParseAfterPruneIff(ENABLED, {B});
    assert Entry(A, true, false) !in Filter(Outside({B}), Parse(ENABLED));
  }

  const HIDDEN := [HEADER_X, HASH]

  lemma HiddenStays()
    ensures Parse(HIDDEN) == [Entry(B, true, false)] && Prune(HIDDEN, {B}) == HIDDEN == Items(HIDDEN) == WithoutKeys(HIDDEN, {B}, false)
    ensures HiddenStale(HIDDEN, {B}) && !Torn(HIDDEN, {B})
  {
    assert [X, B][1..] == [B] && FirstPinned([B]) == Some(B) && EntryKey(HEADER_X) == Some(B) && !Names(HEADER_X, {B});
    assert HIDDEN[1..] == [HASH] && [HASH][1..] == [] && HashIn([HASH]) && !DisabledIn([HASH]);
    ParseTwo(HEADER_X, HASH);
    assert !Torn([HASH], {B}) && Prune([HASH], {B}) == [HASH] + [] && Prune(HIDDEN, {B}) == [HEADER_X] + [HASH];
    assert WithoutKeys([HASH], {B}, false) == [HASH] + [];
    assert !OpensRemoved(HEADER_X, {B}) && WithoutKeys(HIDDEN, {B}, false) == [HEADER_X] + WithoutKeys([HASH], {B}, false);
  }

  /**
   A section of something else mentions a stale header of ours after its own. The reading takes it for ours, the pruning
   does not see it, the comparison has nothing to refuse, and the stale trust stays beside the new hooks.
   */
  lemma SecondHeaderStays(ours: string -> bool)
    requires ours("old") && ours("new")
    ensures var r := Replacing(ours);
            && StaleKeys(r, HIDDEN) == {B} && Accepts(r, HIDDEN) && HiddenStale(HIDDEN, {B})
            && Parse(AfterInit(r, HIDDEN)) == [Entry(B, true, false)]
  {
    var r := Replacing(ours);
    OnlyBMoves(ours);
    HiddenStays();
    assert StaleKeys(r, HIDDEN) == {B} by { assert Stale(r, Parse(HIDDEN)[0]) && Parse(HIDDEN)[0] in Parse(HIDDEN); }
    assert WritesState(HIDDEN[0]);
  }

  // --- foreign hooks keep their trust ---------------------------------------------------------------------------------

  /** Events of both files have different trust-state names. */
  predicate NamesApart(file: File, snake: string -> string) {
    forall i, j :: 0 <= i < |file| && 0 <= j < |file| && snake(file[i].event) == snake(file[j].event) ==> file[i].event == file[j].event
  }

  lemma {:induction false} EventGroupsAre(file: File, event: string, snake: string -> string)
    requires NamesApart(file, snake) && HasEvent(file, event)
    ensures EventGroups(file, snake(event), snake) == Some(Groups(file, event))
  {
    if file[0].event != event {
      assert snake(file[0].event) != snake(event) by {
        var i :| 0 <= i < |file| && file[i].event == event;
      }
      EventGroupsAre(file[1..], event, snake);
    }
  }

  /**
   A group of foreign handlers only, with at most one group of ours before it, keeps its position: every handler in
   it resolves as before, so none of its trust is pruned.
   */
  lemma ForeignGroupKeepsTrust(r: Run, event: string, i: nat, h: nat)
    requires DistinctEvents(r.generated) && HasEvent(r.existing, event)
    requires NamesApart(r.existing, r.snake) && NamesApart(Merged(r), r.snake)
    requires forall k :: 0 <= k < |r.generated| ==> |r.generated[k].groups| == 1
    requires var groups := Groups(r.existing, event);
             i < |groups| && AllForeign(groups[i], r.ours) && h < |groups[i].handlers| && OursBefore(groups, i, r.ours) <= 1
    ensures !Moved(r, Pinned(r.snake(event), i, h))
  {
    var groups := Groups(r.existing, event);
    GroupsAfterMerge(r.existing, r.generated, r.ours, event);
    EventGroupsAre(r.existing, event, r.snake);
    EventGroupsAre(Merged(r), event, r.snake);
    NotOurs(groups[i], r.ours, h);
    if HasEvent(r.generated, event) {
      var k :| 0 <= k < |r.generated| && r.generated[k].event == event;
      GroupsOf(r.generated, k);
      SamePlace(groups, r.generated[k].groups, r.ours, i, h);
    }
  }

  lemma SamePlace(groups: seq<Group>, mine: seq<Group>, ours: string -> bool, i: nat, h: nat)
    requires i < |groups| && AllForeign(groups[i], ours) && h < |groups[i].handlers| && OursBefore(groups, i, ours) <= 1 && |mine| == 1
    ensures GroupCommand(MergeGroups(groups, mine, false, ours), i, h) == GroupCommand(groups, i, h)
  {
    NotOurs(groups[i], ours, h);
    IndexShift(groups, mine, false, ours, i);
    assert Dropped(groups, i, false, ours) == 0;
    var merged := MergeGroups(groups, mine, false, ours);
    assert merged[i] == groups[i];
  }

  lemma NotOurs(g: Group, ours: string -> bool, h: nat)
    requires AllForeign(g, ours) && h < |g.handlers|
    ensures !AllOurs(g, ours) && Stripped(g, ours) == g && !ours(g.handlers[h].command)
  {
    AllPass(IsForeign(ours), g.handlers);
    assert g.handlers[h] in Filter(IsForeign(ours), g.handlers);
  }

  lemma {:induction false} AllPass(keep: Handler -> bool, hs: seq<Handler>)
    requires |Filter(keep, hs)| == |hs|
    ensures Filter(keep, hs) == hs
  {
    if hs != [] { AllPass(keep, hs[1..]); }
  }
}
