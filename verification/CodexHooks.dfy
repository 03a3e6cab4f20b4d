/** Merging our hooks into a Codex hooks file without moving anyone else's. */
module CodexHooks {
  import opened Rows

  datatype Handler = Handler(command: string, options: nat)
  datatype Group = Group(matcher: Option<string>, handlers: seq<Handler>)
  datatype EventHooks = EventHooks(event: string, groups: seq<Group>)

  /** A hooks file: events in file order, each with its groups. */
  type File = seq<EventHooks>

  function IsForeign(ours: string -> bool): Handler -> bool {
    (h: Handler) => !ours(h.command)
  }

  function ForeignHandlers(g: Group, ours: string -> bool): seq<Handler> {
    Filter(IsForeign(ours), g.handlers)
  }

  /** A group with our handlers taken out. */
  function Stripped(g: Group, ours: string -> bool): Group {
    if |ForeignHandlers(g, ours)| == |g.handlers| then g else g.(handlers := ForeignHandlers(g, ours))
  }

  /** Only our handlers, and at least one. */
  predicate AllOurs(g: Group, ours: string -> bool) {
    ForeignHandlers(g, ours) == [] && g.handlers != []
  }

  predicate AllForeign(g: Group, ours: string -> bool) {
    |ForeignHandlers(g, ours)| == |g.handlers|
  }

  /** The merged groups of one event; `placed` says that our groups are already in. */
  function MergeGroups(groups: seq<Group>, mine: seq<Group>, placed: bool, ours: string -> bool): seq<Group> {
    if groups == [] then (if placed then [] else mine)
    else if AllOurs(groups[0], ours) then (if placed then [] else mine) + MergeGroups(groups[1..], mine, true, ours)
    else [Stripped(groups[0], ours)] + MergeGroups(groups[1..], mine, placed, ours)
  }

  function Groups(file: File, event: string): seq<Group> {
    if file == [] then [] else if file[0].event == event then file[0].groups else Groups(file[1..], event)
  }

  predicate HasEvent(file: File, event: string) {
    exists i :: 0 <= i < |file| && file[i].event == event
  }

  /** Assigning an event: in place where it exists, at the end where it does not. */
  function SetGroups(file: File, event: string, groups: seq<Group>): File {
    if file == [] then [EventHooks(event, groups)]
    else if file[0].event == event then [EventHooks(event, groups)] + file[1..]
    else [file[0]] + SetGroups(file[1..], event, groups)
  }

  function Merge(file: File, generated: File, ours: string -> bool): File
    decreases |generated|
  {
    if generated == [] then file
    else
      var g := generated[0];
      Merge(SetGroups(file, g.event, MergeGroups(Groups(file, g.event), g.groups, false, ours)), generated[1..], ours)
  }

  /** One round: what is pushed for a group, and whether ours are placed after it. */
  lemma MergeStep(merged: seq<Group>, groups: seq<Group>, k: nat, mine: seq<Group>, placed: bool, ours: string -> bool)
    requires k < |groups|
    ensures var g := groups[k];
            var pushed := if AllOurs(g, ours) then (if placed then [] else mine) else [Stripped(g, ours)];
            merged + MergeGroups(groups[k..], mine, placed, ours)
              == (merged + pushed) + MergeGroups(groups[k + 1..], mine, placed || AllOurs(g, ours), ours)
  {
    assert groups[k..][0] == groups[k] && groups[k..][1..] == groups[k + 1..];
  }

  /** The loop over one event's groups. */
  method MergeEvent(groups: seq<Group>, mine: seq<Group>, ours: string -> bool) returns (merged: seq<Group>)
    ensures merged == MergeGroups(groups, mine, false, ours)
  {
    merged := [];
    var placed := false;
    assert groups[0..] == groups;
    for k := 0 to |groups|
      invariant merged + MergeGroups(groups[k..], mine, placed, ours) == MergeGroups(groups, mine, false, ours)
    {
      MergeStep(merged, groups, k, mine, placed, ours);
      var foreign := ForeignHandlers(groups[k], ours);
      if |foreign| == |groups[k].handlers| {
        merged := merged + [groups[k]];
      } else if |foreign| > 0 {
        merged := merged + [groups[k].(handlers := foreign)];
      } else if !placed {
        merged := merged + mine;
        placed := true;
      } else {
        assert merged + [] == merged;
      }
    }
    if !placed { merged := merged + mine; }
  }

  method MergeCodexHooks(existing: File, generated: File, ours: string -> bool) returns (hooks: File)
    ensures hooks == Merge(existing, generated, ours)
  {
    hooks := existing;
    assert generated[0..] == generated;
    for k := 0 to |generated|
      invariant Merge(hooks, generated[k..], ours) == Merge(existing, generated, ours)
    {
      assert generated[k..][0] == generated[k] && generated[k..][1..] == generated[k + 1..];
      var merged := MergeEvent(Groups(hooks, generated[k].event), generated[k].groups, ours);
      hooks := SetGroups(hooks, generated[k].event, merged);
    }
  }

  // --- one event -----------------------------------------------------------------------------------------

  lemma StrippedIsForeign(g: Group, ours: string -> bool)
    ensures AllForeign(Stripped(g, ours), ours) && ForeignHandlers(Stripped(g, ours), ours) == ForeignHandlers(g, ours)
  {
    var keep := IsForeign(ours);
    FilterWithin(keep, keep, g.handlers);
  }

  /** Every handler that is not ours, in file order. */
  function AllForeignHandlers(groups: seq<Group>, ours: string -> bool): seq<Handler> {
    if groups == [] then [] else ForeignHandlers(groups[0], ours) + AllForeignHandlers(groups[1..], ours)
  }

  lemma {:induction false} ForeignConcat(a: seq<Group>, b: seq<Group>, ours: string -> bool)
    ensures AllForeignHandlers(a + b, ours) == AllForeignHandlers(a, ours) + AllForeignHandlers(b, ours)
  {
    if a == [] {
      assert a + b == b;
    } else {
      assert (a + b)[0] == a[0] && (a + b)[1..] == a[1..] + b;
      ForeignConcat(a[1..], b, ours);
    }
  }

  lemma {:induction false} OursHaveNone(mine: seq<Group>, ours: string -> bool)
    requires forall i :: 0 <= i < |mine| ==> AllOurs(mine[i], ours)
    ensures AllForeignHandlers(mine, ours) == []
  {
    if mine != [] { OursHaveNone(mine[1..], ours); }
  }

  /** No foreign handler of an event is lost, added or reordered. */
  lemma {:induction false} MergeKeepsForeign(groups: seq<Group>, mine: seq<Group>, placed: bool, ours: string -> bool)
    requires forall i :: 0 <= i < |mine| ==> AllOurs(mine[i], ours)
    ensures AllForeignHandlers(MergeGroups(groups, mine, placed, ours), ours) == AllForeignHandlers(groups, ours)
  {
    OursHaveNone(mine, ours);
    if groups != [] {
      if AllOurs(groups[0], ours) {
        MergeKeepsForeign(groups[1..], mine, true, ours);
        ForeignConcat(if placed then [] else mine, MergeGroups(groups[1..], mine, true, ours), ours);
      } else {
        MergeKeepsForeign(groups[1..], mine, placed, ours);
        StrippedIsForeign(groups[0], ours);
        var head, rest := [Stripped(groups[0], ours)], MergeGroups(groups[1..], mine, placed, ours);
        assert (head + rest)[0] == head[0] && (head + rest)[1..] == rest;
      }
    }
  }

  /** How many of the first `i` groups are ours alone. */
  function OursBefore(groups: seq<Group>, i: nat, ours: string -> bool): nat
    requires i <= |groups|
  {
    if i == 0 then 0 else OursBefore(groups, i - 1, ours) + (if AllOurs(groups[i - 1], ours) then 1 else 0)
  }

  lemma {:induction false} OursBeforeTail(groups: seq<Group>, i: nat, ours: string -> bool)
    requires 0 < i <= |groups|
    ensures OursBefore(groups, i, ours) == (if AllOurs(groups[0], ours) then 1 else 0) + OursBefore(groups[1..], i - 1, ours)
  {
    if i > 1 { OursBeforeTail(groups, i - 1, ours); }
  }

  /** Groups of ours that a merge drops before position `i`: all but the first, or all once ours are placed. */
  function Dropped(groups: seq<Group>, i: nat, placed: bool, ours: string -> bool): nat
    requires i <= |groups|
  {
    var n := OursBefore(groups, i, ours);
    if placed || n == 0 then n else n - 1
  }

  /** A group with foreign handlers moves up only past dropped duplicates of ours, and keeps its foreign handlers. */
  lemma {:induction false} IndexShift(groups: seq<Group>, mine: seq<Group>, placed: bool, ours: string -> bool, i: nat)
    requires i < |groups| && !AllOurs(groups[i], ours) && |mine| == 1
    ensures var merged := MergeGroups(groups, mine, placed, ours);
            var d := Dropped(groups, i, placed, ours);
            d <= i && i - d < |merged| && merged[i - d] == Stripped(groups[i], ours)
  {
    if i > 0 {
      var placedNow := placed || AllOurs(groups[0], ours);
      IndexShift(groups[1..], mine, placedNow, ours, i - 1);
      ShiftPastFirst(groups, mine, placed, ours, i);
    }
  }

  /** The first group contributes itself, our groups, or nothing. */
  lemma ShiftPastFirst(groups: seq<Group>, mine: seq<Group>, placed: bool, ours: string -> bool, i: nat)
    requires 0 < i < |groups| && |mine| == 1
    ensures var placedNow := placed || AllOurs(groups[0], ours);
            var head := if !AllOurs(groups[0], ours) then [Stripped(groups[0], ours)] else if placed then [] else mine;
            && MergeGroups(groups, mine, placed, ours) == head + MergeGroups(groups[1..], mine, placedNow, ours)
            && Dropped(groups, i, placed, ours) == Dropped(groups[1..], i - 1, placedNow, ours) + 1 - |head|
  {
    OursBeforeTail(groups, i, ours);
  }

  // --- merging twice ------------------------------------------------------------------------------------------

  predicate ForeignOnly(groups: seq<Group>, ours: string -> bool) {
    forall i :: 0 <= i < |groups| ==> AllForeign(groups[i], ours)
  }

  lemma {:induction false} MergeForeign(a: seq<Group>, rest: seq<Group>, mine: seq<Group>, placed: bool, ours: string -> bool)
    requires ForeignOnly(a, ours)
    ensures MergeGroups(a + rest, mine, placed, ours) == a + MergeGroups(rest, mine, placed, ours)
  {
    if a == [] {
      assert a + rest == rest;
    } else {
      assert (a + rest)[0] == a[0] && (a + rest)[1..] == a[1..] + rest;
      MergeForeign(a[1..], rest, mine, placed, ours);
      assert a + MergeGroups(rest, mine, placed, ours) == [a[0]] + (a[1..] + MergeGroups(rest, mine, placed, ours));
    }
  }

  lemma {:induction false} DropOurs(a: seq<Group>, rest: seq<Group>, mine: seq<Group>, ours: string -> bool)
    requires forall i :: 0 <= i < |a| ==> AllOurs(a[i], ours)
    ensures MergeGroups(a + rest, mine, true, ours) == MergeGroups(rest, mine, true, ours)
  {
    if a == [] {
      assert a + rest == rest;
    } else {
      assert (a + rest)[0] == a[0] && (a + rest)[1..] == a[1..] + rest;
      DropOurs(a[1..], rest, mine, ours);
      assert [] + MergeGroups(a[1..] + rest, mine, true, ours) == MergeGroups(a[1..] + rest, mine, true, ours);
    }
  }

  /** A merge result is foreign groups around one block of ours. */
  lemma {:induction false} MergeShape(groups: seq<Group>, mine: seq<Group>, placed: bool, ours: string -> bool)
    returns (a: seq<Group>, b: seq<Group>)
    ensures ForeignOnly(a, ours) && ForeignOnly(b, ours)
    ensures if placed then MergeGroups(groups, mine, true, ours) == a && b == []
            else MergeGroups(groups, mine, false, ours) == a + (mine + b)
  {
    if groups == [] {
      a, b := [], [];
    } else if AllOurs(groups[0], ours) {
      var c, d := MergeShape(groups[1..], mine, true, ours);
      if placed { a, b := c, []; } else { a, b := [], c; }
    } else {
      var c, d := MergeShape(groups[1..], mine, placed, ours);
      StrippedIsForeign(groups[0], ours);
      a, b := [Stripped(groups[0], ours)] + c, d;
    }
  }

  lemma MergeGroupsTwice(groups: seq<Group>, mine: seq<Group>, ours: string -> bool)
    requires forall i :: 0 <= i < |mine| ==> AllOurs(mine[i], ours)
    ensures var once := MergeGroups(groups, mine, false, ours); MergeGroups(once, mine, false, ours) == once
  {
    var a, b := MergeShape(groups, mine, false, ours);
    MergeForeign(a, mine + b, mine, false, ours);
    MergeBlock(mine, b, ours);
  }

  /** Our own block is replaced by itself. */
  lemma MergeBlock(mine: seq<Group>, b: seq<Group>, ours: string -> bool)
    requires ForeignOnly(b, ours) && forall i :: 0 <= i < |mine| ==> AllOurs(mine[i], ours)
    ensures MergeGroups(mine + b, mine, false, ours) == mine + b
  {
    assert b + [] == b;
    if mine == [] {
      assert mine + b == b;
      MergeForeign(b, [], mine, false, ours);
    } else {
      assert (mine + b)[0] == mine[0] && (mine + b)[1..] == mine[1..] + b;
      MergeForeign(b, [], mine, true, ours);
      DropOurs(mine[1..], b, mine, ours);
    }
  }

  // --- the whole file ----------------------------------------------------------------------------------------------

  lemma {:induction false} GroupsAfterSet(file: File, event: string, groups: seq<Group>, other: string)
    ensures Groups(SetGroups(file, event, groups), other) == (if other == event then groups else Groups(file, other))
    ensures HasEvent(SetGroups(file, event, groups), other) <==> other == event || HasEvent(file, other)
  {
    var after := SetGroups(file, event, groups);
    if file == [] {
      assert after[0].event == event;
    } else if file[0].event == event {
      assert after[0].event == event && after[1..] == file[1..];
      assert forall i :: 1 <= i < |file| ==> after[i] == file[i];
    } else {
      GroupsAfterSet(file[1..], event, groups, other);
      assert after[0] == file[0] && after[1..] == SetGroups(file[1..], event, groups);
    }
  }

  lemma {:induction false} SetSame(file: File, event: string)
    requires HasEvent(file, event)
    ensures SetGroups(file, event, Groups(file, event)) == file
  {
    if file[0].event != event {
      SetSame(file[1..], event);
      assert file == [file[0]] + file[1..];
    } else {
      assert file == [EventHooks(event, file[0].groups)] + file[1..];
    }
  }

  predicate DistinctEvents(file: File) {
    forall i, j :: 0 <= i < j < |file| ==> file[i].event != file[j].event
  }

  predicate OursOnly(generated: File, ours: string -> bool) {
    forall i, k :: 0 <= i < |generated| && 0 <= k < |generated[i].groups| ==> AllOurs(generated[i].groups[k], ours)
  }

  /** What a merge makes of every event: generated ones merged, all others untouched. */
  lemma {:induction false} GroupsAfterMerge(file: File, generated: File, ours: string -> bool, event: string)
    requires DistinctEvents(generated)
    ensures var after := Merge(file, generated, ours);
            && (!HasEvent(generated, event) ==> Groups(after, event) == Groups(file, event))
            && (HasEvent(generated, event) ==>
                  Groups(after, event) == MergeGroups(Groups(file, event), Groups(generated, event), false, ours))
            && (HasEvent(after, event) <==> HasEvent(file, event) || HasEvent(generated, event))
    decreases |generated|
  {
    if generated != [] {
      var g := generated[0];
      var next := SetGroups(file, g.event, MergeGroups(Groups(file, g.event), g.groups, false, ours));
      GroupsAfterMerge(next, generated[1..], ours, event);
      GroupsAfterSet(file, g.event, MergeGroups(Groups(file, g.event), g.groups, false, ours), event);
    }
  }

  lemma {:induction false} MergeFixed(file: File, generated: File, ours: string -> bool)
    requires forall i :: 0 <= i < |generated| ==>
               HasEvent(file, generated[i].event)
               && MergeGroups(Groups(file, generated[i].event), generated[i].groups, false, ours) == Groups(file, generated[i].event)
    ensures Merge(file, generated, ours) == file
    decreases |generated|
  {
    if generated != [] {
      SetSame(file, generated[0].event);
      assert forall i :: 0 <= i < |generated[1..]| ==> generated[1..][i] == generated[i + 1];
      MergeFixed(file, generated[1..], ours);
    }
  }

  lemma {:induction false} GroupsOf(generated: File, i: nat)
    requires DistinctEvents(generated) && i < |generated|
    ensures Groups(generated, generated[i].event) == generated[i].groups
  {
    if i > 0 {
      assert generated[0].event != generated[i].event && generated[1..][i - 1] == generated[i];
      GroupsOf(generated[1..], i - 1);
    }
  }

  /** Running the merge again changes nothing. */
  lemma MergeTwice(file: File, generated: File, ours: string -> bool)
    requires DistinctEvents(generated) && OursOnly(generated, ours)
    ensures var once := Merge(file, generated, ours); Merge(once, generated, ours) == once
  {
    var once := Merge(file, generated, ours);
    forall i | 0 <= i < |generated|
      ensures HasEvent(once, generated[i].event)
      ensures MergeGroups(Groups(once, generated[i].event), generated[i].groups, false, ours) == Groups(once, generated[i].event)
    {
      GroupsAfterMerge(file, generated, ours, generated[i].event);
      GroupsOf(generated, i);
      MergeGroupsTwice(Groups(file, generated[i].event), generated[i].groups, ours);
    }
    MergeFixed(once, generated, ours);
  }

  /** In every event of the file, the foreign handlers are the same, in the same order. */
  lemma ForeignKept(file: File, generated: File, ours: string -> bool, event: string)
    requires DistinctEvents(generated) && OursOnly(generated, ours)
    ensures AllForeignHandlers(Groups(Merge(file, generated, ours), event), ours) == AllForeignHandlers(Groups(file, event), ours)
  {
    GroupsAfterMerge(file, generated, ours, event);
    if HasEvent(generated, event) {
      var i :| 0 <= i < |generated| && generated[i].event == event;
      GroupsOf(generated, i);
      MergeKeepsForeign(Groups(file, event), generated[i].groups, false, ours);
    }
  }
}
