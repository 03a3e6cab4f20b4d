/** What every history of transactions keeps true of events, gate runs and the mutation counter. */
module EventHistory {
  import opened Rows
  import opened EvidenceSelector
  import opened GovernanceDb

  // --- the invariant ---------------------------------------------------------------------------

  predicate SameIdentity(a: EventRow, b: EventRow) {
    && a.client == b.client && a.session == b.session
    && ((a.toolUseId.Some? && a.toolUseId == b.toolUseId && a.hook == b.hook)
        || (a.hook == FileChanged && b.hook == FileChanged && a.fingerprint.Some? && a.fingerprint == b.fingerprint))
  }

  /** Earlier and later rows: increasing numbers, a counter that never drops, no delivery twice. */
  predicate EventOrder(a: EventRow, b: EventRow) {
    && a.eventSeq < b.eventSeq
    && (a.project == b.project ==> a.mutationSeq <= b.mutationSeq)
    && !SameIdentity(a, b)
  }

  /** A run belongs to an event: same project, session and numbers. */
  predicate RunOf(r: RunRow, e: EventRow) {
    && e.eventSeq == r.run.eventSeq && e.project == r.project && e.session == r.session && e.client == r.client
    && e.mutationSeq == r.run.mutationSeq
  }

  predicate RunOrder(a: RunRow, b: RunRow) {
    a.run.eventSeq != b.run.eventSeq || a.run.gateId != b.run.gateId
  }

  ghost predicate EventsInv(db: Db) {
    && Pairwise(EventOrder, db.events)
    && (forall e :: e in db.events ==> 1 <= e.eventSeq <= db.lastEventSeq)
    && (forall e :: e in db.events ==> e.mutationSeq <= CurrentMutationSequence(db, e.project))
    && (forall e :: e in db.events && e.project !in db.mutation ==> e.mutationSeq == 0)
  }

  ghost predicate RunsInv(db: Db) {
    && Pairwise(RunOrder, db.runs)
    && forall r :: r in db.runs ==> exists e :: e in db.events && RunOf(r, e)
  }

  ghost predicate Inv(db: Db) { EventsInv(db) && RunsInv(db) }

  // --- one transaction ---------------------------------------------------------------------------

  /** Nothing about events or runs changed. */
  ghost predicate SameEvidence(a: Db, b: Db) {
    a.events == b.events && a.runs == b.runs && a.lastEventSeq == b.lastEventSeq && a.mutation == b.mutation
  }

  /** Only deletions happened, and no surviving run lost its event. */
  ghost predicate Pruned(a: Db, b: Db) {
    && b.lastEventSeq == a.lastEventSeq && b.mutation == a.mutation
    && (forall e :: e in b.events ==> e in a.events)
    && (forall r :: r in b.runs ==> r in a.runs)
    && Pairwise(EventOrder, b.events) && Pairwise(RunOrder, b.runs)
    && (forall e, r :: e in a.events && r in b.runs && r.run.eventSeq == e.eventSeq ==> e in b.events)
  }

  lemma {:induction false} EnsureKeepsEvidence(db: Db, project: string, at: int, s: Sequence, existing: seq<AuditRow>, keys: seq<RuleKey>)
    ensures var r := EnsureAll(db, project, at, s, existing, keys);
            r.Ok? ==> SameEvidence(db, r.value) && r.value.rules == db.rules
    decreases |keys|
  {
    if keys != [] {
      var one := EnsureOne(db, project, at, s, existing, keys[0]);
      if one.Ok? { EnsureKeepsEvidence(one.value, project, at, s, existing, keys[1..]); }
    }
  }

  lemma {:induction false} DropKeepsEvidence(db: Db, project: string, ruleIds: seq<string>)
    ensures var r := DropFamilies(db, project, ruleIds); r.Ok? ==> SameEvidence(db, r.value)
    decreases |ruleIds|
  {
    if ruleIds != [] { DropKeepsEvidence(DropFamily(db, project, ruleIds[0]), project, ruleIds[1..]); }
  }

  lemma LifecycleKeepsEvidence(db: Db, project: string, auditDays: int, ruleDays: int, now: int)
    ensures var r := CleanupLifecycle(db, project, auditDays, ruleDays, now); r.Ok? ==> SameEvidence(db, r.value)
  {
    var joint := if auditDays > ruleDays then auditDays else ruleDays;
    DropKeepsEvidence(db, project, RetiredFamilies(db, project, DaysBefore(now, joint)));
  }

  /** Only the recorder and evidence retention touch events, runs and the counter. */
  lemma OthersKeepEvidence(db: Db, s: Step)
    requires !s.RecordStep? && !s.EvidenceCleanupStep?
    ensures SameEvidence(db, Apply(db, s))
  {
    match s
    case EnsureStep(project, at, keys) =>
      EnsureKeepsEvidence(db, project, at, ShadowSequence(db, project), WatermarkRows(db, project), keys);
    case LifecycleCleanupStep(project, auditDays, ruleDays, now) =>
      LifecycleKeepsEvidence(db, project, auditDays, ruleDays, now);
    case VerdictStep(v) => VerdictKeepsEvidence(db, v);
    case _ => RuleStepKeepsEvidence(db, s);
  }

  lemma VerdictKeepsEvidence(db: Db, v: VerdictInput)
    ensures SameEvidence(db, Apply(db, VerdictStep(v)))
  {}

  lemma RuleStepKeepsEvidence(db: Db, s: Step)
    requires s.CreateStep? || s.RevisionStep?
    ensures SameEvidence(db, Apply(db, s))
  {}

  lemma CleanupProjectPrunes(db: Db, project: string, cutoff: int, now: int)
    requires Inv(db)
    ensures Pruned(db, CleanupProject(db, project, cutoff, now))
  {
    var b := CleanupProject(db, project, cutoff, now);
    var keepRun := (r: RunRow) => !ExpiredRun(r, project, cutoff);
    var pruned := db.(runs := Filter(keepRun, db.runs));
    var keepEvent := (e: EventRow) => !(e.project == project && e.createdAt < cutoff && !Referenced(pruned, e.eventSeq));
    assert b.runs == Filter(keepRun, db.runs) && b.events == Filter(keepEvent, db.events);
    PairwiseFilter(RunOrder, keepRun, db.runs);
    PairwiseFilter(EventOrder, keepEvent, db.events);
    forall e, r | e in db.events && r in b.runs && r.run.eventSeq == e.eventSeq ensures e in b.events {
      var i :| 0 <= i < |pruned.runs| && pruned.runs[i] == r;
      assert Referenced(pruned, e.eventSeq);
    }
  }

  lemma PrunedKeepsInv(a: Db, b: Db)
    requires Inv(a) && Pruned(a, b)
    ensures Inv(b)
  {
    forall e | e in b.events ensures e.mutationSeq <= CurrentMutationSequence(b, e.project) {
      assert e in a.events;
    }
    forall r | r in b.runs ensures exists e :: e in b.events && RunOf(r, e) {
      var e :| e in a.events && RunOf(r, e);
      assert e in b.events;
    }
  }

  lemma CleanupProjectKeeps(db: Db, project: string, cutoff: int, now: int) returns (next: Db)
    requires Inv(db)
    ensures next == CleanupProject(db, project, cutoff, now) && Pruned(db, next) && Inv(next)
  {
    next := CleanupProject(db, project, cutoff, now);
    CleanupProjectPrunes(db, project, cutoff, now);
    PrunedKeepsInv(db, next);
  }

  lemma FirstCleanup(db: Db, projects: seq<string>, r: Retention, now: int) returns (next: Db)
    requires Inv(db) && projects != [] && ValidDays(DaysFor(db, projects[0], r))
    ensures next == CleanupProject(db, projects[0], DaysBefore(now, DaysFor(db, projects[0], r)), now)
    ensures Inv(next) && Pruned(db, next) && CleanupProjects(db, projects, r, now) == CleanupProjects(next, projects[1..], r, now)
  {
    next := CleanupProjectKeeps(db, projects[0], DaysBefore(now, DaysFor(db, projects[0], r)), now);
  }

  lemma {:induction false} CleanupPrunes(db: Db, projects: seq<string>, r: Retention, now: int)
    requires Inv(db)
    ensures var c := CleanupProjects(db, projects, r, now); c.Ok? ==> Pruned(db, c.value)
    decreases |projects|
  {
    if projects == [] {
    } else if ValidDays(DaysFor(db, projects[0], r)) {
      var next := FirstCleanup(db, projects, r, now);
      CleanupPrunes(next, projects[1..], r, now);
      var c := CleanupProjects(next, projects[1..], r, now);
    }
  }

  /** The row a fresh delivery adds. */
  function NewRow(db: Db, e: EventInput): EventRow {
    var current := CurrentMutationSequence(db, e.project);
    EventRow(db.lastEventSeq + 1, e.project, e.session, e.client, e.hook, e.toolUseId, e.fingerprint,
      e.mutationClass, e.affectedPaths, if Increments(db, e) then current + 1 else current, e.receivedAt)
  }

  predicate Fresh(db: Db, input: RecordInput) {
    var r := Record(db, input);
    r.Ok? && !r.value.1.deduplicated
  }

  lemma FreshRowIsNew(db: Db, e: EventInput)
    requires DedupedEvent(db, e).None?
    ensures forall row :: row in db.events ==> !SameIdentity(row, NewRow(db, e))
  {
    var byTool := if e.toolUseId.Some? then Find((row: EventRow) => SameDelivery(row, e), db.events) else None;
    forall row | row in db.events ensures !SameIdentity(row, NewRow(db, e)) {
      if e.toolUseId.Some? { assert !SameDelivery(row, e); }
      if e.hook == FileChanged && e.fingerprint.Some? { assert !SameFileDelivery(row, e); }
    }
  }

  /** A recorded event goes after everything else, one number up, one mutation up where it counts. */
  lemma RecordAppends(db: Db, input: RecordInput)
    requires Fresh(db, input)
    ensures var after, row := Record(db, input).value.0, NewRow(db, input.event);
            && after.events == db.events + [row] && after.lastEventSeq == row.eventSeq
            && after.runs == db.runs + StoredRuns(input.runs, input.event, row.eventSeq, row.mutationSeq)
            && after.mutation == (if Increments(db, input.event) then db.mutation[input.event.project := row.mutationSeq] else db.mutation)
            && Record(db, input).value.1 == RecordResult(false, row.eventSeq, row.mutationSeq)
            && DedupedEvent(db, input.event).None? && DistinctGates(input.runs)
  {}

  lemma RecordKeepsEvents(db: Db, input: RecordInput)
    requires EventsInv(db) && Fresh(db, input)
    ensures EventsInv(Record(db, input).value.0)
  {
    var after, row := Record(db, input).value.0, NewRow(db, input.event);
    RecordAppends(db, input);
    FreshRowIsNew(db, input.event);
    PairwiseAppend(EventOrder, db.events, row);
    assert forall e :: e in after.events <==> e in db.events || e == row;
    CounterAfterRecord(db, input);
  }

  /** Where the counter stands after a fresh delivery, for every project. */
  lemma CounterAfterRecord(db: Db, input: RecordInput)
    requires EventsInv(db) && Fresh(db, input)
    ensures var after, e := Record(db, input).value.0, input.event;
            forall p :: CurrentMutationSequence(after, p)
                     == CurrentMutationSequence(db, p) + (if p == e.project && Increments(db, e) then 1 else 0)
  {
    var after, e := Record(db, input).value.0, input.event;
    RecordAppends(db, input);
    forall p ensures CurrentMutationSequence(after, p)
                  == CurrentMutationSequence(db, p) + (if p == e.project && Increments(db, e) then 1 else 0) {
      if p !in after.mutation {
        assert NewRow(db, e).project == p ==> NewRow(db, e).mutationSeq == 0;
        assert forall x :: x in after.events && x.project == p ==> x.mutationSeq == 0;
      }
    }
  }

  lemma RecordKeepsRuns(db: Db, input: RecordInput)
    requires Inv(db) && Fresh(db, input)
    ensures RunsInv(Record(db, input).value.0)
  {
    var after, row := Record(db, input).value.0, NewRow(db, input.event);
    RecordAppends(db, input);
    var added := StoredRuns(input.runs, input.event, row.eventSeq, row.mutationSeq);
    assert row in after.events by { assert after.events[|db.events|] == row; }
    forall r | r in after.runs ensures exists e :: e in after.events && RunOf(r, e) {
      if r in db.runs {
        var e :| e in db.events && RunOf(r, e);
        assert e in after.events;
      } else {
        assert RunOf(r, row);
      }
    }
    forall i, j | 0 <= i < j < |after.runs| ensures RunOrder(after.runs[i], after.runs[j]) {
      if i < |db.runs| <= j {
        assert after.runs[i] in db.runs;
        var e :| e in db.events && RunOf(after.runs[i], e);
      }
    }
  }

  lemma StepKeepsInv(db: Db, s: Step)
    requires Inv(db)
    ensures Inv(Apply(db, s))
  {
    match s
    case RecordStep(input) =>
      if Fresh(db, input) {
        RecordKeepsEvents(db, input);
        RecordKeepsRuns(db, input);
      } else {
        assert SameEvidence(db, Apply(db, s));
        assert forall p :: CurrentMutationSequence(db, p) == CurrentMutationSequence(Apply(db, s), p);
      }
    case EvidenceCleanupStep(projects, r, now) =>
      CleanupPrunes(db, projects, r, now);
      if CleanupEvidence(db, projects, r, now).Ok? { PrunedKeepsInv(db, Apply(db, s)); }
    case _ =>
      OthersKeepEvidence(db, s);
      assert forall p :: CurrentMutationSequence(db, p) == CurrentMutationSequence(Apply(db, s), p);
  }

  /** Every reachable database satisfies the invariant. */
  lemma {:induction false} HistoryKeepsInv(db: Db, steps: seq<Step>)
    requires Inv(db)
    ensures Inv(RunSteps(db, steps))
    decreases |steps|
  {
    if steps != [] {
      StepKeepsInv(db, steps[0]);
      HistoryKeepsInv(Apply(db, steps[0]), steps[1..]);
    }
  }

  // --- the mutation counter counts mutations ------------------------------------------------------

  /** 1 for a step that records an uncorrelated mutating event of the project, else 0. */
  function Mutations(db: Db, s: Step, project: string): nat {
    if s.RecordStep? && Fresh(db, s.input) && s.input.event.project == project && Increments(db, s.input.event) then 1 else 0
  }

  function TotalMutations(db: Db, steps: seq<Step>, project: string): nat
    decreases |steps|
  {
    if steps == [] then 0
    else Mutations(db, steps[0], project) + TotalMutations(Apply(db, steps[0]), steps[1..], project)
  }

  lemma StepCounts(db: Db, s: Step, project: string)
    requires Inv(db)
    ensures CurrentMutationSequence(Apply(db, s), project) == CurrentMutationSequence(db, project) + Mutations(db, s, project)
  {
    var after := Apply(db, s);
    match s
    case RecordStep(input) =>
      if Fresh(db, input) { CounterAfterRecord(db, input); }
    case EvidenceCleanupStep(projects, r, now) =>
      CleanupPrunes(db, projects, r, now);
      if CleanupEvidence(db, projects, r, now).Ok? { assert Pruned(db, after); }
    case _ => OthersKeepEvidence(db, s);
  }

  /** Over any history the counter grows by exactly the uncorrelated mutations recorded; retention never lowers it. */
  lemma {:induction false} CounterCountsMutations(db: Db, steps: seq<Step>, project: string)
    requires Inv(db)
    ensures CurrentMutationSequence(RunSteps(db, steps), project)
         == CurrentMutationSequence(db, project) + TotalMutations(db, steps, project)
    decreases |steps|
  {
    if steps != [] {
      StepCounts(db, steps[0], project);
      StepKeepsInv(db, steps[0]);
      CounterCountsMutations(Apply(db, steps[0]), steps[1..], project);
    }
  }

  /** From the empty store: the counter is the number of mutations ever recorded, and bounds and orders all stored numbers. */
  lemma CounterTheorem(steps: seq<Step>, project: string)
    ensures var db := RunSteps(EMPTY, steps);
            && CurrentMutationSequence(db, project) == TotalMutations(EMPTY, steps, project)
            && (forall e :: e in db.events && e.project == project ==> e.mutationSeq <= TotalMutations(EMPTY, steps, project))
            && (forall r :: r in db.runs && r.project == project ==> r.run.mutationSeq <= TotalMutations(EMPTY, steps, project))
            && (forall i, j :: 0 <= i < j < |db.events| && db.events[i].project == db.events[j].project
                  ==> db.events[i].eventSeq < db.events[j].eventSeq && db.events[i].mutationSeq <= db.events[j].mutationSeq)
  {
    var db := RunSteps(EMPTY, steps);
    HistoryKeepsInv(EMPTY, steps);
    CounterCountsMutations(EMPTY, steps, project);
    forall i, j | 0 <= i < j < |db.events| && db.events[i].project == db.events[j].project
      ensures db.events[i].eventSeq < db.events[j].eventSeq && db.events[i].mutationSeq <= db.events[j].mutationSeq
    {
      assert EventOrder(db.events[i], db.events[j]);
    }
  }

  // --- numbers are never reused, and what is numbered never comes back ---------------------------------

  /** A later state seen from an earlier one: old numbers only disappear. */
  ghost predicate Later(a: Db, b: Db) {
    && a.lastEventSeq <= b.lastEventSeq
    && (forall e :: e in b.events && e.eventSeq <= a.lastEventSeq ==> e in a.events)
    && (forall r :: r in b.runs && r.run.eventSeq <= a.lastEventSeq ==> r in a.runs)
  }

  lemma StepIsLater(db: Db, s: Step)
    requires Inv(db)
    ensures Later(db, Apply(db, s))
  {
    match s
    case RecordStep(input) => if Fresh(db, input) { RecordAppends(db, input); }
    case EvidenceCleanupStep(projects, r, now) => CleanupPrunes(db, projects, r, now);
    case _ => OthersKeepEvidence(db, s);
  }

  lemma {:induction false} HistoryIsLater(db: Db, steps: seq<Step>)
    requires Inv(db)
    ensures Later(db, RunSteps(db, steps))
    decreases |steps|
  {
    if steps != [] {
      StepIsLater(db, steps[0]);
      StepKeepsInv(db, steps[0]);
      HistoryIsLater(Apply(db, steps[0]), steps[1..]);
    }
  }

  /** An unchanged sequence means: no surviving event of the project is new, and no mutation was recorded in between. */
  lemma UnchangedSequence(db: Db, steps: seq<Step>, project: string)
    requires Inv(db)
    requires var after := RunSteps(db, steps); ShadowSequence(after, project) == ShadowSequence(db, project)
    ensures var after := RunSteps(db, steps);
            && (forall e :: e in after.events && e.project == project ==> e in db.events)
            && TotalMutations(db, steps, project) == 0
  {
    var after := RunSteps(db, steps);
    HistoryIsLater(db, steps);
    CounterCountsMutations(db, steps, project);
    forall e | e in after.events && e.project == project ensures e in db.events {
      assert e.eventSeq <= MaxEventSeq(db.events, project) <= db.lastEventSeq;
    }
  }

  /**
   A run numbered above the sequence a state showed was recorded after that state, even though events
   may have been deleted before it: a surviving run keeps its event, and numbers are never reused.
   */
  lemma RunAboveIsLater(db: Db, steps: seq<Step>, r: RunRow)
    requires Inv(db) && r in RunSteps(db, steps).runs
    requires r.run.eventSeq > MaxEventSeq(db.events, r.project)
    ensures r.run.eventSeq > db.lastEventSeq
  {
    HistoryIsLater(db, steps);
  }

  // --- redelivery ---------------------------------------------------------------------------------------

  /** A hook event that can be recognized when it is delivered again. */
  predicate Identified(e: EventInput) {
    e.toolUseId.Some? || (e.hook == FileChanged && e.fingerprint.Some?)
  }

  predicate SameSource(a: EventInput, b: EventInput) {
    a.client == b.client && a.session == b.session && a.hook == b.hook && a.toolUseId == b.toolUseId && a.fingerprint == b.fingerprint
  }

  /** The row that recorded an event. */
  predicate Recorded(row: EventRow, e: EventInput) {
    row.client == e.client && row.session == e.session && row.hook == e.hook && row.toolUseId == e.toolUseId && row.fingerprint == e.fingerprint
  }

  /**
   Delivering an event again, after any history that still holds its row, reports the original numbers and
   changes no event, run, counter or audit row.
   */
  lemma RedeliveryChangesNothing(db: Db, row: EventRow, again: RecordInput)
    requires Inv(db) && row in db.events && Recorded(row, again.event) && Identified(again.event) && ValidDays(again.evidenceDays)
    ensures var r := Record(db, again);
            && r.Ok? && r.value.1 == RecordResult(true, row.eventSeq, row.mutationSeq)
            && SameEvidence(db, r.value.0) && r.value.0.audit == db.audit && r.value.0.rules == db.rules
  {
    DeliveryIsFound(db, row, again.event);
  }

  /** The lookup finds the stored delivery, or one with its numbers. */
  lemma DeliveryIsFound(db: Db, row: EventRow, e: EventInput)
    requires Inv(db) && row in db.events && Recorded(row, e) && Identified(e)
    ensures var found := DedupedEvent(db, e);
            found.Some? && found.value.eventSeq == row.eventSeq && found.value.mutationSeq == row.mutationSeq
  {
    if e.toolUseId.Some? {
      assert SameDelivery(row, e);
      var found := Find((x: EventRow) => SameDelivery(x, e), db.events);
    } else {
      assert SameFileDelivery(row, e);
      var found := Find((x: EventRow) => SameFileDelivery(x, e), db.events);
    }
  }

  /** Recording the same event twice in a row: the second delivery is a no-op. */
  lemma RecordTwice(db: Db, first: RecordInput, again: RecordInput)
    requires Inv(db) && Fresh(db, first) && SameSource(first.event, again.event) && Identified(first.event) && ValidDays(again.evidenceDays)
    ensures var once := Record(db, first).value;
            var twice := Record(once.0, again);
            && twice.Ok? && twice.value.1 == RecordResult(true, once.1.eventSeq, once.1.mutationSeq)
            && SameEvidence(once.0, twice.value.0)
  {
    var once := Record(db, first).value;
    RecordAppends(db, first);
    StepKeepsInv(db, RecordStep(first));
    var row := NewRow(db, first.event);
    assert once.0.events[|db.events|] == row;
    RedeliveryChangesNothing(once.0, row, again);
  }

  /** The other hook of one tool call: the same call and paths, seen by a different hook. */
  predicate SameCall(a: EventInput, b: EventInput) {
    && a.project == b.project && a.client == b.client && a.session == b.session && a.toolUseId.Some? && a.toolUseId == b.toolUseId
    && a.hook != b.hook && a.mutationClass == Scoped && b.mutationClass == Scoped
    && multiset(a.affectedPaths) == multiset(b.affectedPaths)
  }

  /** Two hooks of one tool call that report the same paths in any order share one mutation number, in either order. */
  lemma OneCallCountsOnce(db: Db, first: RecordInput, other: RecordInput)
    requires Inv(db) && Fresh(db, first) && SameCall(first.event, other.event)
    requires Fresh(Record(db, first).value.0, other)
    ensures var once := Record(db, first).value;
            var twice := Record(once.0, other).value;
            && twice.1.mutationSeq == once.1.mutationSeq && twice.1.eventSeq == once.1.eventSeq + 1
            && twice.0.mutation == once.0.mutation
            && CurrentMutationSequence(twice.0, first.event.project) == once.1.mutationSeq
  {
    var once, row := Record(db, first).value, NewRow(db, first.event);
    RecordAppends(db, first);
    CounterAfterRecord(db, first);
    StepKeepsInv(db, RecordStep(first));
    assert once.0.events[|db.events|] == row && Correlates(row, other.event);
    RecordAppends(once.0, other);
    CounterAfterRecord(once.0, other);
  }
}
