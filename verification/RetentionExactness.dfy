/** Exactly what the two retention sweeps delete, over any list of projects or retired families. */
module RetentionExactness {
  import opened Rows
  import opened GovernanceDb
  import EventHistory
  import RuleHistory

  // --- evidence -----------------------------------------------------------------------------------

  function Cutoff(db: Db, project: string, r: Retention, now: int): int {
    DaysBefore(now, DaysFor(db, project, r))
  }

  /** A row of one of the swept projects, older than that project keeps its evidence. */
  predicate Due(db: Db, projects: seq<string>, r: Retention, now: int, project: string, createdAt: int) {
    project in projects && createdAt < Cutoff(db, project, r, now)
  }

  /** Runs go exactly when due. */
  ghost predicate RunsSwept(a: Db, b: Db, projects: seq<string>, r: Retention, now: int) {
    forall x :: x in b.runs <==> x in a.runs && !Due(a, projects, r, now, x.project, x.createdAt)
  }

  /** Events go exactly when due and no remaining run or audit row needs them. */
  ghost predicate EventsSwept(a: Db, b: Db, projects: seq<string>, r: Retention, now: int) {
    forall e :: e in b.events <==>
      e in a.events && (!Due(a, projects, r, now, e.project, e.createdAt) || Referenced(b, e.eventSeq))
  }

  predicate RunRefers(db: Db, eventSeq: nat) {
    exists i :: 0 <= i < |db.runs| && db.runs[i].run.eventSeq == eventSeq
  }

  predicate AuditRefers(db: Db, eventSeq: nat) {
    exists i :: 0 <= i < |db.audit| && db.audit[i].linkedEventSeq == Some(eventSeq)
  }

  ghost predicate SameAuditReferences(a: Db, b: Db) {
    forall n: nat :: AuditRefers(a, n) <==> AuditRefers(b, n)
  }

  lemma OneSweepAudit(db: Db, project: string, cutoff: int, now: int)
    ensures SameAuditReferences(db, CleanupProject(db, project, cutoff, now))
  {
    var after := CleanupProject(db, project, cutoff, now);
    forall n: nat ensures AuditRefers(db, n) <==> AuditRefers(after, n) {
      if AuditRefers(db, n) {
        var i :| 0 <= i < |db.audit| && db.audit[i].linkedEventSeq == Some(n);
        assert after.audit[i] == db.audit[i];
      }
    }
  }

  /** A run that refers to an event is of the event's project. */
  lemma RunOfSameProject(db: Db, e: EventRow, x: RunRow)
    requires EventHistory.Inv(db) && e in db.events && x in db.runs && x.run.eventSeq == e.eventSeq
    ensures x.project == e.project
  {
    var owner :| owner in db.events && EventHistory.RunOf(x, owner);
    OneEventPerNumber(db.events, e, owner);
  }

  lemma OneEventPerNumber(events: seq<EventRow>, a: EventRow, b: EventRow)
    requires Pairwise(EventHistory.EventOrder, events) && a in events && b in events && a.eventSeq == b.eventSeq
    ensures a == b
  {
    var i: nat, j: nat :| i < |events| && j < |events| && events[i] == a && events[j] == b;
  }

  /** What one project's sweep leaves, in terms of the state it leaves. */
  lemma OneSweep(db: Db, project: string, cutoff: int, now: int)
    ensures var next := CleanupProject(db, project, cutoff, now);
            && (forall x :: x in next.runs <==> x in db.runs && !ExpiredRun(x, project, cutoff))
            && (forall e :: e in next.events <==>
                  e in db.events && (!(e.project == project && e.createdAt < cutoff) || Referenced(next, e.eventSeq)))
            && next.evidenceDays == db.evidenceDays
  {
    var next := CleanupProject(db, project, cutoff, now);
    var pruned := db.(runs := Filter((x: RunRow) => !ExpiredRun(x, project, cutoff), db.runs));
    OneSweepAudit(db, project, cutoff, now);
    forall n: nat ensures Referenced(pruned, n) <==> Referenced(next, n) {
      assert RunRefers(pruned, n) <==> RunRefers(next, n);
      assert AuditRefers(pruned, n) <==> AuditRefers(db, n);
      assert AuditRefers(db, n) <==> AuditRefers(next, n);
    }
  }

  /** An event of the first project that the first sweep kept is still referenced at the end. */
  lemma ReferenceStays(db: Db, b: Db, projects: seq<string>, r: Retention, now: int, e: EventRow)
    requires EventHistory.Inv(db) && projects != [] && e in db.events && e.project == projects[0]
    requires var next := CleanupProject(db, projects[0], Cutoff(db, projects[0], r, now), now);
             RunsSwept(next, b, projects[1..], r, now) && SameAuditReferences(next, b)
    ensures Referenced(CleanupProject(db, projects[0], Cutoff(db, projects[0], r, now), now), e.eventSeq) <==> Referenced(b, e.eventSeq)
  {
    var project, cutoff := projects[0], Cutoff(db, projects[0], r, now);
    var next := CleanupProject(db, project, cutoff, now);
    OneSweep(db, project, cutoff, now);
    assert AuditRefers(next, e.eventSeq) <==> AuditRefers(b, e.eventSeq);
    if RunRefers(next, e.eventSeq) {
      var i :| 0 <= i < |next.runs| && next.runs[i].run.eventSeq == e.eventSeq;
      var x := next.runs[i];
      assert x in next.runs;
      RunOfSameProject(db, e, x);
      assert x in b.runs;
    }
    if RunRefers(b, e.eventSeq) {
      var i :| 0 <= i < |b.runs| && b.runs[i].run.eventSeq == e.eventSeq;
      assert b.runs[i] in next.runs;
    }
  }

  lemma {:induction false} SweepsAreExact(db: Db, projects: seq<string>, r: Retention, now: int)
    requires EventHistory.Inv(db) && CleanupProjects(db, projects, r, now).Ok?
    ensures var b := CleanupProjects(db, projects, r, now).value;
            RunsSwept(db, b, projects, r, now) && EventsSwept(db, b, projects, r, now) && SameAuditReferences(db, b)
    decreases |projects|
  {
    if projects == [] {
      NothingSwept(db, r, now);
    } else {
      var next := EventHistory.FirstCleanup(db, projects, r, now);
      SweepsAreExact(next, projects[1..], r, now);
      StepsCompose(db, next, CleanupProjects(next, projects[1..], r, now).value, projects, r, now);
    }
  }

  lemma NothingSwept(db: Db, r: Retention, now: int)
    ensures RunsSwept(db, db, [], r, now) && EventsSwept(db, db, [], r, now) && SameAuditReferences(db, db)
  {}

  lemma StepsCompose(db: Db, next: Db, b: Db, projects: seq<string>, r: Retention, now: int)
    requires EventHistory.Inv(db) && projects != []
    requires next == CleanupProject(db, projects[0], Cutoff(db, projects[0], r, now), now)
    requires RunsSwept(next, b, projects[1..], r, now) && EventsSwept(next, b, projects[1..], r, now)
    requires SameAuditReferences(next, b)
    ensures RunsSwept(db, b, projects, r, now) && EventsSwept(db, b, projects, r, now) && SameAuditReferences(db, b)
  {
    var project, cutoff := projects[0], Cutoff(db, projects[0], r, now);
    OneSweep(db, project, cutoff, now);
    OneSweepAudit(db, project, cutoff, now);
    forall p, at
      ensures Due(db, projects, r, now, p, at) <==> (p == project && at < cutoff) || Due(next, projects[1..], r, now, p, at)
    {
    }
    forall e | e in db.events
      ensures e in b.events <==> !Due(db, projects, r, now, e.project, e.createdAt) || Referenced(b, e.eventSeq)
    {
      if e.project == project { ReferenceStays(db, b, projects, r, now, e); }
    }
  }

  /**
   After evidence retention, over any list of projects and with repetitions, a run is gone exactly when its project
   was swept and it is older than that project's days; an event is gone exactly when it is that old too and neither a
   remaining run nor an audit row refers to it. No sweep of one project changes what another sweep keeps.
   */
  lemma EvidenceRetentionIsExact(db: Db, projects: seq<string>, r: Retention, now: int)
    requires EventHistory.Inv(db) && CleanupEvidence(db, projects, r, now).Ok?
    ensures var b := CleanupEvidence(db, projects, r, now).value;
            RunsSwept(db, b, projects, r, now) && EventsSwept(db, b, projects, r, now)
  {
    SweepsAreExact(db, projects, r, now);
  }

  // --- rules --------------------------------------------------------------------------------------

  /** The family's current revision is a retirement older than the cutoff. */
  predicate RetiredBy(db: Db, project: string, ruleId: string, cutoff: int) {
    var c := Current(db, project, ruleId);
    c.Some? && c.value.status == Retired && c.value.createdAt < cutoff
  }

  lemma {:induction false} DropsExactly(db: Db, project: string, ruleIds: seq<string>)
    requires RuleHistory.Inv(db) && DropFamilies(db, project, ruleIds).Ok?
    ensures var b := DropFamilies(db, project, ruleIds).value;
            forall p, id :: History(b, p, id) == if p == project && id in ruleIds then [] else History(db, p, id)
    decreases |ruleIds|
  {
    if ruleIds != [] {
      var next := DropFamily(db, project, ruleIds[0]);
      RuleHistory.DropOne(db, project, ruleIds[0]);
      DropsExactly(next, project, ruleIds[1..]);
      assert forall id :: id in ruleIds <==> id == ruleIds[0] || id in ruleIds[1..];
    }
  }

  lemma RetiredIsListed(db: Db, project: string, ruleId: string, cutoff: int)
    requires RuleHistory.Inv(db)
    ensures ruleId in RetiredFamilies(db, project, cutoff) <==> RetiredBy(db, project, ruleId, cutoff)
  {
    var keep := (r: RuleRow) => RetiredBefore(r, project, cutoff);
    var due := Filter(keep, db.rules);
    var c := Current(db, project, ruleId);
    if ruleId in RetiredFamilies(db, project, cutoff) {
      var i :| 0 <= i < |due| && due[i].ruleId == ruleId;
      assert due[i] in due;
      RuleHistory.CurrentIsLast(db, project, ruleId, due[i]);
      if c.Some? { RuleHistory.CurrentIsLast(db, project, ruleId, c.value); }
    }
    if RetiredBy(db, project, ruleId, cutoff) {
      assert c.value in due;
      var i :| 0 <= i < |due| && due[i] == c.value;
      assert RetiredFamilies(db, project, cutoff)[i] == ruleId;
    }
  }

  lemma RetiredDropExactly(db: Db, project: string, cutoff: int)
    requires RuleHistory.Inv(db) && DropRetired(db, project, cutoff).Ok?
    ensures var b := DropRetired(db, project, cutoff).value;
            forall p, id :: History(b, p, id) == if p == project && RetiredBy(db, p, id, cutoff) then [] else History(db, p, id)
  {
    var b := DropRetired(db, project, cutoff).value;
    DropsExactly(db, project, RetiredFamilies(db, project, cutoff));
    forall p, id ensures History(b, p, id) == if p == project && RetiredBy(db, p, id, cutoff) then [] else History(db, p, id) {
      if p == project { RetiredIsListed(db, project, id, cutoff); }
    }
  }

  /**
   Lifecycle cleanup removes a family exactly when its current revision is a retirement older than both ceilings, and
   then all of it; every other family, of this project or another, keeps its whole history.
   */
  lemma LifecycleIsExact(db: Db, project: string, auditDays: int, ruleDays: int, now: int)
    requires RuleHistory.Inv(db) && CleanupLifecycle(db, project, auditDays, ruleDays, now).Ok?
    ensures var b := CleanupLifecycle(db, project, auditDays, ruleDays, now).value;
            var cutoff := DaysBefore(now, if auditDays > ruleDays then auditDays else ruleDays);
            forall p, id :: History(b, p, id) == if p == project && RetiredBy(db, p, id, cutoff) then [] else History(db, p, id)
  {
    var cutoff := DaysBefore(now, if auditDays > ruleDays then auditDays else ruleDays);
    RetiredDropExactly(db, project, cutoff);
    var dropped := DropRetired(db, project, cutoff).value;
    OnlyRulesMatter(dropped, CleanupLifecycle(db, project, auditDays, ruleDays, now).value);
  }

  lemma OnlyRulesMatter(a: Db, b: Db)
    requires a.rules == b.rules
    ensures forall p, id :: History(a, p, id) == History(b, p, id)
  {}

  /**
   In any history, the next transaction takes a retired family away exactly when it is a lifecycle cleanup of the
   family's project that goes through and finds the retirement older than both ceilings.
   */
  lemma RetiredIsRemovedIff(steps: seq<Step>, k: nat, project: string, ruleId: string)
    requires RuleHistory.ValidHistory(steps) && k < |steps|
    requires var c := Current(RuleHistory.At(steps, k), project, ruleId); c.Some? && c.value.status == Retired
    ensures History(RuleHistory.At(steps, k + 1), project, ruleId) == [] <==> Removes(RuleHistory.At(steps, k), steps[k], project, ruleId)
  {
    var db := RuleHistory.At(steps, k);
    RuleHistory.RetiredIsFinal(steps, k, project, ruleId);
    RuleHistory.HistoryKeepsInv(steps, k);
    RuleHistory.AtNext(steps, k);
    assert Current(db, project, ruleId).value in History(db, project, ruleId);
    if steps[k].LifecycleCleanupStep? { CleanupRemovesIff(db, steps[k], project, ruleId); }
  }

  lemma CleanupRemovesIff(db: Db, s: Step, project: string, ruleId: string)
    requires RuleHistory.Inv(db) && s.LifecycleCleanupStep? && History(db, project, ruleId) != []
    ensures History(Apply(db, s), project, ruleId) == [] <==> Removes(db, s, project, ruleId)
  {
    if CleanupLifecycle(db, s.project, s.auditDays, s.ruleDays, s.now).Ok? {
      LifecycleIsExact(db, s.project, s.auditDays, s.ruleDays, s.now);
    }
  }

  function JointCutoff(auditDays: int, ruleDays: int, now: int): int {
    DaysBefore(now, if auditDays > ruleDays then auditDays else ruleDays)
  }

  predicate Removes(db: Db, s: Step, project: string, ruleId: string) {
    && s.LifecycleCleanupStep? && s.project == project && CleanupLifecycle(db, project, s.auditDays, s.ruleDays, s.now).Ok?
    && RetiredBy(db, project, ruleId, JointCutoff(s.auditDays, s.ruleDays, s.now))
  }

  // --- audit rows ----------------------------------------------------------------------------------

  predicate FamilyExists(db: Db, project: string, ruleId: string) {
    History(db, project, ruleId) != []
  }

  /** An audit row of an existing family stays as long as the family; any other one stays for the audit's own days. */
  predicate AuditStays(a: AuditRow, db: Db, project: string, joint: int, cutoff: int) {
    a.project == project ==>
      if a.linkedRuleId.Some? && FamilyExists(db, project, a.linkedRuleId.value) then !RetiredBy(db, project, a.linkedRuleId.value, joint)
      else a.occurredAt >= cutoff
  }

  lemma {:induction false} DropsRows(db: Db, project: string, ruleIds: seq<string>)
    requires DropFamilies(db, project, ruleIds).Ok?
    ensures var b := DropFamilies(db, project, ruleIds).value;
            forall a :: a in b.audit <==> a in db.audit && !(a.project == project && a.linkedRuleId.Some? && a.linkedRuleId.value in ruleIds)
    decreases |ruleIds|
  {
    if ruleIds != [] {
      DropsRows(DropFamily(db, project, ruleIds[0]), project, ruleIds[1..]);
      assert forall id :: id in ruleIds <==> id == ruleIds[0] || id in ruleIds[1..];
    }
  }

  lemma ExplainsIff(a: AuditRow, db: Db)
    ensures Explains(a, db) <==> a.linkedRuleId.Some? && FamilyExists(db, a.project, a.linkedRuleId.value)
  {
    if a.linkedRuleId.Some? {
      var h := History(db, a.project, a.linkedRuleId.value);
      if h != [] {
        assert h[0] in h;
        var i :| 0 <= i < |db.rules| && db.rules[i] == h[0];
      }
      if i :| 0 <= i < |db.rules| && InFamily(db.rules[i], a.project, a.linkedRuleId.value) { assert db.rules[i] in h; }
    }
  }

  /** The row that records a cleanup. */
  function CleanupRow(db: Db, project: string, now: int): AuditRow {
    AuditRow(db.lastAuditId + 1, project, now, None, None, None, RetentionRun)
  }

  lemma PrunedRows(db: Db, project: string, cutoff: int, now: int, hadAudit: nat, hadRules: nat)
    ensures var b := PruneAudit(db, project, cutoff, now, hadAudit, hadRules);
            forall a :: a != CleanupRow(db, project, now) ==> (a in b.audit <==> a in db.audit && !ExpiredAudit(a, db, project, cutoff))
  {}

  /**
   Lifecycle cleanup keeps an audit row of the project exactly when the family it belongs to is kept or, where no family
   of that id exists, when it is within the audit's own days; rows of other projects all stay; and the only row it adds
   is the one that records it.
   */
  lemma AuditPruningIsExact(db: Db, project: string, auditDays: int, ruleDays: int, now: int)
    requires RuleHistory.Inv(db) && CleanupLifecycle(db, project, auditDays, ruleDays, now).Ok?
    ensures var b := CleanupLifecycle(db, project, auditDays, ruleDays, now).value;
            var joint := JointCutoff(auditDays, ruleDays, now);
            forall a :: a != CleanupRow(db, project, now) ==>
              (a in b.audit <==> a in db.audit && AuditStays(a, db, project, joint, DaysBefore(now, auditDays)))
  {
    var joint := JointCutoff(auditDays, ruleDays, now);
    var dropped := DropRetired(db, project, joint).value;
    DropsRows(db, project, RetiredFamilies(db, project, joint));
    RetiredDropExactly(db, project, joint);
    PrunedRows(dropped, project, DaysBefore(now, auditDays), now, |db.audit|, |db.rules|);
    DropKeepsIds(db, project, RetiredFamilies(db, project, joint));
    forall a | a in db.audit
      ensures a in dropped.audit && !ExpiredAudit(a, dropped, project, DaysBefore(now, auditDays))
         <==> AuditStays(a, db, project, joint, DaysBefore(now, auditDays))
    {
      if a.project == project { RowStays(db, dropped, a, project, joint, DaysBefore(now, auditDays)); }
    }
  }

  lemma RowStays(db: Db, dropped: Db, a: AuditRow, project: string, joint: int, cutoff: int)
    requires RuleHistory.Inv(db) && a in db.audit && a.project == project
    requires forall x :: x in dropped.audit <==>
               x in db.audit && !(x.project == project && x.linkedRuleId.Some? && x.linkedRuleId.value in RetiredFamilies(db, project, joint))
    requires forall p, id :: History(dropped, p, id) == if p == project && RetiredBy(db, p, id, joint) then [] else History(db, p, id)
    ensures a in dropped.audit && !ExpiredAudit(a, dropped, project, cutoff) <==> AuditStays(a, db, project, joint, cutoff)
  {
    ExplainsIff(a, dropped);
    if a.linkedRuleId.Some? {
      var id := a.linkedRuleId.value;
      RetiredIsListed(db, project, id, joint);
      if RetiredBy(db, project, id, joint) { assert Current(db, project, id).value in History(db, project, id); }
    }
  }

  lemma {:induction false} DropKeepsIds(db: Db, project: string, ruleIds: seq<string>)
    requires DropFamilies(db, project, ruleIds).Ok?
    ensures DropFamilies(db, project, ruleIds).value.lastAuditId == db.lastAuditId
    decreases |ruleIds|
  {
    if ruleIds != [] { DropKeepsIds(DropFamily(db, project, ruleIds[0]), project, ruleIds[1..]); }
  }
}
