/** The store as the processes use it: tables updated in place, one transaction per method. */
module GovernanceStore {
  import opened Rows
  import opened EvidenceSelector
  import opened GovernanceDb

  lemma Extend(steps: seq<Step>, s: Step)
    ensures RunSteps(EMPTY, steps + [s]) == Apply(RunSteps(EMPTY, steps), s)
  {
    RunConcat(EMPTY, steps, [s]);
    RunOne(RunSteps(EMPTY, steps), s);
  }

  /** An earlier run is of the same gate. */
  predicate RepeatsGate(runs: seq<GateRun>, k: nat)
    requires k < |runs|
  {
    exists j :: 0 <= j < k && runs[j].gateId == runs[k].gateId
  }

  lemma RepeatIsNotDistinct(runs: seq<GateRun>, k: nat)
    requires k < |runs| && RepeatsGate(runs, k)
    ensures !DistinctGates(runs)
  {}

  lemma NoRepeatIsDistinct(runs: seq<GateRun>)
    requires forall k :: 0 <= k < |runs| ==> !RepeatsGate(runs, k)
    ensures DistinctGates(runs)
  {
    forall i, j | 0 <= i < j < |runs| ensures runs[i].gateId != runs[j].gateId { assert !RepeatsGate(runs, j); }
  }

  lemma StoredOneMore(runs: seq<GateRun>, k: nat, e: EventInput, eventSeq: nat, mutationSeq: nat)
    requires k < |runs|
    ensures StoredRuns(runs[..k + 1], e, eventSeq, mutationSeq)
         == StoredRuns(runs[..k], e, eventSeq, mutationSeq) + [StoredRun(runs[k], e, eventSeq, mutationSeq)]
  {}

  lemma IncidentsOneMore(audit: seq<AuditRow>, runs: seq<GateRun>, k: nat, e: EventInput, eventSeq: nat, nextId: nat)
    requires k < |runs|
    ensures var all := Incidents(runs[k..], e, eventSeq, nextId);
            if runs[k].capture == CaptureIncomplete then
              var rest := Incidents(runs[k + 1..], e, eventSeq, nextId + 1);
              audit + all == (audit + [IncidentRow(e, eventSeq, nextId)]) + rest && |all| == 1 + |rest|
            else all == Incidents(runs[k + 1..], e, eventSeq, nextId)
  {
    assert runs[k..][0] == runs[k] && runs[k..][1..] == runs[k + 1..];
  }

  class Store {
    var events: seq<EventRow>
    var lastEventSeq: nat
    var runs: seq<RunRow>
    var mutation: map<string, nat>
    var evidenceDays: map<string, nat>
    var rules: seq<RuleRow>
    var lastMemoryId: nat
    var audit: seq<AuditRow>
    var lastAuditId: nat
    /** Every transaction begun so far, in commit order. */
    ghost var log: seq<Step>

    function State(): Db
      reads this
    {
      Db(events, lastEventSeq, runs, mutation, evidenceDays, rules, lastMemoryId, audit, lastAuditId)
    }

    ghost predicate Valid()
      reads this
    {
      State() == RunSteps(EMPTY, log)
    }

    constructor ()
      ensures Valid() && log == [] && State() == EMPTY
    {
      events, lastEventSeq, runs, mutation, evidenceDays := [], 0, [], map[], map[];
      rules, lastMemoryId, audit, lastAuditId, log := [], 0, [], 0, [];
    }

    method Rollback(saved: Db)
      modifies this
      ensures State() == saved && log == old(log)
    {
      events, lastEventSeq, runs, mutation, evidenceDays :=
        saved.events, saved.lastEventSeq, saved.runs, saved.mutation, saved.evidenceDays;
      rules, lastMemoryId, audit, lastAuditId := saved.rules, saved.lastMemoryId, saved.audit, saved.lastAuditId;
    }

    /** One audit row under the next id. */
    method InsertAudit(project: string, at: int, ruleId: Option<string>, memoryId: Option<nat>, eventSeq: Option<nat>, entry: Entry)
      modifies this`audit, this`lastAuditId
      ensures lastAuditId == old(lastAuditId) + 1
      ensures audit == old(audit) + [AuditRow(lastAuditId, project, at, ruleId, memoryId, eventSeq, entry)]
    {
      lastAuditId := lastAuditId + 1;
      audit := audit + [AuditRow(lastAuditId, project, at, ruleId, memoryId, eventSeq, entry)];
    }

    /** One run row, with an incident when its capture is incomplete. */
    method InsertRun(run: GateRun, e: EventInput, eventSeq: nat, mutationSeq: nat)
      modifies this`runs, this`audit, this`lastAuditId
      ensures runs == old(runs) + [StoredRun(run, e, eventSeq, mutationSeq)]
      ensures if run.capture == CaptureIncomplete then
                lastAuditId == old(lastAuditId) + 1 && audit == old(audit) + [IncidentRow(e, eventSeq, lastAuditId)]
              else lastAuditId == old(lastAuditId) && audit == old(audit)
    {
      runs := runs + [StoredRun(run, e, eventSeq, mutationSeq)];
      if run.capture == CaptureIncomplete { InsertAudit(e.project, e.receivedAt, None, None, Some(eventSeq), Incident); }
    }

    /** The run rows and incidents of a new event; stops at a gate that already has a run for it. */
    method InsertRuns(input: RecordInput, eventSeq: nat, mutationSeq: nat) returns (ok: bool)
      modifies this`runs, this`audit, this`lastAuditId
      ensures ok == DistinctGates(input.runs)
      ensures ok ==> runs == old(runs) + StoredRuns(input.runs, input.event, eventSeq, mutationSeq)
      ensures ok ==> var incidents := Incidents(input.runs, input.event, eventSeq, old(lastAuditId) + 1);
                     audit == old(audit) + incidents && lastAuditId == old(lastAuditId) + |incidents|
    {
      var e := input.event;
      ghost var all := Incidents(input.runs, e, eventSeq, lastAuditId + 1);
      ghost var rows, last := audit + all, lastAuditId + |all|;
      assert input.runs[0..] == input.runs;
      for k := 0 to |input.runs|
        invariant forall i :: 0 <= i < k ==> !RepeatsGate(input.runs, i)
        invariant runs == old(runs) + StoredRuns(input.runs[..k], e, eventSeq, mutationSeq)
        invariant audit + Incidents(input.runs[k..], e, eventSeq, lastAuditId + 1) == rows
        invariant lastAuditId + |Incidents(input.runs[k..], e, eventSeq, lastAuditId + 1)| == last
      {
        if RepeatsGate(input.runs, k) {
          RepeatIsNotDistinct(input.runs, k);
          return false;
        }
        StoredOneMore(input.runs, k, e, eventSeq, mutationSeq);
        IncidentsOneMore(audit, input.runs, k, e, eventSeq, lastAuditId + 1);
        InsertRun(input.runs[k], e, eventSeq, mutationSeq);
      }
      assert input.runs[..|input.runs|] == input.runs;
      NoRepeatIsDistinct(input.runs);
      if !e.captured { InsertAudit(e.project, e.receivedAt, None, None, Some(eventSeq), Incident); }
      ok := true;
    }

    /** The event row under the next order number, with its runs and incidents. */
    method InsertEvent(input: RecordInput, mutationSeq: nat) returns (ok: bool)
      modifies this`events, this`lastEventSeq, this`runs, this`audit, this`lastAuditId
      ensures lastEventSeq == old(lastEventSeq) + 1 && ok == DistinctGates(input.runs)
      ensures events == old(events) + [RowFor(input.event, lastEventSeq, mutationSeq)]
      ensures ok ==> runs == old(runs) + StoredRuns(input.runs, input.event, lastEventSeq, mutationSeq)
      ensures ok ==> var incidents := Incidents(input.runs, input.event, lastEventSeq, old(lastAuditId) + 1);
                     audit == old(audit) + incidents && lastAuditId == old(lastAuditId) + |incidents|
    {
      lastEventSeq := lastEventSeq + 1;
      events := events + [RowFor(input.event, lastEventSeq, mutationSeq)];
      ok := InsertRuns(input, lastEventSeq, mutationSeq);
    }

    method RecordInTransaction(input: RecordInput) returns (r: Result<RecordResult, Fault>)
      modifies this`events, this`lastEventSeq, this`runs, this`mutation, this`evidenceDays, this`audit, this`lastAuditId
      ensures var spec := Record(old(State()), input);
              if spec.Ok? then r == Ok(spec.value.1) && State() == spec.value.0 else r == Err(spec.error)
    {
      var e, saved := input.event, State();
      var duplicate := DedupedEvent(saved, e);
      var current, increments := CurrentMutationSequence(saved, e.project), Increments(saved, e);
      if !ValidDays(input.evidenceDays) { return Err(BoundExceeded); }
      evidenceDays := evidenceDays[e.project := input.evidenceDays];
      if duplicate.Some? { return Ok(RecordResult(true, duplicate.value.eventSeq, duplicate.value.mutationSeq)); }
      r := RecordNew(input, if increments then current + 1 else current, increments);
    }

    /** A delivery not stored yet: the mutation number, and the rows under the next order number. */
    method RecordNew(input: RecordInput, mutationSeq: nat, increments: bool) returns (r: Result<RecordResult, Fault>)
      modifies this`events, this`lastEventSeq, this`runs, this`mutation, this`audit, this`lastAuditId
      ensures r == if DistinctGates(input.runs) then Ok(RecordResult(false, old(lastEventSeq) + 1, mutationSeq)) else Err(AuditWriteFailed)
      ensures r.Ok? ==> State() == WithEvent(old(State()), input, mutationSeq, increments)
    {
      if increments { mutation := mutation[input.event.project := mutationSeq]; }
      var ok := InsertEvent(input, mutationSeq);
      r := if ok then Ok(RecordResult(false, lastEventSeq, mutationSeq)) else Err(AuditWriteFailed);
    }

    /** Order number and mutation number in one transaction with the event row, its runs and their incidents. */
    method RecordToolEvent(input: RecordInput) returns (r: Result<RecordResult, Fault>)
      requires Valid()
      modifies this
      ensures Valid() && log == old(log) + [RecordStep(input)]
      ensures var spec := Record(old(State()), input);
              if spec.Ok? then r == Ok(spec.value.1) else r == Err(spec.error) && State() == old(State())
    {
      var saved := State();
      Extend(log, RecordStep(input));
      log := log + [RecordStep(input)];
      r := RecordInTransaction(input);
      if r.Err? { Rollback(saved); }
    }

    /** Insert the new revision, supersede the row it was computed from, audit both; a lost race rolls back. */
    method InsertRuleRevision(p: Revision) returns (ok: bool)
      requires Valid()
      modifies this
      ensures Valid() && log == old(log) + [RevisionStep(p)]
      ensures ok == InsertRevision(old(State()), p).Ok? && (!ok ==> State() == old(State()))
    {
      var saved := State();
      Extend(log, RevisionStep(p));
      log := log + [RevisionStep(p)];
      ok := InsertAndSupersede(p);
      if !ok { Rollback(saved); }
    }

    method InsertAndSupersede(p: Revision) returns (ok: bool)
      modifies this`rules, this`lastMemoryId, this`audit, this`lastAuditId
      ensures ok == InsertRevision(old(State()), p).Ok?
      ensures ok ==> State() == InsertRevision(old(State()), p).value
    {
      lastMemoryId := lastMemoryId + 1;
      ok := SupersedeOld(p);
      if !ok { return; }
      rules := rules + [RevisionRow(p, lastMemoryId)];
      InsertAudit(p.project, p.at, Some(p.ruleId), Some(lastMemoryId), None, RuleChange(p.revision, p.status));
    }

    /** Point the row the revision was computed from at the new one; fails if it is already superseded. */
    method SupersedeOld(p: Revision) returns (ok: bool)
      modifies this`rules
      ensures ok == (p.supersedes.Some? ==> Find(CurrentAt(p.supersedes.value), old(rules)).Some?)
      ensures ok ==> rules == if p.supersedes.Some? then Map(Supersede(p.supersedes.value, lastMemoryId), old(rules)) else old(rules)
    {
      if p.supersedes.Some? {
        if Find(CurrentAt(p.supersedes.value), rules).None? { return false; }
        rules := Map(Supersede(p.supersedes.value, lastMemoryId), rules);
      }
      ok := true;
    }

    method CreateRule(project: string, ruleId: string, content: RuleContent, at: int) returns (ok: bool)
      requires Valid()
      modifies this
      ensures Valid() && log == old(log) + [CreateStep(project, ruleId, content, at)]
      ensures ok == (History(old(State()), project, ruleId) == []) && (!ok ==> State() == old(State()))
    {
      Extend(log, CreateStep(project, ruleId, content, at));
      log := log + [CreateStep(project, ruleId, content, at)];
      if History(State(), project, ruleId) != [] { return false; }
      ok := InsertAndSupersede(Revision(project, ruleId, 1, Active, content, None, at));
    }

    /** Keep a rule's mark, or write its first one; nothing for a rule that is gone. */
    method MarkRule(project: string, at: int, sequence: Sequence, existing: seq<AuditRow>, key: RuleKey) returns (ok: bool)
      modifies this`audit, this`lastAuditId
      ensures var spec := EnsureOne(old(State()), project, at, sequence, existing, key);
              if spec.Ok? then ok && State() == spec.value else !ok && spec.error == EvidenceMalformed
    {
      var matching := WatermarksOf(existing, key.ruleId, key.revision);
      if |matching| > 1 { return false; }
      if |matching| == 0 && exists i :: 0 <= i < |rules| && IsCurrentRevision(rules[i], project, key) {
        InsertAudit(project, at, Some(key.ruleId), Some(key.memoryId), None, RuleWatermark(key.revision, sequence));
      }
      ok := true;
    }

    method MarkRules(project: string, at: int, sequence: Sequence, existing: seq<AuditRow>, keys: seq<RuleKey>)
      returns (ok: bool, refresh: bool)
      modifies this`audit, this`lastAuditId
      ensures var spec := EnsureAll(old(State()), project, at, sequence, existing, keys);
              if spec.Ok? then ok && State() == spec.value else !ok && spec.error == EvidenceMalformed
      ensures ok ==> refresh == exists i :: 0 <= i < |keys| && WatermarksOf(existing, keys[i].ruleId, keys[i].revision) == []
    {
      ghost var target := EnsureAll(State(), project, at, sequence, existing, keys);
      refresh := false;
      assert keys[0..] == keys;
      for k := 0 to |keys|
        invariant EnsureAll(State(), project, at, sequence, existing, keys[k..]) == target
        invariant refresh <==> exists i :: 0 <= i < k && WatermarksOf(existing, keys[i].ruleId, keys[i].revision) == []
      {
        assert keys[k..][0] == keys[k] && keys[k..][1..] == keys[k + 1..];
        if WatermarksOf(existing, keys[k].ruleId, keys[k].revision) == [] { refresh := true; }
        ok := MarkRule(project, at, sequence, existing, keys[k]);
        if !ok { return; }
      }
      ok := true;
    }

    /** One watermark per rule revision that has none, all at one sequence; `refresh` when some rule had none. */
    method EnsureRuleWatermarks(project: string, at: int, keys: seq<RuleKey>) returns (r: Result<bool, Fault>)
      requires Valid()
      modifies this
      ensures Valid() && log == old(log) + [EnsureStep(project, at, keys)]
      ensures var spec := EnsureWatermarks(old(State()), project, at, keys);
              if spec.Ok? then r == Ok(RequiresRefresh(old(State()), project, keys)) && State() == spec.value
              else r == Err(spec.error) && State() == old(State())
    {
      var saved := State();
      Extend(log, EnsureStep(project, at, keys));
      log := log + [EnsureStep(project, at, keys)];
      var existing, sequence := WatermarkRows(saved, project), ShadowSequence(saved, project);
      if |keys| > ACTIVE_RULES || |existing| > 2 * ACTIVE_RULES { return Err(BoundExceeded); }
      if !DistinctRevisions(keys) { return Err(RuleMalformed); }
      var ok, refresh := MarkRules(project, at, sequence, existing, keys);
      if !ok {
        Rollback(saved);
        return Err(EvidenceMalformed);
      }
      r := Ok(refresh);
    }

    /** The audit row of a verdict, unless a foreign key rejects it. */
    method InsertVerdict(v: VerdictInput) returns (ok: bool)
      modifies this`audit, this`lastAuditId
      ensures ok == !VerdictDangles(old(State()), v)
      ensures ok ==> audit == old(audit) + [VerdictRow(v, lastAuditId)] && lastAuditId == old(lastAuditId) + 1
      ensures !ok ==> audit == old(audit) && lastAuditId == old(lastAuditId)
    {
      var rule, evidence := SoleRule(v), SoleEvidence(v);
      if rule.Some? && !exists i :: 0 <= i < |rules| && rules[i].memoryId == rule.value.memoryId { return false; }
      if evidence.Some? && !exists i :: 0 <= i < |events| && events[i].eventSeq == evidence.value { return false; }
      InsertAudit(v.project, v.occurredAt, if rule.Some? then Some(rule.value.ruleId) else None,
        if rule.Some? then Some(rule.value.memoryId) else None, evidence, StopVerdict(v));
      ok := true;
    }

    /** The sequence check and the audit insert, in one transaction. */
    method PersistShadowVerdict(v: VerdictInput) returns (r: PersistResult)
      requires Valid()
      modifies this
      ensures Valid() && log == old(log) + [VerdictStep(v)]
      ensures r == PersistVerdict(old(State()), v).1 && (!r.Persisted? ==> State() == old(State()))
    {
      Extend(log, VerdictStep(v));
      log := log + [VerdictStep(v)];
      if !ValidVerdict(v) { return NotPersisted(BoundExceeded); }
      if ShadowSequence(State(), v.project) != v.evaluatedThrough {
        return if v.retryCount == 0 then Retry else NotPersisted(ConcurrentMutation);
      }
      var ok := InsertVerdict(v);
      r := if ok then Persisted(lastAuditId) else NotPersisted(AuditWriteFailed);
    }

    /** Retention of one project: old runs first, then old events nothing refers to any more. */
    method DeleteExpired(project: string, cutoff: int, now: int) returns (runsDeleted: nat, eventsDeleted: nat)
      modifies this`runs, this`events, this`audit, this`lastAuditId
      ensures State() == CleanupProject(old(State()), project, cutoff, now)
      ensures runsDeleted == |old(runs)| - |runs| && eventsDeleted == |old(events)| - |events|
    {
      var hadRuns, hadEvents := |runs|, |events|;
      runs := Filter((r: RunRow) => !ExpiredRun(r, project, cutoff), runs);
      var pruned := State();
      events := Filter((e: EventRow) => !(e.project == project && e.createdAt < cutoff && !Referenced(pruned, e.eventSeq)), events);
      runsDeleted, eventsDeleted := hadRuns - |runs|, hadEvents - |events|;
      if runsDeleted > 0 || eventsDeleted > 0 { InsertAudit(project, now, None, None, None, RetentionRun); }
    }

    method DeleteAllExpired(projects: seq<string>, retention: Retention, now: int) returns (ok: bool, runsDeleted: nat, eventsDeleted: nat)
      modifies this`runs, this`events, this`audit, this`lastAuditId
      ensures var spec := CleanupProjects(old(State()), projects, retention, now); ok == spec.Ok? && (ok ==> State() == spec.value)
      ensures runsDeleted == |old(runs)| - |runs| && eventsDeleted == |old(events)| - |events|
    {
      ghost var target := CleanupProjects(State(), projects, retention, now);
      runsDeleted, eventsDeleted := 0, 0;
      assert projects[0..] == projects;
      for k := 0 to |projects|
        invariant CleanupProjects(State(), projects[k..], retention, now) == target
        invariant runsDeleted == |old(runs)| - |runs| && eventsDeleted == |old(events)| - |events|
      {
        assert projects[k..][0] == projects[k] && projects[k..][1..] == projects[k + 1..];
        var days := DaysFor(State(), projects[k], retention);
        if !ValidDays(days) { return false, runsDeleted, eventsDeleted; }
        var a, b := DeleteExpired(projects[k], DaysBefore(now, days), now);
        runsDeleted, eventsDeleted := runsDeleted + a, eventsDeleted + b;
      }
      ok := true;
    }

    method CleanupEvidence(projects: seq<string>, retention: Retention, now: int) returns (r: Result<(nat, nat), Fault>)
      requires Valid()
      modifies this
      ensures Valid() && log == old(log) + [EvidenceCleanupStep(projects, retention, now)]
      ensures r.Ok? <==> GovernanceDb.CleanupEvidence(old(State()), projects, retention, now).Ok?
      ensures r.Ok? ==> r.value == (|old(runs)| - |runs|, |old(events)| - |events|)
      ensures r.Err? ==> State() == old(State())
    {
      var saved := State();
      Extend(log, EvidenceCleanupStep(projects, retention, now));
      log := log + [EvidenceCleanupStep(projects, retention, now)];
      if !ValidDays(retention.defaultDays) { return Err(BoundExceeded); }
      r := CleanupInTransaction(projects, retention, now);
      if r.Err? { Rollback(saved); }
    }

    method CleanupInTransaction(projects: seq<string>, retention: Retention, now: int) returns (r: Result<(nat, nat), Fault>)
      requires ValidDays(retention.defaultDays)
      modifies this`runs, this`events, this`audit, this`lastAuditId
      ensures var spec := GovernanceDb.CleanupEvidence(old(State()), projects, retention, now);
              r.Ok? == spec.Ok? && (r.Ok? ==> State() == spec.value)
      ensures r.Ok? ==> r.value == (|old(runs)| - |runs|, |old(events)| - |events|)
    {
      var ok, runsDeleted, eventsDeleted := DeleteAllExpired(projects, retention, now);
      r := if ok then Ok((runsDeleted, eventsDeleted)) else Err(BoundExceeded);
    }

    /** Whole retired families with their audit rows; fails where an audit row would lose its rule. */
    method DeleteFamilies(project: string, ruleIds: seq<string>) returns (ok: bool)
      modifies this`rules, this`audit
      ensures var spec := DropFamilies(old(State()), project, ruleIds); ok == spec.Ok? && (ok ==> State() == spec.value)
    {
      var saved, k := State(), 0;
      assert ruleIds[0..] == ruleIds;
      while k < |ruleIds|
        invariant 0 <= k <= |ruleIds|
        invariant DropFamilies(State(), project, ruleIds[k..]) == DropFamilies(saved, project, ruleIds)
      {
        assert ruleIds[k..][0] == ruleIds[k] && ruleIds[k..][1..] == ruleIds[k + 1..];
        audit := Filter(Unlinked(project, ruleIds[k]), audit);
        rules := Filter(Outside(project, ruleIds[k]), rules);
        if !AuditKeysHold(State()) { return false; }
        k := k + 1;
      }
      ok := true;
    }

    method PruneAuditRows(project: string, cutoff: int, now: int, hadAudit: nat, hadRules: nat)
      modifies this`audit, this`lastAuditId
      ensures State() == PruneAudit(old(State()), project, cutoff, now, hadAudit, hadRules)
    {
      audit := Filter(KeepsAudit(State(), project, cutoff), audit);
      if |audit| != hadAudit || |rules| != hadRules { InsertAudit(project, now, None, None, None, RetentionRun); }
    }

    method ExpireLifecycle(project: string, auditDays: int, ruleDays: int, now: int) returns (ok: bool)
      modifies this`rules, this`audit, this`lastAuditId
      ensures var spec := GovernanceDb.CleanupLifecycle(old(State()), project, auditDays, ruleDays, now);
              ok == spec.Ok? && (ok ==> State() == spec.value)
    {
      if !(1 <= auditDays <= MAX_LIFECYCLE_DAYS && 1 <= ruleDays <= MAX_LIFECYCLE_DAYS) { return false; }
      var hadAudit, hadRules := |audit|, |rules|;
      var joint := if auditDays > ruleDays then auditDays else ruleDays;
      var retired := RetiredFamilies(State(), project, DaysBefore(now, joint));
      ok := DeleteFamilies(project, retired);
      if ok { PruneAuditRows(project, DaysBefore(now, auditDays), now, hadAudit, hadRules); }
    }

    method CleanupLifecycle(project: string, auditDays: int, ruleDays: int, now: int) returns (ok: bool)
      requires Valid()
      modifies this
      ensures Valid() && log == old(log) + [LifecycleCleanupStep(project, auditDays, ruleDays, now)]
      ensures ok == GovernanceDb.CleanupLifecycle(old(State()), project, auditDays, ruleDays, now).Ok?
      ensures !ok ==> State() == old(State())
    {
      var saved := State();
      Extend(log, LifecycleCleanupStep(project, auditDays, ruleDays, now));
      log := log + [LifecycleCleanupStep(project, auditDays, ruleDays, now)];
      ok := ExpireLifecycle(project, auditDays, ruleDays, now);
      if !ok { Rollback(saved); }
    }

    /** Transactions of other processes, in the order they commit. */
    method Others(steps: seq<Step>)
      requires Valid()
      modifies this
      ensures Valid() && log == old(log) + steps
      ensures State() == RunSteps(old(State()), steps)
    {
      for k := 0 to |steps|
        invariant Valid() && log == old(log) + steps[..k]
      {
        assert steps[..k + 1] == steps[..k] + [steps[k]];
        Transact(steps[k]);
      }
      assert steps[..|steps|] == steps;
      RunConcat(EMPTY, old(log), steps);
    }

    method Transact(s: Step)
      requires Valid()
      modifies this
      ensures Valid() && log == old(log) + [s]
    {
      match s
      case RecordStep(input) => var r := RecordToolEvent(input);
      case CreateStep(project, ruleId, content, at) => var ok := CreateRule(project, ruleId, content, at);
      case RevisionStep(p) => var ok := InsertRuleRevision(p);
      case EnsureStep(project, at, keys) => var r := EnsureRuleWatermarks(project, at, keys);
      case VerdictStep(v) => var r := PersistShadowVerdict(v);
      case EvidenceCleanupStep(projects, retention, now) => var r := CleanupEvidence(projects, retention, now);
      case LifecycleCleanupStep(project, auditDays, ruleDays, now) => var ok := CleanupLifecycle(project, auditDays, ruleDays, now);
    }
  }
}
