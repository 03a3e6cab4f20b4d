/** What a committed `pass` means over the whole history of the store. */
module PassHistory {
  import opened Rows
  import opened EvidenceSelector
  import opened GovernanceDb
  import opened ShadowEvaluator
  import EventHistory
  import RuleHistory

  function At(steps: seq<Step>, k: nat): Db
    requires k <= |steps|
  {
    RuleHistory.At(steps, k)
  }

  lemma AtSplit(steps: seq<Step>, k: nat, n: nat)
    requires k <= n <= |steps|
    ensures At(steps, n) == RunSteps(At(steps, k), steps[k..n]) && EventHistory.Inv(At(steps, k))
  {
    assert steps[..n] == steps[..k] + steps[k..n];
    RunConcat(EMPTY, steps[..k], steps[k..n]);
    EventHistory.HistoryKeepsInv(EMPTY, steps[..k]);
  }

  // --- watermarks carry the sequence of the moment they were written -----------------------------------

  ghost predicate NoNewMark(a: Db, b: Db) {
    forall x :: x in b.audit && x !in a.audit ==> !x.entry.RuleWatermark?
  }

  lemma {:induction false} CleanupAddsNoMark(db: Db, projects: seq<string>, r: Retention, now: int)
    ensures var c := CleanupProjects(db, projects, r, now); c.Ok? ==> NoNewMark(db, c.value)
    decreases |projects|
  {
    if projects != [] && ValidDays(DaysFor(db, projects[0], r)) {
      var next := CleanupOneAddsNoMark(db, projects[0], DaysBefore(now, DaysFor(db, projects[0], r)), now);
      CleanupAddsNoMark(next, projects[1..], r, now);
    }
  }

  lemma CleanupOneAddsNoMark(db: Db, project: string, cutoff: int, now: int) returns (next: Db)
    ensures next == CleanupProject(db, project, cutoff, now) && NoNewMark(db, next)
  {
    next := CleanupProject(db, project, cutoff, now);
  }

  lemma {:induction false} DropAddsNoAudit(db: Db, project: string, ruleIds: seq<string>)
    ensures var r := DropFamilies(db, project, ruleIds); r.Ok? ==> forall x :: x in r.value.audit ==> x in db.audit
    decreases |ruleIds|
  {
    if ruleIds != [] { DropAddsNoAudit(DropFamily(db, project, ruleIds[0]), project, ruleIds[1..]); }
  }

  lemma LifecycleAddsNoMark(db: Db, project: string, auditDays: int, ruleDays: int, now: int)
    ensures var r := CleanupLifecycle(db, project, auditDays, ruleDays, now); r.Ok? ==> NoNewMark(db, r.value)
  {
    var joint := if auditDays > ruleDays then auditDays else ruleDays;
    DropAddsNoAudit(db, project, RetiredFamilies(db, project, DaysBefore(now, joint)));
  }

  lemma {:induction false} EnsureMarksWith(db: Db, project: string, at: int, s: Sequence, existing: seq<AuditRow>, keys: seq<RuleKey>)
    ensures var r := EnsureAll(db, project, at, s, existing, keys);
            r.Ok? ==> forall x :: x in r.value.audit && x !in db.audit ==>
                        x.project == project && x.entry.RuleWatermark? && x.entry.sequence == s
    decreases |keys|
  {
    if keys != [] {
      var one := EnsureOne(db, project, at, s, existing, keys[0]);
      if one.Ok? { EnsureMarksWith(one.value, project, at, s, existing, keys[1..]); }
    }
  }

  lemma RecordAddsNoMark(db: Db, input: RecordInput)
    ensures NoNewMark(db, Apply(db, RecordStep(input)))
  {
    RuleHistory.IncidentsAreNotMarks(input.runs, input.event, db.lastEventSeq + 1, db.lastAuditId + 1);
  }

  /** Only the marking transaction writes a watermark, and it writes the sequence it reads. */
  lemma NewMark(db: Db, s: Step, a: AuditRow)
    requires a in Apply(db, s).audit && a !in db.audit && a.entry.RuleWatermark?
    ensures a.entry.sequence == ShadowSequence(db, a.project)
  {
    if s.EnsureStep? {
      EnsureMarksWith(db, s.project, s.at, ShadowSequence(db, s.project), WatermarkRows(db, s.project), s.keys);
    } else {
      OthersAddNoMark(db, s);
    }
  }

  /** Only the marking transaction writes a watermark. */
  lemma OthersAddNoMark(db: Db, s: Step)
    requires !s.EnsureStep?
    ensures forall a :: a in Apply(db, s).audit && a !in db.audit ==> !a.entry.RuleWatermark?
  {
    match s
    case RecordStep(input) => RecordAddsNoMark(db, input);
    case EvidenceCleanupStep(projects, r, now) => CleanupAddsNoMark(db, projects, r, now);
    case LifecycleCleanupStep(project, auditDays, ruleDays, now) => LifecycleAddsNoMark(db, project, auditDays, ruleDays, now);
    case _ => RuleStepsAddNoMark(db, s);
  }

  lemma RuleStepsAddNoMark(db: Db, s: Step)
    requires s.CreateStep? || s.RevisionStep? || s.VerdictStep?
    ensures forall a :: a in Apply(db, s).audit && a !in db.audit ==> !a.entry.RuleWatermark?
  {}

  /** The transaction that wrote an audit row. */
  lemma {:induction false} Written(steps: seq<Step>, n: nat, a: AuditRow) returns (k: nat)
    requires n <= |steps| && a in At(steps, n).audit
    ensures k < n && a !in At(steps, k).audit && a in At(steps, k + 1).audit
    decreases n
  {
    if a in At(steps, n - 1).audit {
      k := Written(steps, n - 1, a);
    } else {
      k := n - 1;
    }
  }

  /**
   A run numbered above a watermark was recorded strictly after the watermark was written, whatever was
   deleted in between: when transaction `k` wrote the mark, no event number that high had been issued.
   */
  lemma RunAboveMark(steps: seq<Step>, n: nat, a: AuditRow, r: RunRow, k: nat)
    requires k < n <= |steps| && r in At(steps, n).runs && a.entry.RuleWatermark?
    requires a !in At(steps, k).audit && a in At(steps, k + 1).audit
    requires r.project == a.project && r.run.eventSeq > a.entry.sequence.eventSeq
    ensures At(steps, k).lastEventSeq < r.run.eventSeq
    ensures forall e :: e in At(steps, k).events ==> e.eventSeq < r.run.eventSeq
  {
    RuleHistory.AtNext(steps, k);
    NewMark(At(steps, k), steps[k], a);
    AtSplit(steps, k, n);
    EventHistory.RunAboveIsLater(At(steps, k), steps[k..n], r);
  }

  // --- the snapshot's view ------------------------------------------------------------------------------

  /** The mark of a rule revision was written by some earlier transaction, and the run recorded after it. */
  ghost predicate RecordedAfterMark(steps: seq<Step>, n: nat, rule: Rule, r: RunRow)
    requires n <= |steps|
  {
    exists k: nat, a ::
      && k < n && a !in At(steps, k).audit && a in At(steps, k + 1).audit
      && Marks(a, rule.ruleId, rule.revision) && a.project == r.project && a.entry.sequence.eventSeq == rule.watermark
      && At(steps, k).lastEventSeq < r.run.eventSeq
  }

  /** Where a snapshot's watermark comes from. */
  lemma SnapshotMark(db: Db, project: string, session: string, config: GateConfig, s: Snapshot, i: nat) returns (a: AuditRow)
    requires ReadSnapshot(db, project, session, config) == Ok(s) && i < |s.rules| && s.rules[i].watermark.Some?
    ensures a in db.audit && a.project == project && Marks(a, s.rules[i].row.ruleId, s.rules[i].row.revision)
    ensures Some(a.entry.sequence) == s.rules[i].watermark
  {
    var rows := WatermarkRows(db, project);
    var r := ActiveRules(db, project)[i];
    var matching := WatermarksOf(rows, r.ruleId, r.revision);
    a := matching[0];
    assert a in matching && a in rows;
  }

  /** A snapshot run is a stored run of the same project, session and configuration. */
  lemma SnapshotRun(db: Db, project: string, session: string, config: GateConfig, s: Snapshot, run: GateRun) returns (r: RunRow)
    requires ReadSnapshot(db, project, session, config) == Ok(s) && run in s.runs
    ensures r in db.runs && r.project == project && r.session == session && r.run == run && run.config == config
  {
    var rows := SessionRuns(db, project, session, config);
    var i :| 0 <= i < |s.runs| && s.runs[i] == run;
    r := rows[i];
    assert r in rows;
  }

  lemma ProofIsAfterMarks(steps: seq<Step>, n: nat, project: string, session: string, config: GateConfig,
                          s: Snapshot, sel: Selection, env: Environment, g: string, r: RunRow)
    requires n <= |steps| && ReadSnapshot(At(steps, n), project, session, config) == Ok(s) && AllMarked(s)
    requires IsSelection(sel, RulesOf(s), config.pathRules, s.events)
    requires r in At(steps, n).runs && r.project == project && Proves(r.run, g, s, sel, config, env)
    ensures forall i :: 0 <= i < |sel.applicable| ==> RecordedAfterMark(steps, n, sel.applicable[i], r)
  {
    forall i | 0 <= i < |sel.applicable| ensures RecordedAfterMark(steps, n, sel.applicable[i], r) {
      assert sel.applicable[i] in sel.applicable;
      var j :| 0 <= j < |RulesOf(s)| && RulesOf(s)[j] == sel.applicable[i];
      var a := SnapshotMark(At(steps, n), project, session, config, s, j);
      var k := Written(steps, n, a);
      RunAboveMark(steps, n, a, r, k);
    }
  }

  /** No event of the session at the commit, later than the run, touches the gate's paths. */
  ghost predicate NothingRelevantSince(db: Db, s: Snapshot, r: RunRow, relevant: seq<string>) {
    forall e :: e in db.events && e.project == s.project && e.session == s.session && e.eventSeq > r.run.eventSeq ==>
      !MutationIntersects(ToMutationEvent(e), relevant)
  }

  /** The evidence behind one gate of a committed pass. */
  ghost predicate GateHolds(steps: seq<Step>, n: nat, m: nat, s: Snapshot, sel: Selection, config: GateConfig, env: Environment, g: string)
    requires n <= |steps| && m <= |steps|
  {
    g in sel.relevant && exists r ::
      && r in At(steps, n).runs && r.project == s.project && r.session == s.session
      && LatestProof(r.run, g, s, sel, config, env)
      && (forall i :: 0 <= i < |sel.applicable| ==> RecordedAfterMark(steps, n, sel.applicable[i], r))
      && NothingRelevantSince(At(steps, m), s, r, sel.relevant[g])
  }

  /** What the sequence re-check buys: between the read and the commit no surviving event and no mutation is new. */
  lemma CommitSawEverything(steps: seq<Step>, n: nat, m: nat, project: string, session: string, config: GateConfig, s: Snapshot, v: VerdictInput)
    requires n <= m <= |steps| && ReadSnapshot(At(steps, n), project, session, config) == Ok(s)
    requires v.project == project && v.evaluatedThrough == s.sequence && PersistVerdict(At(steps, m), v).1.Persisted?
    ensures forall e :: e in At(steps, m).events && e.project == project ==> e in At(steps, n).events
    ensures EventHistory.TotalMutations(At(steps, n), steps[n..m], project) == 0
  {
    AtSplit(steps, n, m);
    EventHistory.UnchangedSequence(At(steps, n), steps[n..m], project);
  }

  /** Everything a `pass` stands for, with its snapshot read after `n` transactions and its verdict committed after `m`. */
  ghost predicate PassStands(steps: seq<Step>, n: nat, m: nat, s: Snapshot, sel: Selection, config: GateConfig, env: Environment, v: VerdictInput)
    requires n <= m <= |steps|
  {
    && sel.applicable != [] && v.required != []
    && (forall g :: g in v.required ==> GateHolds(steps, n, m, s, sel, config, env, g))
    && (forall e :: e in At(steps, m).events && e.project == s.project ==> e in At(steps, n).events)
    && EventHistory.TotalMutations(At(steps, n), steps[n..m], s.project) == 0
  }

  /**
   A committed `pass`. With the snapshot read after `n` transactions and the verdict committed after `m`, in any
   interleaving with recorders, rule changes, other evaluators and retention: some rule applied, some gate was
   required, and each required gate had its newest run of this session and configuration fresh, recorded after
   the mark of every applicable rule revision, with nothing relevant since, not even at the commit; and
   neither a surviving event nor an uncorrelated mutation of the project came between read and commit.
   */
  lemma PassMeansHistory(steps: seq<Step>, n: nat, m: nat, project: string, session: string, config: GateConfig,
                         s: Snapshot, sel: Selection, env: Environment, v: VerdictInput)
    requires n <= m <= |steps|
    requires ReadSnapshot(At(steps, n), project, session, config) == Ok(s) && AllMarked(s)
    requires IsSelection(sel, RulesOf(s), config.pathRules, s.events) && IsVerdict(v, s, sel, config, env)
    requires v.result == Pass && PersistVerdict(At(steps, m), v).1.Persisted?
    ensures PassStands(steps, n, m, s, sel, config, env, v)
  {
    CommitSawEverything(steps, n, m, project, session, config, s, v);
    PassMeansProofs(v, s, sel, config, env);
    forall g | g in v.required ensures GateHolds(steps, n, m, s, sel, config, env, g) {
      var run :| LatestProof(run, g, s, sel, config, env);
      var r := SnapshotRun(At(steps, n), project, session, config, s, run);
      ProofIsAfterMarks(steps, n, project, session, config, s, sel, env, g, r);
      ProofHoldsAtCommit(steps, n, m, project, session, config, s, sel, env, g, r);
    }
  }

  lemma ProofHoldsAtCommit(steps: seq<Step>, n: nat, m: nat, project: string, session: string, config: GateConfig,
                           s: Snapshot, sel: Selection, env: Environment, g: string, r: RunRow)
    requires n <= m <= |steps| && ReadSnapshot(At(steps, n), project, session, config) == Ok(s)
    requires Proves(r.run, g, s, sel, config, env)
    requires forall e :: e in At(steps, m).events && e.project == project ==> e in At(steps, n).events
    ensures NothingRelevantSince(At(steps, m), s, r, sel.relevant[g])
  {
    forall e | e in At(steps, m).events && e.project == s.project && e.session == s.session && e.eventSeq > r.run.eventSeq
      ensures !MutationIntersects(ToMutationEvent(e), sel.relevant[g])
    {
      var i :| 0 <= i < |s.events| && s.events[i] == ToMutationEvent(e);
    }
  }
}
