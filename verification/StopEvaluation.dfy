/** The Stop evaluator as a process on the shared store: prepare, attempt, commit, one retry. */
module StopEvaluation {
  import opened Rows
  import opened EvidenceSelector
  import opened GovernanceDb
  import opened ShadowEvaluator
  import opened Preparation
  import EventHistory
  import RuleHistory
  import GovernanceStore
  import PassHistory

  datatype Diagnostic = Committed(verdict: VerdictInput, auditId: nat) | Uncommitted(fault: Fault)

  /** A later log still knows what an earlier state was. */
  lemma Remembered(before: seq<Step>, after: seq<Step>, n: nat)
    requires n <= |before| && before <= after
    ensures PassHistory.At(after, n) == PassHistory.At(before, n)
  {
    assert after[..n] == before[..n];
  }

  lemma Now(log: seq<Step>)
    ensures PassHistory.At(log, |log|) == RunSteps(EMPTY, log)
  {
    assert log[..|log|] == log;
  }

  /** The log remembers the state a snapshot was read in. */
  ghost predicate ReadIn(log: seq<Step>, n: nat, project: string, session: string, config: GateConfig, s: Snapshot) {
    n <= |log| && ReadSnapshot(PassHistory.At(log, n), project, session, config) == Ok(s)
  }

  lemma StillReadIn(before: seq<Step>, after: seq<Step>, n: nat, project: string, session: string, config: GateConfig, s: Snapshot)
    requires ReadIn(before, n, project, session, config, s) && before <= after
    ensures ReadIn(after, n, project, session, config, s)
  {
    Remembered(before, after, n);
  }

  method Read(store: GovernanceStore.Store, project: string, session: string, config: GateConfig) returns (r: Result<Snapshot, Fault>)
    requires store.Valid()
    ensures r == ReadSnapshot(store.State(), project, session, config)
    ensures r.Ok? ==> ReadIn(store.log, |store.log|, project, session, config, r.value)
  {
    Now(store.log);
    r := ReadSnapshot(store.State(), project, session, config);
  }

  /** Mark the rules of an unmarked snapshot, and read again when the marking says so. */
  method MarkAndReread(store: GovernanceStore.Store, s: Snapshot, project: string, session: string, config: GateConfig, at: int,
                       env: Environment, others: Interference, ghost read: nat)
    returns (r: Result<Snapshot, Fault>, ghost n: nat)
    requires store.Valid() && ReadIn(store.log, read, project, session, config, s)
    modifies store
    ensures store.Valid() && old(store.log) <= store.log
    ensures Prepared(store.State(), r)
         == MarkThenReread(old(store.State()), s, project, session, config, at, env, others.beforeMarks, others.beforeReread)
    ensures r.Ok? ==> read <= n && ReadIn(store.log, n, project, session, config, r.value)
  {
    n := read;
    if env.expired(WatermarkStage) { return Err(DeadlineExceeded), n; }
    store.Others(others.beforeMarks);
    var refresh := store.EnsureRuleWatermarks(project, at, KeysOf(s));
    if refresh.Err? { return Err(refresh.error), n; }
    if !refresh.value {
      StillReadIn(old(store.log), store.log, read, project, session, config, s);
      return Ok(s), n;
    }
    if env.expired(RefreshStage) { return Err(DeadlineExceeded), n; }
    store.Others(others.beforeReread);
    r := Read(store, project, session, config);
    n := |store.log|;
  }

  /** Read, mark rules seen for the first time, and read again when that was needed. */
  method PreparedSnapshot(store: GovernanceStore.Store, project: string, session: string, config: GateConfig, at: int,
                          env: Environment, others: Interference)
    returns (r: Result<Snapshot, Fault>, ghost n: nat)
    requires store.Valid()
    modifies store
    ensures store.Valid() && old(store.log) <= store.log
    ensures Prepared(store.State(), r) == Prepare(old(store.State()), project, session, config, at, env, others)
    ensures r.Ok? ==> |old(store.log)| <= n && ReadIn(store.log, n, project, session, config, r.value) && AllMarked(r.value)
  {
    n := 0;
    store.Others(others.beforeRead);
    if env.expired(SnapshotStage) { return Err(DeadlineExceeded), n; }
    r := Read(store, project, session, config);
    n := |store.log|;
    if r.Ok? && !AllMarked(r.value) {
      r, n := MarkAndReread(store, r.value, project, session, config, at, env, others, n);
      if r.Ok? && !AllMarked(r.value) { r := Err(RuleMalformed); }
    }
  }

  /** The audit row of an attempt that faulted after its selection. */
  function FaultVerdict(s: Snapshot, sel: Selection, config: GateConfig, fault: Fault, retryCount: nat, at: int): VerdictInput {
    VerdictInput(s.project, s.session, config, SelfErrorResult, Some(fault), s.sequence, Map(VerdictRuleOf, sel.applicable),
      [], [], retryCount, at)
  }

  /** Nothing stands in the way of an attempt's own verdict. */
  predicate Completes(sel: Selection, config: GateConfig, env: Environment) {
    InTime(sel, env) && !env.expired(PersistStage) && GatesEvaluable(sel, config, env) && env.adapterSupported
  }

  ghost predicate IsOutcome(v: VerdictInput, s: Snapshot, sel: Selection, config: GateConfig, env: Environment) {
    if Completes(sel, config, env) then IsVerdict(v, s, sel, config, env)
    else v.fault.Some? && v == FaultVerdict(s, sel, config, v.fault.value, v.retryCount, v.occurredAt)
  }

  /** One attempt up to the verdict it would commit; a fault before the selection leaves nothing to commit. */
  method Attempt(s: Snapshot, config: GateConfig, env: Environment, retryCount: nat, at: int)
    returns (r: Result<VerdictInput, Fault>, sel: Selection)
    requires s.config == config
    ensures IsSelection(sel, RulesOf(s), config.pathRules, s.events)
    ensures if env.expired(SelectionStage) then r == Err(DeadlineExceeded) else r.Ok?
    ensures r.Ok? ==> IsOutcome(r.value, s, sel, config, env) && r.value.retryCount == retryCount && r.value.evaluatedThrough == s.sequence
  {
    r, sel := EvaluateAttempt(s, config, env, retryCount, at);
    if env.expired(SelectionStage) { return Err(DeadlineExceeded), sel; }
    if r.Err? { return Ok(FaultVerdict(s, sel, config, r.error, retryCount, at)), sel; }
    if env.expired(PersistStage) { return Ok(FaultVerdict(s, sel, config, DeadlineExceeded, retryCount, at)), sel; }
  }

  /** A committed verdict, with the states its snapshot was read in and it was committed to. */
  ghost predicate IsCommit(log: seq<Step>, n: nat, project: string, session: string, config: GateConfig, s: Snapshot, sel: Selection,
                           env: Environment, v: VerdictInput, auditId: nat)
  {
    && n < |log| && log[|log| - 1] == VerdictStep(v)
    && ReadIn(log, n, project, session, config, s) && AllMarked(s)
    && IsSelection(sel, RulesOf(s), config.pathRules, s.events) && IsOutcome(v, s, sel, config, env)
    && PersistVerdict(PassHistory.At(log, |log| - 1), v).1 == Persisted(auditId)
  }

  lemma CommittedPass(log: seq<Step>, n: nat, project: string, session: string, config: GateConfig, s: Snapshot, sel: Selection,
                      env: Environment, v: VerdictInput, auditId: nat)
    requires IsCommit(log, n, project, session, config, s, sel, env, v, auditId)
    ensures v.result == Pass ==> PassHistory.PassStands(log, n, |log| - 1, s, sel, config, env, v)
  {
    if v.result == Pass {
      var m := |log| - 1;
      PassHistory.PassMeansHistory(log, n, m, project, session, config, s, sel, env, v);
    }
  }

  /** Commit a verdict: the store rechecks the sequence, and on success the audit's last row is this verdict. */
  method Commit(store: GovernanceStore.Store, v: VerdictInput) returns (r: PersistResult)
    requires store.Valid()
    modifies store
    ensures store.Valid() && store.log == old(store.log) + [VerdictStep(v)]
    ensures r == PersistVerdict(old(store.State()), v).1 && PassHistory.At(store.log, |store.log| - 1) == old(store.State())
    ensures r.Persisted? ==> store.audit == old(store.audit) + [VerdictRow(v, r.auditId)]
    ensures !r.Persisted? ==> store.State() == old(store.State())
  {
    Now(store.log);
    r := store.PersistShadowVerdict(v);
    Remembered(old(store.log), store.log, |old(store.log)|);
    GovernanceStore.Extend(old(store.log), VerdictStep(v));
  }

  /** What a diagnostic promises about the store it leaves behind. */
  ghost predicate Justified(d: Diagnostic, log: seq<Step>, audit: seq<AuditRow>, n: nat, project: string, session: string,
                            config: GateConfig, s: Snapshot, sel: Selection, env: Environment)
  {
    d.Committed? ==>
      && IsCommit(log, n, project, session, config, s, sel, env, d.verdict, d.auditId)
      && VerdictRow(d.verdict, d.auditId) in audit
      && (d.verdict.result == Pass ==> PassHistory.PassStands(log, n, |log| - 1, s, sel, config, env, d.verdict))
  }

  lemma CommitIsJustified(v: VerdictInput, id: nat, log: seq<Step>, audit: seq<AuditRow>, n: nat, project: string, session: string,
                          config: GateConfig, s: Snapshot, sel: Selection, env: Environment)
    requires IsCommit(log, n, project, session, config, s, sel, env, v, id) && VerdictRow(v, id) in audit
    ensures Justified(Committed(v, id), log, audit, n, project, session, config, s, sel, env)
  {
    CommittedPass(log, n, project, session, config, s, sel, env, v, id);
  }

  lemma CommitIsOne(before: seq<Step>, log: seq<Step>, n: nat, project: string, session: string, config: GateConfig, s: Snapshot,
                    sel: Selection, env: Environment, v: VerdictInput, auditId: nat, audit: seq<AuditRow>)
    requires ReadIn(before, n, project, session, config, s) && before < log && log[|log| - 1] == VerdictStep(v) && AllMarked(s)
    requires IsSelection(sel, RulesOf(s), config.pathRules, s.events) && IsOutcome(v, s, sel, config, env)
    requires PersistVerdict(PassHistory.At(log, |log| - 1), v).1 == Persisted(auditId) && VerdictRow(v, auditId) in audit
    ensures Justified(Committed(v, auditId), log, audit, n, project, session, config, s, sel, env)
  {
    StillReadIn(before, log, n, project, session, config, s);
    CommitIsJustified(v, auditId, log, audit, n, project, session, config, s, sel, env);
  }

  // --- rounds -----------------------------------------------------------------------------------------------

  /** What a round reports for its commit; none when the loop goes round again. */
  function Reported(v: VerdictInput, r: PersistResult): Option<Diagnostic> {
    match r
    case Persisted(id) => Some(Committed(v, id))
    case NotPersisted(fault) => Some(Uncommitted(fault))
    case Retry => None
  }

  /** The state a round commits to. */
  function CommitState(db: Db, project: string, session: string, config: GateConfig, at: int, env: Environment, others: Interference): Db {
    RunSteps(Prepare(db, project, session, config, at, env, others).db, others.beforeCommit)
  }

  /** A round that began in state `db`, by the snapshot, selection and verdict it went through. */
  ghost predicate IsRoundWith(db: Db, project: string, session: string, config: GateConfig, at: int, env: Environment, others: Interference,
                              retryCount: nat, d: Option<Diagnostic>, s: Snapshot, sel: Selection, v: VerdictInput)
  {
    && Prepare(db, project, session, config, at, env, others).result == Ok(s)
    && IsSelection(sel, RulesOf(s), config.pathRules, s.events)
    && (if env.expired(SelectionStage) then d == Some(Uncommitted(DeadlineExceeded))
        else
          && IsOutcome(v, s, sel, config, env) && v.retryCount == retryCount && v.evaluatedThrough == s.sequence
          && d == Reported(v, PersistVerdict(CommitState(db, project, session, config, at, env, others), v).1))
  }

  ghost predicate IsRound(db: Db, project: string, session: string, config: GateConfig, at: int, env: Environment, others: Interference,
                          retryCount: nat, d: Option<Diagnostic>)
  {
    var p := Prepare(db, project, session, config, at, env, others);
    if p.result.Err? then d == Some(Uncommitted(p.result.error))
    else exists s, sel, v :: IsRoundWith(db, project, session, config, at, env, others, retryCount, d, s, sel, v)
  }

  /** One round, or two with the second one starting where the first could not commit. */
  ghost predicate IsEvaluation(db: Db, project: string, session: string, config: GateConfig, at: int, envs: seq<Environment>,
                               others: seq<Interference>, d: Diagnostic)
    requires |envs| == 2 && |others| == 2
  {
    || IsRound(db, project, session, config, at, envs[0], others[0], 0, Some(d))
    || (&& IsRound(db, project, session, config, at, envs[0], others[0], 0, None)
        && IsRound(CommitState(db, project, session, config, at, envs[0], others[0]), project, session, config, at, envs[1], others[1], 1, Some(d)))
  }

  /** One round of the loop; no diagnostic means: the sequence moved, try again. */
  method Round(store: GovernanceStore.Store, project: string, session: string, config: GateConfig, at: int,
               env: Environment, others: Interference, retryCount: nat)
    returns (d: Option<Diagnostic>, ghost n: nat, ghost s: Snapshot, ghost sel: Selection)
    requires store.Valid()
    modifies store
    ensures store.Valid() && old(store.log) <= store.log
    ensures IsRound(old(store.State()), project, session, config, at, env, others, retryCount, d)
    ensures d.Some? ==> Justified(d.value, store.log, store.audit, n, project, session, config, s, sel, env)
    ensures d.Some? && d.value.Committed? ==> |old(store.log)| <= n
    ensures d.None? ==> retryCount == 0 && store.State() == CommitState(old(store.State()), project, session, config, at, env, others)
  {
    var prepared;
    prepared, n := PreparedSnapshot(store, project, session, config, at, env, others);
    s, sel := *, *;
    if prepared.Err? { return Some(Uncommitted(prepared.error)), n, s, sel; }
    s := prepared.value;
    d, sel := RoundOn(store, project, session, config, at, env, others, retryCount, prepared.value, n, old(store.State()));
  }

  /** The round from its snapshot on; `start` is the state it began in. */
  method RoundOn(store: GovernanceStore.Store, project: string, session: string, config: GateConfig, at: int, env: Environment,
                 others: Interference, retryCount: nat, s: Snapshot, ghost n: nat, ghost start: Db)
    returns (d: Option<Diagnostic>, ghost sel: Selection)
    requires store.Valid() && ReadIn(store.log, n, project, session, config, s) && AllMarked(s)
    requires Prepare(start, project, session, config, at, env, others) == Prepared(store.State(), Ok(s))
    modifies store
    ensures store.Valid() && old(store.log) <= store.log
    ensures IsRound(start, project, session, config, at, env, others, retryCount, d)
    ensures d.Some? ==> Justified(d.value, store.log, store.audit, n, project, session, config, s, sel, env)
    ensures d.None? ==> retryCount == 0 && store.State() == CommitState(start, project, session, config, at, env, others)
  {
    ghost var before := store.log;
    var attempt, selection := Attempt(s, config, env, retryCount, at);
    sel := selection;
    if attempt.Err? {
      ghost var v := FaultVerdict(s, sel, config, DeadlineExceeded, retryCount, at);
      d := Some(Uncommitted(attempt.error));
      assert IsRoundWith(start, project, session, config, at, env, others, retryCount, d, s, sel, v);
      return;
    }
    store.Others(others.beforeCommit);
    d := CommitRound(store, project, session, config, env, attempt.value, before, n, s, sel);
    assert IsRoundWith(start, project, session, config, at, env, others, retryCount, d, s, sel, attempt.value);
  }

  method CommitRound(store: GovernanceStore.Store, project: string, session: string, config: GateConfig, env: Environment, v: VerdictInput,
                     ghost before: seq<Step>, ghost n: nat, ghost s: Snapshot, ghost sel: Selection)
    returns (d: Option<Diagnostic>)
    requires store.Valid() && before <= store.log && ReadIn(before, n, project, session, config, s) && AllMarked(s)
    requires IsSelection(sel, RulesOf(s), config.pathRules, s.events) && IsOutcome(v, s, sel, config, env)
    modifies store
    ensures store.Valid() && old(store.log) <= store.log
    ensures d == Reported(v, PersistVerdict(old(store.State()), v).1)
    ensures d.Some? ==> Justified(d.value, store.log, store.audit, n, project, session, config, s, sel, env)
    ensures d.None? ==> v.retryCount == 0 && store.State() == old(store.State())
  {
    var r := Commit(store, v);
    d := Reported(v, r);
    if r.Persisted? { CommitIsOne(before, store.log, n, project, session, config, s, sel, env, v, r.auditId, store.audit); }
  }

  /**
   The evaluator: at most two rounds, each on a fresh snapshot, whatever other processes commit in between.
   What it commits is the outcome of its last snapshot, and a committed `pass` stands for all its evidence.
   */
  method EvaluateShadowStop(store: GovernanceStore.Store, project: string, session: string, config: GateConfig, at: int,
                            envs: seq<Environment>, others: seq<Interference>)
    returns (d: Diagnostic, ghost n: nat, ghost s: Snapshot, ghost sel: Selection, ghost env: Environment)
    requires store.Valid() && |envs| == 2 && |others| == 2
    modifies store
    ensures store.Valid() && old(store.log) <= store.log
    ensures IsEvaluation(old(store.State()), project, session, config, at, envs, others, d)
    ensures Justified(d, store.log, store.audit, n, project, session, config, s, sel, env)
    ensures d.Committed? ==> |old(store.log)| <= n
  {
    ghost var start := store.State();
    var retryCount: nat, round := 0, None;
    n, s, sel, env := *, *, *, envs[0];
    while round.None?
      invariant store.Valid() && old(store.log) <= store.log
      invariant round.None? ==> retryCount <= 1
      invariant round.None? && retryCount == 0 ==> store.State() == start
      invariant round.None? && retryCount == 1 ==>
        IsRound(start, project, session, config, at, envs[0], others[0], 0, None)
        && store.State() == CommitState(start, project, session, config, at, envs[0], others[0])
      invariant round.Some? ==> IsEvaluation(start, project, session, config, at, envs, others, round.value)
      invariant round.Some? ==> Justified(round.value, store.log, store.audit, n, project, session, config, s, sel, env)
      invariant round.Some? && round.value.Committed? ==> |old(store.log)| <= n
      decreases 2 - retryCount
    {
      env := envs[retryCount];
      round, n, s, sel := Round(store, project, session, config, at, envs[retryCount], others[retryCount], retryCount);
      retryCount := retryCount + 1;
    }
    d := round.value;
  }

  // --- when an evaluation commits ------------------------------------------------------------------------------

  predicate SnapshotOf(s: Snapshot, project: string) {
    s.project == project && |s.rules| <= ACTIVE_RULES
  }

  /** A snapshot of the project, or bounds, malformed rows, unmarked rules and the deadline; never a concurrent mutation. */
  predicate PreparationResult(r: Result<Snapshot, Fault>, project: string) {
    if r.Ok? then SnapshotOf(r.value, project) else r.error != ConcurrentMutation
  }

  lemma ReadResult(db: Db, project: string, session: string, config: GateConfig)
    ensures PreparationResult(ReadSnapshot(db, project, session, config), project)
  {}

  lemma RereadResult(db: Db, s: Snapshot, project: string, session: string, config: GateConfig, at: int, env: Environment,
                     beforeMarks: seq<Step>, beforeReread: seq<Step>)
    requires SnapshotOf(s, project)
    ensures PreparationResult(MarkThenReread(db, s, project, session, config, at, env, beforeMarks, beforeReread).result, project)
  {
    if !env.expired(WatermarkStage) {
      var before := RunSteps(db, beforeMarks);
      var marked := EnsureWatermarks(before, project, at, KeysOf(s));
      MarkingFaults(before, project, at, KeysOf(s));
      if marked.Ok? { ReadResult(RunSteps(marked.value, beforeReread), project, session, config); }
    }
  }

  lemma PrepareResult(first: Db, project: string, session: string, config: GateConfig, at: int, env: Environment,
                      beforeMarks: seq<Step>, beforeReread: seq<Step>)
    ensures PreparationResult(PrepareFrom(first, project, session, config, at, env, beforeMarks, beforeReread).result, project)
  {
    var read := ReadSnapshot(first, project, session, config);
    ReadResult(first, project, session, config);
    if read.Ok? { RereadResult(first, read.value, project, session, config, at, env, beforeMarks, beforeReread); }
  }

  lemma MarkingFaults(db: Db, project: string, at: int, keys: seq<RuleKey>)
    ensures var r := EnsureWatermarks(db, project, at, keys); r.Err? ==> r.error != ConcurrentMutation
  {
    MarkingAllFaults(db, project, at, ShadowSequence(db, project), WatermarkRows(db, project), keys);
  }

  lemma {:induction false} MarkingAllFaults(db: Db, project: string, at: int, s: Sequence, existing: seq<AuditRow>, keys: seq<RuleKey>)
    ensures var r := EnsureAll(db, project, at, s, existing, keys); r.Err? ==> r.error == EvidenceMalformed
    decreases |keys|
  {
    if keys != [] {
      var one := EnsureOne(db, project, at, s, existing, keys[0]);
      if one.Ok? { MarkingAllFaults(one.value, project, at, s, existing, keys[1..]); }
    }
  }

  /** The rules of a snapshot are one per family, as in every reachable state. */
  predicate OnePerFamily(s: Snapshot) {
    forall i, j :: 0 <= i < j < |s.rules| ==> s.rules[i].row.ruleId != s.rules[j].row.ruleId
  }

  lemma OutcomeIsValid(v: VerdictInput, s: Snapshot, sel: Selection, config: GateConfig, env: Environment)
    requires IsSelection(sel, RulesOf(s), config.pathRules, s.events) && IsOutcome(v, s, sel, config, env)
    requires OnePerFamily(s) && |s.rules| <= ACTIVE_RULES && |sel.required| <= REQUIRED_GATES && v.retryCount <= 1
    ensures ValidVerdict(v)
  {
    var differ := (a: Rule, b: Rule) => a.ruleId != b.ruleId;
    PairwiseFilter(differ, r => Applies(r, s.events), RulesOf(s));
    forall i, j | 0 <= i < j < |v.rules| ensures v.rules[i].ruleId != v.rules[j].ruleId {
      assert differ(sel.applicable[i], sel.applicable[j]);
    }
    if v.fault.None? {
      forall i | 0 <= i < |v.gates| ensures v.gates[i].gateId == sel.required[i] {
        assert IsGateVerdict(v.gates[i], sel.required[i], s, sel, config, env);
      }
    }
  }

  /** A round reached its commit, and the project had moved on since its snapshot. */
  predicate MovedIn(db: Db, project: string, session: string, config: GateConfig, at: int, env: Environment, others: Interference) {
    var r := Prepare(db, project, session, config, at, env, others).result;
    && r.Ok? && !env.expired(SelectionStage)
    && ShadowSequence(CommitState(db, project, session, config, at, env, others), project) != r.value.sequence
  }

  /** What any reachable state and reasonable configuration give: one rule per family, and gates within the bound. */
  ghost predicate Bounded(db: Db, project: string, session: string, config: GateConfig, at: int, env: Environment, others: Interference) {
    var r := Prepare(db, project, session, config, at, env, others).result;
    r.Ok? ==> OnePerFamily(r.value)
              && forall sel :: IsSelection(sel, RulesOf(r.value), config.pathRules, r.value.events) ==> |sel.required| <= REQUIRED_GATES
  }

  lemma RoundThatMoved(db: Db, project: string, session: string, config: GateConfig, at: int, env: Environment, others: Interference,
                       retryCount: nat, d: Option<Diagnostic>)
    requires IsRound(db, project, session, config, at, env, others, retryCount, d) && retryCount <= 1
    ensures d.None? || d == Some(Uncommitted(ConcurrentMutation)) ==> MovedIn(db, project, session, config, at, env, others)
    ensures retryCount == 0 ==> d != Some(Uncommitted(ConcurrentMutation))
    ensures MovedIn(db, project, session, config, at, env, others) && Bounded(db, project, session, config, at, env, others)
            ==> d == if retryCount == 0 then None else Some(Uncommitted(ConcurrentMutation))
  {
    PrepareResult(RunSteps(db, others.beforeRead), project, session, config, at, env, others.beforeMarks, others.beforeReread);
    if Prepare(db, project, session, config, at, env, others).result.Ok? {
      var s, sel, v :| IsRoundWith(db, project, session, config, at, env, others, retryCount, d, s, sel, v);
      if !env.expired(SelectionStage) {
        CommitThatMoved(CommitState(db, project, session, config, at, env, others), v, project, config, s, sel, env);
        ReportedMoved(v, PersistVerdict(CommitState(db, project, session, config, at, env, others), v).1, d);
      }
    }
  }

  lemma ReportedMoved(v: VerdictInput, r: PersistResult, d: Option<Diagnostic>)
    requires d == Reported(v, r)
    ensures d.None? <==> r.Retry?
    ensures d == Some(Uncommitted(ConcurrentMutation)) <==> r == NotPersisted(ConcurrentMutation)
  {}

  lemma CommitThatMoved(db: Db, v: VerdictInput, project: string, config: GateConfig, s: Snapshot, sel: Selection, env: Environment)
    requires SnapshotOf(s, project) && IsSelection(sel, RulesOf(s), config.pathRules, s.events)
    requires IsOutcome(v, s, sel, config, env) && v.evaluatedThrough == s.sequence && v.retryCount <= 1
    ensures var r := PersistVerdict(db, v).1;
            && (r.Retry? || r == NotPersisted(ConcurrentMutation) ==> ShadowSequence(db, project) != s.sequence)
            && (v.retryCount == 0 ==> r != NotPersisted(ConcurrentMutation))
            && (ShadowSequence(db, project) != s.sequence && OnePerFamily(s) && |sel.required| <= REQUIRED_GATES
                ==> r == if v.retryCount == 0 then Retry else NotPersisted(ConcurrentMutation))
  {
    if OnePerFamily(s) && |sel.required| <= REQUIRED_GATES { OutcomeIsValid(v, s, sel, config, env); }
  }

  /**
   A stop is given up as a concurrent mutation only when the project moved between snapshot and commit in both rounds,
   and always then where both snapshots are within the bounds of a verdict.
   */
  lemma ConcurrentMeansMovedTwice(db: Db, project: string, session: string, config: GateConfig, at: int, envs: seq<Environment>,
                                  others: seq<Interference>, d: Diagnostic)
    requires |envs| == 2 && |others| == 2 && IsEvaluation(db, project, session, config, at, envs, others, d)
    ensures var next := CommitState(db, project, session, config, at, envs[0], others[0]);
            var movedTwice := MovedIn(db, project, session, config, at, envs[0], others[0])
                              && MovedIn(next, project, session, config, at, envs[1], others[1]);
            var bounded := Bounded(db, project, session, config, at, envs[0], others[0])
                           && Bounded(next, project, session, config, at, envs[1], others[1]);
            && (d == Uncommitted(ConcurrentMutation) ==> movedTwice)
            && (movedTwice && bounded ==> d == Uncommitted(ConcurrentMutation))
  {
    var next := CommitState(db, project, session, config, at, envs[0], others[0]);
    if IsRound(db, project, session, config, at, envs[0], others[0], 0, Some(d)) {
      RoundThatMoved(db, project, session, config, at, envs[0], others[0], 0, Some(d));
    } else {
      RoundThatMoved(db, project, session, config, at, envs[0], others[0], 0, None);
      RoundThatMoved(next, project, session, config, at, envs[1], others[1], 1, Some(d));
    }
  }

  // --- an undisturbed evaluation --------------------------------------------------------------------------------

  /** A readable reachable state, and time, gates and client such that any selection of its rules can be evaluated. */
  ghost predicate ReadyToCommit(db: Db, project: string, session: string, config: GateConfig, at: int, env: Environment) {
    && EventHistory.Inv(db) && RuleHistory.Inv(db) && InTimeToPrepare(env) && ReadSnapshot(db, project, session, config).Ok?
    && var s := Prepare(db, project, session, config, at, env, QUIET).result;
       s.Ok? ==> forall sel :: IsSelection(sel, RulesOf(s.value), config.pathRules, s.value.events) ==>
                   Completes(sel, config, env) && |sel.required| <= REQUIRED_GATES
  }

  /** Evidence names the event of the run it classified. */
  lemma EvidenceNamesRun(run: Option<GateRun>, policy: Gate, relevant: seq<string>, events: seq<MutationEvent>, current: DigestResult)
    ensures var c := ClassifyGateEvidence(run, policy, relevant, events, current);
            c.evidenceEventSeq.Some? ==> run.Some? && c.evidenceEventSeq.value == run.value.eventSeq
  {}

  lemma EvidenceOfRun(s: Snapshot, sel: Selection, config: GateConfig, env: Environment, g: string, n: nat)
    requires Evaluable(g, sel, config, env) && GateEvidence(s, sel, config, env, g).evidenceEventSeq == Some(n)
    ensures exists run :: run in s.runs && run.eventSeq == n
  {
    var run := LatestEligible(s.runs, g, config, sel.watermark[g]);
    EvidenceNamesRun(run, config.gates[g], sel.relevant[g], s.events, CaptureDigest(env, sel.relevant[g]));
  }

  lemma RunHasEvent(db: Db, project: string, session: string, config: GateConfig, s: Snapshot, run: GateRun)
    requires EventHistory.Inv(db) && ReadSnapshot(db, project, session, config) == Ok(s) && run in s.runs
    ensures exists k :: 0 <= k < |db.events| && db.events[k].eventSeq == run.eventSeq
  {
    var r := PassHistory.SnapshotRun(db, project, session, config, s, run);
    var e :| e in db.events && EventHistory.RunOf(r, e);
  }

  lemma SelectedRuleExists(db: Db, project: string, session: string, config: GateConfig, s: Snapshot, sel: Selection)
    requires ReadSnapshot(db, project, session, config) == Ok(s) && IsSelection(sel, RulesOf(s), config.pathRules, s.events)
    requires sel.applicable != []
    ensures exists k :: 0 <= k < |db.rules| && db.rules[k].memoryId == sel.applicable[0].memoryId
  {
    assert sel.applicable[0] in sel.applicable;
    var i :| 0 <= i < |RulesOf(s)| && RulesOf(s)[i] == sel.applicable[0];
    SnapshotRuleOf(db, project, session, config, s, i);
  }

  /** What a verdict links to is there: its rule was read, and a run keeps its event. */
  lemma NothingDangles(db: Db, project: string, session: string, config: GateConfig, s: Snapshot, sel: Selection, env: Environment, v: VerdictInput)
    requires EventHistory.Inv(db) && ReadSnapshot(db, project, session, config) == Ok(s)
    requires IsSelection(sel, RulesOf(s), config.pathRules, s.events) && IsVerdict(v, s, sel, config, env)
    ensures !VerdictDangles(db, v)
  {
    if SoleRule(v).Some? { SelectedRuleExists(db, project, session, config, s, sel); }
    if SoleEvidence(v).Some? { SoleEvidenceExists(db, project, session, config, s, sel, env, v); }
  }

  lemma SoleEvidenceExists(db: Db, project: string, session: string, config: GateConfig, s: Snapshot, sel: Selection, env: Environment,
                           v: VerdictInput)
    requires EventHistory.Inv(db) && ReadSnapshot(db, project, session, config) == Ok(s)
    requires IsVerdict(v, s, sel, config, env) && SoleEvidence(v).Some?
    ensures exists row :: row in db.events && row.eventSeq == SoleEvidence(v).value
  {
    assert IsGateVerdict(v.gates[0], sel.required[0], s, sel, config, env);
    EvidenceOfRun(s, sel, config, env, sel.required[0], SoleEvidence(v).value);
    var run :| run in s.runs && run.eventSeq == SoleEvidence(v).value;
    RunHasEvent(db, project, session, config, s, run);
  }

  lemma MarkingKeepsEvents(db: Db, after: Db)
    requires EventHistory.Inv(db) && OnlyMarked(db, after)
    ensures EventHistory.Inv(after)
  {
    assert forall p :: CurrentMutationSequence(after, p) == CurrentMutationSequence(db, p);
  }

  lemma VerdictPersists(db: Db, project: string, session: string, config: GateConfig, s: Snapshot, sel: Selection, env: Environment, v: VerdictInput)
    requires EventHistory.Inv(db) && RuleHistory.Inv(db) && ReadSnapshot(db, project, session, config) == Ok(s)
    requires IsSelection(sel, RulesOf(s), config.pathRules, s.events) && IsVerdict(v, s, sel, config, env)
    requires Completes(sel, config, env) && |sel.required| <= REQUIRED_GATES && v.retryCount <= 1
    ensures PersistVerdict(db, v).1.Persisted?
  {
    OneRulePerFamily(db, project);
    forall i | 0 <= i < |s.rules| ensures s.rules[i].row.ruleId == ActiveRules(db, project)[i].ruleId {
      SnapshotRuleOf(db, project, session, config, s, i);
    }
    OutcomeIsValid(v, s, sel, config, env);
    NothingDangles(db, project, session, config, s, sel, env, v);
  }

  /** Undisturbed, in time, with evaluable gates and a supported adapter, every stop in a reachable state commits its own verdict. */
  lemma QuietStopCommits(db: Db, project: string, session: string, config: GateConfig, at: int, envs: seq<Environment>,
                         others: seq<Interference>, d: Diagnostic)
    requires |envs| == 2 && |others| == 2 && IsEvaluation(db, project, session, config, at, envs, others, d)
    requires others[0] == QUIET && ReadyToCommit(db, project, session, config, at, envs[0])
    ensures d.Committed? && d.verdict.fault.None?
  {
    if IsRound(db, project, session, config, at, envs[0], QUIET, 0, Some(d)) {
      QuietRoundCommits(db, project, session, config, at, envs[0], Some(d));
    } else {
      QuietRoundCommits(db, project, session, config, at, envs[0], None);
    }
  }

  lemma QuietRoundCommits(db: Db, project: string, session: string, config: GateConfig, at: int, env: Environment, d: Option<Diagnostic>)
    requires IsRound(db, project, session, config, at, env, QUIET, 0, d) && ReadyToCommit(db, project, session, config, at, env)
    ensures d.Some? && d.value.Committed? && d.value.verdict.fault.None?
  {
    var p := Prepare(db, project, session, config, at, env, QUIET);
    QuietPreparation(db, project, session, config, at, env);
    var s, sel, v :| IsRoundWith(db, project, session, config, at, env, QUIET, 0, d, s, sel, v);
    MarkingKeepsEvents(db, p.db);
    VerdictPersists(p.db, project, session, config, s, sel, env, v);
  }
}
