/** Preparing a snapshot: read, mark the rules seen for the first time, read again when that was needed. */
module Preparation {
  import opened Rows
  import opened EvidenceSelector
  import opened GovernanceDb
  import opened ShadowEvaluator
  import RuleHistory

  /** What other processes commit between this evaluator's own transactions. */
  datatype Interference = Interference(beforeRead: seq<Step>, beforeMarks: seq<Step>, beforeReread: seq<Step>, beforeCommit: seq<Step>)

  const QUIET := Interference([], [], [], [])

  /** The state a preparation leaves, and the snapshot or fault it ends with. */
  datatype Prepared = Prepared(db: Db, result: Result<Snapshot, Fault>)

  function KeyOf(r: SnapshotRule): RuleKey {
    RuleKey(r.row.memoryId, r.row.ruleId, r.row.revision)
  }

  function KeysOf(s: Snapshot): seq<RuleKey> {
    Map(KeyOf, s.rules)
  }

  function MarkThenReread(db: Db, s: Snapshot, project: string, session: string, config: GateConfig, at: int,
                          env: Environment, beforeMarks: seq<Step>, beforeReread: seq<Step>): Prepared
  {
    if env.expired(WatermarkStage) then Prepared(db, Err(DeadlineExceeded))
    else
      var before := RunSteps(db, beforeMarks);
      var marked := EnsureWatermarks(before, project, at, KeysOf(s));
      if marked.Err? then Prepared(before, Err(marked.error))
      else if !RequiresRefresh(before, project, KeysOf(s)) then Prepared(marked.value, Ok(s))
      else if env.expired(RefreshStage) then Prepared(marked.value, Err(DeadlineExceeded))
      else
        var again := RunSteps(marked.value, beforeReread);
        Prepared(again, ReadSnapshot(again, project, session, config))
  }

  /** An unmarked rule at the end is reported as malformed. */
  function Checked(r: Result<Snapshot, Fault>): Result<Snapshot, Fault> {
    if r.Ok? && !AllMarked(r.value) then Err(RuleMalformed) else r
  }

  function PrepareFrom(first: Db, project: string, session: string, config: GateConfig, at: int, env: Environment,
                       beforeMarks: seq<Step>, beforeReread: seq<Step>): Prepared
  {
    if env.expired(SnapshotStage) then Prepared(first, Err(DeadlineExceeded))
    else
      var read := ReadSnapshot(first, project, session, config);
      if read.Ok? && !AllMarked(read.value) then
        var p := MarkThenReread(first, read.value, project, session, config, at, env, beforeMarks, beforeReread);
        p.(result := Checked(p.result))
      else Prepared(first, read)
  }

  function Prepare(db: Db, project: string, session: string, config: GateConfig, at: int, env: Environment, others: Interference): Prepared {
    PrepareFrom(RunSteps(db, others.beforeRead), project, session, config, at, env, others.beforeMarks, others.beforeReread)
  }

  // --- when a preparation faults for an unmarked rule ----------------------------------------------------

  predicate InTimeToPrepare(env: Environment) {
    !env.expired(SnapshotStage) && !env.expired(WatermarkStage) && !env.expired(RefreshStage)
  }

  predicate MarkedOnce(db: Db, project: string, keys: seq<RuleKey>) {
    forall i :: 0 <= i < |keys| ==> |WatermarksOf(WatermarkRows(db, project), keys[i].ruleId, keys[i].revision)| == 1
  }

  predicate Unmarked(r: Result<Snapshot, Fault>) {
    r.Ok? && !AllMarked(r.value)
  }

  lemma {:induction false} NoRuleMarkedTwice(db: Db, project: string, at: int, s: Sequence, existing: seq<AuditRow>, keys: seq<RuleKey>)
    requires EnsureAll(db, project, at, s, existing, keys).Ok?
    ensures forall i :: 0 <= i < |keys| ==> |WatermarksOf(existing, keys[i].ruleId, keys[i].revision)| <= 1
    decreases |keys|
  {
    if keys != [] {
      NoRuleMarkedTwice(EnsureOne(db, project, at, s, existing, keys[0]).value, project, at, s, existing, keys[1..]);
      assert forall i :: 1 <= i < |keys| ==> keys[i] == keys[1..][i - 1];
    }
  }

  lemma RefreshIff(db: Db, project: string, at: int, keys: seq<RuleKey>)
    requires EnsureWatermarks(db, project, at, keys).Ok?
    ensures RequiresRefresh(db, project, keys) <==> !MarkedOnce(db, project, keys)
  {
    NoRuleMarkedTwice(db, project, at, ShadowSequence(db, project), WatermarkRows(db, project), keys);
  }

  /**
   In time, and with a marking transaction that succeeds, preparation reports a malformed rule exactly when its first
   snapshot has an unmarked rule and either the marking transaction finds every rule marked already, so that it asks for
   no second read, or the second read still has an unmarked rule.
   */
  lemma MalformedIff(db: Db, project: string, session: string, config: GateConfig, at: int, env: Environment, others: Interference)
    requires InTimeToPrepare(env)
    requires var first := RunSteps(db, others.beforeRead);
             var read := ReadSnapshot(first, project, session, config);
             Unmarked(read) ==> EnsureWatermarks(RunSteps(first, others.beforeMarks), project, at, KeysOf(read.value)).Ok?
    ensures var first := RunSteps(db, others.beforeRead);
            var read := ReadSnapshot(first, project, session, config);
            Prepare(db, project, session, config, at, env, others).result == Err(RuleMalformed)
            <==> Unmarked(read)
                 && (var before := RunSteps(first, others.beforeMarks);
                     var marked := EnsureWatermarks(before, project, at, KeysOf(read.value)).value;
                     || MarkedOnce(before, project, KeysOf(read.value))
                     || Unmarked(ReadSnapshot(RunSteps(marked, others.beforeReread), project, session, config)))
  {
    var first := RunSteps(db, others.beforeRead);
    var read := ReadSnapshot(first, project, session, config);
    if Unmarked(read) {
      RefreshIff(RunSteps(first, others.beforeMarks), project, at, KeysOf(read.value));
    } else {
      assert Prepare(db, project, session, config, at, env, others).result == read;
    }
  }

  // --- what marking achieves -------------------------------------------------------------------------------

  predicate IsMark(a: AuditRow, db: Db, project: string, key: RuleKey) {
    MarksActiveRule(a, db, project) && Marks(a, key.ruleId, key.revision)
  }

  ghost predicate HasMark(db: Db, project: string, key: RuleKey) {
    exists a :: a in db.audit && IsMark(a, db, project, key)
  }

  predicate IsCurrent(db: Db, project: string, key: RuleKey) {
    exists i :: 0 <= i < |db.rules| && IsCurrentRevision(db.rules[i], project, key)
  }

  lemma EnsureOneMarks(db: Db, project: string, at: int, s: Sequence, existing: seq<AuditRow>, key: RuleKey)
    requires forall a :: a in existing ==> a in db.audit && MarksActiveRule(a, db, project)
    requires EnsureOne(db, project, at, s, existing, key).Ok? && IsCurrent(db, project, key)
    ensures HasMark(EnsureOne(db, project, at, s, existing, key).value, project, key)
  {
    var next := EnsureOne(db, project, at, s, existing, key).value;
    var matching := WatermarksOf(existing, key.ruleId, key.revision);
    if |matching| == 1 {
      assert matching[0] in matching && IsMark(matching[0], db, project, key);
    } else {
      var row := next.audit[|db.audit|];
      assert row in next.audit && IsMark(row, next, project, key);
    }
  }

  /** Marking only adds rows to the audit. */
  ghost predicate OnlyMarked(a: Db, b: Db) {
    b == a.(audit := b.audit, lastAuditId := b.lastAuditId) && forall x :: x in a.audit ==> x in b.audit
  }

  lemma {:induction false} EnsureAllMarks(db: Db, project: string, at: int, s: Sequence, existing: seq<AuditRow>, keys: seq<RuleKey>)
    requires forall a :: a in existing ==> a in db.audit && MarksActiveRule(a, db, project)
    requires EnsureAll(db, project, at, s, existing, keys).Ok?
    ensures var after := EnsureAll(db, project, at, s, existing, keys).value;
            && OnlyMarked(db, after)
            && forall i :: 0 <= i < |keys| && IsCurrent(db, project, keys[i]) ==> HasMark(after, project, keys[i])
    decreases |keys|
  {
    if keys != [] {
      var next := EnsureOne(db, project, at, s, existing, keys[0]).value;
      EnsureAllMarks(next, project, at, s, existing, keys[1..]);
      var after := EnsureAll(db, project, at, s, existing, keys).value;
      if IsCurrent(db, project, keys[0]) {
        EnsureOneMarks(db, project, at, s, existing, keys[0]);
        var a :| a in next.audit && IsMark(a, next, project, keys[0]);
        assert a in after.audit && IsMark(a, after, project, keys[0]);
      }
      forall i | 1 <= i < |keys| && IsCurrent(db, project, keys[i]) ensures HasMark(after, project, keys[i]) {
        assert keys[i] == keys[1..][i - 1] && IsCurrent(next, project, keys[i]);
      }
    }
  }

  lemma SnapshotRuleOf(db: Db, project: string, session: string, config: GateConfig, s: Snapshot, i: nat)
    requires ReadSnapshot(db, project, session, config) == Ok(s) && i < |s.rules|
    ensures |s.rules| == |ActiveRules(db, project)| == |KeysOf(s)|
    ensures s.rules[i] == WithWatermark(ActiveRules(db, project)[i], WatermarkRows(db, project))
    ensures ActiveRules(db, project)[i] in db.rules && ActivePreExit(ActiveRules(db, project)[i], project)
    ensures IsCurrent(db, project, KeysOf(s)[i])
  {
    var r := ActiveRules(db, project)[i];
    assert r in ActiveRules(db, project);
    var k :| 0 <= k < |db.rules| && db.rules[k] == r;
    assert IsCurrentRevision(db.rules[k], project, KeysOf(s)[i]);
  }

  /** After a marking transaction every rule of the snapshot behind it has a mark. */
  lemma EveryRuleMarked(db: Db, project: string, session: string, config: GateConfig, s: Snapshot, at: int)
    requires ReadSnapshot(db, project, session, config) == Ok(s) && EnsureWatermarks(db, project, at, KeysOf(s)).Ok?
    ensures var after := EnsureWatermarks(db, project, at, KeysOf(s)).value;
            && OnlyMarked(db, after)
            && forall i :: 0 <= i < |s.rules| ==> WatermarksOf(WatermarkRows(after, project), s.rules[i].row.ruleId, s.rules[i].row.revision) != []
  {
    var keys, after := KeysOf(s), EnsureWatermarks(db, project, at, KeysOf(s)).value;
    EnsureAllMarks(db, project, at, ShadowSequence(db, project), WatermarkRows(db, project), keys);
    forall i | 0 <= i < |s.rules| ensures WatermarksOf(WatermarkRows(after, project), s.rules[i].row.ruleId, s.rules[i].row.revision) != [] {
      SnapshotRuleOf(db, project, session, config, s, i);
      var a :| a in after.audit && IsMark(a, after, project, keys[i]);
      assert a in WatermarkRows(after, project);
      assert a in WatermarksOf(WatermarkRows(after, project), keys[i].ruleId, keys[i].revision);
    }
  }

  // --- bounds hold in reachable states -------------------------------------------------------------------

  lemma {:induction false} DistinctFit<T(!new)>(xs: seq<T>, all: set<T>)
    requires Distinct(xs) && forall x :: x in xs ==> x in all
    ensures |xs| <= |all|
  {
    if xs != [] {
      var rest := xs[1..];
      forall x | x in rest ensures x in all - {xs[0]} {
        var i :| 0 <= i < |rest| && rest[i] == x;
        assert xs[i + 1] == x;
      }
      DistinctFit(rest, all - {xs[0]});
    }
  }

  lemma {:induction false} FewIds(rows: seq<RuleRow>)
    ensures |set r | r in rows :: Some(r.memoryId)| <= |rows|
  {
    var ids := set r | r in rows :: Some(r.memoryId);
    if rows != [] {
      FewIds(rows[1..]);
      var rest := set r | r in rows[1..] :: Some(r.memoryId);
      assert forall r :: r in rows <==> r == rows[0] || r in rows[1..];
      assert ids == rest + {Some(rows[0].memoryId)};
    } else {
      assert ids == {};
    }
  }

  /** The marks of active rules are at most as many as the rules. */
  lemma FewMarks(db: Db, project: string)
    requires RuleHistory.Inv(db)
    ensures |WatermarkRows(db, project)| <= |ActiveRules(db, project)|
  {
    var rows, rules := WatermarkRows(db, project), ActiveRules(db, project);
    PairwiseFilter(RuleHistory.MarkOrder, MarkOf(db, project), db.audit);
    var linked := Map((a: AuditRow) => a.linkedMemoryId, rows);
    var ids := set r | r in rules :: Some(r.memoryId);
    forall i | 0 <= i < |rows| ensures linked[i] in ids && rows[i].entry.RuleWatermark? {
      assert rows[i] in rows;
      var k :| 0 <= k < |db.rules| && db.rules[k].memoryId == rows[i].linkedMemoryId.value && ActivePreExit(db.rules[k], project);
      assert db.rules[k] in rules;
    }
    assert Distinct(linked) by {
      forall i, j | 0 <= i < j < |linked| ensures linked[i] != linked[j] { assert RuleHistory.MarkOrder(rows[i], rows[j]); }
    }
    DistinctFit(linked, ids);
    FewIds(rules);
  }

  lemma NoneMarkedTwice(db: Db, project: string)
    requires RuleHistory.Inv(db)
    ensures var rules := ActiveRules(db, project);
            forall i :: 0 <= i < |rules| ==> |WatermarksOf(WatermarkRows(db, project), rules[i].ruleId, rules[i].revision)| <= 1
  {
    var rules := ActiveRules(db, project);
    forall i | 0 <= i < |rules| ensures |WatermarksOf(WatermarkRows(db, project), rules[i].ruleId, rules[i].revision)| <= 1 {
      assert rules[i] in rules;
      RuleHistory.OneMarkPerRule(db, project, rules[i]);
    }
  }

  /** Two active rules are of different families. */
  lemma OneRulePerFamily(db: Db, project: string)
    requires RuleHistory.Inv(db)
    ensures var rules := ActiveRules(db, project); forall i, j :: 0 <= i < j < |rules| ==> rules[i].ruleId != rules[j].ruleId
  {
    var rules := ActiveRules(db, project);
    PairwiseFilter(RuleHistory.IdOrder, ActiveIn(project), db.rules);
    forall i, j | 0 <= i < j < |rules| ensures rules[i].ruleId != rules[j].ruleId {
      assert rules[i] in rules && rules[j] in rules && RuleHistory.IdOrder(rules[i], rules[j]);
      if rules[i].ruleId == rules[j].ruleId {
        RuleHistory.CurrentIsLast(db, project, rules[i].ruleId, rules[i]);
        RuleHistory.CurrentIsLast(db, project, rules[i].ruleId, rules[j]);
      }
    }
  }

  /** In a reachable state the marking transaction succeeds for the rules a snapshot of that state shows. */
  lemma MarkingSucceeds(db: Db, project: string, session: string, config: GateConfig, s: Snapshot, at: int)
    requires RuleHistory.Inv(db) && ReadSnapshot(db, project, session, config) == Ok(s)
    ensures EnsureWatermarks(db, project, at, KeysOf(s)).Ok?
  {
    var keys, existing := KeysOf(s), WatermarkRows(db, project);
    OneRulePerFamily(db, project);
    NoneMarkedTwice(db, project);
    forall i | 0 <= i < |keys| ensures keys[i].ruleId == ActiveRules(db, project)[i].ruleId && keys[i].revision == ActiveRules(db, project)[i].revision {
      SnapshotRuleOf(db, project, session, config, s, i);
    }
    FewMatchesSucceed(db, project, at, ShadowSequence(db, project), existing, keys);
  }

  lemma {:induction false} FewMatchesSucceed(db: Db, project: string, at: int, s: Sequence, existing: seq<AuditRow>, keys: seq<RuleKey>)
    requires forall i :: 0 <= i < |keys| ==> |WatermarksOf(existing, keys[i].ruleId, keys[i].revision)| <= 1
    ensures EnsureAll(db, project, at, s, existing, keys).Ok?
    decreases |keys|
  {
    if keys != [] {
      assert forall i :: 1 <= i < |keys| ==> keys[i] == keys[1..][i - 1];
      FewMatchesSucceed(EnsureOne(db, project, at, s, existing, keys[0]).value, project, at, s, existing, keys[1..]);
    }
  }

  /** A read right after the marking succeeds, with every rule marked once. */
  lemma MarkedState(db: Db, project: string, session: string, config: GateConfig, s: Snapshot, at: int)
    requires RuleHistory.Inv(db) && ReadSnapshot(db, project, session, config) == Ok(s)
    requires EnsureWatermarks(db, project, at, KeysOf(s)).Ok?
    ensures var after := EnsureWatermarks(db, project, at, KeysOf(s)).value;
            && RuleHistory.Inv(after) && MarkedOnce(after, project, KeysOf(s))
            && var again := ReadSnapshot(after, project, session, config); again.Ok? && AllMarked(again.value)
  {
    var after := EnsureWatermarks(db, project, at, KeysOf(s)).value;
    EveryRuleMarked(db, project, session, config, s, at);
    RuleHistory.StepKeepsInv(db, EnsureStep(project, at, KeysOf(s)));
    ReadsMarked(db, after, project, session, config, s);
  }

  lemma ReadsMarked(db: Db, after: Db, project: string, session: string, config: GateConfig, s: Snapshot)
    requires RuleHistory.Inv(after) && OnlyMarked(db, after) && ReadSnapshot(db, project, session, config) == Ok(s)
    requires forall i :: 0 <= i < |s.rules| ==> WatermarksOf(WatermarkRows(after, project), s.rules[i].row.ruleId, s.rules[i].row.revision) != []
    ensures MarkedOnce(after, project, KeysOf(s))
    ensures var again := ReadSnapshot(after, project, session, config); again.Ok? && AllMarked(again.value)
  {
    FewMarks(after, project);
    NoneMarkedTwice(after, project);
    SameReads(db, after, project, session, config);
    forall i | 0 <= i < |s.rules|
      ensures |WatermarksOf(WatermarkRows(after, project), KeysOf(s)[i].ruleId, KeysOf(s)[i].revision)| == 1
      ensures ActiveRules(after, project)[i] == s.rules[i].row
    {
      SnapshotRuleOf(db, project, session, config, s, i);
    }
  }

  lemma SameReads(a: Db, b: Db, project: string, session: string, config: GateConfig)
    requires OnlyMarked(a, b)
    ensures SessionEvents(a, project, session) == SessionEvents(b, project, session)
    ensures SessionRuns(a, project, session, config) == SessionRuns(b, project, session, config)
    ensures ActiveRules(a, project) == ActiveRules(b, project) && ShadowSequence(a, project) == ShadowSequence(b, project)
  {}

  lemma UnmarkedNeedsRefresh(db: Db, project: string, session: string, config: GateConfig, s: Snapshot)
    requires ReadSnapshot(db, project, session, config) == Ok(s) && !AllMarked(s)
    ensures RequiresRefresh(db, project, KeysOf(s))
  {
    var i :| 0 <= i < |s.rules| && s.rules[i].watermark.None?;
    SnapshotRuleOf(db, project, session, config, s, i);
    assert WatermarksOf(WatermarkRows(db, project), KeysOf(s)[i].ruleId, KeysOf(s)[i].revision) == [];
  }

  lemma QuietSecondRead(db: Db, project: string, session: string, config: GateConfig, s: Snapshot, at: int, env: Environment, after: Db)
    requires InTimeToPrepare(env) && ReadSnapshot(db, project, session, config) == Ok(s) && !AllMarked(s)
    requires EnsureWatermarks(db, project, at, KeysOf(s)) == Ok(after) && RequiresRefresh(db, project, KeysOf(s))
    ensures Prepare(db, project, session, config, at, env, QUIET) == Prepared(after, Checked(ReadSnapshot(after, project, session, config)))
  {}

  /** What an undisturbed preparation leaves: the snapshot is that of the state it ends in, every rule marked. */
  ghost predicate PreparedQuietly(db: Db, p: Prepared, project: string, session: string, config: GateConfig) {
    && p.result.Ok? && AllMarked(p.result.value) && ReadSnapshot(p.db, project, session, config) == p.result
    && OnlyMarked(db, p.db) && RuleHistory.Inv(p.db)
  }

  /** Undisturbed and in time, preparation of a readable reachable state always succeeds. */
  lemma QuietPreparation(db: Db, project: string, session: string, config: GateConfig, at: int, env: Environment)
    requires RuleHistory.Inv(db) && InTimeToPrepare(env) && ReadSnapshot(db, project, session, config).Ok?
    ensures PreparedQuietly(db, Prepare(db, project, session, config, at, env, QUIET), project, session, config)
  {
    var s := ReadSnapshot(db, project, session, config).value;
    if AllMarked(s) {
      assert Prepare(db, project, session, config, at, env, QUIET) == Prepared(db, Ok(s));
    } else {
      MarkingSucceeds(db, project, session, config, s, at);
      QuietMarking(db, project, session, config, s, at, env, EnsureWatermarks(db, project, at, KeysOf(s)).value);
    }
  }

  lemma QuietMarking(db: Db, project: string, session: string, config: GateConfig, s: Snapshot, at: int, env: Environment, after: Db)
    requires RuleHistory.Inv(db) && InTimeToPrepare(env) && ReadSnapshot(db, project, session, config) == Ok(s) && !AllMarked(s)
    requires EnsureWatermarks(db, project, at, KeysOf(s)) == Ok(after)
    ensures PreparedQuietly(db, Prepare(db, project, session, config, at, env, QUIET), project, session, config)
  {
    MarkedState(db, project, session, config, s, at);
    EveryRuleMarked(db, project, session, config, s, at);
    UnmarkedNeedsRefresh(db, project, session, config, s);
    QuietSecondRead(db, project, session, config, s, at, env, after);
  }

  function MarkedFirst(project: string, at: int, s: Snapshot): Interference {
    QUIET.(beforeMarks := [EnsureStep(project, at, KeysOf(s))])
  }

  /**
   Two evaluators read the same unmarked rules. Whoever marks first prepares a snapshot; the other one finds the rules
   marked by then, is not asked to read again, and faults, in every reachable state.
   */
  lemma SecondMarkerFaults(db: Db, project: string, session: string, config: GateConfig, s: Snapshot, first: int, second: int, env: Environment)
    requires RuleHistory.Inv(db) && InTimeToPrepare(env)
    requires ReadSnapshot(db, project, session, config) == Ok(s) && !AllMarked(s)
    ensures Prepare(db, project, session, config, first, env, QUIET).result.Ok?
    ensures Prepare(db, project, session, config, second, env, MarkedFirst(project, first, s)).result == Err(RuleMalformed)
  {
    QuietPreparation(db, project, session, config, first, env);
    MarkingSucceeds(db, project, session, config, s, first);
    var after := EnsureWatermarks(db, project, first, KeysOf(s)).value;
    MarkedState(db, project, session, config, s, first);
    MarkingAgain(db, after, project, session, config, s, first, second);
    FaultsAfter(db, after, project, session, config, s, first, second, env);
  }

  lemma FaultsAfter(db: Db, after: Db, project: string, session: string, config: GateConfig, s: Snapshot, first: int, second: int, env: Environment)
    requires InTimeToPrepare(env) && ReadSnapshot(db, project, session, config) == Ok(s) && !AllMarked(s)
    requires EnsureWatermarks(db, project, first, KeysOf(s)) == Ok(after) && MarkedOnce(after, project, KeysOf(s))
    requires EnsureWatermarks(after, project, second, KeysOf(s)).Ok?
    ensures Prepare(db, project, session, config, second, env, MarkedFirst(project, first, s)).result == Err(RuleMalformed)
  {
    RunOne(db, EnsureStep(project, first, KeysOf(s)));
    MalformedIff(db, project, session, config, second, env, MarkedFirst(project, first, s));
  }

  lemma MarkingAgain(db: Db, after: Db, project: string, session: string, config: GateConfig, s: Snapshot, first: int, at: int)
    requires RuleHistory.Inv(db) && ReadSnapshot(db, project, session, config) == Ok(s)
    requires EnsureWatermarks(db, project, first, KeysOf(s)) == Ok(after)
    ensures EnsureWatermarks(after, project, at, KeysOf(s)).Ok?
  {
    MarkedState(db, project, session, config, s, first);
    FewMarks(after, project);
    EveryRuleMarked(db, project, session, config, s, first);
    SameReads(db, after, project, session, config);
    FewMatchesSucceed(after, project, at, ShadowSequence(after, project), WatermarkRows(after, project), KeysOf(s));
  }

  // --- the smallest such history ---------------------------------------------------------------------------

  const ONE_RULE := CreateStep("p", "r", RuleContent({PreExit}, Block, ["g"], []), 0)

  function OneRule(): Db {
    RunSteps(EMPTY, [ONE_RULE])
  }

  lemma OneRuleState()
    ensures OneRule().rules == [RuleRow(1, "p", "r", 1, Active, {PreExit}, Block, ["g"], [], None, None, 0)]
    ensures OneRule() == EMPTY.(rules := OneRule().rules, lastMemoryId := 1,
              audit := [AuditRow(1, "p", 0, Some("r"), Some(1), None, RuleChange(1, Active))], lastAuditId := 1)
  {
    RunOne(EMPTY, ONE_RULE);
    assert EMPTY.rules + OneRule().rules == OneRule().rules;
    assert Filter(Family("p", "r"), EMPTY.rules) == [];
  }

  lemma OneRuleInv()
    ensures RuleHistory.Inv(OneRule())
  {
    RuleHistory.HistoryKeepsInv([ONE_RULE], 1);
    assert [ONE_RULE][..1] == [ONE_RULE] && RuleHistory.At([ONE_RULE], 1) == OneRule();
  }

  lemma OneRuleRead(session: string, config: GateConfig) returns (s: Snapshot)
    ensures ReadSnapshot(OneRule(), "p", session, config) == Ok(s) && !AllMarked(s)
  {
    OneRuleState();
    OneRuleInv();
    var db := OneRule();
    var rules := ActiveRules(db, "p");
    FewMarks(db, "p");
    NoneMarkedTwice(db, "p");
    assert db.rules[0] in rules;
    assert |rules| <= |db.rules| == 1;
    assert WatermarkRows(db, "p") == [];
    s := ReadSnapshot(db, "p", session, config).value;
    assert s.rules[0] == WithWatermark(rules[0], []);
  }

  /** One rule, two evaluators: after the first has marked it, the second one's evaluation is lost to a malformed rule. */
  lemma TwoEvaluators(session: string, config: GateConfig, env: Environment)
    requires InTimeToPrepare(env)
    ensures var keys := [RuleKey(1, "r", 1)];
            && Prepare(EMPTY, "p", session, config, 1, env, Interference([ONE_RULE], [], [], [])).result.Ok?
            && Prepare(EMPTY, "p", session, config, 2, env, Interference([ONE_RULE], [EnsureStep("p", 1, keys)], [], [])).result
               == Err(RuleMalformed)
  {
    OneRuleState();
    OneRuleInv();
    var s := OneRuleRead(session, config);
    SecondMarkerFaults(OneRule(), "p", session, config, s, 1, 2, env);
    SnapshotRuleOf(OneRule(), "p", session, config, s, 0);
    assert KeysOf(s) == [RuleKey(1, "r", 1)];
    SameFrom(session, config, 1, env, QUIET);
    SameFrom(session, config, 2, env, MarkedFirst("p", 1, s));
  }

  lemma SameFrom(session: string, config: GateConfig, at: int, env: Environment, others: Interference)
    requires others.beforeRead == []
    ensures Prepare(EMPTY, "p", session, config, at, env, others.(beforeRead := [ONE_RULE]))
         == Prepare(OneRule(), "p", session, config, at, env, others)
  {}
}
