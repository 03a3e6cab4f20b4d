/**
 The governance tables and the transactions that change them.

 A table is the sequence of its rows in insertion order; `AUTOINCREMENT` is a counter that only grows.
 Every transaction is a function from one database to the next, or to an error, which rolls it back.
 */
module GovernanceDb {
  import opened Rows
  import opened EvidenceSelector

  datatype HookEvent = PostToolUse | PostToolUseFailure | FileChanged
  datatype Phase = CreatePhase | PreImplement | During | PreExit
  datatype Level = Advise | Warn | Block
  datatype RuleStatus = Active | Superseded | Disabled | Retired

  datatype EventRow = EventRow(
    eventSeq: nat, project: string, session: string, client: string, hook: HookEvent,
    toolUseId: Option<string>, fingerprint: Option<string>, mutationClass: MutationClass,
    affectedPaths: seq<string>, mutationSeq: nat, createdAt: int)

  datatype RunRow = RunRow(project: string, session: string, client: string, createdAt: int, run: GateRun)

  datatype RuleRow = RuleRow(
    memoryId: nat, project: string, ruleId: string, revision: nat, status: RuleStatus, phases: set<Phase>,
    level: Level, gateIds: seq<string>, paths: seq<string>, supersedes: Option<nat>, supersededBy: Option<nat>,
    createdAt: int)

  datatype Sequence = Sequence(eventSeq: nat, mutationSeq: nat)

  datatype Entry =
    | RuleChange(revision: nat, status: RuleStatus)
    | RuleWatermark(revision: nat, sequence: Sequence)
    | StopVerdict(verdict: VerdictInput)
    | Incident
    | RetentionRun

  datatype AuditRow = AuditRow(
    id: nat, project: string, occurredAt: int, linkedRuleId: Option<string>, linkedMemoryId: Option<nat>,
    linkedEventSeq: Option<nat>, entry: Entry)

  datatype Outcome = Pass | MissingEvidence | NonPassing | Stale | Degraded | NotApplicable | SelfErrorResult

  datatype Fault =
    | ConfigInvalid | RuleMalformed | EvidenceMalformed | UnsupportedAdapterVersion | DigestFault
    | DeadlineExceeded | ConcurrentMutation | BoundExceeded | AuditWriteFailed

  datatype GateVerdict = GateVerdict(gateId: string, classified: Classified)

  datatype VerdictRule = VerdictRule(ruleId: string, memoryId: nat, revision: nat, watermark: nat)

  datatype VerdictInput = VerdictInput(
    project: string, session: string, config: GateConfig, result: Outcome, fault: Option<Fault>,
    evaluatedThrough: Sequence, rules: seq<VerdictRule>, required: seq<string>, gates: seq<GateVerdict>,
    retryCount: nat, occurredAt: int)

  const ACTIVE_RULES := 64
  const CANDIDATE_GATE_RUNS := 2_048
  const SESSION_EVENTS := 4_096
  const REQUIRED_GATES := 32
  const MIN_EVIDENCE_DAYS := 1
  const MAX_EVIDENCE_DAYS := 30
  const MAX_LIFECYCLE_DAYS := 3_650
  const MS_PER_DAY := 86_400_000

  datatype Db = Db(
    events: seq<EventRow>, lastEventSeq: nat,
    runs: seq<RunRow>,
    mutation: map<string, nat>,
    evidenceDays: map<string, nat>,
    rules: seq<RuleRow>, lastMemoryId: nat,
    audit: seq<AuditRow>, lastAuditId: nat)

  const EMPTY := Db([], 0, [], map[], map[], [], 0, [], 0)

  function DaysBefore(now: int, days: int): int {
    now - days * MS_PER_DAY
  }

  // --- sequence reads -----------------------------------------------------------------------------

  function MaxEventSeq(events: seq<EventRow>, project: string): (m: nat)
    ensures forall e :: e in events && e.project == project ==> e.eventSeq <= m
    ensures m == 0 || exists e :: e in events && e.project == project && e.eventSeq == m
  {
    if events == [] then 0
    else
      assert forall e :: e in events <==> e == events[0] || e in events[1..];
      var rest := MaxEventSeq(events[1..], project);
      if events[0].project == project && events[0].eventSeq > rest then events[0].eventSeq else rest
  }

  function MaxMutationSeq(events: seq<EventRow>, project: string): (m: nat)
    ensures forall e :: e in events && e.project == project ==> e.mutationSeq <= m
    ensures m == 0 || exists e :: e in events && e.project == project && e.mutationSeq == m
  {
    if events == [] then 0
    else
      assert forall e :: e in events <==> e == events[0] || e in events[1..];
      var rest := MaxMutationSeq(events[1..], project);
      if events[0].project == project && events[0].mutationSeq > rest then events[0].mutationSeq else rest
  }

  /** The persisted counter, or the largest stored number where none was ever persisted. */
  function CurrentMutationSequence(db: Db, project: string): nat {
    if project in db.mutation then db.mutation[project] else MaxMutationSeq(db.events, project)
  }

  function ShadowSequence(db: Db, project: string): Sequence {
    Sequence(MaxEventSeq(db.events, project), CurrentMutationSequence(db, project))
  }

  // --- recording a hook event ----------------------------------------------------------------------

  datatype EventInput = EventInput(
    project: string, session: string, client: string, hook: HookEvent, toolUseId: Option<string>,
    fingerprint: Option<string>, mutationClass: MutationClass, affectedPaths: seq<string>, receivedAt: int,
    captured: bool)

  /** `runs` carry their evidence; the transaction fills in the event and mutation numbers. */
  datatype RecordInput = RecordInput(event: EventInput, runs: seq<GateRun>, evidenceDays: int)

  datatype RecordResult = RecordResult(deduplicated: bool, eventSeq: nat, mutationSeq: nat)

  predicate SameDelivery(row: EventRow, e: EventInput) {
    row.client == e.client && row.session == e.session && row.toolUseId == e.toolUseId && row.hook == e.hook
  }

  predicate SameFileDelivery(row: EventRow, e: EventInput) {
    row.client == e.client && row.session == e.session && row.hook == FileChanged && row.fingerprint == e.fingerprint
  }

  function DedupedEvent(db: Db, e: EventInput): Option<EventRow> {
    var byTool := if e.toolUseId.Some? then Find((row: EventRow) => SameDelivery(row, e), db.events) else None;
    if byTool.Some? then byTool
    else if e.hook == FileChanged && e.fingerprint.Some? then Find((row: EventRow) => SameFileDelivery(row, e), db.events)
    else None
  }

  /** The other hook of the same tool call already reported the same set of scoped paths. */
  predicate IsCorrelatedMutation(db: Db, e: EventInput) {
    && e.toolUseId.Some? && e.mutationClass == Scoped
    && exists i :: 0 <= i < |db.events| && Correlates(db.events[i], e)
  }

  predicate Correlates(row: EventRow, e: EventInput) {
    && row.project == e.project && row.client == e.client && row.session == e.session
    && row.toolUseId == e.toolUseId && row.hook != e.hook && row.mutationClass == Scoped
    && multiset(row.affectedPaths) == multiset(e.affectedPaths)
  }

  predicate Increments(db: Db, e: EventInput) {
    e.mutationClass != NoMutation && !IsCorrelatedMutation(db, e)
  }

  predicate ValidDays(days: int) {
    MIN_EVIDENCE_DAYS <= days <= MAX_EVIDENCE_DAYS
  }

  predicate DistinctGates(runs: seq<GateRun>) {
    forall i, j :: 0 <= i < j < |runs| ==> runs[i].gateId != runs[j].gateId
  }

  function StoredRun(run: GateRun, e: EventInput, eventSeq: nat, mutationSeq: nat): RunRow {
    RunRow(e.project, e.session, e.client, e.receivedAt, run.(eventSeq := eventSeq, mutationSeq := mutationSeq))
  }

  function StoredRuns(runs: seq<GateRun>, e: EventInput, eventSeq: nat, mutationSeq: nat): (rows: seq<RunRow>)
    ensures |rows| == |runs| && forall i :: 0 <= i < |runs| ==> rows[i] == StoredRun(runs[i], e, eventSeq, mutationSeq)
  {
    seq(|runs|, i requires 0 <= i < |runs| => StoredRun(runs[i], e, eventSeq, mutationSeq))
  }

  function IncidentRow(e: EventInput, eventSeq: nat, id: nat): AuditRow {
    AuditRow(id, e.project, e.receivedAt, None, None, Some(eventSeq), Incident)
  }

  /** Incident rows for the runs with an incomplete capture, then one for an uncaptured event. */
  function Incidents(runs: seq<GateRun>, e: EventInput, eventSeq: nat, nextId: nat): seq<AuditRow> {
    if runs == [] then (if e.captured then [] else [IncidentRow(e, eventSeq, nextId)])
    else if runs[0].capture == CaptureIncomplete then
      [IncidentRow(e, eventSeq, nextId)] + Incidents(runs[1..], e, eventSeq, nextId + 1)
    else Incidents(runs[1..], e, eventSeq, nextId)
  }

  function RowFor(e: EventInput, eventSeq: nat, mutationSeq: nat): EventRow {
    EventRow(eventSeq, e.project, e.session, e.client, e.hook, e.toolUseId, e.fingerprint, e.mutationClass,
      e.affectedPaths, mutationSeq, e.receivedAt)
  }

  /** The rows of a new event under the next order number, and the counter where it moved. */
  function WithEvent(db: Db, input: RecordInput, mutationSeq: nat, increments: bool): Db {
    var e, eventSeq := input.event, db.lastEventSeq + 1;
    var incidents := Incidents(input.runs, e, eventSeq, db.lastAuditId + 1);
    db.(events := db.events + [RowFor(e, eventSeq, mutationSeq)],
        lastEventSeq := eventSeq,
        runs := db.runs + StoredRuns(input.runs, e, eventSeq, mutationSeq),
        mutation := if increments then db.mutation[e.project := mutationSeq] else db.mutation,
        audit := db.audit + incidents,
        lastAuditId := db.lastAuditId + |incidents|)
  }

  /** One immediate transaction: order number, mutation number, event row, gate runs, incidents. */
  function Record(db: Db, input: RecordInput): Result<(Db, RecordResult), Fault> {
    var e := input.event;
    if !ValidDays(input.evidenceDays) then Err(BoundExceeded)
    else
      var swept := db.(evidenceDays := db.evidenceDays[e.project := input.evidenceDays]);
      var duplicate := DedupedEvent(db, e);
      if duplicate.Some? then Ok((swept, RecordResult(true, duplicate.value.eventSeq, duplicate.value.mutationSeq)))
      else if !DistinctGates(input.runs) then Err(AuditWriteFailed)
      else
        var current := CurrentMutationSequence(db, e.project);
        var mutationSeq := if Increments(db, e) then current + 1 else current;
        Ok((WithEvent(swept, input, mutationSeq, Increments(db, e)), RecordResult(false, db.lastEventSeq + 1, mutationSeq)))
  }

  // --- rule revisions ------------------------------------------------------------------------------

  predicate InFamily(r: RuleRow, project: string, ruleId: string) {
    r.project == project && r.ruleId == ruleId
  }

  function Family(project: string, ruleId: string): RuleRow -> bool {
    (r: RuleRow) => InFamily(r, project, ruleId)
  }

  function History(db: Db, project: string, ruleId: string): seq<RuleRow> {
    Filter(Family(project, ruleId), db.rules)
  }

  /** The unsuperseded row of a family. */
  function Current(db: Db, project: string, ruleId: string): Option<RuleRow> {
    Find((r: RuleRow) => InFamily(r, project, ruleId) && r.supersededBy.None?, db.rules)
  }

  datatype RuleContent = RuleContent(phases: set<Phase>, level: Level, gateIds: seq<string>, paths: seq<string>)

  /** A revision computed from an earlier read, waiting for its transaction. */
  datatype Revision = Revision(
    project: string, ruleId: string, revision: nat, status: RuleStatus, content: RuleContent,
    supersedes: Option<nat>, at: int)

  function Supersede(oldId: nat, newId: nat): RuleRow -> RuleRow {
    (r: RuleRow) => if r.memoryId == oldId then r.(supersededBy := Some(newId)) else r
  }

  function CurrentAt(memoryId: nat): RuleRow -> bool {
    (r: RuleRow) => r.memoryId == memoryId && r.supersededBy.None?
  }

  function RevisionRow(p: Revision, id: nat): RuleRow {
    RuleRow(id, p.project, p.ruleId, p.revision, p.status, p.content.phases, p.content.level, p.content.gateIds, p.content.paths,
      p.supersedes, None, p.at)
  }

  /** Insert the row, then supersede the one it was computed from; if that one is already superseded, roll back. */
  function InsertRevision(db: Db, p: Revision): Result<Db, Fault> {
    if p.supersedes.Some? && Find(CurrentAt(p.supersedes.value), db.rules).None? then Err(ConcurrentMutation)
    else
      var id := db.lastMemoryId + 1;
      var row := RevisionRow(p, id);
      var auditId := db.lastAuditId + 1;
      Ok(db.(
        rules := (if p.supersedes.Some? then Map(Supersede(p.supersedes.value, id), db.rules) else db.rules)
                 + [row],
        lastMemoryId := id,
        audit := db.audit + [AuditRow(auditId, p.project, p.at, Some(p.ruleId), Some(id), None, RuleChange(p.revision, p.status))],
        lastAuditId := auditId))
  }

  /** Creation with its history check, as one step. */
  function CreateRule(db: Db, project: string, ruleId: string, content: RuleContent, at: int): Result<Db, Fault> {
    if History(db, project, ruleId) != [] then Err(RuleMalformed)
    else InsertRevision(db, Revision(project, ruleId, 1, Active, content, None, at))
  }

  /** What a supersede, disable or retire call works out from the row it read. */
  predicate AllowedTransition(from: RuleStatus, to: RuleStatus) {
    match to
    case Active => from == Active
    case Disabled => from == Active
    case Retired => from == Active || from == Disabled
    case Superseded => false
  }

  function NextRevision(read: RuleRow, status: RuleStatus, content: RuleContent, at: int): Revision {
    Revision(read.project, read.ruleId, read.revision + 1, status, content, Some(read.memoryId), at)
  }

  // --- reading a snapshot and marking first-seen revisions -------------------------------------------

  datatype SnapshotRule = SnapshotRule(row: RuleRow, watermark: Option<Sequence>)

  datatype Snapshot = Snapshot(
    project: string, session: string, config: GateConfig, sequence: Sequence, rules: seq<SnapshotRule>,
    events: seq<MutationEvent>, runs: seq<GateRun>)

  predicate ActivePreExit(r: RuleRow, project: string) {
    r.project == project && r.supersededBy.None? && r.status == Active && PreExit in r.phases
  }

  function ActiveIn(project: string): RuleRow -> bool {
    (r: RuleRow) => ActivePreExit(r, project)
  }

  function ActiveRules(db: Db, project: string): seq<RuleRow> {
    Filter(ActiveIn(project), db.rules)
  }

  predicate MarksActiveRule(a: AuditRow, db: Db, project: string) {
    && a.project == project && a.entry.RuleWatermark? && a.linkedRuleId.Some? && a.linkedMemoryId.Some?
    && exists i :: 0 <= i < |db.rules| && db.rules[i].memoryId == a.linkedMemoryId.value && ActivePreExit(db.rules[i], project)
  }

  function MarkOf(db: Db, project: string): AuditRow -> bool {
    (a: AuditRow) => MarksActiveRule(a, db, project)
  }

  /** Watermark rows joined with the rule row they were written for. */
  function WatermarkRows(db: Db, project: string): seq<AuditRow> {
    Filter(MarkOf(db, project), db.audit)
  }

  predicate Marks(a: AuditRow, ruleId: string, revision: nat) {
    a.entry.RuleWatermark? && a.linkedRuleId == Some(ruleId) && a.entry.revision == revision
  }

  function MarksRevision(ruleId: string, revision: nat): AuditRow -> bool {
    (a: AuditRow) => Marks(a, ruleId, revision)
  }

  function WatermarksOf(rows: seq<AuditRow>, ruleId: string, revision: nat): seq<AuditRow> {
    Filter(MarksRevision(ruleId, revision), rows)
  }

  function WithWatermark(r: RuleRow, rows: seq<AuditRow>): SnapshotRule {
    var matching := WatermarksOf(rows, r.ruleId, r.revision);
    assert matching != [] ==> matching[0] in matching;
    SnapshotRule(r, if matching == [] then None else Some(matching[0].entry.sequence))
  }

  function ToMutationEvent(e: EventRow): MutationEvent {
    MutationEvent(e.eventSeq, e.mutationSeq, e.mutationClass, e.affectedPaths)
  }

  predicate InSession(project: string, session: string, rowProject: string, rowSession: string) {
    rowProject == project && rowSession == session
  }

  function SessionEvents(db: Db, project: string, session: string): seq<EventRow> {
    Filter((e: EventRow) => InSession(project, session, e.project, e.session), db.events)
  }

  function SessionRuns(db: Db, project: string, session: string, config: GateConfig): seq<RunRow> {
    Filter((r: RunRow) => InSession(project, session, r.project, r.session) && r.run.config == config, db.runs)
  }

  /** All evaluator inputs, read from one database state. */
  function ReadSnapshot(db: Db, project: string, session: string, config: GateConfig): Result<Snapshot, Fault> {
    var rules, rows := ActiveRules(db, project), WatermarkRows(db, project);
    var events, runs := SessionEvents(db, project, session), SessionRuns(db, project, session, config);
    if |rules| > ACTIVE_RULES || |rows| > 2 * ACTIVE_RULES || |events| > SESSION_EVENTS || |runs| > CANDIDATE_GATE_RUNS then
      Err(BoundExceeded)
    else if exists i :: 0 <= i < |rules| && |WatermarksOf(rows, rules[i].ruleId, rules[i].revision)| > 1 then
      Err(EvidenceMalformed)
    else
      Ok(Snapshot(project, session, config, ShadowSequence(db, project),
        Map((r: RuleRow) => WithWatermark(r, rows), rules), Map(ToMutationEvent, events), Map((r: RunRow) => r.run, runs)))
  }

  datatype RuleKey = RuleKey(memoryId: nat, ruleId: string, revision: nat)

  predicate IsCurrentRevision(r: RuleRow, project: string, key: RuleKey) {
    ActivePreExit(r, project) && r.memoryId == key.memoryId && r.ruleId == key.ruleId && r.revision == key.revision
  }

  /** One rule of the marking loop: keep a mark, note a vanished rule, or append a mark. */
  function EnsureOne(db: Db, project: string, at: int, sequence: Sequence, existing: seq<AuditRow>, key: RuleKey): Result<Db, Fault> {
    var matching := WatermarksOf(existing, key.ruleId, key.revision);
    if |matching| > 1 then Err(EvidenceMalformed)
    else if |matching| == 1 then Ok(db)
    else if !exists i :: 0 <= i < |db.rules| && IsCurrentRevision(db.rules[i], project, key) then Ok(db)
    else
      var id := db.lastAuditId + 1;
      Ok(db.(
        audit := db.audit + [AuditRow(id, project, at, Some(key.ruleId), Some(key.memoryId), None, RuleWatermark(key.revision, sequence))],
        lastAuditId := id))
  }

  function EnsureAll(db: Db, project: string, at: int, sequence: Sequence, existing: seq<AuditRow>, keys: seq<RuleKey>): Result<Db, Fault>
    decreases |keys|
  {
    if keys == [] then Ok(db)
    else
      var one := EnsureOne(db, project, at, sequence, existing, keys[0]);
      if one.Err? then one else EnsureAll(one.value, project, at, sequence, existing, keys[1..])
  }

  predicate DistinctRevisions(keys: seq<RuleKey>) {
    forall i, j :: 0 <= i < j < |keys| ==> (keys[i].ruleId, keys[i].revision) != (keys[j].ruleId, keys[j].revision)
  }

  /** First-seen marks for the given revisions, all at one sequence, in one transaction. */
  function EnsureWatermarks(db: Db, project: string, at: int, keys: seq<RuleKey>): Result<Db, Fault> {
    var existing := WatermarkRows(db, project);
    if |keys| > ACTIVE_RULES || |existing| > 2 * ACTIVE_RULES then Err(BoundExceeded)
    else if !DistinctRevisions(keys) then Err(RuleMalformed)
    else EnsureAll(db, project, at, ShadowSequence(db, project), existing, keys)
  }

  /** The snapshot must be read again when some rule had no mark: it was just marked, or it is gone. */
  predicate RequiresRefresh(db: Db, project: string, keys: seq<RuleKey>) {
    exists i :: 0 <= i < |keys| && WatermarksOf(WatermarkRows(db, project), keys[i].ruleId, keys[i].revision) == []
  }

  // --- committing a verdict ---------------------------------------------------------------------------

  predicate ValidVerdict(v: VerdictInput) {
    && |v.required| <= REQUIRED_GATES && Distinct(v.required)
    && |v.gates| <= REQUIRED_GATES
    && (forall i, j :: 0 <= i < j < |v.gates| ==> v.gates[i].gateId != v.gates[j].gateId)
    && (forall i :: 0 <= i < |v.gates| ==> v.gates[i].gateId in v.required)
    && |v.rules| <= ACTIVE_RULES
    && (forall i, j :: 0 <= i < j < |v.rules| ==> v.rules[i].ruleId != v.rules[j].ruleId)
    && v.retryCount <= 1
  }

  datatype PersistResult = Persisted(auditId: nat) | Retry | NotPersisted(fault: Fault)

  function SoleRule(v: VerdictInput): Option<VerdictRule> {
    if |v.rules| == 1 then Some(v.rules[0]) else None
  }

  function SoleEvidence(v: VerdictInput): Option<nat> {
    if |v.gates| == 1 && v.required == [v.gates[0].gateId] then v.gates[0].classified.evidenceEventSeq else None
  }

  /** The audit row of a verdict, linked to its only rule and to the evidence of its only gate. */
  function VerdictRow(v: VerdictInput, id: nat): AuditRow {
    var rule := SoleRule(v);
    AuditRow(id, v.project, v.occurredAt, if rule.Some? then Some(rule.value.ruleId) else None,
      if rule.Some? then Some(rule.value.memoryId) else None, SoleEvidence(v), StopVerdict(v))
  }

  /** A linked rule or event is gone, so the foreign keys reject the row. */
  predicate VerdictDangles(db: Db, v: VerdictInput) {
    var rule, evidence := SoleRule(v), SoleEvidence(v);
    || (rule.Some? && !exists i :: 0 <= i < |db.rules| && db.rules[i].memoryId == rule.value.memoryId)
    || (evidence.Some? && !exists i :: 0 <= i < |db.events| && db.events[i].eventSeq == evidence.value)
  }

  /** The sequence check and the audit insert share one transaction. */
  function PersistVerdict(db: Db, v: VerdictInput): (Db, PersistResult) {
    if !ValidVerdict(v) then (db, NotPersisted(BoundExceeded))
    else if ShadowSequence(db, v.project) != v.evaluatedThrough then
      (db, if v.retryCount == 0 then Retry else NotPersisted(ConcurrentMutation))
    else if VerdictDangles(db, v) then (db, NotPersisted(AuditWriteFailed))
    else (db.(audit := db.audit + [VerdictRow(v, db.lastAuditId + 1)], lastAuditId := db.lastAuditId + 1),
          Persisted(db.lastAuditId + 1))
  }

  // --- retention ----------------------------------------------------------------------------------------

  predicate ExpiredRun(r: RunRow, project: string, cutoff: int) {
    r.project == project && r.createdAt < cutoff
  }

  predicate Referenced(db: Db, eventSeq: nat) {
    || (exists i :: 0 <= i < |db.runs| && db.runs[i].run.eventSeq == eventSeq)
    || (exists i :: 0 <= i < |db.audit| && db.audit[i].linkedEventSeq == Some(eventSeq))
  }

  /** Delete a project's old runs, then its old events that no run and no audit row refers to. */
  function CleanupProject(db: Db, project: string, cutoff: int, now: int): Db {
    var pruned := db.(runs := Filter((r: RunRow) => !ExpiredRun(r, project, cutoff), db.runs));
    var kept := Filter(
      (e: EventRow) => !(e.project == project && e.createdAt < cutoff && !Referenced(pruned, e.eventSeq)), db.events);
    var id := db.lastAuditId + 1;
    if |pruned.runs| < |db.runs| || |kept| < |db.events| then
      pruned.(events := kept, audit := db.audit + [AuditRow(id, project, now, None, None, None, RetentionRun)], lastAuditId := id)
    else pruned.(events := kept)
  }

  datatype Retention = Retention(defaultDays: int, projectDays: map<string, int>)

  function DaysFor(db: Db, project: string, r: Retention): int {
    if project in r.projectDays then r.projectDays[project]
    else if project in db.evidenceDays then db.evidenceDays[project]
    else r.defaultDays
  }

  function CleanupProjects(db: Db, projects: seq<string>, r: Retention, now: int): Result<Db, Fault>
    decreases |projects|
  {
    if projects == [] then Ok(db)
    else if !ValidDays(DaysFor(db, projects[0], r)) then Err(BoundExceeded)
    else CleanupProjects(CleanupProject(db, projects[0], DaysBefore(now, DaysFor(db, projects[0], r)), now), projects[1..], r, now)
  }

  /** Evidence retention over the projects listed before the transaction began. */
  function CleanupEvidence(db: Db, projects: seq<string>, r: Retention, now: int): Result<Db, Fault> {
    if !ValidDays(r.defaultDays) then Err(BoundExceeded) else CleanupProjects(db, projects, r, now)
  }

  predicate RetiredBefore(r: RuleRow, project: string, cutoff: int) {
    r.project == project && r.supersededBy.None? && r.status == Retired && r.createdAt < cutoff
  }

  function RetiredFamilies(db: Db, project: string, cutoff: int): seq<string> {
    Map((r: RuleRow) => r.ruleId, Filter((r: RuleRow) => RetiredBefore(r, project, cutoff), db.rules))
  }

  predicate LinkedTo(a: AuditRow, project: string, ruleId: string) {
    a.project == project && a.linkedRuleId == Some(ruleId)
  }

  function Unlinked(project: string, ruleId: string): AuditRow -> bool {
    (a: AuditRow) => !LinkedTo(a, project, ruleId)
  }

  function Outside(project: string, ruleId: string): RuleRow -> bool {
    (r: RuleRow) => !InFamily(r, project, ruleId)
  }

  /** One retired family: its audit rows, then all its revisions. */
  function DropFamily(db: Db, project: string, ruleId: string): Db {
    db.(audit := Filter(Unlinked(project, ruleId), db.audit), rules := Filter(Outside(project, ruleId), db.rules))
  }

  /** An audit row may not outlive the rule row it refers to: the foreign key rejects such a delete. */
  predicate AuditKeysHold(db: Db) {
    forall i :: 0 <= i < |db.audit| && db.audit[i].linkedMemoryId.Some? ==>
      exists j :: 0 <= j < |db.rules| && db.rules[j].memoryId == db.audit[i].linkedMemoryId.value
  }

  function DropFamilies(db: Db, project: string, ruleIds: seq<string>): Result<Db, Fault>
    decreases |ruleIds|
  {
    if ruleIds == [] then Ok(db)
    else
      var dropped := DropFamily(db, project, ruleIds[0]);
      if AuditKeysHold(dropped) then DropFamilies(dropped, project, ruleIds[1..]) else Err(AuditWriteFailed)
  }

  function DropRetired(db: Db, project: string, cutoff: int): Result<Db, Fault> {
    DropFamilies(db, project, RetiredFamilies(db, project, cutoff))
  }

  predicate Explains(a: AuditRow, db: Db) {
    a.linkedRuleId.Some? && exists i :: 0 <= i < |db.rules| && InFamily(db.rules[i], a.project, a.linkedRuleId.value)
  }

  predicate ExpiredAudit(a: AuditRow, db: Db, project: string, cutoff: int) {
    a.project == project && a.occurredAt < cutoff && !Explains(a, db)
  }

  function KeepsAudit(db: Db, project: string, cutoff: int): AuditRow -> bool {
    (a: AuditRow) => !ExpiredAudit(a, db, project, cutoff)
  }

  /** Old audit rows that explain no rule; the deletions themselves are audited. */
  function PruneAudit(db: Db, project: string, cutoff: int, now: int, hadAudit: nat, hadRules: nat): Db {
    var kept := db.(audit := Filter(KeepsAudit(db, project, cutoff), db.audit));
    var id := db.lastAuditId + 1;
    if |kept.audit| == hadAudit && |kept.rules| == hadRules then kept
    else kept.(audit := kept.audit + [AuditRow(id, project, now, None, None, None, RetentionRun)], lastAuditId := id)
  }

  function CleanupLifecycle(db: Db, project: string, auditDays: int, ruleDays: int, now: int): Result<Db, Fault> {
    if !(1 <= auditDays <= MAX_LIFECYCLE_DAYS && 1 <= ruleDays <= MAX_LIFECYCLE_DAYS) then Err(BoundExceeded)
    else
      var joint := if auditDays > ruleDays then auditDays else ruleDays;
      var dropped := DropRetired(db, project, DaysBefore(now, joint));
      if dropped.Err? then dropped
      else Ok(PruneAudit(dropped.value, project, DaysBefore(now, auditDays), now, |db.audit|, |db.rules|))
  }

  // --- histories -------------------------------------------------------------------------------------------

  datatype Step =
    | RecordStep(input: RecordInput)
    | CreateStep(project: string, ruleId: string, content: RuleContent, at: int)
    | RevisionStep(revision: Revision)
    | EnsureStep(project: string, at: int, keys: seq<RuleKey>)
    | VerdictStep(verdict: VerdictInput)
    | EvidenceCleanupStep(projects: seq<string>, retention: Retention, now: int)
    | LifecycleCleanupStep(project: string, auditDays: int, ruleDays: int, now: int)

  function OrElse(db: Db, r: Result<Db, Fault>): Db {
    if r.Ok? then r.value else db
  }

  /** A transaction that fails leaves the database as it was. */
  function Apply(db: Db, s: Step): Db {
    match s
    case RecordStep(input) => var r := Record(db, input); if r.Ok? then r.value.0 else db
    case CreateStep(project, ruleId, content, at) => OrElse(db, CreateRule(db, project, ruleId, content, at))
    case RevisionStep(revision) => OrElse(db, InsertRevision(db, revision))
    case EnsureStep(project, at, keys) => OrElse(db, EnsureWatermarks(db, project, at, keys))
    case VerdictStep(v) => PersistVerdict(db, v).0
    case EvidenceCleanupStep(projects, retention, now) => OrElse(db, CleanupEvidence(db, projects, retention, now))
    case LifecycleCleanupStep(project, auditDays, ruleDays, now) => OrElse(db, CleanupLifecycle(db, project, auditDays, ruleDays, now))
  }

  /** Any number of transactions, by any processes, in the order they committed. */
  function RunSteps(db: Db, steps: seq<Step>): Db
    decreases |steps|
  {
    if steps == [] then db else RunSteps(Apply(db, steps[0]), steps[1..])
  }

  lemma {:induction false} RunConcat(db: Db, a: seq<Step>, b: seq<Step>)
    ensures RunSteps(db, a + b) == RunSteps(RunSteps(db, a), b)
    decreases |a|
  {
    if a == [] { assert a + b == b; }
    else { assert (a + b)[0] == a[0] && (a + b)[1..] == a[1..] + b; RunConcat(Apply(db, a[0]), a[1..], b); }
  }

  lemma RunOne(db: Db, s: Step)
    ensures RunSteps(db, [s]) == Apply(db, s)
  {
    assert [s][1..] == [];
  }
}
