/** What a `pass` says about the commands behind it, when every stored run came from the recorder. */
module CommandEvidence {
  import opened Rows
  import opened EvidenceSelector
  import opened GovernanceDb
  import opened ShadowEvaluator
  import opened Recorder
  import EventHistory
  import PassHistory

  /** Every recorder transaction carries the runs of one hook event, as the gate loop built them. */
  ghost predicate FromRecorder(steps: seq<Step>) {
    forall i :: 0 <= i < |steps| && steps[i].RecordStep? ==>
      WellRecorded(steps[i].input.runs, steps[i].input.event.mutationClass)
  }

  /** All stored runs of an event are of one command, which also explains the event's class. */
  predicate CommandOf(db: Db, e: EventRow, argv: seq<string>) {
    forall i :: 0 <= i < |db.runs| && db.runs[i].run.eventSeq == e.eventSeq ==>
      AttestedBy(db.runs[i].run, argv) && CommandClass(argv, e.mutationClass)
  }

  ghost predicate Attested(db: Db) {
    forall e :: e in db.events ==> exists argv :: CommandOf(db, e, argv)
  }

  lemma FewerRunsKeep(a: Db, b: Db)
    requires Attested(a) && (forall e :: e in b.events ==> e in a.events) && (forall r :: r in b.runs ==> r in a.runs)
    ensures Attested(b)
  {
    forall e | e in b.events ensures exists argv :: CommandOf(b, e, argv) {
      var argv :| CommandOf(a, e, argv);
      forall i | 0 <= i < |b.runs| && b.runs[i].run.eventSeq == e.eventSeq
        ensures AttestedBy(b.runs[i].run, argv) && CommandClass(argv, e.mutationClass)
      {
        assert b.runs[i] in a.runs;
        var j :| 0 <= j < |a.runs| && a.runs[j] == b.runs[i];
      }
      assert CommandOf(b, e, argv);
    }
  }

  lemma RunsBelow(db: Db, i: nat)
    requires EventHistory.Inv(db) && i < |db.runs|
    ensures db.runs[i].run.eventSeq <= db.lastEventSeq
  {
    assert db.runs[i] in db.runs;
    var e :| e in db.events && EventHistory.RunOf(db.runs[i], e);
  }

  lemma OlderEventKeeps(db: Db, after: Db, e: EventRow, argv: seq<string>)
    requires EventHistory.Inv(db) && e in db.events && CommandOf(db, e, argv)
    requires |db.runs| <= |after.runs| && after.runs[..|db.runs|] == db.runs
    requires forall i :: |db.runs| <= i < |after.runs| ==> after.runs[i].run.eventSeq > db.lastEventSeq
    ensures CommandOf(after, e, argv)
  {
    forall i | 0 <= i < |db.runs| ensures after.runs[i] == db.runs[i] { assert after.runs[..|db.runs|][i] == db.runs[i]; }
  }

  lemma NewEventAttested(db: Db, after: Db, input: RecordInput, row: EventRow) returns (argv: seq<string>)
    requires EventHistory.Inv(db) && WellRecorded(input.runs, row.mutationClass) && row.eventSeq == db.lastEventSeq + 1
    requires after.runs == db.runs + StoredRuns(input.runs, input.event, row.eventSeq, row.mutationSeq)
    ensures CommandOf(after, row, argv)
  {
    argv := [];
    if input.runs != [] { argv :| OneCommand(input.runs, row.mutationClass, argv); }
    var before := |db.runs|;
    forall i | 0 <= i < |after.runs| && after.runs[i].run.eventSeq == row.eventSeq
      ensures AttestedBy(after.runs[i].run, argv) && CommandClass(argv, row.mutationClass)
    {
      if i < before { assert after.runs[i] == db.runs[i]; RunsBelow(db, i); }
      else { assert after.runs[i] == StoredRun(input.runs[i - before], input.event, row.eventSeq, row.mutationSeq); }
    }
  }

  lemma RecordKeepsAttested(db: Db, input: RecordInput)
    requires EventHistory.Inv(db) && Attested(db) && EventHistory.Fresh(db, input)
    requires WellRecorded(input.runs, input.event.mutationClass)
    ensures Attested(Record(db, input).value.0)
  {
    var after, row := Record(db, input).value.0, EventHistory.NewRow(db, input.event);
    EventHistory.RecordAppends(db, input);
    forall e | e in after.events ensures exists argv :: CommandOf(after, e, argv) {
      if e in db.events {
        var argv :| CommandOf(db, e, argv);
        OlderEventKeeps(db, after, e, argv);
      } else {
        var argv := NewEventAttested(db, after, input, row);
      }
    }
  }

  lemma StepKeepsAttested(db: Db, s: Step)
    requires EventHistory.Inv(db) && Attested(db)
    requires s.RecordStep? ==> WellRecorded(s.input.runs, s.input.event.mutationClass)
    ensures Attested(Apply(db, s))
  {
    match s
    case RecordStep(input) =>
      if EventHistory.Fresh(db, input) { RecordKeepsAttested(db, input); } else { FewerRunsKeep(db, Apply(db, s)); }
    case EvidenceCleanupStep(projects, r, now) =>
      EventHistory.CleanupPrunes(db, projects, r, now);
      FewerRunsKeep(db, Apply(db, s));
    case _ =>
      EventHistory.OthersKeepEvidence(db, s);
      FewerRunsKeep(db, Apply(db, s));
  }

  lemma {:induction false} HistoryAttested(db: Db, steps: seq<Step>)
    requires EventHistory.Inv(db) && Attested(db) && FromRecorder(steps)
    ensures Attested(RunSteps(db, steps))
    decreases |steps|
  {
    if steps != [] {
      StepKeepsAttested(db, steps[0]);
      EventHistory.StepKeepsInv(db, steps[0]);
      HistoryAttested(Apply(db, steps[0]), steps[1..]);
    }
  }

  lemma ReachedAttested(steps: seq<Step>, n: nat)
    requires n <= |steps| && FromRecorder(steps)
    ensures EventHistory.Inv(PassHistory.At(steps, n)) && Attested(PassHistory.At(steps, n))
  {
    EventHistory.HistoryKeepsInv(EMPTY, steps[..n]);
    HistoryAttested(EMPTY, steps[..n]);
  }

  // --- what a snapshot shows --------------------------------------------------------------------------------

  predicate StoredIn(db: Db, s: Snapshot, run: GateRun) {
    exists i :: 0 <= i < |db.runs| && db.runs[i].run == run && db.runs[i].project == s.project && db.runs[i].session == s.session
  }

  /** The snapshot's runs are stored runs of its session; every event of the session is in the snapshot. */
  ghost predicate View(db: Db, s: Snapshot) {
    && EventHistory.Inv(db) && Attested(db)
    && (forall run :: run in s.runs ==> StoredIn(db, s, run))
    && (forall e :: e in db.events && e.project == s.project && e.session == s.session ==> ToMutationEvent(e) in s.events)
  }

  /** Any snapshot read in any history of the recorder, the rules, the evaluators and retention is such a view. */
  lemma SnapshotIsView(steps: seq<Step>, n: nat, project: string, session: string, config: GateConfig, s: Snapshot)
    requires n <= |steps| && FromRecorder(steps)
    requires ReadSnapshot(PassHistory.At(steps, n), project, session, config) == Ok(s)
    ensures View(PassHistory.At(steps, n), s) && s.config == config
  {
    var db := PassHistory.At(steps, n);
    ReachedAttested(steps, n);
    forall run | run in s.runs ensures StoredIn(db, s, run) {
      var r := PassHistory.SnapshotRun(db, project, session, config, s, run);
      var i :| 0 <= i < |db.runs| && db.runs[i] == r;
    }
    forall e | e in db.events && e.project == s.project && e.session == s.session ensures ToMutationEvent(e) in s.events {
    }
  }

  // --- one unknown event ---------------------------------------------------------------------------------

  /** No form of the gate's command is on the read-only list: running it is itself an unknown mutation. */
  predicate OffAllowlist(gate: Gate) {
    forall k :: 0 <= k < |Forms(gate)| ==> !ReadOnly(Forms(gate)[k].argv)
  }

  predicate HasForm(gate: Gate, argv: seq<string>) {
    exists k :: 0 <= k < |Forms(gate)| && Forms(gate)[k].argv == argv
  }

  /** The session event a run was recorded with, and the one command of all runs of that event. */
  predicate Source(db: Db, s: Snapshot, run: GateRun, e: EventRow, argv: seq<string>) {
    && e in db.events && e.project == s.project && e.session == s.session && e.eventSeq == run.eventSeq
    && CommandOf(db, e, argv) && AttestedBy(run, argv) && CommandClass(argv, e.mutationClass)
  }

  lemma SourceOf(db: Db, s: Snapshot, run: GateRun) returns (e: EventRow, argv: seq<string>)
    requires View(db, s) && run in s.runs
    ensures Source(db, s, run, e, argv)
  {
    var i :| 0 <= i < |db.runs| && db.runs[i].run == run && db.runs[i].project == s.project && db.runs[i].session == s.session;
    assert db.runs[i] in db.runs;
    e :| e in db.events && EventHistory.RunOf(db.runs[i], e);
    argv :| CommandOf(db, e, argv);
  }

  ghost predicate LastUnknown(db: Db, s: Snapshot, e: EventRow) {
    && e in db.events && e.project == s.project && e.session == s.session && e.mutationClass == UnknownMutation
    && forall x :: x in db.events && x.project == s.project && x.session == s.session && x.mutationClass == UnknownMutation
         ==> x.eventSeq <= e.eventSeq
  }

  /** The run of a gate off the read-only list sits on the session's last unknown mutation. */
  lemma OffListIsLastUnknown(db: Db, s: Snapshot, sel: Selection, config: GateConfig, env: Environment, g: string, run: GateRun)
    returns (e: EventRow, argv: seq<string>)
    requires View(db, s) && Proves(run, g, s, sel, config, env) && OffAllowlist(config.gates[g])
    ensures Source(db, s, run, e, argv) && HasForm(config.gates[g], argv) && LastUnknown(db, s, e)
  {
    e, argv := SourceOf(db, s, run);
    assert e.mutationClass == UnknownMutation;
    forall x | x in db.events && x.project == s.project && x.session == s.session && x.mutationClass == UnknownMutation
      ensures x.eventSeq <= e.eventSeq
    {
    }
  }

  /**
   Any other proving run sits on that same event, for the same command, or strictly after it, with a command
   that changed nothing.
   */
  lemma OneUnknownEvent(db: Db, s: Snapshot, sel: Selection, config: GateConfig, env: Environment, e: EventRow, argv: seq<string>,
                        h: string, other: GateRun)
    requires View(db, s) && LastUnknown(db, s, e) && CommandOf(db, e, argv) && Proves(other, h, s, sel, config, env)
    ensures other.eventSeq >= e.eventSeq
    ensures other.eventSeq == e.eventSeq ==> HasForm(config.gates[h], argv)
    ensures other.eventSeq > e.eventSeq ==>
              exists f, readOnly :: Source(db, s, other, f, readOnly) && f.mutationClass == NoMutation && ReadOnly(readOnly)
    ensures OffAllowlist(config.gates[h]) ==> other.eventSeq == e.eventSeq
  {
    var f, command := SourceOf(db, s, other);
  }

  /** Two required gates with disjoint commands, both off the read-only list, are never fresh together. */
  lemma DisjointCommandsNeverPass(db: Db, s: Snapshot, sel: Selection, config: GateConfig, env: Environment, v: VerdictInput,
                                  g: string, h: string)
    requires View(db, s) && s.config == config
    requires IsSelection(sel, RulesOf(s), config.pathRules, s.events) && IsVerdict(v, s, sel, config, env)
    requires g in v.required && h in v.required && g in config.gates && h in config.gates
    requires OffAllowlist(config.gates[g]) && OffAllowlist(config.gates[h])
    requires forall argv :: HasForm(config.gates[g], argv) ==> !HasForm(config.gates[h], argv)
    ensures v.result != Pass
  {
    if v.result == Pass {
      PassMeansProofs(v, s, sel, config, env);
      var run :| LatestProof(run, g, s, sel, config, env);
      var other :| LatestProof(other, h, s, sel, config, env);
      var e, argv := OffListIsLastUnknown(db, s, sel, config, env, g, run);
      OneUnknownEvent(db, s, sel, config, env, e, argv, h, other);
    }
  }

  lemma ProofAddsNoPatterns(db: Db, s: Snapshot, sel: Selection, config: GateConfig, raw: seq<PathRule>, env: Environment,
                            g: string, run: GateRun)
    requires View(db, s) && config.pathRules == NormalizedRules(raw) && Proves(run, g, s, sel, config, env)
    requires sel.relevant[g] == RelevantPaths(g, RulesOf(s), config.pathRules, s.events)
    ensures RuleSet(g, RulesOf(s), s.events) <= PatternSet(RecorderPaths(g, config))
  {
    var e, argv := SourceOf(db, s, run);
    assert run.pathsHash == Some(PatternSet(sel.relevant[g]));
    PathsHashAgrees(g, RulesOf(s), raw, config, s.events);
  }

  /**
   In a `pass`, every pattern an applicable rule adds for a required gate is already among the patterns the
   recorder hashed for it: a rule with patterns of its own makes its gates unprovable.
   */
  lemma PassAddsNoPatterns(db: Db, s: Snapshot, sel: Selection, config: GateConfig, raw: seq<PathRule>, env: Environment,
                           v: VerdictInput, g: string)
    requires View(db, s) && s.config == config && config.pathRules == NormalizedRules(raw)
    requires IsSelection(sel, RulesOf(s), config.pathRules, s.events) && IsVerdict(v, s, sel, config, env)
    requires v.result == Pass && g in v.required
    ensures RuleSet(g, RulesOf(s), s.events) <= PatternSet(RecorderPaths(g, config))
  {
    PassMeansProofs(v, s, sel, config, env);
    var run :| LatestProof(run, g, s, sel, config, env);
    ProofAddsNoPatterns(db, s, sel, config, raw, env, g, run);
  }
}
