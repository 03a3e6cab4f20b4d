/** One evaluation attempt over a snapshot, the fixed precedence, and what a committed `pass` means. */
module ShadowEvaluator {
  import opened Rows
  import opened EvidenceSelector
  import opened GovernanceDb
  import Paths
  import EventHistory

  // --- precedence -----------------------------------------------------------------------------------

  /** The fixed order in which gate states are folded into one result. */
  function ResolvePrecedence(applicable: nat, required: nat, states: seq<EvidenceState>, capabilityReasons: seq<string>): Outcome {
    if SelfError in states then SelfErrorResult
    else if |states| > required then SelfErrorResult
    else if applicable == 0 then NotApplicable
    else if |capabilityReasons| > 0 then Degraded
    else if NonPass in states then NonPassing
    else if StaleMutation in states || StaleDigest in states then Stale
    else if required == 0 then MissingEvidence
    else if Missing in states || |states| < required then MissingEvidence
    else if |states| == required && forall i :: 0 <= i < |states| ==> states[i] == FreshPass then Pass
    else SelfErrorResult
  }

  /** `pass` takes an applicable rule, a required gate, full capability, and a fresh pass from every gate. */
  lemma PassIff(applicable: nat, required: nat, states: seq<EvidenceState>, capabilityReasons: seq<string>)
    ensures ResolvePrecedence(applicable, required, states, capabilityReasons) == Pass
       <==> applicable > 0 && required > 0 && capabilityReasons == [] && |states| == required
            && forall i :: 0 <= i < |states| ==> states[i] == FreshPass
  {}

  // --- one attempt -------------------------------------------------------------------------------------

  datatype Stage =
    | SnapshotStage | WatermarkStage | RefreshStage | SelectionStage | DigestStage | ClassificationStage
    | CapabilityStage | PrecedenceStage | PersistStage

  /** What an attempt observes besides the snapshot: the worktree, the client's capabilities, the deadline. */
  datatype Environment = Environment(
    worktree: set<string> -> Option<string>, capabilityReasons: seq<string>, adapterSupported: bool, expired: Stage -> bool)

  function PatternSet(paths: seq<string>): set<string> {
    set p | p in paths :: Paths.DigestPattern(p)
  }

  /** The digest of the worktree under some patterns; `None` when it could not be taken. */
  function CaptureDigest(env: Environment, paths: seq<string>): DigestResult {
    var patterns := PatternSet(paths);
    DigestResult(env.worktree(patterns).Some?, env.worktree(patterns), patterns)
  }

  function RuleOf(r: SnapshotRule): Rule {
    Rule(r.row.memoryId, r.row.ruleId, r.row.revision, r.row.gateIds, r.row.paths,
      if r.watermark.Some? then r.watermark.value.eventSeq else 0)
  }

  function RulesOf(s: Snapshot): seq<Rule> {
    Map(RuleOf, s.rules)
  }

  function VerdictRuleOf(r: Rule): VerdictRule {
    VerdictRule(r.ruleId, r.memoryId, r.revision, r.watermark)
  }

  predicate AllMarked(s: Snapshot) {
    forall i :: 0 <= i < |s.rules| ==> s.rules[i].watermark.Some?
  }

  /** The evidence of one gate under a selection. */
  function GateEvidence(s: Snapshot, sel: Selection, config: GateConfig, env: Environment, g: string): Classified
    requires g in sel.relevant && g in sel.watermark && g in config.gates
  {
    ClassifyGateEvidence(LatestEligible(s.runs, g, config, sel.watermark[g]), config.gates[g], sel.relevant[g], s.events,
      CaptureDigest(env, sel.relevant[g]))
  }

  function States(gates: seq<GateVerdict>): seq<EvidenceState> {
    Map((g: GateVerdict) => g.classified.state, gates)
  }

  /** The gate is configured and its digest can be taken. */
  predicate Evaluable(g: string, sel: Selection, config: GateConfig, env: Environment) {
    g in config.gates && g in sel.relevant && g in sel.watermark && CaptureDigest(env, sel.relevant[g]).complete
  }

  /** Without an applicable rule no gate is looked at. */
  predicate GatesEvaluable(sel: Selection, config: GateConfig, env: Environment) {
    sel.applicable == [] || forall i :: 0 <= i < |sel.required| ==> Evaluable(sel.required[i], sel, config, env)
  }

  predicate InTime(sel: Selection, env: Environment) {
    && !env.expired(SelectionStage) && !env.expired(CapabilityStage) && !env.expired(PrecedenceStage)
    && (sel.applicable != [] && sel.required != [] ==> !env.expired(DigestStage) && !env.expired(ClassificationStage))
  }

  predicate IsGateVerdict(v: GateVerdict, g: string, s: Snapshot, sel: Selection, config: GateConfig, env: Environment) {
    Evaluable(g, sel, config, env) && v == GateVerdict(g, GateEvidence(s, sel, config, env, g))
  }

  /** What the verdict of a completed attempt says about its snapshot. */
  ghost predicate IsVerdict(v: VerdictInput, s: Snapshot, sel: Selection, config: GateConfig, env: Environment) {
    && v.project == s.project && v.session == s.session && v.config == config && v.evaluatedThrough == s.sequence
    && v.rules == Map(VerdictRuleOf, sel.applicable) && v.required == sel.required
    && |v.gates| == (if sel.applicable == [] then 0 else |sel.required|)
    && (forall i :: 0 <= i < |v.gates| ==> IsGateVerdict(v.gates[i], sel.required[i], s, sel, config, env))
    && v.result == ResolvePrecedence(|sel.applicable|, |sel.required|, States(v.gates), env.capabilityReasons)
    && v.fault.None?
  }

  /** The gate loop: one digest (cached per pattern list), one run and one classification per required gate. */
  method EvaluateGates(s: Snapshot, sel: Selection, config: GateConfig, env: Environment)
    returns (r: Result<seq<GateVerdict>, Fault>)
    requires forall i :: 0 <= i < |sel.required| ==> sel.required[i] in sel.relevant && sel.required[i] in sel.watermark
    ensures r.Ok? <==>
              && (forall i :: 0 <= i < |sel.required| ==> Evaluable(sel.required[i], sel, config, env))
              && (sel.required != [] ==> !env.expired(DigestStage) && !env.expired(ClassificationStage))
    ensures r.Ok? ==> |r.value| == |sel.required|
    ensures r.Ok? ==> forall i :: 0 <= i < |r.value| ==> IsGateVerdict(r.value[i], sel.required[i], s, sel, config, env)
  {
    var gates: seq<GateVerdict> := [];
    var cache: map<seq<string>, DigestResult> := map[];
    for k := 0 to |sel.required|
      invariant |gates| == k
      invariant forall i :: 0 <= i < k ==> IsGateVerdict(gates[i], sel.required[i], s, sel, config, env)
      invariant forall key :: key in cache ==> cache[key] == CaptureDigest(env, key)
      invariant k > 0 ==> !env.expired(DigestStage) && !env.expired(ClassificationStage)
    {
      var g := sel.required[k];
      if g !in config.gates { return Err(ConfigInvalid); }
      if env.expired(DigestStage) { return Err(DeadlineExceeded); }
      var relevant := sel.relevant[g];
      var digest := if relevant in cache then cache[relevant] else CaptureDigest(env, relevant);
      cache := cache[relevant := digest];
      if !digest.complete { return Err(Fault.DigestFault); }
      if env.expired(ClassificationStage) { return Err(DeadlineExceeded); }
      var run := LatestEligible(s.runs, g, config, sel.watermark[g]);
      gates := gates + [GateVerdict(g, ClassifyGateEvidence(run, config.gates[g], relevant, s.events, digest))];
    }
    r := Ok(gates);
  }

  /** The attempt: select, evaluate the gates, check the client, fold by precedence. */
  method EvaluateAttempt(s: Snapshot, config: GateConfig, env: Environment, retryCount: nat, at: int)
    returns (r: Result<VerdictInput, Fault>, sel: Selection)
    requires s.config == config
    ensures IsSelection(sel, RulesOf(s), config.pathRules, s.events)
    ensures r.Ok? <==> InTime(sel, env) && GatesEvaluable(sel, config, env) && env.adapterSupported
    ensures r.Ok? ==> IsVerdict(r.value, s, sel, config, env) && r.value.retryCount == retryCount
  {
    sel := SelectEvidenceRequirements(RulesOf(s), config.pathRules, s.events);
    if env.expired(SelectionStage) { return Err(DeadlineExceeded), sel; }
    var gates: seq<GateVerdict> := [];
    if sel.applicable != [] {
      assert forall i :: 0 <= i < |sel.required| ==> sel.required[i] in ToSet(sel.required);
      var evaluated := EvaluateGates(s, sel, config, env);
      if evaluated.Err? { return Err(evaluated.error), sel; }
      gates := evaluated.value;
    }
    if env.expired(CapabilityStage) { return Err(DeadlineExceeded), sel; }
    if !env.adapterSupported { return Err(UnsupportedAdapterVersion), sel; }
    if env.expired(PrecedenceStage) { return Err(DeadlineExceeded), sel; }
    var result := ResolvePrecedence(|sel.applicable|, |sel.required|, States(gates), env.capabilityReasons);
    r := Ok(VerdictInput(s.project, s.session, config, result, None, s.sequence, Map(VerdictRuleOf, sel.applicable),
      sel.required, gates, retryCount, at));
  }

  // --- what a pass says about the snapshot ---------------------------------------------------------------

  /** A run that proves gate `g` for this snapshot: fresh, and above the mark of every applicable rule. */
  predicate Proves(run: GateRun, g: string, s: Snapshot, sel: Selection, config: GateConfig, env: Environment) {
    && g in config.gates && g in sel.relevant
    && run in s.runs && run.gateId == g && run.config == config
    && FreshEvidence(run, config.gates[g], sel.relevant[g], s.events, CaptureDigest(env, sel.relevant[g]))
    && forall i :: 0 <= i < |sel.applicable| ==> run.eventSeq > sel.applicable[i].watermark
  }

  /** Runs are listed latest first wherever it matters: no eligible run is newer than the proving one. */
  predicate LatestProof(run: GateRun, g: string, s: Snapshot, sel: Selection, config: GateConfig, env: Environment) {
    && Proves(run, g, s, sel, config, env)
    && forall i :: 0 <= i < |s.runs| && s.runs[i].gateId == g && s.runs[i].config == config ==> s.runs[i].eventSeq <= run.eventSeq
  }

  lemma FreshGateHasProof(s: Snapshot, sel: Selection, config: GateConfig, env: Environment, g: string) returns (run: GateRun)
    requires IsSelection(sel, RulesOf(s), config.pathRules, s.events) && s.config == config
    requires g in sel.required && g in sel.relevant && g in sel.watermark && g in config.gates
    requires GateEvidence(s, sel, config, env, g).state == FreshPass
    ensures LatestProof(run, g, s, sel, config, env)
  {
    var latest := LatestEligible(s.runs, g, config, sel.watermark[g]);
    FreshPassIff(latest, config.gates[g], sel.relevant[g], s.events, CaptureDigest(env, sel.relevant[g]));
    run := latest.value;
    forall i | 0 <= i < |sel.applicable| ensures run.eventSeq > sel.applicable[i].watermark {
      assert sel.applicable[i] in sel.applicable;
      var j :| 0 <= j < |RulesOf(s)| && RulesOf(s)[j] == sel.applicable[i];
    }
    forall i | 0 <= i < |s.runs| && s.runs[i].gateId == g && s.runs[i].config == config ensures s.runs[i].eventSeq <= run.eventSeq {
      if s.runs[i].eventSeq > run.eventSeq { assert Eligible(s.runs[i], g, config, sel.watermark[g]); }
    }
  }

  /** One run per gate and event, as the table's uniqueness constraint has it. */
  predicate UniqueRuns(runs: seq<GateRun>) {
    forall i, j | 0 <= i < |runs| && 0 <= j < |runs| && runs[i].gateId == runs[j].gateId && runs[i].eventSeq == runs[j].eventSeq ::
      runs[i] == runs[j]
  }

  /** The newest proving run is the one the evaluator picks. */
  lemma ProofIsPicked(s: Snapshot, sel: Selection, config: GateConfig, env: Environment, g: string, run: GateRun)
    requires IsSelection(sel, RulesOf(s), config.pathRules, s.events) && sel.applicable != [] && UniqueRuns(s.runs)
    requires g in sel.watermark && LatestProof(run, g, s, sel, config, env)
    ensures LatestEligible(s.runs, g, config, sel.watermark[g]) == Some(run)
  {
    AboveWatermark(RulesOf(s), s.events, sel.applicable, run.eventSeq);
    NewestIsLatest(s.runs, g, config, sel.watermark[g], run);
  }

  lemma AboveWatermark(rules: seq<Rule>, events: seq<MutationEvent>, applicable: seq<Rule>, eventSeq: nat)
    requires applicable == Filter(r => Applies(r, events), rules) && applicable != []
    requires forall i :: 0 <= i < |applicable| ==> eventSeq > applicable[i].watermark
    ensures eventSeq > Watermark(rules, events)
  {
    var w := Watermark(rules, events);
    if w > 0 {
      var k :| 0 <= k < |rules| && Applies(rules[k], events) && rules[k].watermark == w;
      assert rules[k] in applicable;
    } else {
      assert eventSeq > applicable[0].watermark;
    }
  }

  lemma NewestIsLatest(runs: seq<GateRun>, g: string, config: GateConfig, w: nat, run: GateRun)
    requires UniqueRuns(runs) && run in runs && Eligible(run, g, config, w)
    requires forall i :: 0 <= i < |runs| && runs[i].gateId == g && runs[i].config == config ==> runs[i].eventSeq <= run.eventSeq
    ensures LatestEligible(runs, g, config, w) == Some(run)
  {
    var i :| 0 <= i < |runs| && runs[i] == run;
    var latest := LatestEligible(runs, g, config, w).value;
    var j :| 0 <= j < |runs| && runs[j] == latest;
  }

  /** Conversely, the newest run of a gate that proves it makes the gate fresh. */
  lemma ProofMakesFresh(s: Snapshot, sel: Selection, config: GateConfig, env: Environment, g: string, run: GateRun)
    requires IsSelection(sel, RulesOf(s), config.pathRules, s.events) && sel.applicable != [] && UniqueRuns(s.runs)
    requires g in sel.relevant && g in sel.watermark && LatestProof(run, g, s, sel, config, env)
    ensures GateEvidence(s, sel, config, env, g).state == FreshPass
  {
    ProofIsPicked(s, sel, config, env, g, run);
    FreshPassIff(Some(run), config.gates[g], sel.relevant[g], s.events, CaptureDigest(env, sel.relevant[g]));
  }

  /** Every required gate has a newest run that proves it. */
  ghost predicate AllProved(s: Snapshot, sel: Selection, config: GateConfig, env: Environment) {
    forall g :: g in sel.required ==> exists run :: LatestProof(run, g, s, sel, config, env)
  }

  lemma PassStates(v: VerdictInput, s: Snapshot, sel: Selection, config: GateConfig, env: Environment)
    requires IsVerdict(v, s, sel, config, env) && v.result == Pass
    ensures sel.applicable != [] && sel.required != [] && env.capabilityReasons == [] && |v.gates| == |sel.required|
    ensures forall i :: 0 <= i < |v.gates| ==> v.gates[i].classified.state == FreshPass
  {
    PassIff(|sel.applicable|, |sel.required|, States(v.gates), env.capabilityReasons);
    forall i | 0 <= i < |v.gates| ensures v.gates[i].classified.state == FreshPass {
      assert States(v.gates)[i] == v.gates[i].classified.state;
    }
  }

  /** An attempt passes exactly when some rule applies, some gate is required, and every required gate is proved. */
  lemma PassMeansProofs(v: VerdictInput, s: Snapshot, sel: Selection, config: GateConfig, env: Environment)
    requires IsSelection(sel, RulesOf(s), config.pathRules, s.events) && IsVerdict(v, s, sel, config, env)
    requires s.config == config && v.result == Pass
    ensures sel.applicable != [] && sel.required != [] && env.capabilityReasons == [] && AllProved(s, sel, config, env)
  {
    PassStates(v, s, sel, config, env);
    forall g | g in sel.required ensures exists run :: LatestProof(run, g, s, sel, config, env) {
      PassingRequired(v, s, sel, config, env, g);
    }
  }

  lemma PassingRequired(v: VerdictInput, s: Snapshot, sel: Selection, config: GateConfig, env: Environment, g: string)
    requires IsSelection(sel, RulesOf(s), config.pathRules, s.events) && IsVerdict(v, s, sel, config, env)
    requires s.config == config && v.result == Pass && g in sel.required
    ensures exists run :: LatestProof(run, g, s, sel, config, env)
  {
    PassStates(v, s, sel, config, env);
    var i :| 0 <= i < |sel.required| && sel.required[i] == g;
    PassingGate(v, s, sel, config, env, i);
  }

  lemma PassingGate(v: VerdictInput, s: Snapshot, sel: Selection, config: GateConfig, env: Environment, i: nat)
    requires IsSelection(sel, RulesOf(s), config.pathRules, s.events) && IsVerdict(v, s, sel, config, env) && s.config == config
    requires i < |v.gates| && v.gates[i].classified.state == FreshPass
    ensures exists run :: LatestProof(run, sel.required[i], s, sel, config, env)
  {
    assert IsGateVerdict(v.gates[i], sel.required[i], s, sel, config, env) && sel.required[i] in sel.required;
    var run := FreshGateHasProof(s, sel, config, env, sel.required[i]);
  }

  lemma ProofsMakePass(v: VerdictInput, s: Snapshot, sel: Selection, config: GateConfig, env: Environment)
    requires IsSelection(sel, RulesOf(s), config.pathRules, s.events) && IsVerdict(v, s, sel, config, env)
    requires s.config == config && UniqueRuns(s.runs)
    requires sel.applicable != [] && sel.required != [] && env.capabilityReasons == [] && AllProved(s, sel, config, env)
    ensures v.result == Pass
  {
    PassIff(|sel.applicable|, |sel.required|, States(v.gates), env.capabilityReasons);
    forall i | 0 <= i < |v.gates| ensures States(v.gates)[i] == FreshPass {
      var g := sel.required[i];
      assert IsGateVerdict(v.gates[i], g, s, sel, config, env) && g in sel.required;
      var run :| LatestProof(run, g, s, sel, config, env);
      ProofMakesFresh(s, sel, config, env, g, run);
    }
  }
}
