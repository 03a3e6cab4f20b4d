/** From an observed test result to the evidence a gate run stores. */
module ResultParser {
  import opened Rows
  import opened EvidenceSelector

  /** What the summary lines with one label say: absent, contradictory, not a safe integer, or one count. */
  datatype CountLine = NoLine | Conflict | Unsafe | Count(n: nat)

  datatype ToolOutcome = Success | Failure | UnknownFailure

  datatype Observation = Observation(
    outputMatchesDigest: bool, timedOut: bool, interrupted: bool, signaled: bool, outcome: ToolOutcome, exitCode: Option<int>,
    plan: CountLine, tests: CountLine, pass: CountLine, fail: CountLine, skipped: CountLine, skipReasons: nat)

  /** Counts come through the safe-integer check. */
  predicate SafeLines(o: Observation) {
    forall c :: c in {o.plan, o.tests, o.pass, o.fail, o.skipped} && c.Count? ==> c.n <= MAX_SAFE_INTEGER
  }

  datatype Parsed = Parsed(capture: CaptureStatus, counts: Counts, skipReasonsComplete: Option<bool>)

  const NO_COUNTS := Counts(None, None, None, None)

  predicate TransportFailure(o: Observation) {
    || o.timedOut || o.interrupted || o.signaled || o.outcome == UnknownFailure || o.exitCode.None?
    || o.outcome == Failure || o.exitCode != Some(0)
  }

  /** The node-test summary: plan and total first, then the three counts against the total, then the policy. */
  function ParseNodeSummary(o: Observation, skips: SkipPolicy): Parsed {
    if o.plan.Conflict? || o.plan.Unsafe? || o.tests.Conflict? || o.tests.Unsafe? then Parsed(CaptureIncomplete, NO_COUNTS, None)
    else if o.plan == Count(0) || o.tests == Count(0) then
      Parsed(CaptureFailed, Counts(Some(0), Some(0), Some(0), Some(0)), Some(true))
    else if o.tests.NoLine? then Parsed(CaptureIncomplete, NO_COUNTS, None)
    else
      var total := o.tests.n;
      var onlyTotal := Counts(Some(total), None, None, None);
      if o.plan.Count? && o.plan.n != total then Parsed(CaptureIncomplete, onlyTotal, None)
      else if !o.pass.Count? || !o.fail.Count? || !o.skipped.Count?
              || o.pass.n > total || o.fail.n > total || o.skipped.n > total || o.pass.n + o.fail.n + o.skipped.n > total then
        Parsed(CaptureIncomplete, onlyTotal, None)
      else
        var reasons := o.skipped.n == 0 || o.skipReasons >= o.skipped.n;
        var counts := Counts(Some(total), Some(o.pass.n), Some(o.fail.n), Some(o.skipped.n));
        if o.fail.n > 0 || o.skipped.n > skips.max || (skips.requireReasons && !reasons) then
          Parsed(CaptureFailed, counts, Some(reasons))
        else Parsed(CaptureComplete, counts, Some(reasons))
  }

  function ParseGateResult(o: Observation, policy: Gate): Parsed {
    if !o.outputMatchesDigest then Parsed(CaptureIncomplete, NO_COUNTS, None)
    else if TransportFailure(o) then Parsed(CaptureFailed, NO_COUNTS, None)
    else if policy.parser == ExitOnly then Parsed(CaptureComplete, NO_COUNTS, None)
    else ParseNodeSummary(o, policy.skips)
  }

  /** The run the recorder stores for a matched gate; an incomplete digest makes the capture incomplete. */
  function RecordedRun(g: string, config: GateConfig, policy: Gate, o: Observation, digest: DigestResult): GateRun {
    var parsed := ParseGateResult(o, policy);
    GateRun(g, 0, 0, config, policy.parser, ExpectedVersion(policy.parser), parsed.counts, parsed.skipReasonsComplete,
      digest.digest, Some(WORKTREE_DIGEST_V2_VERSION), Some(digest.pathsHash),
      if digest.complete then parsed.capture else CaptureIncomplete)
  }

  /**
   Recorder and evaluator agree on one policy: a run stored as complete is never rejected by the evaluator's
   parser checks, and every run stored otherwise is.
   */
  lemma RecorderAgreesWithEvaluator(g: string, config: GateConfig, policy: Gate, o: Observation, digest: DigestResult)
    requires SafeLines(o)
    ensures var run := RecordedRun(g, config, policy, o, digest);
            ParserState(run, policy).None? <==> run.capture == CaptureComplete
  {
    assert o.tests in {o.plan, o.tests, o.pass, o.fail, o.skipped} && o.pass in {o.plan, o.tests, o.pass, o.fail, o.skipped}
      && o.skipped in {o.plan, o.tests, o.pass, o.fail, o.skipped};
  }

  /** A failing test, too many skips, or unexplained skips under a policy that wants reasons never become evidence. */
  lemma BadResultIsNeverAccepted(g: string, config: GateConfig, policy: Gate, o: Observation, digest: DigestResult)
    requires policy.parser == NodeTest
    requires || TransportFailure(o) || !o.outputMatchesDigest || !o.tests.Count? || o.tests.n == 0
             || (o.fail.Count? && o.fail.n > 0) || (o.skipped.Count? && o.skipped.n > policy.skips.max)
             || (policy.skips.requireReasons && o.skipped.Count? && o.skipReasons < o.skipped.n)
    ensures !AcceptedResult(RecordedRun(g, config, policy, o, digest), policy)
  {}
}
