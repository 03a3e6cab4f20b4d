/**
 Which gates a Stop needs, and what the evidence for one gate amounts to.

 A configuration hash is modelled by the configuration itself and a paths hash by the set of
 normalized patterns behind it: both are hashes of canonical text, which determines its value.
 */
module EvidenceSelector {
  import opened Rows
  import Paths
  import Glob

  datatype MutationClass = NoMutation | Scoped | UnknownMutation

  datatype CaptureStatus = CaptureComplete | CaptureFailed | CaptureIncomplete | AdapterError

  datatype Parser = NodeTest | ExitOnly

  const NODE_TEST_PARSER_VERSION := 1
  const EXIT_ONLY_PARSER_VERSION := 1
  const WORKTREE_DIGEST_V2_VERSION := 2
  const MAX_SAFE_INTEGER := 9_007_199_254_740_991

  datatype SkipPolicy = SkipPolicy(max: nat, requireReasons: bool)

  datatype CommandForm = CommandForm(argv: seq<string>, cwd: string)

  datatype Gate = Gate(
    primary: CommandForm, aliases: seq<CommandForm>, envNames: seq<string>, parser: Parser, skips: SkipPolicy)

  datatype PathRule = PathRule(paths: seq<string>, require: seq<string>)

  datatype GateConfig = GateConfig(gates: map<string, Gate>, pathRules: seq<PathRule>, evidenceDays: nat)

  datatype Rule = Rule(
    memoryId: nat, ruleId: string, revision: nat, gateIds: seq<string>, paths: seq<string>, watermark: nat)

  datatype MutationEvent = MutationEvent(
    eventSeq: nat, mutationSeq: nat, mutationClass: MutationClass, affectedPaths: seq<string>)

  datatype Counts = Counts(total: Option<int>, pass: Option<int>, fail: Option<int>, skip: Option<int>)

  datatype GateRun = GateRun(
    gateId: string, eventSeq: nat, mutationSeq: nat, config: GateConfig,
    parser: Parser, parserVersion: nat, counts: Counts, skipReasonsComplete: Option<bool>,
    digest: Option<string>, digestVersion: Option<nat>, pathsHash: Option<set<string>>, capture: CaptureStatus)

  datatype DigestResult = DigestResult(complete: bool, digest: Option<string>, pathsHash: set<string>)

  datatype EvidenceState = FreshPass | Missing | NonPass | StaleMutation | StaleDigest | SelfError

  datatype EvidenceReason =
    | EvidenceFresh | NoEligibleRun | CaptureNotComplete | RecordedNonPass | UnsupportedParserVersion
    | ImpossibleResultCounts | DigestVersionRequiresRerun | DigestUnavailable | RelevantPathsMismatch
    | LaterUnknownMutation | LaterScopedMutation | WorktreeDigestChanged

  datatype Classified = Classified(
    state: EvidenceState, reason: EvidenceReason, evidenceEventSeq: Option<nat>, invalidatingEventSeq: Option<nat>)

  // --- selecting requirements ----------------------------------------------------------------

  /** Whether a mutation may have touched any of the relevant paths. */
  predicate MutationIntersects(e: MutationEvent, relevant: seq<string>) {
    match e.mutationClass
    case UnknownMutation => true
    case NoMutation => false
    case Scoped => exists i :: 0 <= i < |e.affectedPaths| && Glob.PathMatchesPatterns(e.affectedPaths[i], relevant)
  }

  predicate UnknownIn(events: seq<MutationEvent>) {
    exists i :: 0 <= i < |events| && events[i].mutationClass == UnknownMutation
  }

  /** Some scoped change lies under the patterns. */
  predicate ChangedUnder(events: seq<MutationEvent>, patterns: seq<string>) {
    exists i, j :: 0 <= i < |events| && events[i].mutationClass == Scoped && 0 <= j < |events[i].affectedPaths|
      && Glob.PathMatchesPatterns(Paths.NormalizePattern(events[i].affectedPaths[j]), patterns)
  }

  predicate Applies(r: Rule, events: seq<MutationEvent>) {
    UnknownIn(events) || r.paths == [] || ChangedUnder(events, r.paths)
  }

  predicate EverywherePattern(p: string) {
    Paths.NormalizePattern(p) == "**"
  }

  /** After an unknown mutation only the rules that cover everything still select their gates. */
  predicate Selected(r: PathRule, events: seq<MutationEvent>) {
    if UnknownIn(events) then exists i :: 0 <= i < |r.paths| && EverywherePattern(r.paths[i])
    else ChangedUnder(events, r.paths)
  }

  predicate PathRuleRequires(g: string, pathRules: seq<PathRule>, events: seq<MutationEvent>) {
    exists i :: 0 <= i < |pathRules| && Selected(pathRules[i], events) && g in pathRules[i].require
  }

  predicate RuleRequires(g: string, rules: seq<Rule>, events: seq<MutationEvent>) {
    exists i :: 0 <= i < |rules| && Applies(rules[i], events) && g in rules[i].gateIds
  }

  /** Meaning of "required": a selected path rule names the gate, or an applicable governance rule does. */
  predicate Required(g: string, rules: seq<Rule>, pathRules: seq<PathRule>, events: seq<MutationEvent>) {
    PathRuleRequires(g, pathRules, events) || RuleRequires(g, rules, events)
  }

  function NormalizedOrEverything(paths: seq<string>): seq<string> {
    if paths == [] then ["**"] else Map(Paths.NormalizePattern, paths)
  }

  /** Patterns for one gate: every path rule requiring it, plus every applicable rule naming it. */
  function ConfigPatterns(g: string, pathRules: seq<PathRule>): seq<string> {
    if pathRules == [] then []
    else (if g in pathRules[0].require then Map(Paths.NormalizePattern, pathRules[0].paths) else [])
         + ConfigPatterns(g, pathRules[1..])
  }

  function RulePatterns(g: string, rules: seq<Rule>, events: seq<MutationEvent>): seq<string> {
    if rules == [] then []
    else (if Applies(rules[0], events) && g in rules[0].gateIds then NormalizedOrEverything(rules[0].paths) else [])
         + RulePatterns(g, rules[1..], events)
  }

  function RelevantPaths(g: string, rules: seq<Rule>, pathRules: seq<PathRule>, events: seq<MutationEvent>): (p: seq<string>)
    ensures p != []
  {
    var paths := ConfigPatterns(g, pathRules) + RulePatterns(g, rules, events);
    if paths == [] then ["**"] else paths
  }

  /** The highest watermark of the applicable rules, zero when there is none. */
  function Watermark(rules: seq<Rule>, events: seq<MutationEvent>): (w: nat)
    ensures forall i :: 0 <= i < |rules| && Applies(rules[i], events) ==> rules[i].watermark <= w
    ensures w == 0 || exists i :: 0 <= i < |rules| && Applies(rules[i], events) && rules[i].watermark == w
  {
    if rules == [] then 0
    else
      var rest := Watermark(rules[1..], events);
      assert forall i :: 1 <= i < |rules| ==> rules[i] == rules[1..][i - 1];
      if Applies(rules[0], events) && rules[0].watermark > rest then rules[0].watermark else rest
  }

  datatype Selection = Selection(
    applicable: seq<Rule>, required: seq<string>, relevant: map<string, seq<string>>, watermark: map<string, nat>)

  /** What a selection must be, for given rules, path rules and session events. */
  ghost predicate IsSelection(s: Selection, rules: seq<Rule>, pathRules: seq<PathRule>, events: seq<MutationEvent>) {
    && s.applicable == Filter(r => Applies(r, events), rules)
    && Distinct(s.required)
    && (forall g :: g in s.required <==> Required(g, rules, pathRules, events))
    && s.relevant.Keys == ToSet(s.required) == s.watermark.Keys
    && (forall g :: g in s.relevant ==> s.relevant[g] == RelevantPaths(g, rules, pathRules, events))
    && (forall g :: g in s.watermark ==> s.watermark[g] == Watermark(rules, events))
  }

  method AddAll(required: seq<string>, more: seq<string>) returns (r: seq<string>)
    requires Distinct(required)
    ensures Distinct(r) && forall g :: g in r <==> g in required || g in more
  {
    r := required;
    for k := 0 to |more|
      invariant Distinct(r) && forall g :: g in r <==> g in required || g in more[..k]
    {
      assert more[..k + 1] == more[..k] + [more[k]];
      if more[k] !in r { r := r + [more[k]]; }
    }
    assert more[..|more|] == more;
  }

  method RequiredGates(rules: seq<Rule>, pathRules: seq<PathRule>, events: seq<MutationEvent>) returns (required: seq<string>)
    ensures Distinct(required) && forall g :: g in required <==> Required(g, rules, pathRules, events)
  {
    required := [];
    for k := 0 to |pathRules|
      invariant Distinct(required) && forall g :: g in required <==> PathRuleRequires(g, pathRules[..k], events)
    {
      var before := required;
      if Selected(pathRules[k], events) { required := AddAll(required, pathRules[k].require); }
      forall g ensures g in required <==> PathRuleRequires(g, pathRules[..k + 1], events) {
        PathRuleStep(g, pathRules, k, events);
      }
    }
    assert pathRules[..|pathRules|] == pathRules;
    for k := 0 to |rules|
      invariant Distinct(required)
      invariant forall g :: g in required <==> PathRuleRequires(g, pathRules, events) || RuleRequires(g, rules[..k], events)
    {
      if Applies(rules[k], events) { required := AddAll(required, rules[k].gateIds); }
      forall g ensures g in required <==> PathRuleRequires(g, pathRules, events) || RuleRequires(g, rules[..k + 1], events) {
        RuleStep(g, rules, k, events);
      }
    }
    assert rules[..|rules|] == rules;
  }

  lemma PathRuleStep(g: string, pathRules: seq<PathRule>, k: nat, events: seq<MutationEvent>)
    requires k < |pathRules|
    ensures PathRuleRequires(g, pathRules[..k + 1], events)
       <==> PathRuleRequires(g, pathRules[..k], events) || (Selected(pathRules[k], events) && g in pathRules[k].require)
  {
    var a, b := pathRules[..k], pathRules[..k + 1];
    assert b == a + [pathRules[k]];
    if PathRuleRequires(g, a, events) {
      var i :| 0 <= i < |a| && Selected(a[i], events) && g in a[i].require;
      assert b[i] == a[i];
    }
    if Selected(pathRules[k], events) && g in pathRules[k].require { assert b[k] == pathRules[k]; }
  }

  lemma RuleStep(g: string, rules: seq<Rule>, k: nat, events: seq<MutationEvent>)
    requires k < |rules|
    ensures RuleRequires(g, rules[..k + 1], events)
       <==> RuleRequires(g, rules[..k], events) || (Applies(rules[k], events) && g in rules[k].gateIds)
  {
    var a, b := rules[..k], rules[..k + 1];
    assert b == a + [rules[k]];
    if RuleRequires(g, a, events) {
      var i :| 0 <= i < |a| && Applies(a[i], events) && g in a[i].gateIds;
      assert b[i] == a[i];
    }
    if Applies(rules[k], events) && g in rules[k].gateIds { assert b[k] == rules[k]; }
  }

  /** The selection loops: gates of selected path rules and applicable rules, then patterns and watermark per gate. */
  method SelectEvidenceRequirements(rules: seq<Rule>, pathRules: seq<PathRule>, events: seq<MutationEvent>)
    returns (s: Selection)
    ensures IsSelection(s, rules, pathRules, events)
  {
    var required := RequiredGates(rules, pathRules, events);
    var relevant: map<string, seq<string>>, watermark: map<string, nat> := map[], map[];
    for k := 0 to |required|
      invariant relevant.Keys == ToSet(required[..k]) == watermark.Keys
      invariant forall g :: g in relevant ==> relevant[g] == RelevantPaths(g, rules, pathRules, events)
      invariant forall g :: g in watermark ==> watermark[g] == Watermark(rules, events)
    {
      assert required[..k + 1] == required[..k] + [required[k]];
      relevant := relevant[required[k] := RelevantPaths(required[k], rules, pathRules, events)];
      watermark := watermark[required[k] := Watermark(rules, events)];
    }
    assert required[..|required|] == required;
    s := Selection(Filter(r => Applies(r, events), rules), required, relevant, watermark);
  }

  /** More session events never make a rule stop applying. */
  lemma ApplicableIsMonotone(r: Rule, before: seq<MutationEvent>, after: seq<MutationEvent>)
    requires Applies(r, before)
    requires forall i :: 0 <= i < |before| ==> before[i] in after
    ensures Applies(r, after)
  {
    if UnknownIn(before) {
      var i :| 0 <= i < |before| && before[i].mutationClass == UnknownMutation;
      var k :| 0 <= k < |after| && after[k] == before[i];
      assert UnknownIn(after);
    } else if ChangedUnder(before, r.paths) {
      var i, j :| 0 <= i < |before| && before[i].mutationClass == Scoped && 0 <= j < |before[i].affectedPaths|
        && Glob.PathMatchesPatterns(Paths.NormalizePattern(before[i].affectedPaths[j]), r.paths);
      var k :| 0 <= k < |after| && after[k] == before[i];
      assert ChangedUnder(after, r.paths);
    }
  }

  // --- the run that counts ------------------------------------------------------------------------

  predicate Eligible(run: GateRun, g: string, config: GateConfig, watermark: nat) {
    run.gateId == g && run.config == config && run.eventSeq > watermark
  }

  /** The eligible run with the highest event number; the first such row on a tie. */
  function LatestEligible(runs: seq<GateRun>, g: string, config: GateConfig, watermark: nat): (r: Option<GateRun>)
    ensures r.None? <==> forall i :: 0 <= i < |runs| ==> !Eligible(runs[i], g, config, watermark)
    ensures r.Some? ==> r.value in runs && Eligible(r.value, g, config, watermark)
    ensures r.Some? ==> forall i :: 0 <= i < |runs| && Eligible(runs[i], g, config, watermark) ==> runs[i].eventSeq <= r.value.eventSeq
  {
    if runs == [] then None
    else
      var rest := LatestEligible(runs[1..], g, config, watermark);
      assert forall i :: 1 <= i < |runs| ==> runs[i] == runs[1..][i - 1];
      if Eligible(runs[0], g, config, watermark) && (rest.None? || runs[0].eventSeq >= rest.value.eventSeq) then Some(runs[0])
      else rest
  }

  predicate ValidCount(v: Option<int>) {
    v.Some? && 0 <= v.value <= MAX_SAFE_INTEGER
  }

  function At(run: GateRun, state: EvidenceState, reason: EvidenceReason): Classified {
    Classified(state, reason, Some(run.eventSeq), None)
  }

  function ExpectedVersion(p: Parser): nat {
    if p == NodeTest then NODE_TEST_PARSER_VERSION else EXIT_ONLY_PARSER_VERSION
  }

  /** What the stored result alone says; `None` lets the run through to the freshness checks. */
  function ParserState(run: GateRun, policy: Gate): Option<Classified> {
    var c := run.counts;
    if run.parser != policy.parser || run.parserVersion != ExpectedVersion(policy.parser) then
      Some(At(run, SelfError, UnsupportedParserVersion))
    else if run.capture == CaptureFailed then Some(At(run, NonPass, RecordedNonPass))
    else if run.capture != CaptureComplete then Some(At(run, Missing, CaptureNotComplete))
    else if policy.parser == NodeTest then
      if !ValidCount(c.total) || !ValidCount(c.pass) || !ValidCount(c.fail) || !ValidCount(c.skip)
         || c.pass.value + c.fail.value + c.skip.value > c.total.value then
        Some(At(run, SelfError, ImpossibleResultCounts))
      else if c.total.value == 0 || c.fail.value != 0 || c.skip.value > policy.skips.max
              || (policy.skips.requireReasons && c.skip.value > 0 && run.skipReasonsComplete != Some(true)) then
        Some(At(run, NonPass, RecordedNonPass))
      else None
    else if c.total.Some? || c.pass.Some? || c.fail.Some? || c.skip.Some? then
      Some(At(run, SelfError, ImpossibleResultCounts))
    else None
  }

  /** The earliest event after `since` that touches the relevant paths. */
  function FirstInvalidating(events: seq<MutationEvent>, since: nat, relevant: seq<string>): (r: Option<MutationEvent>)
    ensures r.None? <==> forall i :: 0 <= i < |events| && events[i].eventSeq > since ==> !MutationIntersects(events[i], relevant)
    ensures r.Some? ==> r.value in events && r.value.eventSeq > since && MutationIntersects(r.value, relevant)
  {
    if events == [] then None
    else
      var rest := FirstInvalidating(events[1..], since, relevant);
      assert forall i :: 1 <= i < |events| ==> events[i] == events[1..][i - 1];
      if events[0].eventSeq > since && MutationIntersects(events[0], relevant)
         && (rest.None? || events[0].eventSeq <= rest.value.eventSeq) then Some(events[0])
      else rest
  }

  function ClassifyGateEvidence(
    latest: Option<GateRun>, policy: Gate, relevant: seq<string>, events: seq<MutationEvent>, current: DigestResult): Classified
  {
    if latest.None? then Classified(Missing, NoEligibleRun, None, None)
    else
      var run := latest.value;
      var parsed := ParserState(run, policy);
      if parsed.Some? then parsed.value
      else if run.digestVersion != Some(WORKTREE_DIGEST_V2_VERSION) then At(run, Missing, DigestVersionRequiresRerun)
      else if run.digest.None? || !current.complete || current.digest.None? then At(run, SelfError, DigestUnavailable)
      else if run.pathsHash != Some(current.pathsHash) then At(run, Missing, RelevantPathsMismatch)
      else
        var bad := FirstInvalidating(events, run.eventSeq, relevant);
        if bad.Some? then
          Classified(StaleMutation,
            if bad.value.mutationClass == UnknownMutation then LaterUnknownMutation else LaterScopedMutation,
            Some(run.eventSeq), Some(bad.value.eventSeq))
        else if run.digest != current.digest then At(run, StaleDigest, WorktreeDigestChanged)
        else At(run, FreshPass, EvidenceFresh)
  }

  /** A stored result the policy accepts: right parser, complete, and counts that pass it. */
  predicate AcceptedResult(run: GateRun, policy: Gate) {
    var c := run.counts;
    && run.parser == policy.parser && run.parserVersion == ExpectedVersion(policy.parser)
    && run.capture == CaptureComplete
    && (if policy.parser == NodeTest then
          && ValidCount(c.total) && ValidCount(c.pass) && c.fail == Some(0) && ValidCount(c.skip)
          && 0 < c.total.value && c.pass.value + c.skip.value <= c.total.value && c.skip.value <= policy.skips.max
          && (policy.skips.requireReasons && c.skip.value > 0 ==> run.skipReasonsComplete == Some(true))
        else c == Counts(None, None, None, None))
  }

  /** What fresh evidence is: an accepted run on the same digest and patterns, with nothing relevant since. */
  predicate FreshEvidence(run: GateRun, policy: Gate, relevant: seq<string>, events: seq<MutationEvent>, current: DigestResult) {
    && AcceptedResult(run, policy)
    && run.digestVersion == Some(WORKTREE_DIGEST_V2_VERSION)
    && current.complete && current.digest.Some? && run.digest == current.digest
    && run.pathsHash == Some(current.pathsHash)
    && forall i :: 0 <= i < |events| && events[i].eventSeq > run.eventSeq ==> !MutationIntersects(events[i], relevant)
  }

  /** The chain of classification tests says `fresh_pass` for fresh evidence and nothing else. */
  lemma FreshPassIff(latest: Option<GateRun>, policy: Gate, relevant: seq<string>, events: seq<MutationEvent>, current: DigestResult)
    ensures ClassifyGateEvidence(latest, policy, relevant, events, current).state == FreshPass
       <==> latest.Some? && FreshEvidence(latest.value, policy, relevant, events, current)
  {
    if latest.Some? {
      assert ParserState(latest.value, policy).None? <==> AcceptedResult(latest.value, policy);
    }
  }

  /** The run's baseline and the present one can be compared: same digest version, both taken, same patterns. */
  predicate Comparable(run: GateRun, current: DigestResult) {
    && run.digestVersion == Some(WORKTREE_DIGEST_V2_VERSION) && run.digest.Some?
    && current.complete && current.digest.Some? && run.pathsHash == Some(current.pathsHash)
  }

  predicate TouchedSince(run: GateRun, relevant: seq<string>, events: seq<MutationEvent>) {
    exists i :: 0 <= i < |events| && events[i].eventSeq > run.eventSeq && MutationIntersects(events[i], relevant)
  }

  /** An accepted, comparable run is stale for a later relevant mutation first, for a changed worktree second. */
  lemma StaleIff(run: GateRun, policy: Gate, relevant: seq<string>, events: seq<MutationEvent>, current: DigestResult)
    ensures var state := ClassifyGateEvidence(Some(run), policy, relevant, events, current).state;
            && (state == StaleMutation <==> AcceptedResult(run, policy) && Comparable(run, current) && TouchedSince(run, relevant, events))
            && (state == StaleDigest <==> AcceptedResult(run, policy) && Comparable(run, current)
                                           && !TouchedSince(run, relevant, events) && run.digest != current.digest)
            && (state == NonPass ==> !AcceptedResult(run, policy))
            && (state == Missing && run.capture == CaptureComplete && AcceptedResult(run, policy) ==> !Comparable(run, current))
  {
    assert ParserState(run, policy).None? <==> AcceptedResult(run, policy);
  }

  /** An intersecting event between the run and now is reported as the invalidating one, earliest first. */
  lemma StaleNamesTheEarliest(run: GateRun, policy: Gate, relevant: seq<string>, events: seq<MutationEvent>, current: DigestResult)
    requires var c := ClassifyGateEvidence(Some(run), policy, relevant, events, current); c.state == StaleMutation
    ensures var c := ClassifyGateEvidence(Some(run), policy, relevant, events, current);
            && c.invalidatingEventSeq.Some? && c.invalidatingEventSeq.value > run.eventSeq
            && forall i :: 0 <= i < |events| && events[i].eventSeq > run.eventSeq && MutationIntersects(events[i], relevant)
                 ==> c.invalidatingEventSeq.value <= events[i].eventSeq
  {
    EarliestInvalidating(events, run.eventSeq, relevant);
  }

  lemma {:induction false} EarliestInvalidating(events: seq<MutationEvent>, since: nat, relevant: seq<string>)
    ensures var r := FirstInvalidating(events, since, relevant);
            r.Some? ==> forall i :: 0 <= i < |events| && events[i].eventSeq > since && MutationIntersects(events[i], relevant)
                          ==> r.value.eventSeq <= events[i].eventSeq
  {
    if events != [] {
      EarliestInvalidating(events[1..], since, relevant);
      assert forall i :: 1 <= i < |events| ==> events[i] == events[1..][i - 1];
    }
  }
}
