/** How a hook event is classified, matched against gate commands, and turned into stored runs. */
module Recorder {
  import opened Rows
  import opened EvidenceSelector
  import ResultParser
  import ShadowEvaluator
  import Paths

  // --- mutation classification -----------------------------------------------------------------------

  datatype Tool = EditTool | BashTool | OtherTool

  /** A hook event as the adapter reports it; targets and paths are already resolved against the root. */
  datatype HookObservation =
    | ToolUse(tool: Tool, success: bool, captured: bool, argv: Option<seq<string>>, targets: seq<Option<string>>)
    | FileChange(path: Option<string>)
    | AdapterFailure

  const READ_ONLY_COMMANDS: seq<seq<string>> := [
    ["pwd"],
    ["git", "status"],
    ["git", "status", "--short"],
    ["git", "diff", "--quiet"],
    ["git", "diff", "--cached", "--quiet"],
    ["git", "rev-parse", "--is-inside-work-tree"],
    ["git", "status", "--porcelain=v2", "-z", "--untracked-files=all"]]

  predicate ReadOnly(argv: seq<string>) {
    argv in READ_ONLY_COMMANDS
  }

  function Values(paths: seq<Option<string>>): seq<string> {
    if paths == [] then []
    else (if paths[0].Some? then [paths[0].value] else []) + Values(paths[1..])
  }

  function Unique(paths: seq<string>): (r: seq<string>)
    ensures Distinct(r) && forall p :: p in r <==> p in paths
  {
    if paths == [] then []
    else
      assert forall p :: p in paths <==> p == paths[0] || p in paths[1..];
      var rest := Unique(paths[1..]);
      if paths[0] in rest then rest else [paths[0]] + rest
  }

  predicate AllPresent(paths: seq<Option<string>>) {
    forall i :: 0 <= i < |paths| ==> paths[i].Some?
  }

  datatype Mutation = Mutation(class_: MutationClass, paths: seq<string>)

  /** Conservative: anything not shown to be a scoped edit or an exact read-only command may have touched everything. */
  function ClassifyMutation(o: HookObservation): Mutation {
    match o
    case AdapterFailure => Mutation(UnknownMutation, [])
    case FileChange(path) => if path.Some? then Mutation(Scoped, [path.value]) else Mutation(UnknownMutation, [])
    case ToolUse(tool, success, captured, argv, targets) =>
      if !captured || !success then Mutation(UnknownMutation, [])
      else match tool
        case EditTool =>
          if targets == [] || !AllPresent(targets) then Mutation(UnknownMutation, []) else Mutation(Scoped, Unique(Values(targets)))
        case BashTool =>
          if argv.Some? && ReadOnly(argv.value) then Mutation(NoMutation, []) else Mutation(UnknownMutation, [])
        case OtherTool => Mutation(UnknownMutation, [])
  }

  predicate Successful(o: HookObservation) {
    o.ToolUse? && o.captured && o.success
  }

  /** Only an exact read-only command counts as no mutation, and only a fully known edit as a scoped one. */
  lemma ClassificationIsConservative(o: HookObservation)
    ensures var m := ClassifyMutation(o);
            && (m.class_ == NoMutation <==> Successful(o) && o.tool == BashTool && o.argv.Some? && ReadOnly(o.argv.value))
            && (m.class_ == Scoped <==>
                  || (o.FileChange? && o.path.Some?)
                  || (Successful(o) && o.tool == EditTool && o.targets != [] && AllPresent(o.targets)))
            && (m.class_ == Scoped && o.FileChange? ==> m.paths == [o.path.value])
            && (m.class_ == Scoped && o.ToolUse? ==> Distinct(m.paths) && forall p :: p in m.paths <==> Some(p) in o.targets)
            && (m.class_ != Scoped ==> m.paths == [])
  {
    if o.ToolUse? { ValuesAre(o.targets); }
  }

  lemma {:induction false} ValuesAre(paths: seq<Option<string>>)
    ensures forall p :: p in Values(paths) <==> Some(p) in paths
  {
    if paths != [] {
      ValuesAre(paths[1..]);
      assert forall x :: x in paths <==> x == paths[0] || x in paths[1..];
    }
  }

  // --- matching a command against a gate ----------------------------------------------------------------

  datatype Match = Matched(form: nat) | InvalidCommand | ArgvMismatch | CwdMismatch | EnvMismatch

  function Forms(gate: Gate): seq<CommandForm> {
    [gate.primary] + gate.aliases
  }

  predicate EnvironmentMatches(names: seq<string>, observed: Option<map<string, string>>, expected: Option<map<string, Option<string>>>) {
    || names == []
    || (&& observed.Some? && expected.Some?
        && forall i :: 0 <= i < |names| ==>
             names[i] in observed.value && names[i] in expected.value && expected.value[names[i]] == Some(observed.value[names[i]]))
  }

  /** Some command form of the gate has this argv and directory, and the environment matches. */
  predicate GateMatches(argv: Option<seq<string>>, cwd: Option<string>, resolve: string -> Option<string>, gate: Gate,
                        observed: Option<map<string, string>>, expected: Option<map<string, Option<string>>>)
  {
    && argv.Some? && cwd.Some? && EnvironmentMatches(gate.envNames, observed, expected)
    && exists k :: 0 <= k < |Forms(gate)| && Forms(gate)[k].argv == argv.value && resolve(Forms(gate)[k].cwd) == cwd
  }

  /** Exact match against the primary command and its aliases; `resolve` is the root-bounded path resolution. */
  method MatchGateCommand(
    argv: Option<seq<string>>, cwd: Option<string>, resolve: string -> Option<string>, gate: Gate,
    observed: Option<map<string, string>>, expected: Option<map<string, Option<string>>>)
    returns (r: Match)
    ensures r.InvalidCommand? <==> argv.None? || cwd.None?
    ensures r.Matched? ==>
      && argv.Some? && cwd.Some? && r.form < |Forms(gate)| && Forms(gate)[r.form].argv == argv.value
      && resolve(Forms(gate)[r.form].cwd) == cwd && EnvironmentMatches(gate.envNames, observed, expected)
      && forall k :: 0 <= k < r.form ==> Forms(gate)[k].argv != argv.value || resolve(Forms(gate)[k].cwd) != cwd
    ensures r.ArgvMismatch? <==> argv.Some? && cwd.Some? && forall k :: 0 <= k < |Forms(gate)| ==> Forms(gate)[k].argv != argv.value
    ensures r.Matched? <==> GateMatches(argv, cwd, resolve, gate, observed, expected)
    ensures r.EnvMismatch? ==> !EnvironmentMatches(gate.envNames, observed, expected)
  {
    if argv.None? || cwd.None? { return InvalidCommand; }
    var forms := Forms(gate);
    var sawArgv, sawCwd := false, false;
    for k := 0 to |forms|
      invariant sawArgv <==> exists j :: 0 <= j < k && forms[j].argv == argv.value
      invariant sawCwd <==> exists j :: 0 <= j < k && forms[j].argv == argv.value && resolve(forms[j].cwd) == cwd
      invariant sawCwd ==> !EnvironmentMatches(gate.envNames, observed, expected)
    {
      if forms[k].argv == argv.value {
        sawArgv := true;
        if resolve(forms[k].cwd) == cwd {
          sawCwd := true;
          if EnvironmentMatches(gate.envNames, observed, expected) { return Matched(k); }
        }
      }
    }
    return if !sawArgv then ArgvMismatch else if !sawCwd then CwdMismatch else EnvMismatch;
  }

  // --- the runs of one event -------------------------------------------------------------------------------

  /** The recorder's patterns for a gate: the path rules requiring it, or everything. */
  function RequiringPaths(g: string, pathRules: seq<PathRule>): seq<string> {
    if pathRules == [] then []
    else (if g in pathRules[0].require then pathRules[0].paths else []) + RequiringPaths(g, pathRules[1..])
  }

  function RecorderPaths(g: string, config: GateConfig): seq<string> {
    if RequiringPaths(g, config.pathRules) == [] then ["**"] else RequiringPaths(g, config.pathRules)
  }

  /** A run of `argv` for a configured gate: one of the gate's command forms, hashed under the recorder's patterns. */
  predicate AttestedBy(run: GateRun, argv: seq<string>) {
    && run.gateId in run.config.gates
    && (exists k :: 0 <= k < |Forms(run.config.gates[run.gateId])| && Forms(run.config.gates[run.gateId])[k].argv == argv)
    && run.pathsHash == Some(ShadowEvaluator.PatternSet(RecorderPaths(run.gateId, run.config)))
  }

  /** What the recorder hands to its transaction: runs only on a command event, all for its one command. */
  ghost predicate WellRecorded(runs: seq<GateRun>, class_: MutationClass) {
    runs == [] || exists argv :: OneCommand(runs, class_, argv)
  }

  /** A command leaves its event unknown unless it is on the read-only list (and succeeded). */
  predicate CommandClass(argv: seq<string>, class_: MutationClass) {
    class_ == UnknownMutation || (class_ == NoMutation && ReadOnly(argv))
  }

  predicate OneCommand(runs: seq<GateRun>, class_: MutationClass, argv: seq<string>) {
    && CommandClass(argv, class_)
    && forall i :: 0 <= i < |runs| ==> AttestedBy(runs[i], argv)
  }

  predicate HasRun(runs: seq<GateRun>, g: string) {
    exists i :: 0 <= i < |runs| && runs[i].gateId == g
  }

  lemma OneMoreRun(runs: seq<GateRun>, run: GateRun)
    ensures forall g :: HasRun(runs + [run], g) <==> HasRun(runs, g) || g == run.gateId
  {
    var all := runs + [run];
    assert all[|runs|] == run && forall i :: 0 <= i < |runs| ==> all[i] == runs[i];
  }

  /** The run of one gate: what the observed command proves about it, if it is one of the gate's commands. */
  method RunOfGate(
    argv: Option<seq<string>>, config: GateConfig, g: string, cwd: Option<string>,
    resolve: string -> Option<string>, observed: Option<map<string, string>>, expected: Option<map<string, Option<string>>>,
    result: ResultParser.Observation, env: ShadowEvaluator.Environment)
    returns (run: Option<GateRun>)
    requires g in config.gates
    ensures run.Some? <==> GateMatches(argv, cwd, resolve, config.gates[g], observed, expected)
    ensures run.Some? ==>
      && argv.Some? && run.value.gateId == g && run.value.config == config && AttestedBy(run.value, argv.value)
      && run.value == ResultParser.RecordedRun(g, config, config.gates[g], result, ShadowEvaluator.CaptureDigest(env, RecorderPaths(g, config)))
  {
    var matched := MatchGateCommand(argv, cwd, resolve, config.gates[g], observed, expected);
    if !matched.Matched? { return None; }
    var digest := ShadowEvaluator.CaptureDigest(env, RecorderPaths(g, config));
    run := Some(ResultParser.RecordedRun(g, config, config.gates[g], result, digest));
  }

  /** A run of one of the gates listed, as the recorder builds it. */
  predicate IsRunOf(run: GateRun, gateIds: seq<string>, argv: Option<seq<string>>, config: GateConfig, result: ResultParser.Observation,
                    env: ShadowEvaluator.Environment)
  {
    && argv.Some? && run.gateId in gateIds && run.gateId in config.gates && run.config == config && AttestedBy(run, argv.value)
    && run == ResultParser.RecordedRun(run.gateId, config, config.gates[run.gateId], result,
                ShadowEvaluator.CaptureDigest(env, RecorderPaths(run.gateId, config)))
  }

  /** The gate loop: a run for every gate that matches, in order. */
  method GateRuns(
    argv: Option<seq<string>>, config: GateConfig, gateIds: seq<string>, cwd: Option<string>,
    resolve: string -> Option<string>, observed: Option<map<string, string>>, expected: Option<map<string, Option<string>>>,
    result: ResultParser.Observation, env: ShadowEvaluator.Environment)
    returns (runs: seq<GateRun>)
    requires Distinct(gateIds) && forall i :: 0 <= i < |gateIds| ==> gateIds[i] in config.gates
    ensures forall i :: 0 <= i < |runs| ==> IsRunOf(runs[i], gateIds, argv, config, result, env)
    ensures forall i, j :: 0 <= i < j < |runs| ==> runs[i].gateId != runs[j].gateId
    ensures forall k :: 0 <= k < |gateIds| ==>
      (HasRun(runs, gateIds[k]) <==> GateMatches(argv, cwd, resolve, config.gates[gateIds[k]], observed, expected))
  {
    runs := [];
    for k := 0 to |gateIds|
      invariant forall i :: 0 <= i < |runs| ==> IsRunOf(runs[i], gateIds[..k], argv, config, result, env)
      invariant forall i, j :: 0 <= i < j < |runs| ==> runs[i].gateId != runs[j].gateId
      invariant forall j :: 0 <= j < k ==>
        (HasRun(runs, gateIds[j]) <==> GateMatches(argv, cwd, resolve, config.gates[gateIds[j]], observed, expected))
    {
      assert gateIds[..k + 1] == gateIds[..k] + [gateIds[k]];
      NoRunYet(runs, gateIds, k, argv, config, result, env);
      var run := RunOfGate(argv, config, gateIds[k], cwd, resolve, observed, expected, result, env);
      if run.Some? {
        OneMoreRun(runs, run.value);
        runs := runs + [run.value];
      }
    }
    assert gateIds[..|gateIds|] == gateIds;
  }

  lemma NoRunYet(runs: seq<GateRun>, gateIds: seq<string>, k: nat, argv: Option<seq<string>>, config: GateConfig,
                 result: ResultParser.Observation, env: ShadowEvaluator.Environment)
    requires k < |gateIds| && Distinct(gateIds)
    requires forall i :: 0 <= i < |runs| ==> IsRunOf(runs[i], gateIds[..k], argv, config, result, env)
    ensures !HasRun(runs, gateIds[k])
  {
    forall i | 0 <= i < |runs| ensures runs[i].gateId != gateIds[k] {
      var j :| 0 <= j < k && gateIds[..k][j] == runs[i].gateId;
    }
  }

  /** The recorder's runs for one event: match every configured gate, parse the result, attach the digest. */
  method MatchingGateRuns(
    o: HookObservation, config: Option<GateConfig>, gateIds: seq<string>, cwd: Option<string>,
    resolve: string -> Option<string>, observed: Option<map<string, string>>, expected: Option<map<string, Option<string>>>,
    result: ResultParser.Observation, env: ShadowEvaluator.Environment)
    returns (runs: seq<GateRun>)
    requires config.Some? ==> Distinct(gateIds) && ToSet(gateIds) == config.value.gates.Keys
    ensures WellRecorded(runs, ClassifyMutation(o).class_)
    ensures forall i, j :: 0 <= i < j < |runs| ==> runs[i].gateId != runs[j].gateId
    ensures runs != [] ==> o.ToolUse? && o.tool == BashTool && config.Some?
    ensures forall i :: 0 <= i < |runs| ==> IsRunOf(runs[i], gateIds, o.argv, config.value, result, env)
    ensures o.ToolUse? && o.tool == BashTool && config.Some? ==>
      forall g :: g in config.value.gates ==>
        (HasRun(runs, g) <==> GateMatches(o.argv, cwd, resolve, config.value.gates[g], observed, expected))
  {
    if !o.ToolUse? || o.tool != BashTool || config.None? { return []; }
    forall i | 0 <= i < |gateIds| ensures gateIds[i] in config.value.gates { assert gateIds[i] in ToSet(gateIds); }
    runs := GateRuns(o.argv, config.value, gateIds, cwd, resolve, observed, expected, result, env);
    forall g | g in config.value.gates
      ensures HasRun(runs, g) <==> GateMatches(o.argv, cwd, resolve, config.value.gates[g], observed, expected)
    {
      assert g in ToSet(gateIds);
    }
    if runs != [] {
      assert IsRunOf(runs[0], gateIds, o.argv, config.value, result, env);
      assert OneCommand(runs, ClassifyMutation(o).class_, o.argv.value);
    }
  }

  // --- when the recorder's patterns are the evaluator's ---------------------------------------------------------

  /** Path rules as the config loader stores them, every pattern normalized. */
  function NormalizedRules(raw: seq<PathRule>): seq<PathRule> {
    Map((r: PathRule) => PathRule(Map(Paths.DigestPattern, r.paths), r.require), raw)
  }

  function RuleSet(g: string, rules: seq<Rule>, events: seq<MutationEvent>): set<string> {
    ToSet(RulePatterns(g, rules, events))
  }

  lemma {:induction false} ConfigSetsAgree(g: string, raw: seq<PathRule>)
    ensures var stored := NormalizedRules(raw);
            && ToSet(ConfigPatterns(g, stored)) == ShadowEvaluator.PatternSet(RequiringPaths(g, stored))
            && (ConfigPatterns(g, stored) == [] <==> RequiringPaths(g, stored) == [])
  {
    var stored := NormalizedRules(raw);
    if raw != [] {
      ConfigSetsAgree(g, raw[1..]);
      assert stored[1..] == NormalizedRules(raw[1..]);
      if g in stored[0].require {
        var paths := stored[0].paths;
        forall i | 0 <= i < |paths| ensures Paths.DigestPattern(paths[i]) == Paths.NormalizePattern(paths[i]) {
          Paths.DigestOfNormalized(raw[0].paths[i]);
          Paths.DigestTwice(raw[0].paths[i]);
        }
      }
    }
  }

  lemma {:induction false} PatternsAreNormal(g: string, rules: seq<Rule>, pathRules: seq<PathRule>, events: seq<MutationEvent>)
    ensures forall p :: p in RulePatterns(g, rules, events) ==> Paths.DigestPattern(p) == p
    ensures forall p :: p in ConfigPatterns(g, pathRules) ==> Paths.DigestPattern(p) == p
    decreases |rules| + |pathRules|
  {
    Paths.EverythingIsNormal();
    if rules != [] {
      PatternsAreNormal(g, rules[1..], pathRules, events);
      forall i | 0 <= i < |rules[0].paths| ensures Paths.DigestPattern(Paths.NormalizePattern(rules[0].paths[i])) == Paths.NormalizePattern(rules[0].paths[i]) {
        Paths.DigestOfNormalized(rules[0].paths[i]);
      }
    } else if pathRules != [] {
      PatternsAreNormal(g, rules, pathRules[1..], events);
      forall i | 0 <= i < |pathRules[0].paths| ensures Paths.DigestPattern(Paths.NormalizePattern(pathRules[0].paths[i])) == Paths.NormalizePattern(pathRules[0].paths[i]) {
        Paths.DigestOfNormalized(pathRules[0].paths[i]);
      }
    }
  }

  /**
   The stored paths hash equals the evaluator's exactly when the applicable rules naming the gate add no pattern
   beyond the configured ones (or, for a gate no path rule requires, beyond everything).
   */
  lemma PathsHashAgrees(g: string, rules: seq<Rule>, raw: seq<PathRule>, config: GateConfig, events: seq<MutationEvent>)
    requires config.pathRules == NormalizedRules(raw)
    ensures ShadowEvaluator.PatternSet(RelevantPaths(g, rules, config.pathRules, events))
              == ShadowEvaluator.PatternSet(RecorderPaths(g, config))
       <==> RuleSet(g, rules, events) <= ShadowEvaluator.PatternSet(RecorderPaths(g, config))
  {
    var stored := config.pathRules;
    var configured, added := ConfigPatterns(g, stored), RulePatterns(g, rules, events);
    ConfigSetsAgree(g, raw);
    PatternsAreNormal(g, rules, stored, events);
    Paths.EverythingIsNormal();
    assert ToSet(configured + added) == ToSet(configured) + ToSet(added);
    if configured == [] {
      assert configured + added == added;
      if added != [] { assert added[0] in ToSet(added); }
    }
  }
}
