# Waykeep, modelled and proved

Waykeep keeps a coding agent's memory and watches what the agent does. This project models the parts of it whose
correctness depends on many steps at once, and proves what they promise.

**Governance evidence.** Hooks record every tool event of a project in one transaction: an order number, a mutation
number, the event, and the test-gate runs that came with it. Rules have revisions; the first evaluator that sees a
revision writes a watermark for it. At each Stop an evaluator reads one snapshot, works out which gates are required,
classifies the newest run of each, folds the results by a fixed precedence and commits a verdict, unless the project
moved on meanwhile. Retention deletes rows underneath all of this.
`GovernanceDb` defines each transaction as a function on the tables, `GovernanceStore` has the class whose methods
update the tables in place and are proved equal to those functions, and the history modules prove theorems about every
sequence of transactions of any number of processes. The central one, `PassHistory.PassMeansHistory`, says what a
committed `pass` stands for; `StopEvaluation.EvaluateShadowStop` is the evaluator itself, retry included, proved to
commit only that, to commit whenever nothing disturbs it, and to give up on a moving project only after two tries.
`CommandEvidence` adds what a `pass` says about the commands behind it.

**Text the governance code trusts.** A shell-command tokenizer and the printer used in warnings, the glob compiler, the
scanner for repeated JSON member names, canonical JSON, and POSIX path normalization: each is proved against an
independent grammar, matcher or meaning.

**Store migration.** Moving the user's store to its new home, as a protocol over system calls: several migrators,
writers of the old store, hand edits, crashes at any point, and power losses that keep any mix of unsynced changes.

**Four algorithms.** The relay's poll pump, incremental confidence decay, the merge of our hooks into a Codex hooks
file with its trust pruning, and bounded graph reachability. The warning policy and its size bound are here too.

Design of the model:

- A table is the sequence of its rows in insertion order. A transaction is atomic; a failed one changes nothing.
- SHA-256 is taken as injective: a configuration hash is the configuration, a paths hash the set of normalized patterns.
  The canonical-JSON theorem is what justifies reading the hashed text as the value.
- Clocks, deadlines, the worktree, the client's capabilities, poll results and write counts are parameters.
- JSON is modelled over UTF-16 code units, and the relay's check over bytes, tied together by UTF-8. Shell commands,
  paths, ids and warnings are sequences of Unicode characters, with UTF-16 length where a limit is checked; unpaired
  surrogates are therefore not represented in those.

What the proofs showed about the code:

- The tokenizer separates words at every JavaScript space, so an unquoted vertical tab, form feed or non-ASCII space
  splits a word that a POSIX shell would keep. `CommandTokenizer.PosixWordSplit` gives the exact condition.
- A glob's `.` does not match line terminators. A path is matched as promised by every pattern exactly when it has none
  (`Glob.PathIsSafeIff`), and a pattern on every path exactly when it has no `**` (`Glob.PatternIsSafeIff`).
- A run's stored paths hash covers configured patterns only. An applicable rule that adds a pattern of its own to a
  gate makes every run of that gate a mismatch (`Recorder.PathsHashAgrees`, `CommandEvidence.PassAddsNoPatterns`).
- A command off the read-only list is itself an unknown mutation, so two required gates with different commands off
  that list can never be fresh together (`CommandEvidence.DisjointCommandsNeverPass`).
- When another evaluator writes the missing watermarks between this one's read and its marking transaction, no second
  read is requested and the attempt ends in a malformed-rule fault, in every reachable state
  (`Preparation.SecondMarkerFaults`); `Preparation.MalformedIff` says exactly when that fault arises, and
  `Preparation.TwoEvaluators` is the smallest history with it.
- The history check of a new rule is outside its transaction. A creation keeps its family a chain exactly when the id is
  still unused at the transaction (`RuleHistory.CreationKeepsChainIff`), so two racing creators can leave two current rows.
- A recall loses exactly the decay age owed at that moment (`Decay.RecallLosesOwedAge`), and loses nothing exactly when
  none is owed or the row has reached the floor (`Decay.RecallLosesNothingIff`).
- `reachable` with a depth bound of zero still returns direct neighbours (`Reachability.ZeroDepthReturnsNeighbours`). Its
  path guard is right about an id exactly when the id has no comma (`Reachability.GuardIsRightIff`), and with one a node
  two steps away is never found (`Reachability.CommaHidesNode`). Ids made by src/utils/id.ts:3-5 are UUIDs and have none;
  the guard relies on that.
- The trust scans take any mention of a state header for the header, in comments too. `CodexTrust.ParseAfterPruneIff` says
  exactly when pruning reads back as the other entries, `CodexTrust.DisabledStayIff` exactly when it leaves the user's
  disabled entries alone. An init run compares the two TOML documents before it accepts a pruning. An accepted one still
  erases a disabled section when a comment elsewhere mentions its header and the position moved, and exactly then
  (`CodexInit.InitKeepsDisabledIff`, `CodexInit.CommentErasesDisabled`). It leaves stale trust exactly when a line mentions
  a stale header behind another one (`CodexInit.InitTrustIsRightIff`, `CodexInit.SecondHeaderStays`). Both go away when
  headers stand only where they open their section (`CodexInit.PlainIsAccepted`).
- The merged hooks and the new trust shadow are written even when the pruning is refused, and the shadow then vouches for
  the stale trust that stays (`CodexInit.RefusedPruneIsTrusted`).
- The relay's pump can deadlock, although src/hooks/hook-relay.c:345-349 says it cannot: its write to the child blocks, and
  nothing drains the child's stdout meanwhile. It can get stuck exactly when the buffered input is longer than the pipe to
  the child holds, or a streamed chunk longer than the room at which poll reports that pipe writable
  (`RelayDeadlock.HangsIff`); a child that writes more than a pipe holds before it reads then always hangs it
  (`RelayDeadlock.HangsAlways`). With pipes of 64 KiB any input between that and the 256 KiB buffer will do.
- On a file system without hard links the config is renamed into place, and a config edited since the look is lost, which
  is the only way a migrator loses a file of the user (`MigrationHistory.ForkLostIff`, `MigrationHistory.EditRenamedOver`).
- The rerun command in a warning tokenizes back exactly when, besides, no argument has one of the two masked words
  (`RerunCommand.RerunTokenizesIff`).
- A target config edited between its publication and the marker stays as edited, so it need not mirror the legacy one; the
  database is not affected (`MigrationRuns.LateEditStays`, `MigrationHistory.MarkerMeansComplete`). It mirrors it exactly
  when the last edit wrote what was read there (`MigrationHistory.EditedMirrorsIff`).
- The relay's body check accepts a backslash followed by a zero byte, and bytes that are not UTF-8; what it accepts
  otherwise is exactly JSON (`RelayBody.AcceptsIsJson`, `RelayBody.AcceptedButNotJson`).
- A warning exceeds its 4,000 UTF-16 units exactly when a gate was left out and the rest comes within 66 units of the
  limit, and then by at most those 66 (`WarningPolicy.TooLongIff`); `WarningPolicy.LongestMessage` has one of 4,066.

## Model

| member | source | states |
|---|---|---|
| EventHistory.StepKeepsInv | src/governance/recorder-store.ts:155-249 | every transaction keeps: increasing order numbers, mutation numbers that never drop, no delivery stored twice, no run without its event |
| EventHistory.HistoryKeepsInv | src/governance/recorder-store.ts:22-91 | the same over any history of recorders, rule changes, evaluators and retention |
| EventHistory.CounterCountsMutations | src/governance/recorder-store.ts:61-91 | over any history the project counter grows by exactly the uncorrelated mutating events recorded |
| EventHistory.CounterTheorem | src/governance/recorder-store.ts:155-200 | from the empty store the counter is the number of mutations ever recorded, it bounds every stored row and follows event order, retention included |
| EventHistory.HistoryIsLater | src/db/governance-schema.ts:6 | order numbers are never reused: what a later state shows under an old number was there before |
| EventHistory.UnchangedSequence | src/governance/shadow-rows.ts:91-97 | equal sequences before and after a history mean no surviving new event and no mutation in between |
| EventHistory.RunAboveIsLater | src/governance/repository-cleanup.ts:39-53 | a run numbered above the sequence a state showed was recorded after that state, even though cleanup deleted events |
| EventHistory.RedeliveryChangesNothing | src/governance/recorder-store.ts:22-38 | delivering an event again reports its original numbers and changes no event, run, counter or audit row |
| EventHistory.OneCallCountsOnce | src/governance/recorder-store.ts:40-59 | two hooks of one tool call that report the same scoped paths, in any order of paths or hooks, share one mutation number |
| EventHistory.RecordTwice | src/governance/recorder-store.ts:155-165 | recording and redelivering at once is recording |
| RuleHistory.FamiliesAreChains | src/governance/rule-repository.ts:112-117 | with atomic creates and racing transitions, every rule family has revisions 1..n in one supersession chain whose last row alone is current |
| RuleHistory.CreationKeepsChainIff | src/governance/rule-repository.ts:112-117 | a creation whose history check is older than its transaction keeps the family a chain exactly when the id is still unused |
| RuleHistory.HistoryKeepsInv | src/governance/rule-repository.ts:167-243 | the chain and watermark invariant over every history in which a transition was computed from an earlier read |
| RuleHistory.RetiredIsFinal | src/governance/rule-repository.ts:167-243 | in any history a retired family never changes again; only a lifecycle cleanup may remove it, whole and with its watermarks |
| RetentionExactness.EvidenceRetentionIsExact | src/governance/repository-cleanup.ts:32-72 | a run is deleted exactly when its project is swept and it is past that project's days; an event exactly when it is that old too and no remaining run or audit row refers to it; no project's sweep changes another's |
| RetentionExactness.LifecycleIsExact | src/governance/repository-cleanup.ts:84-117 | a family is removed, whole, exactly when its current revision is a retirement older than both ceilings; every other family keeps its history |
| RetentionExactness.RetiredIsRemovedIff | src/governance/repository-cleanup.ts:99-117 | in any history the next transaction removes a retired family exactly when it is a successful lifecycle cleanup of its project that finds it older than both ceilings |
| RetentionExactness.AuditPruningIsExact | src/governance/repository-cleanup.ts:107-148 | a lifecycle cleanup keeps an audit row exactly when its family is kept or, without one, when it is within the audit days; other projects keep all; it adds only its own record |
| RuleHistory.NoDuplicateWatermark | src/governance/shadow-snapshot-store.ts:142-245 | no current rule revision ever has two watermarks, so snapshots are not refused for that |
| GovernanceStore.Store.RecordToolEvent | src/governance/recorder-store.ts:155-249 | the in-place transaction does to the tables what `Record` says, reports its numbers, and rolls back on error |
| GovernanceStore.Store.InsertRuleRevision | src/governance/rule-repository.ts:197-243 | insert, supersede and audit as one step; a lost race changes nothing |
| GovernanceStore.Store.CreateRule | src/governance/rule-repository.ts:112-117 | creation succeeds exactly for an unused rule id, checked in the same step |
| GovernanceStore.Store.EnsureRuleWatermarks | src/governance/shadow-snapshot-store.ts:142-245 | first-seen marks at one sequence, and a refresh request exactly when some rule had none |
| GovernanceStore.Store.PersistShadowVerdict | src/governance/shadow-verdict-store.ts:137-189 | the sequence check and the audit row are one step; anything but success leaves the tables alone |
| GovernanceStore.Store.CleanupEvidence | src/governance/repository-cleanup.ts:17-73 | evidence retention with its deletion counts, all projects or none |
| GovernanceStore.Store.CleanupLifecycle | src/governance/repository-cleanup.ts:82-148 | retired families and unexplained audit rows removed together or not at all |
| EvidenceSelector.SelectEvidenceRequirements | src/governance/evidence-selector.ts:139-185 | the loops compute exactly the applicable rules, the required gates, and each gate's patterns and watermark |
| EvidenceSelector.ApplicableIsMonotone | src/governance/evidence-selector.ts:147-149 | further session events never make a rule stop applying |
| EvidenceSelector.LatestEligible | src/governance/evidence-selector.ts:188-199 | an eligible run with the highest event number, and none exactly when no run is eligible |
| EvidenceSelector.FreshPassIff | src/governance/evidence-selector.ts:205-315 | the chain of tests says fresh exactly for an accepted result on equal digest and patterns with nothing relevant since |
| EvidenceSelector.StaleIff | src/governance/evidence-selector.ts:289-314 | an accepted, comparable run is stale for a later relevant mutation first, for a changed worktree second, and for nothing else |
| EvidenceSelector.StaleNamesTheEarliest | src/governance/evidence-selector.ts:289-304 | the reported invalidating event is the earliest relevant one after the run |
| ShadowEvaluator.EvaluateGates | src/governance/shadow-evaluator.ts:98-130 | the gate loop with its digest cache gives every required gate the classification of its own newest run, and fails exactly for an unknown gate, a digest fault or the deadline |
| ShadowEvaluator.EvaluateAttempt | src/governance/shadow-evaluator.ts:79-175 | an attempt succeeds exactly in time, with evaluable gates and a supported adapter, and its verdict is that of its snapshot |
| ShadowEvaluator.PassMeansProofs | src/governance/shadow-evaluator.ts:91-159 | a `pass` has, for every required gate, a newest run that proves it above every applicable watermark |
| ShadowEvaluator.ProofsMakePass | src/governance/shadow-evaluator.ts:91-159 | conversely, such runs for all gates make the attempt a `pass` |
| PassHistory.RunAboveMark | src/governance/shadow-snapshot-store.ts:153-234 | a run numbered above a watermark was recorded strictly after the watermark was written, whatever cleanup removed |
| PassHistory.CommitSawEverything | src/governance/shadow-verdict-store.ts:145-155 | at commit no event survives that the snapshot missed, and no mutation came between |
| PassHistory.PassMeansHistory | src/governance/shadow-evaluator.ts:91-159 | a committed `pass`: rules applied, gates were required, each had a fresh newest run of this session and configuration recorded after every applicable watermark, and nothing relevant happened up to the commit |
| StopEvaluation.PreparedSnapshot | src/governance/shadow-evaluator-runtime.ts:70-99 | preparation on the shared store ends in the state and with the snapshot or fault that the states of its transactions determine; a snapshot is of one store state of this call, with every rule marked |
| Preparation.MalformedIff | src/governance/shadow-evaluator-runtime.ts:77-99 | in time and with a successful marking transaction, preparation reports a malformed rule exactly when its first snapshot has an unmarked rule and either every rule is marked once by then, so no second read is asked for, or the second read still has one |
| Preparation.QuietPreparation | src/governance/shadow-evaluator-runtime.ts:70-99 | undisturbed and in time, preparation of a readable reachable state always succeeds, every rule marked |
| Preparation.SecondMarkerFaults | src/governance/shadow-snapshot-store.ts:186-235 | of two evaluators that read the same unmarked rules the one that marks first succeeds, and the other one always ends in a malformed-rule fault |
| Preparation.TwoEvaluators | src/governance/shadow-snapshot-store.ts:186-235 | the smallest history from the empty store in which that happens |
| StopEvaluation.EvaluateShadowStop | src/governance/shadow-evaluator.ts:226-348 | whatever interleaves, the result is that of one round, or of a second one that starts where the first could not commit; what is committed is the outcome of its last snapshot and a `pass` stands for all its evidence |
| StopEvaluation.QuietStopCommits | src/governance/shadow-evaluator.ts:255-318 | undisturbed, in time, with evaluable gates and a supported adapter, a stop in a reachable state commits its own verdict, without a fault |
| StopEvaluation.ConcurrentMeansMovedTwice | src/governance/shadow-evaluator.ts:255-343 | a stop is given up as a concurrent mutation only when the project moved between snapshot and commit in both rounds, and always then where both snapshots have one row per rule family and no more gates than a verdict may have |
| CommandEvidence.SnapshotIsView | src/governance/recorder.ts:140-201 | in every history the stored runs of one event are runs of one command, which explains the event's class |
| CommandEvidence.OffListIsLastUnknown | src/governance/mutation-classifier.ts:91-108 | the proving run of a gate off the read-only list sits on the session's last unknown mutation |
| CommandEvidence.OneUnknownEvent | src/governance/evidence-selector.ts:289-304 | every other proving run sits on that same event, for the same command, or strictly after it with a read-only command |
| CommandEvidence.DisjointCommandsNeverPass | src/governance/mutation-classifier.ts:97-107 | two required gates off the list with no command in common are never fresh together |
| CommandEvidence.PassAddsNoPatterns | src/governance/evidence-selector.ts:160-170 | in a `pass` no applicable rule adds a pattern the recorder did not hash |
| Recorder.ClassificationIsConservative | src/governance/mutation-classifier.ts:66-111 | exactly when an event counts as no mutation or as a scoped one, and with which paths |
| Recorder.MatchGateCommand | src/governance/command-match.ts:170-203 | the first form with this argv and directory matches when the environment does; each mismatch reason means what it says |
| Recorder.MatchingGateRuns | src/governance/recorder.ts:140-201 | on a command event exactly the configured gates that match get a run, one each, built from the observed result and digest, all for the one observed command |
| Recorder.PathsHashAgrees | src/governance/recorder.ts:84-89 | the stored paths hash is the evaluator's exactly when the rules naming the gate add no pattern beyond the configured ones |
| ResultParser.RecorderAgreesWithEvaluator | src/governance/result-parser.ts:98-202 | a run passes the evaluator's parser checks exactly when it was stored as complete under that policy |
| ResultParser.BadResultIsNeverAccepted | src/governance/result-parser.ts:98-165 | failures, unexplained or too many skips, empty or broken summaries never become accepted evidence |
| CommandTokenizer.TokenizeSimpleCommand | src/governance/command-match.ts:46-132 | the character loop computes the scanner the theorems are about, with the same error for every rejected command |
| CommandTokenizer.TokenizerIsGrammar | src/governance/command-match.ts:46-132 | a command is accepted with these words exactly when it has a reading by the lexeme grammar with these words |
| CommandTokenizer.AcceptedIff | src/governance/command-match.ts:46-132 | a command is accepted exactly when, character by character, no newline, no unquoted operator, expansion or glob character and no live expansion in double quotes stands in it, every quote and backslash is closed, and something besides space is there |
| CommandTokenizer.PosixWordSplit | src/governance/command-match.ts:99-127 | the words are those of sections 2.2 and 2.6.7 of the POSIX Shell Command Language exactly when no odd space stands unquoted |
| CommandTokenizer.VerticalTabSplits | src/governance/command-match.ts:99-102 | the smallest command for which they are not |
| CommandTokenizer.PrintThenTokenize | src/governance/warning-policy.ts:79-82 | printing an argv and tokenizing returns it exactly when it is printable: nonempty, on one line, without zero bytes, within the length bound |
| CommandTokenizer.TokenizePrintTokenize | src/governance/warning-policy.ts:98-100 | every tokenized argv whose print is within the bound comes back unchanged |
| CommandTokenizer.TokenizedIsPrintable | src/governance/command-match.ts:46-132 | what the tokenizer returns is always printable, up to that bound |
| RerunCommand.RerunTokenizesIff | src/governance/warning-policy.ts:79-100 | the rerun command of a warning, its two words masked, tokenizes back to the redacted argv exactly when that is printable and fits and no argument has one of those as a whole word in any case |
| Glob.GlobRegex | src/governance/evidence-selector.ts:96-119 | the compiler loop emits the source text of the pattern's operators |
| Glob.SourceParsesBack | src/governance/evidence-selector.ts:96-119 | reading the emitted regex source gives those operators back, so escaping is unambiguous |
| Glob.CompilerPreservesMeaning | src/governance/evidence-selector.ts:96-119 | the compiled regex accepts exactly what the recursive glob matcher accepts |
| Glob.CompilerMeansGlob | src/governance/worktree-digest-shared.ts:98-121 | for paths without line terminators that is the plain meaning of `**/`, `**`, `*` and `?` |
| Glob.LinesOnlyReject | src/governance/evidence-selector.ts:104-111 | line terminators can only make a pattern reject, never accept |
| Glob.PathIsSafeIff | src/governance/evidence-selector.ts:104-111 | every pattern matches a path as promised exactly when the path has no line terminator |
| Glob.PatternIsSafeIff | src/governance/evidence-selector.ts:104-111 | a pattern matches every path as promised exactly when it has no double star |
| Glob.UnsupportedPatternsWiden | src/governance/evidence-selector.ts:121-127 | bracket and brace patterns only ever widen the match |
| Paths.NormalizeTwice | src/governance/evidence-selector.ts:92-94 | POSIX normalization is idempotent on slash-separated text |
| Paths.DigestOfNormalized | src/governance/worktree-digest-shared.ts:93-96 | a pattern the selector normalized reaches the digest unchanged |
| DuplicateKeys.Scanner.ReadValue | src/governance/gate-config.ts:267-274 | from any index of any text the nested scanners end, at the point and with the shared result their specification gives |
| DuplicateKeys.DuplicateJsonKey | src/governance/gate-config.ts:264-312 | the whole check computes that specification, or a syntax error |
| DuplicateKeyMeaning.ScannerFindsFirstDuplicate | src/governance/gate-config.ts:264-312 | on any JSON text the result is the pointer of the first repeated member path in text order, and nothing exactly when no object repeats a decoded name |
| DuplicateKeyMeaning.FirstRepeatMeans | src/governance/gate-config.ts:284-285 | what "first repeated path" means for a list of paths |
| DuplicateKeyMeaning.StringScans | src/governance/gate-config.ts:248-262 | a string in any escaping scans to its decoded value and the text after it |
| JsonText.EscapedBack | src/governance/gate-config.ts:283 | pointer tokens decode back to the member name (section 4 of RFC 6901) |
| JsonText.PointerTokens | src/governance/gate-config.ts:283 | equal pointers have equal reference tokens |
| CanonicalJson.CanonicalIffSameMeaning | src/governance/gate-config.ts:77-97 | two serializable values have the same canonical text exactly when they are equal as unordered maps |
| CanonicalJson.DigestIffSameMeaning | src/governance/worktree-digest-shared.ts:83-91 | the digest's printer agrees with it on values without `undefined`, and is injective there as well |
| CanonicalJson.PrintApart | src/governance/gate-config.ts:81-93 | a printed value and what follows it can be told apart: printing is prefix-free up to a delimiter |
| CanonicalJson.Pieces | src/governance/gate-config.ts:90 | the string printer escapes so that parsing gives the string back, unpaired surrogates included |
| Migration.StepKeepsInv | src/cli/migrate.ts:131-298 | the protocol invariant holds over every system call of every migrator, aborts, crashes, writers, edits and power losses |
| MigrationHistory.MarkerMeansComplete | src/cli/migrate.ts:131-298 | wherever the marker is, the current database is whole, durable and the legacy content of the version check, whoever edits the target config whenever; the config mirrors the legacy one unless it was edited since a migrator dealt with it; the root is never an absent or partial store |
| MigrationHistory.TouchedMeansEdited | src/cli/migrate-config.ts:51-61 | that exception means exactly: an edit happened, and no migrator dealt with the config after it |
| MigrationHistory.EditedMirrorsIff | src/cli/migrate-config.ts:51-61 | beside a marker, a config edited since it was dealt with has the content of the recorded legacy config exactly when the last edit wrote that, power losses aside |
| MigrationRuns.LateEditStays | src/cli/migrate.ts:245-288 | a whole run in which a config edited just before the marker stays, with a complete database beside it |
| MigrationRuns.LeftAloneFinishes | src/cli/migrate.ts:131-288 | a migrator left alone, at any point before its marker and whatever it finds in the target, gets to the rename of its marker |
| MigrationHistory.LegacyUntouched | src/cli/migrate.ts:7-10 | on the disk the legacy database and config are always what their own users last made them: no call, abort or crash of a migrator and no power loss changes them |
| MigrationHistory.ForksAreKept | src/cli/migrate.ts:161-171 | every database and config of the user found in the target or put there by an edit is there under some name, with its content, until a step that `ForkLostIff` names |
| MigrationHistory.ForkLostIff | src/cli/migrate-fs.ts:129-140 | a step takes a file from the user exactly when the user replaces it, at a power loss, or when a migrator without hard links renames over a config edited since its look |
| MigrationHistory.EditRenamedOver | src/cli/migrate-fs.ts:129-140 | in every such state of a migrator, an edit right before its rename is gone from the disk after it |
| MigrationHistory.AuthorityStays | src/cli/migrate.ts:86-92 | once there, the marker and its database are changed by no later run, crash or edit, and the config only by an edit |
| MigrationHistory.FinishedIsFinal | src/utils/atomic-write.ts:117-122 | after a run whose last directory sync was done, no power loss and no later run takes the marker or the store away |
| MigrationHistory.PowerLossKeepsStore | src/cli/migrate.ts:260-288 | a power loss around the marker's rename may lose the marker but never the database behind it, nor an unedited config |
| MigrationHistory.RunGrounded | src/cli/migrate-config.ts:25-61 | what a marker claims was read from the legacy store and config at earlier points of the run |
| BackupNames.FreeBackupPath | src/cli/migrate-fs.ts:88-94 | the search ends in any directory and returns the first candidate none of whose variants exists |
| RelayPump.Pump.Arm | src/hooks/hook-relay.c:358-368 | every round waits for at least one descriptor, never for a finished stdin, and for the child's output whenever it is open |
| RelayPump.Pump.Feed | src/hooks/hook-relay.c:377-397 | with its two buffers a write does what it does to one queue of pending bytes: what the child accepts moves from its front, and only a refusal or completion ends the feed |
| RelayPump.Pump.Refill | src/hooks/hook-relay.c:399-409 | a refill happens only with nothing pending and loses no byte read |
| RelayPump.Pump.Drain | src/hooks/hook-relay.c:411-430 | what was read from the child reaches our stdout in order, all of it unless a write fails |
| RelayPump.Pump.Run | src/hooks/hook-relay.c:345-433 | the loop over any rounds does to the bytes and ends exactly what the bufferless pump does |
| RelayPump.PumpAccounts | src/hooks/hook-relay.c:377-430 | over any rounds: what was taken, emitted and relayed is what the calls returned, in order; our stdin closes exactly on an empty read, the feed is given up exactly on a refused write, our stdout fails exactly on one, the child's stdout closes exactly on an empty read or such a failure |
| RelayPump.BrokenIff | src/hooks/hook-relay.c:370-375 | the loop breaks off exactly on the first failing poll it makes |
| RelayPump.WakeupsAreWork | src/hooks/hook-relay.c:358-430 | as long as its calls return the loop never spins: over any rounds it wakes at most once for every byte moved and once for each end closed |
| RelayPump.DeliveryTheorem | src/hooks/hook-relay.c:345-433 | from the start, for every order of partial reads and writes, the child gets a prefix of buffer and stdin, all of both once the feed ends without a refusal, and our stdout gets a prefix of the child's, all of it unless a write fails |
| RelayDeadlock.StuckIff | src/hooks/hook-relay.c:377-396 | between two finite pipes and any child, nothing can happen any more exactly when the relay waits in its write for the child to read while the child waits in its own for the relay to read |
| RelayDeadlock.HangsIff | src/hooks/hook-relay.c:345-396 | some child and order of events leave the pump so exactly when the buffered input exceeds the pipe to the child, or it streams in chunks longer than the room at which poll reports that pipe writable |
| RelayDeadlock.HangsAlways | src/hooks/hook-relay.c:345-396 | with such an input, a child that writes more than the other pipe holds before it reads hangs it in every order of events, within as many steps as the pipes hold bytes |
| RelayBody.ValidGovernanceBody | src/hooks/hook-relay.c:84-108 | the in-place check accepts exactly blank text or the one-member object its specification describes |
| RelayBody.AcceptsIsJson | src/hooks/hook-relay.c:93-106 | the message bytes are a UTF-8 string of section 7 of RFC 8259 exactly when they are accepted, are UTF-8, and no zero byte follows a backslash |
| RelayBody.AcceptedButNotJson | src/hooks/hook-relay.c:96-99 | accepted messages that are not: a zero byte after a backslash, and a byte that starts no character |
| RelayBody.PassesIsMessage | src/hooks/hook-relay.c:84-108 | a passed answer that is not blank is the text of a JSON object with the one string member `systemMessage`, under the same two conditions, and every such object without space passes |
| Decay.ApplyConfidenceDecay | src/db/decay.ts:85-117 | the loop charges every row as specified and counts the rows that dropped |
| Decay.RunsAccumulate | src/db/decay.ts:85-117 | with a fixed reference point any schedule of runs leaves the start confidence times one exponential of the charged age, with the floor applied once |
| Decay.ScheduleDoesNotMatter | src/db/decay.ts:68-70 | schedules charged to the same age agree, however often they ran |
| Decay.NothingIsLost | src/db/decay.ts:96-99 | after a run only a sub-threshold remainder is owed, unless the row is at the floor |
| Decay.DecayIsBounded | src/db/decay.ts:113 | confidence only falls, and never below the deletion threshold |
| Decay.RecallLosesOwedAge | src/db/decay.ts:93-95 | after a recall and any runs the row stands exactly one charge of the age owed at the recall above where it would be had that age been charged then |
| Decay.RecallLosesNothingIff | src/db/decay.ts:93-99 | a recall loses nothing exactly when no age is owed at it or the row is at the floor |
| CodexHooks.MergeCodexHooks | src/cli/codex-init.ts:127-148 | the loops compute the merge the theorems are about |
| CodexHooks.MergeTwice | src/cli/codex-init.ts:117-148 | merging again changes nothing |
| CodexHooks.ForeignKept | src/cli/codex-init.ts:132-142 | the foreign handlers of every event stay, in order |
| CodexHooks.IndexShift | src/cli/codex-init.ts:117-126 | a group with foreign handlers moves only past dropped duplicates of ours |
| CodexTrust.ParseTrustState | src/cli/codex-init.ts:168-184 | the scan returns an entry of our file for every line that mentions one, with the flags up to the next bracketed line |
| CodexTrust.PruneTrustKeys | src/cli/codex-init.ts:259-272 | the line loop removes the lines its specification names |
| CodexTrust.ParseAfterPruneIff | src/cli/codex-init.ts:256-272 | on any lines, reading the pruned text gives exactly the other entries, flags unchanged, exactly when no removed lines hold an entry to keep, no line that stays hides one to remove behind another header, and no removed header takes a flag along |
| CodexTrust.DisabledStayIff | src/cli/codex-init.ts:419-427 | on any lines, pruning leaves the disabled entries as they were exactly when none stands on a line to remove and each has a disabling line that does not mention a header to remove first |
| CodexInit.PruningIsExactIff | src/cli/codex-init.ts:426-442 | where that is harmless, exactly the entries that are not stale are left, exactly when no disabled entry has a stale one's key |
| CodexInit.InitTrustIsRightIff | src/cli/codex-init.ts:478-498 | after a whole run every enabled entry stands for its old command, ours attested, exactly when nothing was stale, or the comparison of the documents accepted the pruning and no line that stays hides a stale header behind another one |
| CodexInit.InitKeepsDisabledIff | src/cli/codex-init.ts:419-427 | a whole run leaves the user's disabled entries as they were exactly unless its pruning was accepted and removes a disabled entry's line for the sake of an enabled one with the same key |
| CodexInit.PlainIsAccepted | src/cli/codex-init.ts:286-311 | with state headers only where they open their section the comparison accepts every pruning but for a text that does not parse, a torn value or an emptied table with a header of its own; no stale trust is hidden, and with one section per key no disabled entry lost |
| CodexInit.CommentErasesDisabled | src/cli/codex-init.ts:168-184 | an accepted run that erases a disabled section whose header a comment mentions |
| CodexInit.CommentedHeaderEnables | src/cli/codex-init.ts:286-311 | a line whose removal alone would enable a disabled hook, and that the comparison refuses whatever else the parser says |
| CodexInit.SecondHeaderStays | src/cli/codex-init.ts:259-272 | an accepted run that leaves stale trust on a line whose first header is another one |
| CodexInit.RefusedPruneIsTrusted | src/cli/codex-init.ts:494-498 | where the pruning was refused, the shadow the run writes makes every stale entry whose position holds a command count as trusted |
| CodexInit.ForeignGroupKeepsTrust | src/cli/codex-init.ts:424-447 | a foreign group with at most one group of ours before it keeps position and trust |
| Reachability.ReachableIsWithinDistance | src/db/edge-repository.ts:75-91 | apart from the start exactly the nodes within the depth bound are returned, on any graph |
| Reachability.LeastDepthIsDistance | src/db/edge-repository.ts:75-91 | the least depth reported for a node is its shortest-walk length |
| Reachability.LevelsRunOut | src/db/edge-repository.ts:69-74 | no level deeper than the number of nodes has a row, so cycles cannot keep the recursion going |
| Reachability.GuardIsRightIff | src/db/edge-repository.ts:70-74 | the substring test is membership in every path of plain ids exactly for the ids without a comma |
| Reachability.CommaHidesNode | src/db/edge-repository.ts:86 | a graph in which a node two steps away is never returned, whatever the bound |
| Reachability.StartOnlyThroughSelfEdge | src/db/edge-repository.ts:78-80 | the start is returned only for an edge to itself |
| Reachability.ZeroDepthReturnsNeighbours | src/db/edge-repository.ts:78-85 | a bound of zero still returns neighbours |
| WarningPolicy.SessionIsSpared | src/governance/warning-policy.ts:65-77 | over any requests a session gets at most five warnings, no two with the same fingerprint |
| WarningPolicy.BoundedJoin | src/governance/warning-policy.ts:88-96 | as many leading values as fit in the bound of UTF-16 units, and a mark when some do not |
| WarningPolicy.RenderGovernanceWarning | src/governance/warning-policy.ts:114-144 | the message lists gates in order while they fit, notes omitted ones, and stays within 4,066 UTF-16 units |
| WarningPolicy.TooLongIff | src/governance/warning-policy.ts:134-143 | a message exceeds 4,000 units exactly when a gate was left out and the rest comes within the 66 of the note |
| WarningPolicy.MessageIsUnique | src/governance/warning-policy.ts:128-143 | the sizes determine which gates are shown |
| WarningPolicy.LongestMessage | src/governance/warning-policy.ts:134-138 | two gates whose message has 4,066 |

## Left out

- GovernanceStore.Store.CreateRule: the source reads the history before its transaction; creation is modelled as one step, and `RuleHistory.CreationKeepsChainIff` says exactly what the gap costs.
- StopEvaluation.EvaluateShadowStop: says nothing of rule or configuration changes after the snapshot, which the source does not detect either; a missing or broken configuration, the preview mode without persistence, and identity resolution are not modelled.
- ShadowEvaluator.EvaluateAttempt: deadlines are a yes or no per stage, capability and adapter checks are given as inputs, and mode and intent fields of a verdict are not carried.
- MigrationHistory.MarkerMeansComplete: assumes that no lock of a live migrator is deleted by hand, that fsync works where it reports success, and that SQLite's online backup is a snapshot of the source and its commits are durable.
- MigrationHistory.ForksAreKept: stops at a power loss, because the two halves of a rename are allowed to survive separately there.
- Migration.StepKeepsInv: symbolic links, permissions, ownership, live-daemon detection (an abort before or under the lock) and deleting the marker for a rollback are not modelled; finding a free backup name for a config and renaming to it are one step, a raced config is moved aside any number of times, and the directory sync after publishing the config, whose failure is ignored, is not a step.
- RerunCommand.RerunTokenizesIff: what redaction does to an argv is not modelled; the statement is about the argv it returns, which is the gate's own where it changed nothing.
- Recorder.MatchingGateRuns: resolving directories and targets against the project root is given as a function, and the order of a run's paths is not represented.
- ResultParser.RecorderAgreesWithEvaluator: extracting the summary counts from output text is given as input.
- CodexTrust.ParseTrustState: a line is what the regular expressions see of it; the expressions themselves are not modelled.
- CodexInit.InitTrustIsRightIff: the TOML parser is modelled by the part each line has in its document, the same before and after a pruning, and a predicate for what makes a text as a whole parse; a pruning that ends inside a value counts as refused, a line writes at most one state entry without a section, an `enabled = false` at the start of a line belongs to the table it stands in, and the server block an init run may append is left out.
- RelayDeadlock.HangsIff: our own stdin and stdout are taken to be served by others, a child that waits forever for something else is not represented, and no signal interrupts a write.
- Decay.RunsAccumulate: real numbers stand for doubles, and the exponential is any function with the homomorphism law.
- Decay.RecallLosesOwedAge: about recalls at or after the last charge; the exponential is any function between 0 and 1 on negative arguments.
- Reachability.ReachableIsWithinDistance: about graphs of ids without commas; for one id with a comma `Reachability.CommaHidesNode` shows how it fails.
- CanonicalJson.CanonicalIffSameMeaning: a number is represented by the text printed for it.
- Snapshot rows are in insertion order, where the source orders runs and rules; nothing proved depends on it.
- Verdict payload bounds on identifiers and bytes, and malformed JSON in stored rows.
- Client state rows and Stop observations, because nothing proved reads them.
- Overrides, effective modes and sync eligibility, which are short ordered checks.
- TTL expiry and pruning totals, which foreign keys can reject.
- Schema migrations, search, consolidation, plans, reminders and the command-line surface.
