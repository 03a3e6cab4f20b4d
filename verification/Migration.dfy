/**
 The store migration as a protocol: any number of migrators, writers of the legacy store, crashes and power losses.

 A migrator is the phase it is in; every system call that another process or a crash could separate is one step.
 */
module Migration {
  import opened Rows
  import opened Directory

  /** From the guard to the published copy. */
  datatype StageStep =
    | Guarded
    | Aside(k: nat, i: nat)
    | Staging(began: nat)
    | Staged(id: nat, copy: nat)
    | Verified(id: nat, copy: nat)
    | StageSynced(id: nat, copy: nat)

  /** Dealing with the config; `c` is the legacy config that was read, `id` its private temp. */
  datatype ConfigStep =
    | DbPublished
    | ConfigAside(replace: bool)
    | ConfigCopy
    | ConfigTemp(id: nat, c: nat)
    | ConfigTempSynced(id: nat, c: nat)
    | ConfigRaced(raced: nat)
    | ConfigMoved(moved: nat)
    | ConfigClear(id: nat, c: nat)
    | ConfigLinked(id: nat, c: nat)
    | ConfigIdentical(same: nat)

  /** From the settled config to the marker's private file; `legacy` is what the last version check vouches for. */
  datatype CloseStep =
    | ConfigDone(v: nat)
    | DirSynced(v: nat)
    | VersionOk(legacy: nat)
    | MarkerTemp(legacy: nat, id: nat)
    | MarkerTempSynced(legacy: nat, id: nat)

  /** What a migrator carries: the data version at its guard, its copy, and the legacy config it saw. */
  datatype Phase =
    | Checked
    | Locked
    | Rechecked
    | InStage(since: nat, stage: StageStep)
    | InConfig(v0: nat, copy: nat, step: ConfigStep)
    | InClose(db: nat, seen: Option<nat>, close: CloseStep)
    | MarkerRenamed
    | Releasing

  /** What the marker vouches for: the legacy content at the last version check, and the legacy config that was read. */
  datatype Record = Record(db: nat, config: Option<nat>)

  /**
   `legacy` and `legacyConfig` are what the legacy store's own users last made it; migrators read the files on the disk.
   `links` says that the file system of the target has hard links, `touched` that the target config was edited since a
   migrator last dealt with it, and `owned` are the files of the user there: databases and configs found in the target or
   put there by an edit.
   */
  datatype State = State(
    links: bool, legacy: Option<nat>, version: nat, legacyConfig: Option<nat>,
    disk: Disk, procs: map<nat, Phase>,
    ghostRecord: Option<Record>, touched: bool,
    owned: map<nat, Option<nat>>)

  datatype Event =
    | Start(p: nat)
    | Run(p: nat, k: nat)
    | Abort(p: nat)
    | SyncFails(p: nat)
    | Crash(p: nat)
    | LegacyCommit(content: nat)
    | EditLegacyConfig(config: Option<nat>)
    | EditConfig(content: nat)
    | DeleteStaleLock
    | PowerLoss(after: Disk)

  // --- one system call of a migrator --------------------------------------------------------------------------

  datatype Called = Called(disk: Disk, phase: Option<Phase>, ghostRecord: Option<Record>)

  predicate FreeBackup(d: Disk, k: nat) {
    Now(d, DbBackup(k, 0)).None? && Now(d, DbBackup(k, 1)).None? && Now(d, DbBackup(k, 2)).None?
  }

  predicate AnyDb(d: Disk) {
    Now(d, Db(0)).Some? || Now(d, Db(1)).Some? || Now(d, Db(2)).Some?
  }

  /** How the target config is reconciled with the legacy one. */
  function PlanConfig(d: Disk, v0: nat, copy: nat): Phase {
    var target, wanted := Now(d, Config), ContentAt(d, LegacyConfig);
    if wanted.None? then (if target.Some? then InConfig(v0, copy, ConfigAside(false)) else InClose(copy, None, ConfigDone(v0)))
    else if target.None? then InConfig(v0, copy, ConfigCopy)
    else if ContentAt(d, Config) == wanted then InConfig(v0, copy, ConfigIdentical(wanted.value))
    else InConfig(v0, copy, ConfigAside(true))
  }

  /** The next old entry of the target moved aside, or the private stage created. */
  function AsideCall(s: State, v0: nat, k: nat, i: nat): (Disk, Phase) {
    var d := s.disk;
    if i >= 3 then (Create(d, Stage(d.next), None), InStage(v0, Staging(d.next)))
    else if Now(d, Db(i)).None? then (d, InStage(v0, Aside(k, i + 1)))
    else (Rename(d, Db(i), DbBackup(k, i)), InStage(v0, Aside(k, i + 1)))
  }

  function CopyCall(s: State, v0: nat, id: nat): (Disk, Phase) {
    var d, source := s.disk, ContentAt(s.disk, LegacyDb);
    if source.None? then (Set(d, Stage(id), None), Releasing) else (Write(d, id, source.value), InStage(v0, Staged(id, source.value)))
  }

  function VerifyCall(s: State, v0: nat, id: nat, copy: nat, rows: nat -> nat): (Disk, Phase) {
    var d, source := s.disk, ContentAt(s.disk, LegacyDb);
    if source.Some? && rows(copy) == rows(source.value) then (d, InStage(v0, Verified(id, copy))) else (Set(d, Stage(id), None), Releasing)
  }

  function GuardedCall(s: State, v0: nat, k: nat): (Disk, Phase) {
    var d := s.disk;
    if !AnyDb(d) then (d, InStage(v0, Aside(0, 3)))
    else if FreeBackup(d, k) then (d, InStage(v0, Aside(k, 0)))
    else (d, InStage(v0, Guarded))
  }

  /** From the guard to the published copy: old entries aside, private stage, verification, one rename. */
  function StageCall(s: State, v0: nat, st: StageStep, k: nat, rows: nat -> nat): (Disk, Phase) {
    match st
    case Guarded => GuardedCall(s, v0, k)
    case Aside(kept, i) => AsideCall(s, v0, kept, i)
    case Staging(id) => CopyCall(s, v0, id)
    case Staged(id, copy) => VerifyCall(s, v0, id, copy, rows)
    case Verified(id, copy) => (SyncFile(s.disk, id), InStage(v0, StageSynced(id, copy)))
    case StageSynced(id, copy) => (Rename(s.disk, Stage(id), Db(0)), InConfig(v0, copy, DbPublished))
  }

  /**
   The temp linked to a free name, or the race noticed; without hard links a file in the way is moved aside and the temp
   will be renamed over whatever is there by then.
   */
  function PublishCall(s: State, v0: nat, copy: nat, id: nat, c: nat, k: nat): (Disk, Phase) {
    var d := s.disk;
    if s.links then
      (if Now(d, Config).None? then (Set(d, Config, Some(id)), InConfig(v0, copy, ConfigLinked(id, c)))
       else (d, InConfig(v0, copy, ConfigRaced(id))))
    else if Now(d, Config).None? then (d, InConfig(v0, copy, ConfigClear(id, c)))
    else if Now(d, ConfigBackup(k)).Some? then (d, InConfig(v0, copy, ConfigTempSynced(id, c)))
    else (Rename(d, Config, ConfigBackup(k)), InConfig(v0, copy, ConfigClear(id, c)))
  }

  /** A raced file moved aside, or gone again. */
  function RacedCall(s: State, v0: nat, copy: nat, id: nat, k: nat): (Disk, Phase) {
    var d := s.disk;
    if Now(d, Config).None? then (Set(d, Temp(id), None), Releasing)
    else if Now(d, ConfigBackup(k)).Some? then (d, InConfig(v0, copy, ConfigRaced(id)))
    else (Rename(d, Config, ConfigBackup(k)), InConfig(v0, copy, ConfigMoved(id)))
  }

  /** A divergent or stray config moved aside. */
  function MoveConfigCall(s: State, v0: nat, copy: nat, replace: bool, k: nat): (Disk, Phase) {
    var d := s.disk;
    if Now(d, Config).None? then (d, Releasing)
    else if Now(d, ConfigBackup(k)).Some? then (d, InConfig(v0, copy, ConfigAside(replace)))
    else (Rename(d, Config, ConfigBackup(k)), if replace then InConfig(v0, copy, ConfigCopy) else InClose(copy, None, ConfigDone(v0)))
  }

  function CopyConfigCall(s: State, v0: nat, copy: nat): (Disk, Phase) {
    var d, source := s.disk, ContentAt(s.disk, LegacyConfig);
    if source.None? then (d, Releasing) else (Create(d, Temp(d.next), source), InConfig(v0, copy, ConfigTemp(d.next, source.value)))
  }

  function SyncIdenticalCall(s: State, v0: nat, copy: nat, c: nat): (Disk, Phase) {
    var d := s.disk;
    if Now(d, Config).None? then (d, Releasing)
    else (SyncFile(d, Now(d, Config).value), InClose(copy, Some(c), ConfigDone(v0)))
  }

  /** The config: a foreign one aside, the legacy one published, by a link that replaces nothing where there are links. */
  function ConfigCall(s: State, v0: nat, copy: nat, st: ConfigStep, k: nat): (Disk, Phase) {
    var d := s.disk;
    match st
    case DbPublished => (d, PlanConfig(d, v0, copy))
    case ConfigAside(replace) => MoveConfigCall(s, v0, copy, replace, k)
    case ConfigCopy => CopyConfigCall(s, v0, copy)
    case ConfigTemp(id, c) => (SyncFile(d, id), InConfig(v0, copy, ConfigTempSynced(id, c)))
    case ConfigTempSynced(id, c) => PublishCall(s, v0, copy, id, c, k)
    case ConfigRaced(id) => RacedCall(s, v0, copy, id, k)
    case ConfigMoved(id) => (Set(d, Temp(id), None), InConfig(v0, copy, ConfigCopy))
    case ConfigClear(id, c) => (Rename(d, Temp(id), Config), InClose(copy, Some(c), ConfigDone(v0)))
    case ConfigLinked(id, c) => (Set(d, Temp(id), None), InClose(copy, Some(c), ConfigDone(v0)))
    case ConfigIdentical(c) => SyncIdenticalCall(s, v0, copy, c)
  }

  function VersionCall(s: State, copy: nat, seen: Option<nat>, v0: nat): (Disk, Phase) {
    var d, source := s.disk, ContentAt(s.disk, LegacyDb);
    if s.version == v0 && source.Some? then (d, InClose(copy, seen, VersionOk(source.value))) else (d, Releasing)
  }

  /** Directory durability, the last version check, and the marker's private file. */
  function CloseCall(s: State, copy: nat, seen: Option<nat>, st: CloseStep): (Disk, Phase) {
    var d := s.disk;
    match st
    case ConfigDone(v0) => (SyncDir(d), InClose(copy, seen, DirSynced(v0)))
    case DirSynced(v0) => VersionCall(s, copy, seen, v0)
    case VersionOk(legacy) => (Create(d, Temp(d.next), Some(0)), InClose(copy, seen, MarkerTemp(legacy, d.next)))
    case MarkerTemp(legacy, id) => (SyncFile(d, id), InClose(copy, seen, MarkerTempSynced(legacy, id)))
    case MarkerTempSynced(_, _) => (d, InClose(copy, seen, st))
  }

  /** About to rename the marker into place. */
  predicate AtMarker(ph: Phase) {
    ph.InClose? && ph.close.MarkerTempSynced?
  }

  /** Between the guard and the marker. */
  predicate Working(ph: Phase) {
    ph.InStage? || ph.InConfig? || (ph.InClose? && !ph.close.MarkerTempSynced?)
  }

  function Inner(s: State, ph: Phase, k: nat, rows: nat -> nat): (Disk, Phase)
    requires Working(ph)
  {
    match ph
    case InStage(v0, st) => StageCall(s, v0, st, k, rows)
    case InConfig(v0, copy, st) => ConfigCall(s, v0, copy, st, k)
    case InClose(copy, seen, st) => CloseCall(s, copy, seen, st)
  }

  /** The next call of a migrator; `k` numbers the backup name it finds free, and no phase means it ends. */
  function Advance(s: State, ph: Phase, k: nat, rows: nat -> nat): Called {
    var d, r := s.disk, s.ghostRecord;
    if Working(ph) then (var c := Inner(s, ph, k, rows); Called(c.0, Some(c.1), r))
    else match ph
      case Checked => if Now(d, Lock).Some? then Called(d, None, r) else Called(Create(d, Lock, Some(0)), Some(Locked), r)
      case Locked => Called(d, Some(if Now(d, Marker).Some? then Releasing else Rechecked), r)
      case Rechecked => Called(d, Some(InStage(s.version, Guarded)), r)
      case InClose(_, seen, st) => Called(Rename(d, Temp(st.id), Marker), Some(MarkerRenamed), Some(Record(st.legacy, seen)))
      case MarkerRenamed => Called(SyncDir(d), Some(Releasing), r)
      case Releasing => Called(Set(d, Lock, None), None, r)
  }

  function StageLitter(st: StageStep): Option<Name> {
    match st
    case Staging(id) => Some(Stage(id))
    case Staged(id, _) => Some(Stage(id))
    case Verified(id, _) => Some(Stage(id))
    case StageSynced(id, _) => Some(Stage(id))
    case _ => None
  }

  function ConfigLitter(st: ConfigStep): Option<Name> {
    match st
    case ConfigTemp(id, _) => Some(Temp(id))
    case ConfigTempSynced(id, _) => Some(Temp(id))
    case ConfigRaced(id) => Some(Temp(id))
    case ConfigMoved(id) => Some(Temp(id))
    case ConfigClear(id, _) => Some(Temp(id))
    case ConfigLinked(id, _) => Some(Temp(id))
    case _ => None
  }

  /** The private file a phase would leave behind. */
  function Litter(ph: Phase): Option<Name> {
    match ph
    case InStage(_, st) => StageLitter(st)
    case InConfig(_, _, st) => ConfigLitter(st)
    case InClose(_, _, st) => if st.MarkerTemp? || st.MarkerTempSynced? then Some(Temp(st.id)) else None
    case _ => None
  }

  predicate HoldsLock(ph: Phase) { !ph.Checked? }

  /** The migrator has dealt with the config, and counts on it to stay. */
  predicate ConfigSettled(ph: Phase) {
    ph.InClose? || (ph.InConfig? && (ph.step.ConfigLinked? || ph.step.ConfigIdentical?))
  }

  function SetPhase(procs: map<nat, Phase>, p: nat, ph: Option<Phase>): map<nat, Phase> {
    if ph.Some? then procs[p := ph.value] else procs - {p}
  }

  /** Dealing with the config starts a new count of edits. */
  function Touched(s: State, ph: Phase, next: Option<Phase>): bool {
    if next.Some? && ConfigSettled(next.value) && !ConfigSettled(ph) then false else s.touched
  }

  /** A rename over a config that was edited since the way was clear loses the edited file. */
  function Overwritten(s: State, ph: Phase): set<nat> {
    if ph.InConfig? && ph.step.ConfigClear? && Now(s.disk, Config).Some? then {Now(s.disk, Config).value} else {}
  }

  function After(s: State, p: nat, m: Called): State
    requires p in s.procs
  {
    s.(disk := m.disk, procs := SetPhase(s.procs, p, m.phase), ghostRecord := m.ghostRecord, touched := Touched(s, s.procs[p], m.phase),
       owned := s.owned - Overwritten(s, s.procs[p]))
  }

  /** The user's files after an edit of the target config: the one edited is replaced by the new one. */
  function OwnedAfterEdit(s: State, content: nat): map<nat, Option<nat>> {
    (if Now(s.disk, Config).Some? then s.owned - {Now(s.disk, Config).value} else s.owned)[s.disk.next := Some(content)]
  }

  function Edited(s: State, content: nat): State {
    s.(disk := Create(s.disk, Config, Some(content)), owned := OwnedAfterEdit(s, content), touched := true)
  }

  // --- the system -----------------------------------------------------------------------------------------------

  predicate Next(s: State, e: Event, t: State, rows: nat -> nat) {
    match e
    case Start(p) =>
      && p !in s.procs && Now(s.disk, Marker).None? && Now(s.disk, LegacyDb).Some?
      && t == s.(procs := s.procs[p := Checked])
    case Run(p, k) => p in s.procs && t == After(s, p, Advance(s, s.procs[p], k, rows))
    case Abort(p) =>
      && p in s.procs && HoldsLock(s.procs[p])
      && var litter := Litter(s.procs[p]);
         t == s.(disk := if litter.Some? then Set(s.disk, litter.value, None) else s.disk, procs := s.procs[p := Releasing])
    case SyncFails(p) => p in s.procs && s.procs[p].MarkerRenamed? && t == s.(procs := s.procs[p := Releasing])
    case Crash(p) => p in s.procs && t == s.(procs := s.procs - {p})
    case LegacyCommit(content) =>
      && s.legacy.Some?
      && t == s.(legacy := Some(content), version := s.version + 1, disk := Replace(s.disk, LegacyDb, Some(content)))
    case EditLegacyConfig(config) => t == s.(legacyConfig := config, disk := Replace(s.disk, LegacyConfig, config))
    case EditConfig(content) => t == Edited(s, content)
    case DeleteStaleLock =>
      && (forall p :: p in s.procs ==> !HoldsLock(s.procs[p]))
      && t == s.(disk := Set(s.disk, Lock, None))
    case PowerLoss(after) =>
      && AfterPowerLoss(s.disk, after)
      && t == s.(disk := after, procs := map[], owned := map[])
  }

  // --- the invariant ----------------------------------------------------------------------------------------------

  predicate Marked(d: Disk) { Possible(d, Marker) }

  predicate NoDb(d: Disk) { !AnyDb(d) }

  /** The copy is in place, whole and synced, with no sidecar of an older database beside it. */
  predicate DbReady(d: Disk, copy: nat) {
    Holds(d, Db(0), copy) && Now(d, Db(1)).None? && Now(d, Db(2)).None?
  }

  predicate ConfigReady(d: Disk, seen: Option<nat>) {
    if seen.Some? then Holds(d, Config, seen.value) else Now(d, Config).None?
  }

  predicate DbSure(d: Disk) {
    Sure(d, Db(0)) && Sure(d, Db(1)) && Sure(d, Db(2))
  }

  /** Nobody edited the config since a migrator dealt with it, and then it is the one that was read; or somebody did. */
  predicate ConfigKept(s: State, seen: Option<nat>) {
    s.touched || ConfigReady(s.disk, seen)
  }

  predicate ConfigSure(s: State) {
    s.touched || Sure(s.disk, Config)
  }

  /** Published for good: the copy, and the config unless it was edited since. */
  predicate Durable(s: State, copy: nat, seen: Option<nat>) {
    DbReady(s.disk, copy) && DbSure(s.disk) && ConfigKept(s, seen) && ConfigSure(s)
  }

  /** A private file of a migrator: under its own name, with what was written to it. */
  predicate Private(d: Disk, n: Name, id: nat, content: Option<nat>) {
    Now(d, n) == Some(id) && id in d.inodes && d.inodes[id].content == content
  }

  predicate IsSynced(d: Disk, id: nat) {
    id in d.inodes && d.inodes[id].synced
  }

  /** While the data version is the one at the guard, the copy is the legacy store. */
  predicate CopyCurrent(s: State, v0: nat, copy: nat) {
    v0 <= s.version && (v0 == s.version ==> s.legacy == Some(copy))
  }

  /** A private stage with this content. */
  predicate StageHas(s: State, id: nat, content: Option<nat>) {
    NoDb(s.disk) && Private(s.disk, Stage(id), id, content) && id !in s.owned
  }

  predicate StageOk(s: State, v0: nat, st: StageStep) {
    match st
    case Guarded => v0 <= s.version
    case Aside(k, i) =>
      && v0 <= s.version && i <= 3 && (forall j :: 0 <= j < i ==> Now(s.disk, Db(j)).None?)
      && (forall j :: i <= j < 3 ==> Now(s.disk, DbBackup(k, j)).None?)
    case Staging(id) => v0 <= s.version && StageHas(s, id, None)
    case Staged(id, copy) => CopyCurrent(s, v0, copy) && StageHas(s, id, Some(copy))
    case Verified(id, copy) => CopyCurrent(s, v0, copy) && StageHas(s, id, Some(copy))
    case StageSynced(id, copy) => CopyCurrent(s, v0, copy) && StageHas(s, id, Some(copy)) && IsSynced(s.disk, id)
  }

  /** The temp's name still shows the private file, wherever it may be linked as well. */
  predicate HasTemp(s: State, id: nat) {
    Now(s.disk, Temp(id)) == Some(id) && id !in s.owned
  }

  predicate TempHas(s: State, id: nat, c: nat) {
    HasTemp(s, id) && Private(s.disk, Temp(id), id, Some(c))
  }

  predicate ConfigOk(s: State, st: ConfigStep) {
    match st
    case ConfigTemp(id, c) => TempHas(s, id, c)
    case ConfigTempSynced(id, c) => TempHas(s, id, c) && IsSynced(s.disk, id)
    case ConfigRaced(id) => HasTemp(s, id)
    case ConfigMoved(id) => HasTemp(s, id)
    case ConfigClear(id, c) => !s.links && TempHas(s, id, c) && IsSynced(s.disk, id)
    case ConfigLinked(id, c) => HasTemp(s, id) && ConfigKept(s, Some(c))
    case ConfigIdentical(c) => s.touched || ContentAt(s.disk, Config) == Some(c)
    case _ => true
  }

  predicate CloseOk(s: State, copy: nat, seen: Option<nat>, st: CloseStep) {
    match st
    case ConfigDone(v0) => CopyCurrent(s, v0, copy) && DbReady(s.disk, copy) && ConfigKept(s, seen)
    case DirSynced(v0) => CopyCurrent(s, v0, copy) && Durable(s, copy, seen)
    case VersionOk(legacy) => copy == legacy && Durable(s, copy, seen)
    case MarkerTemp(legacy, id) => copy == legacy && Durable(s, copy, seen) && TempHas(s, id, 0)
    case MarkerTempSynced(legacy, id) => copy == legacy && Durable(s, copy, seen) && TempHas(s, id, 0) && IsSynced(s.disk, id)
  }

  predicate PhaseOk(s: State, ph: Phase) {
    match ph
    case Checked => true
    case Locked => true
    case Rechecked => !Marked(s.disk)
    case InStage(v0, st) => !Marked(s.disk) && StageOk(s, v0, st)
    case InConfig(v0, copy, st) => !Marked(s.disk) && CopyCurrent(s, v0, copy) && DbReady(s.disk, copy) && ConfigOk(s, st)
    case InClose(copy, seen, st) => !Marked(s.disk) && CloseOk(s, copy, seen, st)
    case MarkerRenamed => Holds(s.disk, Marker, 0)
    case Releasing => true
  }

  /** A marker that is there, or that a power loss could leave there, vouches for what is there, now and after it. */
  predicate MarkerOk(s: State) {
    Marked(s.disk) ==>
      && Now(s.disk, Marker).Some? && s.ghostRecord.Some? && Durable(s, s.ghostRecord.value.db, s.ghostRecord.value.config)
  }

  /** At most one live migrator holds the lock, and its lock file is there. */
  ghost predicate LockOk(s: State) {
    && (forall p :: p in s.procs && HoldsLock(s.procs[p]) ==> Now(s.disk, Lock).Some?)
    && (Now(s.disk, Lock).Some? ==> Now(s.disk, Lock).value !in s.owned)
    && forall p, q :: p in s.procs && q in s.procs && HoldsLock(s.procs[p]) && HoldsLock(s.procs[q]) ==> p == q
  }

  /** Databases and configs the user had are still there, under some name, with their content. */
  ghost predicate OwnedOk(s: State) {
    forall id :: id in s.owned ==> Named(s.disk, id) && id in s.disk.inodes && s.disk.inodes[id].content == s.owned[id]
  }

  predicate IsLegacy(n: Name) { n.LegacyDb? || n.LegacyConfig? }

  /** No other name shows this file, now or after a power loss. */
  predicate Apart(d: Disk, n: Name, id: nat) {
    forall m :: m in d.entries && m != n ==> Some(id) !in d.entries[m].maybe
  }

  /** A legacy file is what its own users last made it, for good, and is shared with no other name. */
  predicate LegacyFile(s: State, n: Name, content: Option<nat>) {
    var x := Now(s.disk, n);
    && Sure(s.disk, n)
    && (if content.None? then x.None? else x.Some? && Holds(s.disk, n, content.value))
    && (x.Some? ==> Apart(s.disk, n, x.value) && x.value !in s.owned)
  }

  predicate LegacyOk(s: State) {
    LegacyFile(s, LegacyDb, s.legacy) && LegacyFile(s, LegacyConfig, s.legacyConfig)
  }

  ghost predicate Inv(s: State) {
    && Valid(s.disk) && MarkerOk(s) && LockOk(s) && OwnedOk(s)
    && forall p :: p in s.procs ==> PhaseOk(s, s.procs[p])
  }

  // --- calls between the lock and the marker -------------------------------------------------------------------------

  /** Such a call keeps the disk valid and the user's files, leaves lock and marker alone, and lands in a good phase. */
  ghost predicate Kept(s: State, ph: Phase, c: (Disk, Phase)) {
    var t := s.(disk := c.0, touched := Touched(s, ph, Some(c.1)), owned := s.owned - Overwritten(s, ph));
    Valid(c.0) && OwnedOk(t) && !Marked(c.0) && Now(c.0, Lock) == Now(s.disk, Lock) && PhaseOk(t, c.1) && HoldsLock(c.1)
  }

  ghost predicate Ready(s: State, ph: Phase) {
    Valid(s.disk) && OwnedOk(s) && PhaseOk(s, ph)
  }

  lemma UnlinkKeepsOwned(s: State, n: Name, id: nat)
    requires OwnedOk(s) && Now(s.disk, n) == Some(id) && id !in s.owned
    ensures OwnedOk(s.(disk := Set(s.disk, n, None)))
  {
    forall x | x in s.owned ensures Named(Set(s.disk, n, None), x) { SetKeepsNamed(s.disk, n, None, x); }
  }

  lemma LinkKeepsOwned(s: State, n: Name, x: Option<nat>)
    requires OwnedOk(s) && Now(s.disk, n).None?
    ensures OwnedOk(s.(disk := Set(s.disk, n, x)))
  {
    forall id | id in s.owned ensures Named(Set(s.disk, n, x), id) { SetKeepsNamed(s.disk, n, x, id); }
  }

  lemma RenameKeepsOwned(s: State, from: Name, to: Name)
    requires OwnedOk(s) && Now(s.disk, from).Some? && Now(s.disk, to).None? && from != to
    ensures OwnedOk(s.(disk := Rename(s.disk, from, to)))
  {
    forall id | id in s.owned ensures Named(Rename(s.disk, from, to), id) { RenameKeepsNamed(s.disk, from, to, id); }
  }

  lemma CreateKeepsOwned(s: State, n: Name, content: Option<nat>)
    requires Valid(s.disk) && OwnedOk(s) && Now(s.disk, n).None?
    ensures OwnedOk(s.(disk := Create(s.disk, n, content))) && s.disk.next !in s.owned
  {
    var d := s.disk;
    var grown := d.(inodes := d.inodes[d.next := Data(content, false)], next := d.next + 1);
    assert forall id :: Named(d, id) ==> Named(grown, id);
    LinkKeepsOwned(s.(disk := grown), n, Some(d.next));
  }

  lemma FreshName(d: Disk)
    requires Valid(d)
    ensures Now(d, Stage(d.next)).None? && Now(d, Temp(d.next)).None?
  {}

  lemma UnlinkStage(s: State, ph: Phase, id: nat)
    requires ph.InStage? && Valid(s.disk) && OwnedOk(s) && !Marked(s.disk) && Now(s.disk, Stage(id)) == Some(id) && id !in s.owned
    ensures Kept(s, ph, (Set(s.disk, Stage(id), None), Releasing))
  {
    assert Stage(id) in s.disk.entries;
    SetValid(s.disk, Stage(id), None);
    UnlinkKeepsOwned(s, Stage(id), id);
  }

  lemma StagingKeeps(s: State, v0: nat, st: StageStep)
    requires Valid(s.disk) && OwnedOk(s) && !Marked(s.disk) && v0 <= s.version && NoDb(s.disk)
    ensures Kept(s, InStage(v0, st), (Create(s.disk, Stage(s.disk.next), None), InStage(v0, Staging(s.disk.next))))
  {
    FreshName(s.disk);
    CreateValid(s.disk, Stage(s.disk.next), None);
    CreateKeepsOwned(s, Stage(s.disk.next), None);
  }

  lemma AsideKeeps(s: State, v0: nat, k: nat, i: nat)
    requires Ready(s, InStage(v0, Aside(k, i)))
    ensures Kept(s, InStage(v0, Aside(k, i)), AsideCall(s, v0, k, i))
  {
    var d := s.disk;
    if i >= 3 {
      assert forall j :: 0 <= j < 3 ==> Now(d, Db(j)).None?;
      StagingKeeps(s, v0, Aside(k, i));
    } else if Now(d, Db(i)).Some? {
      AsideRenamed(s, v0, k, i);
    }
  }

  lemma AsideRenamed(s: State, v0: nat, k: nat, i: nat)
    requires Ready(s, InStage(v0, Aside(k, i))) && i < 3 && Now(s.disk, Db(i)).Some?
    ensures Kept(s, InStage(v0, Aside(k, i)), (Rename(s.disk, Db(i), DbBackup(k, i)), InStage(v0, Aside(k, i + 1))))
  {
    RenameValid(s.disk, Db(i), DbBackup(k, i));
    RenameKeepsOwned(s, Db(i), DbBackup(k, i));
    AsideLooks(s.disk, k, i);
  }

  lemma AsideLooks(d: Disk, k: nat, i: nat)
    requires i < 3 && (forall j :: 0 <= j < i ==> Now(d, Db(j)).None?) && forall j :: i <= j < 3 ==> Now(d, DbBackup(k, j)).None?
    ensures var e := Rename(d, Db(i), DbBackup(k, i));
            && (forall j :: 0 <= j < i + 1 ==> Now(e, Db(j)).None?) && (forall j :: i + 1 <= j < 3 ==> Now(e, DbBackup(k, j)).None?)
            && Look(e, Marker) == Look(d, Marker) && Look(e, Lock) == Look(d, Lock)
  {}

  lemma GuardedKeeps(s: State, v0: nat, k: nat)
    requires Ready(s, InStage(v0, Guarded))
    ensures Kept(s, InStage(v0, Guarded), GuardedCall(s, v0, k))
  {}

  lemma CopyKeeps(s: State, v0: nat, id: nat)
    requires Ready(s, InStage(v0, Staging(id))) && ContentAt(s.disk, LegacyDb) == s.legacy
    ensures Kept(s, InStage(v0, Staging(id)), CopyCall(s, v0, id))
  {
    if s.legacy.Some? {
      assert forall x :: Named(s.disk, x) ==> Named(Write(s.disk, id, s.legacy.value), x);
    } else {
      UnlinkStage(s, InStage(v0, Staging(id)), id);
    }
  }

  lemma VerifyKeeps(s: State, v0: nat, id: nat, copy: nat, rows: nat -> nat)
    requires Ready(s, InStage(v0, Staged(id, copy)))
    ensures Kept(s, InStage(v0, Staged(id, copy)), VerifyCall(s, v0, id, copy, rows))
  {
    UnlinkStage(s, InStage(v0, Staged(id, copy)), id);
  }

  lemma SyncKeeps(s: State, id: nat)
    requires Valid(s.disk) && OwnedOk(s)
    ensures Valid(SyncFile(s.disk, id)) && OwnedOk(s.(disk := SyncFile(s.disk, id)))
    ensures forall n :: Look(SyncFile(s.disk, id), n) == Look(s.disk, n)
    ensures forall n, c :: Holds(s.disk, n, c) ==> Holds(SyncFile(s.disk, id), n, c)
  {
    assert forall x :: Named(s.disk, x) ==> Named(SyncFile(s.disk, id), x);
  }

  lemma VerifiedKeeps(s: State, v0: nat, id: nat, copy: nat)
    requires Ready(s, InStage(v0, Verified(id, copy)))
    ensures Kept(s, InStage(v0, Verified(id, copy)), (SyncFile(s.disk, id), InStage(v0, StageSynced(id, copy))))
  {
    SyncKeeps(s, id);
  }

  lemma PublishKeeps(s: State, v0: nat, id: nat, copy: nat)
    requires Ready(s, InStage(v0, StageSynced(id, copy)))
    ensures Kept(s, InStage(v0, StageSynced(id, copy)), (Rename(s.disk, Stage(id), Db(0)), InConfig(v0, copy, DbPublished)))
  {
    RenameValid(s.disk, Stage(id), Db(0));
    RenameKeepsOwned(s, Stage(id), Db(0));
  }

  lemma StageKeeps(s: State, v0: nat, st: StageStep, k: nat, rows: nat -> nat)
    requires Ready(s, InStage(v0, st)) && ContentAt(s.disk, LegacyDb) == s.legacy
    ensures Kept(s, InStage(v0, st), StageCall(s, v0, st, k, rows))
  {
    match st
    case Guarded => GuardedKeeps(s, v0, k);
    case Aside(kept, i) => AsideKeeps(s, v0, kept, i);
    case Staging(id) => CopyKeeps(s, v0, id);
    case Staged(id, copy) => VerifyKeeps(s, v0, id, copy, rows);
    case Verified(id, copy) => VerifiedKeeps(s, v0, id, copy);
    case StageSynced(id, copy) => PublishKeeps(s, v0, id, copy);
  }

  lemma UnlinkTemp(s: State, id: nat)
    requires Valid(s.disk) && OwnedOk(s) && HasTemp(s, id)
    ensures var d := Set(s.disk, Temp(id), None); Valid(d) && OwnedOk(s.(disk := d))
  {
    assert Temp(id) in s.disk.entries;
    SetValid(s.disk, Temp(id), None);
    UnlinkKeepsOwned(s, Temp(id), id);
  }

  lemma BackupDisk(s: State, k: nat)
    requires Valid(s.disk) && OwnedOk(s) && Now(s.disk, Config).Some? && Now(s.disk, ConfigBackup(k)).None?
    ensures var d := Rename(s.disk, Config, ConfigBackup(k)); Valid(d) && OwnedOk(s.(disk := d))
    ensures var d := Rename(s.disk, Config, ConfigBackup(k));
            d.inodes == s.disk.inodes && forall n :: n != Config && n != ConfigBackup(k) ==> Look(d, n) == Look(s.disk, n)
  {
    RenameValid(s.disk, Config, ConfigBackup(k));
    RenameKeepsOwned(s, Config, ConfigBackup(k));
  }

  lemma LinkFree(s: State, v0: nat, copy: nat, id: nat, c: nat)
    requires Ready(s, InConfig(v0, copy, ConfigTempSynced(id, c))) && Now(s.disk, Config).None?
    ensures Kept(s, InConfig(v0, copy, ConfigTempSynced(id, c)), (Set(s.disk, Config, Some(id)), InConfig(v0, copy, ConfigLinked(id, c))))
  {
    SetValid(s.disk, Config, Some(id));
    LinkKeepsOwned(s, Config, Some(id));
  }

  /** Moving the config aside keeps the database, the version and the absence of the marker. */
  lemma BackupBase(s: State, v0: nat, copy: nat, st: ConfigStep, k: nat)
    requires Ready(s, InConfig(v0, copy, st)) && Now(s.disk, Config).Some? && Now(s.disk, ConfigBackup(k)).None?
    ensures var t := s.(disk := Rename(s.disk, Config, ConfigBackup(k)));
            && Valid(t.disk) && OwnedOk(t) && !Marked(t.disk) && Now(t.disk, Lock) == Now(s.disk, Lock)
            && CopyCurrent(t, v0, copy) && DbReady(t.disk, copy) && Now(t.disk, Config).None?
  {
    BackupDisk(s, k);
  }

  /** So a later phase of publishing it is good whose own needs are met. */
  lemma BackupKept(s: State, v0: nat, copy: nat, st: ConfigStep, after: ConfigStep, k: nat)
    requires Ready(s, InConfig(v0, copy, st)) && !st.ConfigClear? && Now(s.disk, Config).Some? && Now(s.disk, ConfigBackup(k)).None?
    requires !after.ConfigLinked? && !after.ConfigIdentical? && ConfigOk(s.(disk := Rename(s.disk, Config, ConfigBackup(k))), after)
    ensures Kept(s, InConfig(v0, copy, st), (Rename(s.disk, Config, ConfigBackup(k)), InConfig(v0, copy, after)))
  {
    BackupBase(s, v0, copy, st, k);
  }

  lemma BackupDone(s: State, v0: nat, copy: nat, k: nat)
    requires Ready(s, InConfig(v0, copy, ConfigAside(false))) && Now(s.disk, Config).Some? && Now(s.disk, ConfigBackup(k)).None?
    ensures Kept(s, InConfig(v0, copy, ConfigAside(false)), (Rename(s.disk, Config, ConfigBackup(k)), InClose(copy, None, ConfigDone(v0))))
  {
    BackupBase(s, v0, copy, ConfigAside(false), k);
  }

  lemma TempStays(s: State, id: nat, k: nat)
    requires Valid(s.disk) && OwnedOk(s) && Now(s.disk, Config).Some? && Now(s.disk, ConfigBackup(k)).None?
    ensures var t := s.(disk := Rename(s.disk, Config, ConfigBackup(k)));
            && (HasTemp(s, id) ==> HasTemp(t, id)) && (IsSynced(s.disk, id) ==> IsSynced(t.disk, id))
            && forall c :: TempHas(s, id, c) ==> TempHas(t, id, c)
  {
    BackupDisk(s, k);
  }

  lemma PublishConfigKeeps(s: State, v0: nat, copy: nat, id: nat, c: nat, k: nat)
    requires Ready(s, InConfig(v0, copy, ConfigTempSynced(id, c)))
    ensures Kept(s, InConfig(v0, copy, ConfigTempSynced(id, c)), PublishCall(s, v0, copy, id, c, k))
  {
    if Now(s.disk, Config).None? {
      LinkFree(s, v0, copy, id, c);
    } else if !s.links && Now(s.disk, ConfigBackup(k)).None? {
      TempStays(s, id, k);
      BackupKept(s, v0, copy, ConfigTempSynced(id, c), ConfigClear(id, c), k);
    }
  }

  lemma RacedKeeps(s: State, v0: nat, copy: nat, id: nat, k: nat)
    requires Ready(s, InConfig(v0, copy, ConfigRaced(id)))
    ensures Kept(s, InConfig(v0, copy, ConfigRaced(id)), RacedCall(s, v0, copy, id, k))
  {
    if Now(s.disk, Config).None? {
      UnlinkTemp(s, id);
    } else if Now(s.disk, ConfigBackup(k)).None? {
      TempStays(s, id, k);
      BackupKept(s, v0, copy, ConfigRaced(id), ConfigMoved(id), k);
    }
  }

  lemma MovedKeeps(s: State, v0: nat, copy: nat, id: nat)
    requires Ready(s, InConfig(v0, copy, ConfigMoved(id)))
    ensures Kept(s, InConfig(v0, copy, ConfigMoved(id)), (Set(s.disk, Temp(id), None), InConfig(v0, copy, ConfigCopy)))
  {
    UnlinkTemp(s, id);
  }

  lemma LinkedKeeps(s: State, v0: nat, copy: nat, id: nat, c: nat)
    requires Ready(s, InConfig(v0, copy, ConfigLinked(id, c)))
    ensures Kept(s, InConfig(v0, copy, ConfigLinked(id, c)), (Set(s.disk, Temp(id), None), InClose(copy, Some(c), ConfigDone(v0))))
  {
    UnlinkTemp(s, id);
  }

  /** The rename over the config loses at most the file that is there. */
  lemma OverwriteKeepsOwned(s: State, ph: Phase, id: nat)
    requires Valid(s.disk) && OwnedOk(s) && ph.InConfig? && ph.step.ConfigClear? && HasTemp(s, id)
    ensures var d := Rename(s.disk, Temp(id), Config); Valid(d) && OwnedOk(s.(disk := d, owned := s.owned - Overwritten(s, ph)))
  {
    RenameValid(s.disk, Temp(id), Config);
    forall x | x in s.owned - Overwritten(s, ph) ensures Named(Rename(s.disk, Temp(id), Config), x) {
      SetKeepsNamed(s.disk, Config, Some(id), x);
      SetKeepsNamed(Set(s.disk, Config, Some(id)), Temp(id), None, x);
    }
  }

  lemma ClearKeeps(s: State, v0: nat, copy: nat, id: nat, c: nat)
    requires Ready(s, InConfig(v0, copy, ConfigClear(id, c)))
    ensures Kept(s, InConfig(v0, copy, ConfigClear(id, c)), (Rename(s.disk, Temp(id), Config), InClose(copy, Some(c), ConfigDone(v0))))
  {
    OverwriteKeepsOwned(s, InConfig(v0, copy, ConfigClear(id, c)), id);
  }

  lemma ConfigAsideKeeps(s: State, v0: nat, copy: nat, replace: bool, k: nat)
    requires Ready(s, InConfig(v0, copy, ConfigAside(replace)))
    ensures Kept(s, InConfig(v0, copy, ConfigAside(replace)), MoveConfigCall(s, v0, copy, replace, k))
  {
    if Now(s.disk, Config).Some? && Now(s.disk, ConfigBackup(k)).None? {
      if replace { BackupKept(s, v0, copy, ConfigAside(true), ConfigCopy, k); } else { BackupDone(s, v0, copy, k); }
    }
  }

  lemma TempDisk(s: State, content: Option<nat>)
    requires Valid(s.disk) && OwnedOk(s)
    ensures var d := Create(s.disk, Temp(s.disk.next), content); Valid(d) && OwnedOk(s.(disk := d)) && s.disk.next !in s.owned
    ensures var d := Create(s.disk, Temp(s.disk.next), content);
            && (forall n :: n != Temp(s.disk.next) ==> Look(d, n) == Look(s.disk, n))
            && (forall id :: id in s.disk.inodes ==> id in d.inodes && d.inodes[id] == s.disk.inodes[id])
  {
    FreshName(s.disk);
    CreateValid(s.disk, Temp(s.disk.next), content);
    CreateKeepsOwned(s, Temp(s.disk.next), content);
  }

  /** A new temp changes nothing that the database or a settled config rests on. */
  lemma TempDurable(s: State, content: Option<nat>, copy: nat, seen: Option<nat>)
    requires Valid(s.disk) && OwnedOk(s) && !Marked(s.disk)
    ensures var t := s.(disk := Create(s.disk, Temp(s.disk.next), content));
            && !Marked(t.disk) && Now(t.disk, Lock) == Now(s.disk, Lock)
            && (DbReady(s.disk, copy) ==> DbReady(t.disk, copy)) && (Durable(s, copy, seen) ==> Durable(t, copy, seen))
  {
    TempDisk(s, content);
  }

  lemma NewTemp(s: State, c: nat)
    requires Valid(s.disk) && OwnedOk(s)
    ensures TempHas(s.(disk := Create(s.disk, Temp(s.disk.next), Some(c))), s.disk.next, c)
  {
    TempDisk(s, Some(c));
  }

  lemma ConfigCopyKeeps(s: State, v0: nat, copy: nat)
    requires Ready(s, InConfig(v0, copy, ConfigCopy))
    ensures Kept(s, InConfig(v0, copy, ConfigCopy), CopyConfigCall(s, v0, copy))
  {
    var source := ContentAt(s.disk, LegacyConfig);
    TempDisk(s, source);
    TempDurable(s, source, copy, None);
    if source.Some? { NewTemp(s, source.value); }
  }

  lemma TempSyncKeeps(s: State, v0: nat, copy: nat, id: nat, c: nat)
    requires Ready(s, InConfig(v0, copy, ConfigTemp(id, c)))
    ensures Kept(s, InConfig(v0, copy, ConfigTemp(id, c)), (SyncFile(s.disk, id), InConfig(v0, copy, ConfigTempSynced(id, c))))
  {
    SyncKeeps(s, id);
  }

  lemma IdenticalKeeps(s: State, v0: nat, copy: nat, c: nat)
    requires Ready(s, InConfig(v0, copy, ConfigIdentical(c)))
    ensures Kept(s, InConfig(v0, copy, ConfigIdentical(c)), SyncIdenticalCall(s, v0, copy, c))
  {
    if Now(s.disk, Config).Some? { SyncKeeps(s, Now(s.disk, Config).value); }
  }

  lemma PlanKeeps(s: State, v0: nat, copy: nat)
    requires Ready(s, InConfig(v0, copy, DbPublished))
    ensures Kept(s, InConfig(v0, copy, DbPublished), (s.disk, PlanConfig(s.disk, v0, copy)))
  {}

  lemma ConfigKeeps(s: State, v0: nat, copy: nat, st: ConfigStep, k: nat)
    requires Ready(s, InConfig(v0, copy, st))
    ensures Kept(s, InConfig(v0, copy, st), ConfigCall(s, v0, copy, st, k))
  {
    match st
    case DbPublished => PlanKeeps(s, v0, copy);
    case ConfigAside(replace) => ConfigAsideKeeps(s, v0, copy, replace, k);
    case ConfigCopy => ConfigCopyKeeps(s, v0, copy);
    case ConfigTemp(id, c) => TempSyncKeeps(s, v0, copy, id, c);
    case ConfigTempSynced(id, c) => PublishConfigKeeps(s, v0, copy, id, c, k);
    case ConfigRaced(id) => RacedKeeps(s, v0, copy, id, k);
    case ConfigMoved(id) => MovedKeeps(s, v0, copy, id);
    case ConfigClear(id, c) => ClearKeeps(s, v0, copy, id, c);
    case ConfigLinked(id, c) => LinkedKeeps(s, v0, copy, id, c);
    case ConfigIdentical(c) => IdenticalKeeps(s, v0, copy, c);
  }

  lemma TargetSyncKeeps(s: State, copy: nat, seen: Option<nat>, v0: nat)
    requires Ready(s, InClose(copy, seen, ConfigDone(v0)))
    ensures Kept(s, InClose(copy, seen, ConfigDone(v0)), (SyncDir(s.disk), InClose(copy, seen, DirSynced(v0))))
  {
    SyncDirValid(s.disk);
    assert Now(s.disk, Marker).None?;
    forall id | id in s.owned ensures Named(SyncDir(s.disk), id) { SyncDirKeepsNamed(s.disk, id); }
  }

  lemma VersionKeeps(s: State, copy: nat, seen: Option<nat>, v0: nat)
    requires Ready(s, InClose(copy, seen, DirSynced(v0))) && ContentAt(s.disk, LegacyDb) == s.legacy
    ensures Kept(s, InClose(copy, seen, DirSynced(v0)), VersionCall(s, copy, seen, v0))
  {}

  lemma MarkerTempKeeps(s: State, copy: nat, seen: Option<nat>, legacy: nat)
    requires Ready(s, InClose(copy, seen, VersionOk(legacy)))
    ensures Kept(s, InClose(copy, seen, VersionOk(legacy)),
                 (Create(s.disk, Temp(s.disk.next), Some(0)), InClose(copy, seen, MarkerTemp(legacy, s.disk.next))))
  {
    TempDisk(s, Some(0));
    TempDurable(s, Some(0), copy, seen);
    NewTemp(s, 0);
  }

  lemma SyncDurable(s: State, id: nat, copy: nat, seen: Option<nat>)
    requires Valid(s.disk) && OwnedOk(s) && Durable(s, copy, seen)
    ensures Durable(s.(disk := SyncFile(s.disk, id)), copy, seen)
  {
    SyncKeeps(s, id);
  }

  lemma MarkerTempSyncKeeps(s: State, copy: nat, seen: Option<nat>, legacy: nat, id: nat)
    requires Ready(s, InClose(copy, seen, MarkerTemp(legacy, id)))
    ensures Kept(s, InClose(copy, seen, MarkerTemp(legacy, id)), (SyncFile(s.disk, id), InClose(copy, seen, MarkerTempSynced(legacy, id))))
  {
    SyncKeeps(s, id);
    SyncDurable(s, id, copy, seen);
  }

  lemma CloseKeeps(s: State, copy: nat, seen: Option<nat>, st: CloseStep)
    requires Ready(s, InClose(copy, seen, st)) && !st.MarkerTempSynced? && ContentAt(s.disk, LegacyDb) == s.legacy
    ensures Kept(s, InClose(copy, seen, st), CloseCall(s, copy, seen, st))
  {
    match st
    case ConfigDone(v0) => TargetSyncKeeps(s, copy, seen, v0);
    case DirSynced(v0) => VersionKeeps(s, copy, seen, v0);
    case VersionOk(legacy) => MarkerTempKeeps(s, copy, seen, legacy);
    case MarkerTemp(legacy, id) => MarkerTempSyncKeeps(s, copy, seen, legacy, id);
  }

  // --- the legacy files ------------------------------------------------------------------------------------------

  /** The file is none of the legacy ones. */
  predicate NotLegacy(d: Disk, id: nat) {
    Now(d, LegacyDb) != Some(id) && Now(d, LegacyConfig) != Some(id)
  }

  lemma OtherFile(s: State, n: Name, id: nat)
    requires LegacyOk(s) && !IsLegacy(n) && n in s.disk.entries && Some(id) in s.disk.entries[n].maybe
    ensures NotLegacy(s.disk, id)
  {}

  lemma SetSpares(s: State, n: Name, x: Option<nat>)
    requires LegacyOk(s) && !IsLegacy(n) && (x.Some? ==> NotLegacy(s.disk, x.value))
    ensures LegacyOk(s.(disk := Set(s.disk, n, x)))
  {}

  function Grown(d: Disk, content: Option<nat>): Disk {
    d.(inodes := d.inodes[d.next := Data(content, false)], next := d.next + 1)
  }

  lemma GrownSpares(s: State, content: Option<nat>)
    requires Valid(s.disk) && LegacyOk(s)
    ensures LegacyOk(s.(disk := Grown(s.disk, content))) && NotLegacy(Grown(s.disk, content), s.disk.next)
  {}

  lemma CreateSpares(s: State, n: Name, content: Option<nat>)
    requires Valid(s.disk) && LegacyOk(s) && !IsLegacy(n)
    ensures LegacyOk(s.(disk := Create(s.disk, n, content)))
  {
    GrownSpares(s, content);
    SetSpares(s.(disk := Grown(s.disk, content)), n, Some(s.disk.next));
  }

  lemma RenameSpares(s: State, from: Name, to: Name)
    requires Valid(s.disk) && LegacyOk(s) && !IsLegacy(from) && !IsLegacy(to) && from != to && Now(s.disk, from).Some?
    ensures LegacyOk(s.(disk := Rename(s.disk, from, to)))
  {
    OtherFile(s, from, Now(s.disk, from).value);
    SetSpares(s, to, Now(s.disk, from));
    SetSpares(s.(disk := Set(s.disk, to, Now(s.disk, from))), from, None);
  }

  lemma SyncSpares(s: State, id: nat)
    requires LegacyOk(s)
    ensures LegacyOk(s.(disk := SyncFile(s.disk, id)))
  {}

  lemma SyncDirSpares(s: State)
    requires Valid(s.disk) && LegacyOk(s)
    ensures LegacyOk(s.(disk := SyncDir(s.disk)))
  {}

  lemma WriteSpares(s: State, id: nat, content: nat)
    requires LegacyOk(s) && NotLegacy(s.disk, id)
    ensures LegacyOk(s.(disk := Write(s.disk, id, content)))
  {}

  lemma StagingSpares(s: State, id: nat, content: nat)
    requires Valid(s.disk) && LegacyOk(s) && Now(s.disk, Stage(id)) == Some(id)
    ensures LegacyOk(s.(disk := Set(s.disk, Stage(id), None))) && LegacyOk(s.(disk := Write(s.disk, id, content)))
  {
    OtherFile(s, Stage(id), id);
    SetSpares(s, Stage(id), None);
    WriteSpares(s, id, content);
  }

  lemma AsideSpares(s: State, v0: nat, k: nat, i: nat)
    requires Valid(s.disk) && LegacyOk(s)
    ensures LegacyOk(s.(disk := AsideCall(s, v0, k, i).0))
  {
    if i >= 3 { CreateSpares(s, Stage(s.disk.next), None); }
    else if Now(s.disk, Db(i)).Some? { RenameSpares(s, Db(i), DbBackup(k, i)); }
  }

  lemma StageSpares(s: State, v0: nat, st: StageStep, k: nat, rows: nat -> nat)
    requires Valid(s.disk) && LegacyOk(s) && StageOk(s, v0, st)
    ensures LegacyOk(s.(disk := StageCall(s, v0, st, k, rows).0))
  {
    match st
    case Guarded =>
    case Aside(kept, i) => AsideSpares(s, v0, kept, i);
    case Staging(id) => StagingSpares(s, id, if s.legacy.Some? then s.legacy.value else 0);
    case Staged(id, _) => StagingSpares(s, id, 0);
    case Verified(id, _) => SyncSpares(s, id);
    case StageSynced(id, _) => RenameSpares(s, Stage(id), Db(0));
  }

  lemma MoveConfigSpares(s: State, v0: nat, copy: nat, replace: bool, k: nat)
    requires Valid(s.disk) && LegacyOk(s)
    ensures LegacyOk(s.(disk := MoveConfigCall(s, v0, copy, replace, k).0))
  {
    if Now(s.disk, Config).Some? { RenameSpares(s, Config, ConfigBackup(k)); }
  }

  lemma PublishSpares(s: State, v0: nat, copy: nat, id: nat, c: nat, k: nat)
    requires Valid(s.disk) && LegacyOk(s) && HasTemp(s, id)
    ensures LegacyOk(s.(disk := PublishCall(s, v0, copy, id, c, k).0))
  {
    OtherFile(s, Temp(id), id);
    SetSpares(s, Config, Some(id));
    if Now(s.disk, Config).Some? { RenameSpares(s, Config, ConfigBackup(k)); }
  }

  lemma RacedSpares(s: State, v0: nat, copy: nat, id: nat, k: nat)
    requires Valid(s.disk) && LegacyOk(s)
    ensures LegacyOk(s.(disk := RacedCall(s, v0, copy, id, k).0))
  {
    SetSpares(s, Temp(id), None);
    if Now(s.disk, Config).Some? { RenameSpares(s, Config, ConfigBackup(k)); }
  }

  lemma IdenticalSpares(s: State, v0: nat, copy: nat, c: nat)
    requires Valid(s.disk) && LegacyOk(s)
    ensures LegacyOk(s.(disk := SyncIdenticalCall(s, v0, copy, c).0))
  {
    if Now(s.disk, Config).Some? { SyncSpares(s, Now(s.disk, Config).value); }
  }

  lemma ConfigSpares(s: State, v0: nat, copy: nat, st: ConfigStep, k: nat)
    requires Valid(s.disk) && LegacyOk(s) && ConfigOk(s, st)
    ensures LegacyOk(s.(disk := ConfigCall(s, v0, copy, st, k).0))
  {
    match st
    case DbPublished =>
    case ConfigAside(replace) => MoveConfigSpares(s, v0, copy, replace, k);
    case ConfigCopy => CreateSpares(s, Temp(s.disk.next), ContentAt(s.disk, LegacyConfig));
    case ConfigTemp(id, _) => SyncSpares(s, id);
    case ConfigTempSynced(id, c) => PublishSpares(s, v0, copy, id, c, k);
    case ConfigRaced(id) => RacedSpares(s, v0, copy, id, k);
    case ConfigMoved(id) => SetSpares(s, Temp(id), None);
    case ConfigClear(id, _) => RenameSpares(s, Temp(id), Config);
    case ConfigLinked(id, _) => SetSpares(s, Temp(id), None);
    case ConfigIdentical(c) => IdenticalSpares(s, v0, copy, c);
  }

  lemma CloseSpares(s: State, copy: nat, seen: Option<nat>, st: CloseStep)
    requires Valid(s.disk) && LegacyOk(s)
    ensures LegacyOk(s.(disk := CloseCall(s, copy, seen, st).0))
  {
    match st
    case ConfigDone(_) => SyncDirSpares(s);
    case VersionOk(_) => CreateSpares(s, Temp(s.disk.next), Some(0));
    case MarkerTemp(_, id) => SyncSpares(s, id);
    case _ =>
  }

  /** No call of a migrator touches a legacy file. */
  lemma CallSpares(s: State, ph: Phase, k: nat, rows: nat -> nat)
    requires Valid(s.disk) && LegacyOk(s) && PhaseOk(s, ph)
    ensures LegacyOk(s.(disk := Advance(s, ph, k, rows).disk))
  {
    if Working(ph) { InnerSpares(s, ph, k, rows); } else { OuterSpares(s, ph, k, rows); }
  }

  lemma InnerSpares(s: State, ph: Phase, k: nat, rows: nat -> nat)
    requires Valid(s.disk) && LegacyOk(s) && PhaseOk(s, ph) && Working(ph)
    ensures LegacyOk(s.(disk := Inner(s, ph, k, rows).0))
  {
    match ph
    case InStage(v0, st) => StageSpares(s, v0, st, k, rows);
    case InConfig(v0, copy, st) => ConfigSpares(s, v0, copy, st, k);
    case InClose(copy, seen, st) => CloseSpares(s, copy, seen, st);
  }

  lemma OuterSpares(s: State, ph: Phase, k: nat, rows: nat -> nat)
    requires Valid(s.disk) && LegacyOk(s) && PhaseOk(s, ph) && !Working(ph)
    ensures LegacyOk(s.(disk := Advance(s, ph, k, rows).disk))
  {
    match ph
    case Checked => CreateSpares(s, Lock, Some(0));
    case InClose(_, _, st) => RenameSpares(s, Temp(st.id), Marker);
    case MarkerRenamed => SyncDirSpares(s);
    case Releasing => SetSpares(s, Lock, None);
    case _ =>
  }

  // --- every step of the system --------------------------------------------------------------------------------------

  /** A call that keeps the lock as it is: the other migrators wait, so only the disk and the caller matter. */
  lemma HolderStep(s: State, p: nat, m: Called)
    requires Inv(s) && p in s.procs && HoldsLock(s.procs[p]) && m.phase.Some? && HoldsLock(m.phase.value)
    requires Valid(m.disk) && OwnedOk(After(s, p, m)) && Now(m.disk, Lock) == Now(s.disk, Lock)
    requires MarkerOk(After(s, p, m)) && PhaseOk(After(s, p, m), m.phase.value)
    ensures Inv(After(s, p, m))
  {
    var t := After(s, p, m);
    forall q | q in t.procs ensures PhaseOk(t, t.procs[q]) {
      if q != p { assert s.procs[q].Checked?; }
    }
  }

  lemma LockKeepsMarker(s: State, d: Disk)
    requires MarkerOk(s) && forall n :: n != Lock ==> Look(d, n) == Look(s.disk, n)
    requires forall id :: id in s.disk.inodes ==> id in d.inodes && d.inodes[id] == s.disk.inodes[id]
    ensures MarkerOk(s.(disk := d))
  {
    assert Look(d, Marker) == Look(s.disk, Marker);
  }

  lemma LockDisk(s: State)
    requires Inv(s) && Now(s.disk, Lock).None?
    ensures var t := s.(disk := Create(s.disk, Lock, Some(0)));
            && Valid(t.disk) && OwnedOk(t) && MarkerOk(t) && Now(t.disk, Lock) == Some(s.disk.next) && s.disk.next !in s.owned
  {
    CreateValid(s.disk, Lock, Some(0));
    CreateKeepsOwned(s, Lock, Some(0));
    LockKeepsMarker(s, Create(s.disk, Lock, Some(0)));
  }

  lemma LockStep(s: State, p: nat, k: nat, rows: nat -> nat)
    requires Inv(s) && p in s.procs && s.procs[p].Checked?
    ensures Inv(After(s, p, Advance(s, s.procs[p], k, rows)))
  {
    if Now(s.disk, Lock).None? { LockTaken(s, p); } else { CheckedEnds(s, p); }
  }

  lemma LockTaken(s: State, p: nat)
    requires Inv(s) && p in s.procs && s.procs[p].Checked? && Now(s.disk, Lock).None?
    ensures Inv(After(s, p, Called(Create(s.disk, Lock, Some(0)), Some(Locked), s.ghostRecord)))
  {
    LockDisk(s);
    forall q | q in s.procs && q != p ensures s.procs[q].Checked? {}
  }

  lemma CheckedEnds(s: State, p: nat)
    requires Inv(s) && p in s.procs && s.procs[p].Checked?
    ensures Inv(After(s, p, Called(s.disk, None, s.ghostRecord)))
  {}

  lemma UnlockStep(s: State, p: nat, k: nat, rows: nat -> nat)
    requires Inv(s) && p in s.procs && s.procs[p].Releasing?
    ensures Inv(After(s, p, Advance(s, s.procs[p], k, rows)))
  {
    UnlinkLock(s);
    var t := After(s, p, Advance(s, s.procs[p], k, rows));
    forall q | q in t.procs ensures t.procs[q].Checked? { assert q != p; }
  }

  lemma UnlinkLock(s: State)
    requires Inv(s)
    ensures var t := s.(disk := Set(s.disk, Lock, None)); Valid(t.disk) && OwnedOk(t) && MarkerOk(t) && Now(t.disk, Lock).None?
  {
    SetValid(s.disk, Lock, None);
    if Now(s.disk, Lock).Some? { UnlinkKeepsOwned(s, Lock, Now(s.disk, Lock).value); } else { LinkKeepsOwned(s, Lock, None); }
    LockKeepsMarker(s, Set(s.disk, Lock, None));
  }

  lemma MarkStep(s: State, p: nat, k: nat, rows: nat -> nat)
    requires Inv(s) && p in s.procs && AtMarker(s.procs[p])
    ensures Inv(After(s, p, Advance(s, s.procs[p], k, rows)))
  {
    MarkDisk(s, s.procs[p]);
    MarkerVouches(s, s.procs[p]);
    HolderStep(s, p, Advance(s, s.procs[p], k, rows));
  }

  lemma MarkDisk(s: State, ph: Phase)
    requires Ready(s, ph) && AtMarker(ph)
    ensures var d := Rename(s.disk, Temp(ph.close.id), Marker);
            Valid(d) && OwnedOk(s.(disk := d)) && Now(d, Lock) == Now(s.disk, Lock) && Holds(d, Marker, 0)
  {
    var id := ph.close.id;
    assert TempHas(s, id, 0) && Now(s.disk, Marker).None?;
    RenameValid(s.disk, Temp(id), Marker);
    RenameKeepsOwned(s, Temp(id), Marker);
  }

  lemma MarkerVouches(s: State, ph: Phase)
    requires Ready(s, ph) && AtMarker(ph)
    ensures MarkerOk(s.(disk := Rename(s.disk, Temp(ph.close.id), Marker), ghostRecord := Some(Record(ph.close.legacy, ph.seen))))
  {
    assert TempHas(s, ph.close.id, 0) && Durable(s, ph.close.legacy, ph.seen);
    RenamedDurable(s, ph.close.id, ph.close.legacy, ph.seen);
  }

  lemma RenamedDurable(s: State, id: nat, copy: nat, seen: Option<nat>)
    requires Now(s.disk, Temp(id)) == Some(id) && Durable(s, copy, seen)
    ensures Durable(s.(disk := Rename(s.disk, Temp(id), Marker)), copy, seen) && Now(Rename(s.disk, Temp(id), Marker), Marker) == Some(id)
  {
    var d := Rename(s.disk, Temp(id), Marker);
    assert forall n :: n != Temp(id) && n != Marker ==> Look(d, n) == Look(s.disk, n);
  }

  /** The directory's sync after the rename settles everything that is there. */
  lemma MarkerSyncStep(s: State, p: nat, k: nat, rows: nat -> nat)
    requires Inv(s) && p in s.procs && s.procs[p].MarkerRenamed?
    ensures Inv(After(s, p, Advance(s, s.procs[p], k, rows)))
  {
    SyncDirKeeps(s);
    HolderStep(s, p, Advance(s, s.procs[p], k, rows));
  }

  lemma SyncDirKeeps(s: State)
    requires Inv(s)
    ensures var t := s.(disk := SyncDir(s.disk)); Valid(t.disk) && OwnedOk(t) && MarkerOk(t)
    ensures forall n :: Now(SyncDir(s.disk), n) == Now(s.disk, n)
  {
    SyncDirValid(s.disk);
    forall id | id in s.owned ensures Named(SyncDir(s.disk), id) { SyncDirKeepsNamed(s.disk, id); }
  }

  /** Looking at the marker and at the data version under the lock. */
  lemma LookStep(s: State, p: nat, k: nat, rows: nat -> nat)
    requires Inv(s) && p in s.procs && (s.procs[p].Locked? || s.procs[p].Rechecked?)
    ensures Inv(After(s, p, Advance(s, s.procs[p], k, rows)))
  {
    HolderStep(s, p, Advance(s, s.procs[p], k, rows));
  }

  lemma RunStep(s: State, p: nat, k: nat, rows: nat -> nat)
    requires Inv(s) && p in s.procs && ContentAt(s.disk, LegacyDb) == s.legacy
    ensures Inv(After(s, p, Advance(s, s.procs[p], k, rows)))
  {
    var ph := s.procs[p];
    if ph.Checked? { LockStep(s, p, k, rows); }
    else if ph.Locked? || ph.Rechecked? { LookStep(s, p, k, rows); }
    else if AtMarker(ph) { MarkStep(s, p, k, rows); }
    else if ph.MarkerRenamed? { MarkerSyncStep(s, p, k, rows); }
    else if ph.Releasing? { UnlockStep(s, p, k, rows); }
    else { InnerStep(s, p, k, rows); }
  }

  lemma InnerKeeps(s: State, ph: Phase, k: nat, rows: nat -> nat)
    requires Ready(s, ph) && Working(ph) && ContentAt(s.disk, LegacyDb) == s.legacy
    ensures Kept(s, ph, Inner(s, ph, k, rows))
  {
    match ph
    case InStage(v0, st) => StageKeeps(s, v0, st, k, rows);
    case InConfig(v0, copy, st) => ConfigKeeps(s, v0, copy, st, k);
    case InClose(copy, seen, st) => CloseKeeps(s, copy, seen, st);
  }

  lemma InnerStep(s: State, p: nat, k: nat, rows: nat -> nat)
    requires Inv(s) && p in s.procs && ContentAt(s.disk, LegacyDb) == s.legacy && Working(s.procs[p])
    ensures Inv(After(s, p, Advance(s, s.procs[p], k, rows)))
  {
    var c := Inner(s, s.procs[p], k, rows);
    InnerKeeps(s, s.procs[p], k, rows);
    KeptStep(s, p, c);
  }

  lemma KeptStep(s: State, p: nat, c: (Disk, Phase))
    requires Inv(s) && p in s.procs && HoldsLock(s.procs[p]) && Kept(s, s.procs[p], c)
    ensures Inv(After(s, p, Called(c.0, Some(c.1), s.ghostRecord)))
  {
    PhaseIgnoresRecord(s, p, c);
    HolderStep(s, p, Called(c.0, Some(c.1), s.ghostRecord));
  }

  /** What a phase needs does not depend on the other migrators. */
  lemma PhaseIgnoresRecord(s: State, p: nat, c: (Disk, Phase))
    requires p in s.procs && Kept(s, s.procs[p], c)
    ensures var t := After(s, p, Called(c.0, Some(c.1), s.ghostRecord)); PhaseOk(t, c.1) && OwnedOk(t) && !Marked(t.disk)
  {}

  /** What the abort leaves to clean up is private, and neither lock nor marker. */
  lemma LitterIsPrivate(s: State, ph: Phase)
    requires PhaseOk(s, ph) && Litter(ph).Some?
    ensures var n := Litter(ph).value;
            (n.Stage? || n.Temp?) && Now(s.disk, n) == Some(n.id) && n.id !in s.owned && !Marked(s.disk)
  {}

  lemma AbortStep(s: State, p: nat)
    requires Inv(s) && p in s.procs && HoldsLock(s.procs[p])
    ensures var litter := Litter(s.procs[p]);
            Inv(s.(disk := if litter.Some? then Set(s.disk, litter.value, None) else s.disk, procs := s.procs[p := Releasing]))
  {
    var litter := Litter(s.procs[p]);
    if litter.Some? {
      var n := litter.value;
      LitterIsPrivate(s, s.procs[p]);
      assert n in s.disk.entries;
      SetValid(s.disk, n, None);
      UnlinkKeepsOwned(s, n, n.id);
      assert Look(Set(s.disk, n, None), Marker) == Look(s.disk, Marker);
      ReleaseStep(s, p, Set(s.disk, n, None));
    } else {
      ReleaseStep(s, p, s.disk);
    }
  }

  /** The holder of the lock gives up, with a disk on which the marker vouches for as much as before. */
  lemma ReleaseStep(s: State, p: nat, d: Disk)
    requires Inv(s) && p in s.procs && HoldsLock(s.procs[p])
    requires Valid(d) && OwnedOk(s.(disk := d)) && Now(d, Lock) == Now(s.disk, Lock) && (d == s.disk || !Marked(d))
    ensures Inv(s.(disk := d, procs := s.procs[p := Releasing]))
  {
    var t := s.(disk := d, procs := s.procs[p := Releasing]);
    assert MarkerOk(t);
    forall q | q in t.procs ensures PhaseOk(t, t.procs[q]) {
      if q != p { assert s.procs[q].Checked?; }
    }
  }

  lemma EditKeepsOwned(s: State, content: nat)
    requires Valid(s.disk) && OwnedOk(s)
    ensures OwnedOk(Edited(s, content))
  {
    var d := Create(s.disk, Config, Some(content));
    forall id | id in OwnedAfterEdit(s, content) ensures Named(d, id) {
      if id == s.disk.next { assert d.entries[Config].now == Some(id); }
      else {
        var n :| n in s.disk.entries && s.disk.entries[n].now == Some(id);
        assert d.entries[n].now == Some(id);
      }
    }
  }

  /** The target config is all that an edit changes of what migrators look at. */
  ghost predicate SameButConfig(s: State, t: State) {
    && (forall n :: n != Config ==> Look(t.disk, n) == Look(s.disk, n))
    && (forall id :: id in s.disk.inodes ==> id in t.disk.inodes && t.disk.inodes[id] == s.disk.inodes[id])
    && (forall id :: id in t.owned && id in s.disk.inodes ==> id in s.owned)
    && t.touched && t.links == s.links && t.version == s.version && t.legacy == s.legacy && t.ghostRecord == s.ghostRecord && t.procs == s.procs
  }

  lemma EditKeepsPhase(s: State, t: State, ph: Phase)
    requires Valid(s.disk) && PhaseOk(s, ph) && SameButConfig(s, t)
    ensures PhaseOk(t, ph)
  {
    if ph.InStage? { EditKeepsStage(s, t, ph.since, ph.stage); }
    else if ph.InConfig? { EditKeepsConfig(s, t, ph.step); }
    else if ph.InClose? { EditKeepsClose(s, t, ph.db, ph.seen, ph.close); }
  }

  lemma EditKeepsStage(s: State, t: State, v0: nat, st: StageStep)
    requires Valid(s.disk) && StageOk(s, v0, st) && SameButConfig(s, t)
    ensures StageOk(t, v0, st)
  {}

  lemma EditKeepsConfig(s: State, t: State, st: ConfigStep)
    requires Valid(s.disk) && ConfigOk(s, st) && SameButConfig(s, t)
    ensures ConfigOk(t, st)
  {}

  lemma EditKeepsClose(s: State, t: State, copy: nat, seen: Option<nat>, st: CloseStep)
    requires Valid(s.disk) && CloseOk(s, copy, seen, st) && SameButConfig(s, t)
    ensures CloseOk(t, copy, seen, st)
  {}

  lemma EditIsConfig(s: State, content: nat)
    requires Valid(s.disk)
    ensures SameButConfig(s, Edited(s, content)) && Valid(Edited(s, content).disk)
  {
    CreateValid(s.disk, Config, Some(content));
  }

  lemma EditKeepsMarker(s: State, t: State)
    requires MarkerOk(s) && SameButConfig(s, t)
    ensures MarkerOk(t)
  {
    assert Look(t.disk, Marker) == Look(s.disk, Marker);
  }

  lemma EditStep(s: State, content: nat)
    requires Inv(s)
    ensures Inv(Edited(s, content))
  {
    var t := Edited(s, content);
    EditIsConfig(s, content);
    EditKeepsOwned(s, content);
    EditKeepsMarker(s, t);
    EditKeepsLock(s, content);
    forall p | p in t.procs ensures PhaseOk(t, t.procs[p]) { EditKeepsPhase(s, t, s.procs[p]); }
  }

  lemma EditKeepsLock(s: State, content: nat)
    requires Valid(s.disk) && LockOk(s)
    ensures LockOk(Edited(s, content))
  {}

  lemma EditSpares(s: State, content: nat)
    requires Valid(s.disk) && LegacyOk(s)
    ensures LegacyOk(Edited(s, content))
  {
    CreateSpares(s, Config, Some(content));
    assert s.disk.next !in s.disk.inodes;
  }

  lemma PowerStep(s: State, after: Disk)
    requires Inv(s) && AfterPowerLoss(s.disk, after)
    ensures Inv(s.(disk := after, procs := map[], owned := map[]))
  {
    PowerLossValid(s.disk, after);
    if Marked(after) {
      assert Marked(s.disk);
      SureSurvives(s.disk, after, Db(0));
      SureSurvives(s.disk, after, Db(1));
      SureSurvives(s.disk, after, Db(2));
      if !s.touched { SureSurvives(s.disk, after, Config); }
    }
  }

  lemma PowerSpares(s: State, after: Disk)
    requires Valid(s.disk) && LegacyOk(s) && AfterPowerLoss(s.disk, after)
    ensures LegacyOk(s.(disk := after, owned := map[]))
  {
    SureSurvives(s.disk, after, LegacyDb);
    SureSurvives(s.disk, after, LegacyConfig);
  }

  lemma ReplaceKeepsOwned(s: State, n: Name, content: Option<nat>)
    requires Valid(s.disk) && OwnedOk(s) && (Now(s.disk, n).Some? ==> Now(s.disk, n).value !in s.owned)
    ensures OwnedOk(s.(disk := Replace(s.disk, n, content)))
  {
    var d := Replace(s.disk, n, content);
    forall id | id in s.owned ensures Named(d, id) {
      var m :| m in s.disk.entries && s.disk.entries[m].now == Some(id);
      assert d.entries[m].now == Some(id);
    }
  }

  /** A legacy file is all that its users change of what migrators look at, and a commit moves the version. */
  ghost predicate SameButLegacy(s: State, t: State) {
    && (forall n :: !IsLegacy(n) ==> Look(t.disk, n) == Look(s.disk, n))
    && (forall id :: id in s.disk.inodes ==> id in t.disk.inodes && t.disk.inodes[id] == s.disk.inodes[id])
    && t.links == s.links && t.owned == s.owned && t.touched == s.touched && t.ghostRecord == s.ghostRecord && t.procs == s.procs
    && (t.version > s.version || (t.version == s.version && t.legacy == s.legacy))
  }

  lemma LegacyPhase(s: State, t: State, ph: Phase)
    requires Valid(s.disk) && PhaseOk(s, ph) && SameButLegacy(s, t)
    ensures PhaseOk(t, ph)
  {
    if ph.InStage? { LegacyStage(s, t, ph.since, ph.stage); }
    else if ph.InConfig? { LegacyConfigStep(s, t, ph.step); }
    else if ph.InClose? { LegacyClose(s, t, ph.db, ph.seen, ph.close); }
  }

  lemma LegacyStage(s: State, t: State, v0: nat, st: StageStep)
    requires Valid(s.disk) && StageOk(s, v0, st) && SameButLegacy(s, t)
    ensures StageOk(t, v0, st)
  {}

  lemma LegacyConfigStep(s: State, t: State, st: ConfigStep)
    requires Valid(s.disk) && ConfigOk(s, st) && SameButLegacy(s, t)
    ensures ConfigOk(t, st)
  {}

  lemma LegacyClose(s: State, t: State, copy: nat, seen: Option<nat>, st: CloseStep)
    requires Valid(s.disk) && CloseOk(s, copy, seen, st) && SameButLegacy(s, t)
    ensures CloseOk(t, copy, seen, st)
  {}

  lemma LegacyKeepsMarker(s: State, t: State)
    requires MarkerOk(s) && SameButLegacy(s, t)
    ensures MarkerOk(t)
  {
    assert Look(t.disk, Marker) == Look(s.disk, Marker);
  }

  lemma ReplaceSpares(s: State, n: Name, content: Option<nat>)
    requires Valid(s.disk) && IsLegacy(n) && LegacyOk(s) && OwnedOk(s)
    ensures var t := s.(disk := Replace(s.disk, n, content));
            LegacyFile(t, n, content) && (n != LegacyDb ==> LegacyFile(t, LegacyDb, s.legacy))
            && (n != LegacyConfig ==> LegacyFile(t, LegacyConfig, s.legacyConfig))
  {
    ReplaceValid(s.disk, n, content);
  }

  /** A commit to the legacy store makes a copy taken before it stale; an edit of its config changes no phase. */
  lemma LegacyStep(s: State, n: Name, content: Option<nat>, t: State)
    requires Inv(s) && LegacyOk(s) && IsLegacy(n)
    requires t == s.(legacy := t.legacy, version := t.version, legacyConfig := t.legacyConfig, disk := Replace(s.disk, n, content))
    requires t.legacy == (if n == LegacyDb then content else s.legacy) && t.legacyConfig == (if n == LegacyConfig then content else s.legacyConfig)
    requires t.version == (if n == LegacyDb then s.version + 1 else s.version)
    ensures Inv(t)
  {
    ReplaceValid(s.disk, n, content);
    ReplaceKeepsOwned(s, n, content);
    LegacyKeepsMarker(s, t);
    forall p | p in t.procs ensures PhaseOk(t, t.procs[p]) { LegacyPhase(s, t, s.procs[p]); }
  }

  /** Steps of migrators, and their ends. */
  lemma MigratorStep(s: State, e: Event, t: State, rows: nat -> nat)
    requires Inv(s) && ContentAt(s.disk, LegacyDb) == s.legacy && Next(s, e, t, rows)
    requires e.Start? || e.Run? || e.Abort? || e.SyncFails? || e.Crash?
    ensures Inv(t)
  {
    if e.Run? { RunStep(s, e.p, e.k, rows); }
    else if e.Abort? { AbortStep(s, e.p); }
    else if e.SyncFails? { SyncFailsStep(s, e.p); }
    else if e.Start? { StartStep(s, e.p); }
    else { CrashStep(s, e.p); }
  }

  lemma SyncFailsStep(s: State, p: nat)
    requires Inv(s) && p in s.procs && s.procs[p].MarkerRenamed?
    ensures Inv(s.(procs := s.procs[p := Releasing]))
  {
    ReleaseStep(s, p, s.disk);
  }

  lemma StartStep(s: State, p: nat)
    requires Inv(s) && p !in s.procs
    ensures Inv(s.(procs := s.procs[p := Checked]))
  {}

  lemma CrashStep(s: State, p: nat)
    requires Inv(s)
    ensures Inv(s.(procs := s.procs - {p}))
  {}

  lemma StaleLockStep(s: State)
    requires Inv(s) && forall p :: p in s.procs ==> !HoldsLock(s.procs[p])
    ensures Inv(s.(disk := Set(s.disk, Lock, None)))
  {
    UnlinkLock(s);
  }

  /** The protocol invariant holds over every step of every process, every crash and every power loss. */
  lemma StepKeepsInv(s: State, e: Event, t: State, rows: nat -> nat)
    requires Inv(s) && LegacyOk(s) && Next(s, e, t, rows)
    ensures Inv(t)
  {
    match e
    case LegacyCommit(content) => LegacyStep(s, LegacyDb, Some(content), t);
    case EditLegacyConfig(config) => LegacyStep(s, LegacyConfig, config, t);
    case EditConfig(content) => EditStep(s, content);
    case DeleteStaleLock => StaleLockStep(s);
    case PowerLoss(after) => PowerStep(s, after);
    case _ => MigratorStep(s, e, t, rows);
  }

  lemma SameLegacy(s: State, t: State)
    requires LegacyOk(s) && t.disk == s.disk && t.owned.Keys <= s.owned.Keys && t.legacy == s.legacy && t.legacyConfig == s.legacyConfig
    ensures LegacyOk(t)
  {}

  lemma AbortSpares(s: State, p: nat)
    requires Inv(s) && LegacyOk(s) && p in s.procs
    ensures var litter := Litter(s.procs[p]); litter.Some? ==> LegacyOk(s.(disk := Set(s.disk, litter.value, None)))
  {
    var litter := Litter(s.procs[p]);
    if litter.Some? {
      LitterIsPrivate(s, s.procs[p]);
      SetSpares(s, litter.value, None);
    }
  }

  lemma MigratorSpares(s: State, e: Event, t: State, rows: nat -> nat)
    requires Inv(s) && LegacyOk(s) && Next(s, e, t, rows) && (e.Run? || e.Abort?)
    ensures LegacyOk(t) && t.legacy == s.legacy && t.legacyConfig == s.legacyConfig
  {
    if e.Run? { CallSpares(s, s.procs[e.p], e.k, rows); } else { AbortSpares(s, e.p); }
    SameLegacy(s.(disk := t.disk), t);
  }

  /**
   No step but their own users' changes the legacy files: no call of a migrator, abort or crash, no edit of the target and
   no power loss.
   */
  lemma StepSparesLegacy(s: State, e: Event, t: State, rows: nat -> nat)
    requires Inv(s) && LegacyOk(s) && Next(s, e, t, rows)
    ensures LegacyOk(t)
    ensures !e.LegacyCommit? && !e.EditLegacyConfig? ==> t.legacy == s.legacy && t.legacyConfig == s.legacyConfig
  {
    match e
    case Run(_, _) => MigratorSpares(s, e, t, rows);
    case Abort(_) => MigratorSpares(s, e, t, rows);
    case LegacyCommit(content) =>
      ReplaceSpares(s, LegacyDb, Some(content));
    case EditLegacyConfig(config) =>
      ReplaceSpares(s, LegacyConfig, config);
    case EditConfig(content) => EditSpares(s, content);
    case DeleteStaleLock => SetSpares(s, Lock, None);
    case PowerLoss(after) => PowerSpares(s, after);
    case _ => SameLegacy(s, t);
  }
}
