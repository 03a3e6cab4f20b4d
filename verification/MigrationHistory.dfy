/** What every run of the migration protocol guarantees. */
module MigrationHistory {
  import opened Rows
  import opened Directory
  import opened Migration

  // --- runs -----------------------------------------------------------------------------------------------------

  /** Before any migration: no marker, perhaps a fork's database, sidecars and config, which belong to the user. */
  ghost predicate Init(s: State) {
    && Valid(s.disk) && !Marked(s.disk) && s.procs == map[] && s.ghostRecord.None?
    && (Now(s.disk, Lock).Some? ==> Now(s.disk, Lock).value !in s.owned)
    && OwnedOk(s) && LegacyOk(s)
  }

  ghost predicate IsRun(states: seq<State>, events: seq<Event>, rows: nat -> nat) {
    && |states| == |events| + 1 && Init(states[0])
    && forall i :: 0 <= i < |events| ==> Next(states[i], events[i], states[i + 1], rows)
  }

  lemma {:induction false} RunInv(states: seq<State>, events: seq<Event>, rows: nat -> nat, i: nat)
    requires IsRun(states, events, rows) && i < |states|
    ensures Inv(states[i]) && LegacyOk(states[i])
    decreases i
  {
    if i > 0 {
      RunInv(states, events, rows, i - 1);
      StepKeepsInv(states[i - 1], events[i - 1], states[i], rows);
      StepSparesLegacy(states[i - 1], events[i - 1], states[i], rows);
    }
  }

  // --- where a marker's claims come from ----------------------------------------------------------------------------

  ghost predicate SawLegacy(states: seq<State>, i: nat, content: nat) {
    exists j :: 0 <= j <= i < |states| && ContentAt(states[j].disk, LegacyDb) == Some(content)
  }

  ghost predicate SawConfig(states: seq<State>, i: nat, config: Option<nat>) {
    exists j :: 0 <= j <= i < |states| && ContentAt(states[j].disk, LegacyConfig) == config
  }

  /** What a migrator carries was read from the legacy store at some earlier point of the run. */
  ghost predicate Grounded(states: seq<State>, i: nat, ph: Phase) {
    match ph
    case InConfig(_, _, st) => StepGrounded(states, i, st)
    case InClose(_, seen, st) => SawConfig(states, i, seen) && CloseGrounded(states, i, st)
    case _ => true
  }

  ghost predicate StepGrounded(states: seq<State>, i: nat, st: ConfigStep) {
    match st
    case ConfigAside(replace) => replace || SawConfig(states, i, None)
    case ConfigTemp(_, c) => SawConfig(states, i, Some(c))
    case ConfigTempSynced(_, c) => SawConfig(states, i, Some(c))
    case ConfigClear(_, c) => SawConfig(states, i, Some(c))
    case ConfigLinked(_, c) => SawConfig(states, i, Some(c))
    case ConfigIdentical(c) => SawConfig(states, i, Some(c))
    case _ => true
  }

  ghost predicate CloseGrounded(states: seq<State>, i: nat, st: CloseStep) {
    match st
    case ConfigDone(_) => true
    case DirSynced(_) => true
    case VersionOk(legacy) => SawLegacy(states, i, legacy)
    case MarkerTemp(legacy, _) => SawLegacy(states, i, legacy)
    case MarkerTempSynced(legacy, _) => SawLegacy(states, i, legacy)
  }

  ghost predicate RecordGrounded(states: seq<State>, i: nat, r: Option<Record>) {
    r.Some? ==> SawLegacy(states, i, r.value.db) && SawConfig(states, i, r.value.config)
  }

  lemma StillGrounded(states: seq<State>, i: nat, ph: Phase)
    requires i + 1 < |states| && Grounded(states, i, ph)
    ensures Grounded(states, i + 1, ph)
  {
    assert forall c :: SawConfig(states, i, c) ==> SawConfig(states, i + 1, c);
    assert forall c :: SawLegacy(states, i, c) ==> SawLegacy(states, i + 1, c);
  }

  /** The legacy side as it is read at a step. */
  lemma SeenNow(states: seq<State>, i: nat)
    requires i + 1 < |states|
    ensures SawConfig(states, i + 1, ContentAt(states[i].disk, LegacyConfig))
    ensures var db := ContentAt(states[i].disk, LegacyDb); db.Some? ==> SawLegacy(states, i + 1, db.value)
  {
    assert ContentAt(states[i].disk, LegacyConfig) == ContentAt(states[i].disk, LegacyConfig);
  }

  lemma ConfigCallGrounded(states: seq<State>, i: nat, v0: nat, copy: nat, st: ConfigStep, k: nat)
    requires i + 1 < |states| && StepGrounded(states, i + 1, st)
    ensures Grounded(states, i + 1, ConfigCall(states[i], v0, copy, st, k).1)
  {
    SeenNow(states, i);
  }

  lemma CloseCallGrounded(states: seq<State>, i: nat, copy: nat, seen: Option<nat>, st: CloseStep)
    requires i + 1 < |states| && SawConfig(states, i + 1, seen) && CloseGrounded(states, i + 1, st)
    ensures Grounded(states, i + 1, CloseCall(states[i], copy, seen, st).1)
  {
    SeenNow(states, i);
  }

  lemma StageCallGrounded(states: seq<State>, i: nat, v0: nat, st: StageStep, k: nat, rows: nat -> nat)
    requires i + 1 < |states|
    ensures Grounded(states, i + 1, StageCall(states[i], v0, st, k, rows).1)
  {}

  lemma InnerGrounded(states: seq<State>, i: nat, ph: Phase, k: nat, rows: nat -> nat)
    requires i + 1 < |states| && Grounded(states, i + 1, ph) && Working(ph)
    ensures Grounded(states, i + 1, Inner(states[i], ph, k, rows).1)
  {
    match ph
    case InStage(v0, st) => StageCallGrounded(states, i, v0, st, k, rows);
    case InConfig(v0, copy, st) => ConfigCallGrounded(states, i, v0, copy, st, k);
    case InClose(copy, seen, st) => CloseCallGrounded(states, i, copy, seen, st);
  }

  lemma AdvanceGrounded(states: seq<State>, i: nat, ph: Phase, k: nat, rows: nat -> nat)
    requires i + 1 < |states| && Grounded(states, i, ph)
    ensures var m := Advance(states[i], ph, k, rows); m.phase.Some? ==> Grounded(states, i + 1, m.phase.value)
    ensures var m := Advance(states[i], ph, k, rows); m.ghostRecord == states[i].ghostRecord || RecordGrounded(states, i + 1, m.ghostRecord)
  {
    StillGrounded(states, i, ph);
    if Working(ph) { InnerGrounded(states, i, ph, k, rows); }
  }

  lemma RecordStays(states: seq<State>, i: nat, r: Option<Record>)
    requires i + 1 < |states| && RecordGrounded(states, i, r)
    ensures RecordGrounded(states, i + 1, r)
  {
    if r.Some? {
      var j :| 0 <= j <= i && ContentAt(states[j].disk, LegacyDb) == Some(r.value.db);
      var k :| 0 <= k <= i && ContentAt(states[k].disk, LegacyConfig) == r.value.config;
      assert SawLegacy(states, i + 1, r.value.db) && SawConfig(states, i + 1, r.value.config);
    }
  }

  /** A migrator's step, or any other one, seen from one process. */
  lemma ProcGrounded(states: seq<State>, i: nat, e: Event, rows: nat -> nat, p: nat)
    requires i + 1 < |states| && Next(states[i], e, states[i + 1], rows) && p in states[i + 1].procs
    requires p in states[i].procs ==> Grounded(states, i, states[i].procs[p])
    ensures Grounded(states, i + 1, states[i + 1].procs[p])
  {
    if e.Run? && e.p == p { AdvanceGrounded(states, i, states[i].procs[p], e.k, rows); }
    else if p in states[i].procs && states[i + 1].procs[p] == states[i].procs[p] { StillGrounded(states, i, states[i].procs[p]); }
  }

  lemma RecordGroundedStep(states: seq<State>, i: nat, e: Event, rows: nat -> nat)
    requires i + 1 < |states| && Next(states[i], e, states[i + 1], rows) && RecordGrounded(states, i, states[i].ghostRecord)
    requires e.Run? && e.p in states[i].procs ==> Grounded(states, i, states[i].procs[e.p])
    ensures RecordGrounded(states, i + 1, states[i + 1].ghostRecord)
  {
    RecordStays(states, i, states[i].ghostRecord);
    if e.Run? { AdvanceGrounded(states, i, states[i].procs[e.p], e.k, rows); }
  }

  lemma {:induction false} RunGrounded(states: seq<State>, events: seq<Event>, rows: nat -> nat, i: nat)
    requires IsRun(states, events, rows) && i < |states|
    ensures forall p :: p in states[i].procs ==> Grounded(states, i, states[i].procs[p])
    ensures RecordGrounded(states, i, states[i].ghostRecord)
    decreases i
  {
    if i > 0 {
      var n := i - 1;
      RunGrounded(states, events, rows, n);
      GroundedStep(states, n, events[n], rows);
    }
  }

  ghost predicate AllGrounded(states: seq<State>, i: nat)
    requires i < |states|
  {
    forall p :: p in states[i].procs ==> Grounded(states, i, states[i].procs[p])
  }

  lemma GroundedStep(states: seq<State>, i: nat, e: Event, rows: nat -> nat)
    requires i + 1 < |states| && Next(states[i], e, states[i + 1], rows) && RecordGrounded(states, i, states[i].ghostRecord)
    requires AllGrounded(states, i)
    ensures AllGrounded(states, i + 1) && RecordGrounded(states, i + 1, states[i + 1].ghostRecord)
  {
    var t := states[i + 1];
    forall p | p in t.procs ensures Grounded(states, i + 1, t.procs[p]) { ProcGrounded(states, i, e, rows, p); }
    RecordGroundedStep(states, i, e, rows);
  }

  // --- the root --------------------------------------------------------------------------------------------------------

  datatype Root = CurrentRoot | LegacyRoot

  /** The store root: the marker decides, then the legacy database. */
  function ResolveStateRoot(s: State): Root {
    if Now(s.disk, Marker).Some? then CurrentRoot else if Now(s.disk, LegacyDb).Some? then LegacyRoot else CurrentRoot
  }

  /** The current store is whole, durable and what the marker's migrator copied. */
  predicate StoreComplete(s: State) {
    s.ghostRecord.Some? && DbSure(s.disk) && DbReady(s.disk, s.ghostRecord.value.db)
  }

  /** Its config mirrors the legacy one. */
  predicate ConfigMirrors(s: State) {
    s.ghostRecord.Some? && Sure(s.disk, Config) && ConfigReady(s.disk, s.ghostRecord.value.config)
  }

  /**
   In any interleaving of migrators, legacy writers, config edits, crashes and power losses: whenever the marker is
   there, the current database is complete, on disk for good, and equal to the legacy content at the version check
   that preceded the marker; and unless the target config was edited since a migrator dealt with it, it is the legacy
   config that was read. So the root chosen where a legacy store exists is never an absent or partial one.
   */
  lemma MarkerMeansComplete(states: seq<State>, events: seq<Event>, rows: nat -> nat, i: nat)
    requires IsRun(states, events, rows) && i < |states|
    ensures Now(states[i].disk, Marker).Some? ==>
              && StoreComplete(states[i]) && SawLegacy(states, i, states[i].ghostRecord.value.db)
              && SawConfig(states, i, states[i].ghostRecord.value.config)
              && (!states[i].touched ==> ConfigMirrors(states[i]))
    ensures ResolveStateRoot(states[i]) == CurrentRoot && Now(states[i].disk, LegacyDb).Some? ==> StoreComplete(states[i])
  {
    RunInv(states, events, rows, i);
    RunGrounded(states, events, rows, i);
  }

  /** A migrator deals with the config in this step. */
  predicate Settles(s: State, e: Event, t: State) {
    && e.Run? && e.p in s.procs && e.p in t.procs
    && ConfigSettled(t.procs[e.p]) && !ConfigSettled(s.procs[e.p])
  }

  ghost predicate Unsettled(states: seq<State>, events: seq<Event>, j: int, i: nat)
    requires |states| == |events| + 1 && i < |states| && 0 <= j
  {
    forall k :: j < k < i ==> !Settles(states[k], events[k], states[k + 1])
  }

  /** What the flag means: an edit happened, and no migrator dealt with the config after it. */
  ghost predicate EditedSince(states: seq<State>, events: seq<Event>, i: nat)
    requires |states| == |events| + 1 && i < |states|
  {
    exists j :: 0 <= j < i && events[j].EditConfig? && Unsettled(states, events, j, i)
  }

  lemma {:induction false} TouchedMeansEdited(states: seq<State>, events: seq<Event>, rows: nat -> nat, i: nat)
    requires IsRun(states, events, rows) && i < |states| && !states[0].touched
    ensures states[i].touched <==> EditedSince(states, events, i)
    decreases i
  {
    if i > 0 {
      TouchedMeansEdited(states, events, rows, i - 1);
      EditedStep(states, events, i - 1);
      TouchedAfter(states[i - 1], events[i - 1], states[i], rows);
    }
  }

  lemma TouchedAfter(s: State, e: Event, t: State, rows: nat -> nat)
    requires Next(s, e, t, rows)
    ensures t.touched <==> e.EditConfig? || (s.touched && !Settles(s, e, t))
  {
    if e.Run? { TouchedByRun(s, e, t, rows); }
  }

  lemma TouchedByRun(s: State, e: Event, t: State, rows: nat -> nat)
    requires Next(s, e, t, rows) && e.Run?
    ensures t.touched == (s.touched && !Settles(s, e, t))
  {
    var m := Advance(s, s.procs[e.p], e.k, rows);
    assert e.p in t.procs <==> m.phase.Some?;
  }

  lemma EditedStep(states: seq<State>, events: seq<Event>, i: nat)
    requires |states| == |events| + 1 && i < |events|
    ensures EditedSince(states, events, i + 1) <==>
              events[i].EditConfig? || (EditedSince(states, events, i) && !Settles(states[i], events[i], states[i + 1]))
  {
    if events[i].EditConfig? { assert Unsettled(states, events, i, i + 1); }
    if EditedSince(states, events, i) && !Settles(states[i], events[i], states[i + 1]) {
      var j :| 0 <= j < i && events[j].EditConfig? && Unsettled(states, events, j, i);
      assert Unsettled(states, events, j, i + 1);
    }
    if EditedSince(states, events, i + 1) && !events[i].EditConfig? {
      var j :| 0 <= j < i + 1 && events[j].EditConfig? && Unsettled(states, events, j, i + 1);
      assert Unsettled(states, events, j, i);
    }
  }

  /** A migrator has dealt with the config, and holds the lock or has left the marker. */
  ghost predicate SettledState(s: State) {
    Marked(s.disk) || exists p :: p in s.procs && ConfigSettled(s.procs[p])
  }

  lemma SettledBefore(s: State, e: Event, t: State, rows: nat -> nat)
    requires Inv(s) && Next(s, e, t, rows) && !e.PowerLoss? && !Settles(s, e, t) && SettledState(t)
    ensures SettledState(s)
  {
    if !Marked(s.disk) {
      if Marked(t.disk) {
        if !(e.Run? && AtMarker(s.procs[e.p])) { UnmarkedStays(s, e, t, rows); }
      } else {
        var p :| p in t.procs && ConfigSettled(t.procs[p]);
        assert p in s.procs && ConfigSettled(s.procs[p]);
      }
    }
  }

  lemma RunUnmarked(s: State, ph: Phase, k: nat, rows: nat -> nat)
    requires Valid(s.disk) && !Marked(s.disk) && !AtMarker(ph)
    ensures !Marked(Advance(s, ph, k, rows).disk)
  {}

  lemma UnmarkedStays(s: State, e: Event, t: State, rows: nat -> nat)
    requires Inv(s) && Next(s, e, t, rows) && !e.PowerLoss? && !Marked(s.disk)
    requires e.Run? ==> !AtMarker(s.procs[e.p])
    ensures !Marked(t.disk)
  {
    if e.Run? { RunUnmarked(s, s.procs[e.p], e.k, rows); }
    else if !e.Abort? { OthersSpareStore(s, e, t, rows); }
  }

  // --- an edited config ----------------------------------------------------------------------------------------------

  lemma RunKeepsConfig(s: State, ph: Phase, k: nat, rows: nat -> nat)
    requires Valid(s.disk) && PhaseOk(s, ph) && (ConfigSettled(ph) || Marked(s.disk))
    ensures ContentAt(Advance(s, ph, k, rows).disk, Config) == ContentAt(s.disk, Config)
  {
    if Marked(s.disk) { RunAfterMarker(s, ph, k, rows); }
  }

  lemma OthersKeepConfig(s: State, e: Event, t: State, rows: nat -> nat)
    requires Valid(s.disk) && Next(s, e, t, rows) && !e.Run? && !e.EditConfig? && !e.PowerLoss?
    ensures ContentAt(t.disk, Config) == ContentAt(s.disk, Config)
  {}

  /** Once a migrator dealt with it, only an edit changes the config. */
  lemma ConfigStays(s: State, e: Event, t: State, rows: nat -> nat)
    requires Inv(s) && Next(s, e, t, rows) && SettledState(s) && !e.EditConfig? && !e.PowerLoss?
    ensures ContentAt(t.disk, Config) == ContentAt(s.disk, Config)
  {
    if !e.Run? {
      OthersKeepConfig(s, e, t, rows);
    } else if ConfigSettled(s.procs[e.p]) || Marked(s.disk) {
      RunKeepsConfig(s, s.procs[e.p], e.k, rows);
    } else {
      assert s.procs[e.p].Checked?;
    }
  }

  lemma EditedContent(s: State, content: nat)
    requires Valid(s.disk)
    ensures ContentAt(Edited(s, content).disk, Config) == Some(content)
  {}

  /** The last edit since the config was dealt with, with no power loss after it. */
  predicate LastEdit(states: seq<State>, events: seq<Event>, j: nat, i: nat)
    requires |states| == |events| + 1 && i < |states|
  {
    && j < i && events[j].EditConfig?
    && forall k :: j < k < i ==> !events[k].EditConfig? && !events[k].PowerLoss? && !Settles(states[k], events[k], states[k + 1])
  }

  lemma {:induction false} EditShows(states: seq<State>, events: seq<Event>, rows: nat -> nat, j: nat, i: nat)
    requires IsRun(states, events, rows) && i < |states| && LastEdit(states, events, j, i) && SettledState(states[i])
    ensures ContentAt(states[i].disk, Config) == Some(events[j].content)
    decreases i
  {
    var n := i - 1;
    RunInv(states, events, rows, n);
    assert Next(states[n], events[n], states[n + 1], rows);
    if j == n {
      EditedContent(states[n], events[n].content);
    } else {
      SettledBefore(states[n], events[n], states[i], rows);
      EditShows(states, events, rows, j, n);
      ConfigStays(states[n], events[n], states[i], rows);
    }
  }

  /** A config edited behind the marker's back mirrors the legacy one exactly when the last edit wrote what was read there. */
  lemma EditedMirrorsIff(states: seq<State>, events: seq<Event>, rows: nat -> nat, i: nat, j: nat)
    requires IsRun(states, events, rows) && i < |states| && Now(states[i].disk, Marker).Some? && LastEdit(states, events, j, i)
    ensures states[i].ghostRecord.Some?
    ensures ContentAt(states[i].disk, Config) == states[i].ghostRecord.value.config <==>
              states[i].ghostRecord.value.config == Some(events[j].content)
  {
    RunInv(states, events, rows, i);
    assert Marked(states[i].disk);
    EditShows(states, events, rows, j, i);
  }

  /** The legacy store is what its own writers last made it. */
  function LastCommit(start: Option<nat>, events: seq<Event>): Option<nat> {
    if events == [] then start
    else
      var e := events[|events| - 1];
      if e.LegacyCommit? then Some(e.content) else LastCommit(start, events[..|events| - 1])
  }

  function LastConfig(start: Option<nat>, events: seq<Event>): Option<nat> {
    if events == [] then start
    else
      var e := events[|events| - 1];
      if e.EditLegacyConfig? then e.config else LastConfig(start, events[..|events| - 1])
  }

  lemma LegacyAfter(s: State, e: Event, t: State, rows: nat -> nat)
    requires Next(s, e, t, rows)
    ensures t.legacy == (if e.LegacyCommit? then Some(e.content) else s.legacy)
    ensures t.legacyConfig == (if e.EditLegacyConfig? then e.config else s.legacyConfig)
  {}

  lemma {:induction false} LegacyIsLast(states: seq<State>, events: seq<Event>, rows: nat -> nat, i: nat)
    requires IsRun(states, events, rows) && i < |states|
    ensures states[i].legacy == LastCommit(states[0].legacy, events[..i])
    ensures states[i].legacyConfig == LastConfig(states[0].legacyConfig, events[..i])
    decreases i
  {
    if i > 0 {
      LegacyIsLast(states, events, rows, i - 1);
      LegacyAfter(states[i - 1], events[i - 1], states[i], rows);
      assert events[..i][..i - 1] == events[..i - 1] && events[..i][i - 1] == events[i - 1];
    }
  }

  lemma LegacyOnDisk(s: State)
    requires LegacyOk(s)
    ensures ContentAt(s.disk, LegacyDb) == s.legacy && ContentAt(s.disk, LegacyConfig) == s.legacyConfig
  {}

  /** No migrator, however it ends, and no power loss changes the legacy database or config on the disk. */
  lemma LegacyUntouched(states: seq<State>, events: seq<Event>, rows: nat -> nat, i: nat)
    requires IsRun(states, events, rows) && i < |states|
    ensures ContentAt(states[i].disk, LegacyDb) == LastCommit(ContentAt(states[0].disk, LegacyDb), events[..i])
    ensures ContentAt(states[i].disk, LegacyConfig) == LastConfig(ContentAt(states[0].disk, LegacyConfig), events[..i])
  {
    RunInv(states, events, rows, i);
    LegacyOnDisk(states[0]);
    LegacyOnDisk(states[i]);
    LegacyIsLast(states, events, rows, i);
  }

  /**
   Databases and configs found in the target before the migration, and configs edited there at any time, are the user's:
   up to a power loss each is still under some name, with its content.
   */
  lemma ForksAreKept(states: seq<State>, events: seq<Event>, rows: nat -> nat, i: nat, id: nat)
    requires IsRun(states, events, rows) && i < |states| && id in states[i].owned
    ensures exists n :: n in states[i].disk.entries && states[i].disk.entries[n].now == Some(id)
    ensures id in states[i].disk.inodes && states[i].disk.inodes[id].content == states[i].owned[id]
  {
    RunInv(states, events, rows, i);
  }

  /** A rename over the config, on a file system without hard links, of a migrator that found the way clear before. */
  predicate RenamesOver(s: State, e: Event, id: nat) {
    && !s.links && e.Run? && e.p in s.procs && s.procs[e.p].InConfig? && s.procs[e.p].step.ConfigClear?
    && Now(s.disk, Config) == Some(id)
  }

  /** The user loses a file exactly by replacing it, by a power loss, or by such a rename over a config just edited. */
  lemma ForkLostIff(s: State, e: Event, t: State, rows: nat -> nat, id: nat)
    requires Inv(s) && Next(s, e, t, rows) && id in s.owned
    ensures id !in t.owned <==> e.PowerLoss? || (e.EditConfig? && Now(s.disk, Config) == Some(id)) || RenamesOver(s, e, id)
    ensures id in t.owned ==> t.owned[id] == s.owned[id]
  {
    if e.Run? { assert PhaseOk(s, s.procs[e.p]); }
  }

  /** Such a loss: an edit that falls between the look and the rename is gone from the disk. */
  lemma EditRenamedOver(s: State, p: nat, content: nat, k: nat, rows: nat -> nat)
    requires Inv(s) && LegacyOk(s) && p in s.procs && s.procs[p].InConfig? && s.procs[p].step.ConfigClear?
    ensures var u := Edited(s, content);
            var t := After(u, p, Advance(u, u.procs[p], k, rows));
            Next(s, EditConfig(content), u, rows) && Next(u, Run(p, k), t, rows) && s.disk.next in u.owned && !Named(t.disk, s.disk.next)
  {
    var id, step := s.disk.next, s.procs[p].step;
    assert PhaseOk(s, s.procs[p]) && HasTemp(s, step.id);
    FreshIsOnlyConfig(s, content);
    GoneAfterRename(Edited(s, content).disk, Temp(step.id), id);
  }

  lemma FreshIsOnlyConfig(s: State, content: nat)
    requires Valid(s.disk)
    ensures forall n :: n in Edited(s, content).disk.entries && n != Config ==> Edited(s, content).disk.entries[n].now != Some(s.disk.next)
  {}

  lemma GoneAfterRename(d: Disk, from: Name, id: nat)
    requires from != Config && from in d.entries && forall n :: n in d.entries && n != Config ==> d.entries[n].now != Some(id)
    ensures !Named(Rename(d, from, Config), id)
  {}

  // --- after the marker -------------------------------------------------------------------------------------------------

  /** With the marker there a migrator makes, keeps or drops the lock, or syncs the directory after its own marker. */
  lemma RunAfterMarker(s: State, ph: Phase, k: nat, rows: nat -> nat)
    requires Marked(s.disk) && PhaseOk(s, ph)
    ensures !Working(ph) && !AtMarker(ph) && Advance(s, ph, k, rows).ghostRecord == s.ghostRecord
    ensures forall n :: n != Lock ==> Now(Advance(s, ph, k, rows).disk, n) == Now(s.disk, n)
  {}

  lemma AbortAfterMarker(s: State, ph: Phase)
    requires Marked(s.disk) && PhaseOk(s, ph)
    ensures Litter(ph).None?
  {}

  /** Marker, database and what the marker vouches for are the same, and the config is, unless it was edited. */
  predicate SameAuthority(s: State, e: Event, t: State) {
    && t.ghostRecord == s.ghostRecord && Now(t.disk, Marker) == Now(s.disk, Marker)
    && (!e.EditConfig? ==> Now(t.disk, Config) == Now(s.disk, Config))
  }

  ghost predicate SameDb(s: State, t: State) {
    forall i :: Now(t.disk, Db(i)) == Now(s.disk, Db(i))
  }

  lemma RunKeepsAuthority(s: State, e: Event, t: State, rows: nat -> nat)
    requires Marked(s.disk) && e.Run? && Next(s, e, t, rows) && PhaseOk(s, s.procs[e.p])
    ensures SameAuthority(s, e, t) && SameDb(s, t)
  {
    RunAfterMarker(s, s.procs[e.p], e.k, rows);
  }

  lemma AbortKeepsAuthority(s: State, e: Event, t: State, rows: nat -> nat)
    requires Marked(s.disk) && e.Abort? && Next(s, e, t, rows) && PhaseOk(s, s.procs[e.p])
    ensures SameAuthority(s, e, t) && SameDb(s, t)
  {
    AbortAfterMarker(s, s.procs[e.p]);
  }

  lemma OthersKeepAuthority(s: State, e: Event, t: State, rows: nat -> nat)
    requires Next(s, e, t, rows) && !e.Run? && !e.Abort? && !e.PowerLoss?
    ensures SameAuthority(s, e, t) && SameDb(s, t)
  {
    OthersSpareStore(s, e, t, rows);
  }

  lemma ActsInPhase(s: State, e: Event, t: State, rows: nat -> nat)
    requires Inv(s) && Next(s, e, t, rows) && (e.Run? || e.Abort?)
    ensures e.p in s.procs && PhaseOk(s, s.procs[e.p])
  {}

  /** Once the marker is there, no later run, crash or edit changes it or the database, and only an edit the config. */
  lemma AuthorityStays(s: State, e: Event, t: State, rows: nat -> nat)
    requires Inv(s) && Next(s, e, t, rows) && Now(s.disk, Marker).Some? && !e.PowerLoss?
    ensures SameAuthority(s, e, t) && SameDb(s, t)
  {
    assert Marked(s.disk);
    if e.Run? || e.Abort? { ActsInPhase(s, e, t, rows); }
    if e.Run? { RunKeepsAuthority(s, e, t, rows); }
    else if e.Abort? { AbortKeepsAuthority(s, e, t, rows); }
    else { OthersKeepAuthority(s, e, t, rows); }
  }

  lemma OthersSpareStore(s: State, e: Event, t: State, rows: nat -> nat)
    requires Next(s, e, t, rows) && !e.Run? && !e.Abort? && !e.PowerLoss?
    ensures t.ghostRecord == s.ghostRecord
    ensures forall n :: n != Lock && !IsLegacy(n) && (e.EditConfig? ==> n != Config) ==> Look(t.disk, n) == Look(s.disk, n)
  {}

  /** A power loss right after the marker's rename may hide the marker, never the database behind it, nor an unedited config. */
  lemma PowerLossKeepsStore(s: State, after: Disk)
    requires Inv(s) && Marked(s.disk) && AfterPowerLoss(s.disk, after)
    ensures DbReady(after, s.ghostRecord.value.db) && DbSure(after)
    ensures !s.touched ==> ConfigReady(after, s.ghostRecord.value.config) && Sure(after, Config)
  {
    SureSurvives(s.disk, after, Db(0));
    SureSurvives(s.disk, after, Db(1));
    SureSurvives(s.disk, after, Db(2));
    if !s.touched { SureSurvives(s.disk, after, Config); }
  }

  /** The marker is on the disk for good. */
  predicate MarkerSure(s: State) {
    Holds(s.disk, Marker, 0) && Sure(s.disk, Marker)
  }

  lemma SureAfterRun(s: State, ph: Phase, k: nat, rows: nat -> nat)
    requires Valid(s.disk) && Marked(s.disk) && PhaseOk(s, ph) && MarkerSure(s)
    ensures MarkerSure(s.(disk := Advance(s, ph, k, rows).disk))
  {
    RunAfterMarker(s, ph, k, rows);
  }

  lemma MarkerSureStays(s: State, e: Event, t: State, rows: nat -> nat)
    requires Inv(s) && Next(s, e, t, rows) && MarkerSure(s)
    ensures MarkerSure(t)
  {
    assert Marked(s.disk);
    if e.PowerLoss? { SureSurvives(s.disk, e.after, Marker); }
    if e.Run? { SureAfterRun(s, s.procs[e.p], e.k, rows); }
    if e.Abort? { AbortAfterMarker(s, s.procs[e.p]); }
  }

  /** A run that finished, with its last directory sync done, is final: no power loss or later run takes its marker away. */
  lemma {:induction false} FinishedIsFinal(states: seq<State>, events: seq<Event>, rows: nat -> nat, i: nat, j: nat)
    requires IsRun(states, events, rows) && i < j < |states|
    requires events[i].Run? && events[i].p in states[i].procs && states[i].procs[events[i].p].MarkerRenamed?
    ensures MarkerSure(states[j]) && ResolveStateRoot(states[j]) == CurrentRoot && StoreComplete(states[j])
    decreases j
  {
    RunInv(states, events, rows, j - 1);
    assert Next(states[j - 1], events[j - 1], states[j], rows);
    if i == j - 1 {
      assert PhaseOk(states[i], states[i].procs[events[i].p]);
    } else {
      FinishedIsFinal(states, events, rows, i, j - 1);
      MarkerSureStays(states[j - 1], events[j - 1], states[j], rows);
    }
    MarkerMeansComplete(states, events, rows, j);
  }
}
