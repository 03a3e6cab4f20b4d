/** Runs of the migration that exist: a migrator left alone finishes, and a config edited late stays edited. */
module MigrationRuns {
  import opened Rows
  import opened Directory
  import opened Migration
  import opened MigrationHistory

  // --- a migrator left alone ------------------------------------------------------------------------------------

  function StageRank(st: StageStep): nat {
    match st
    case Guarded => 8
    case Aside(_, i) => if i <= 3 then 7 - i else 4
    case Staging(_) => 3
    case Staged(_, _) => 2
    case Verified(_, _) => 1
    case StageSynced(_, _) => 0
  }

  function ConfigRank(st: ConfigStep): nat {
    match st
    case DbPublished => 7
    case ConfigAside(_) => 6
    case ConfigRaced(_) => 5
    case ConfigMoved(_) => 4
    case ConfigCopy => 3
    case ConfigTemp(_, _) => 2
    case ConfigTempSynced(_, _) => 1
    case _ => 0
  }

  function CloseRank(st: CloseStep): nat {
    match st
    case ConfigDone(_) => 4
    case DirSynced(_) => 3
    case VersionOk(_) => 2
    case MarkerTemp(_, _) => 1
    case MarkerTempSynced(_, _) => 0
  }

  /** Steps left before the marker's rename, at most. */
  function Rank(ph: Phase): nat {
    match ph
    case Checked => 24
    case Locked => 23
    case Rechecked => 22
    case InStage(_, st) => 13 + StageRank(st)
    case InConfig(_, _, st) => 5 + ConfigRank(st)
    case InClose(_, _, st) => CloseRank(st)
    case _ => 0
  }

  predicate ConfigExpects(s: State, st: ConfigStep) {
    match st
    case ConfigAside(replace) => Now(s.disk, Config).Some? && (replace ==> s.legacyConfig.Some?)
    case ConfigRaced(_) => s.legacyConfig.Some? && Now(s.disk, Config).Some?
    case ConfigMoved(_) => s.legacyConfig.Some? && Now(s.disk, Config).None?
    case ConfigCopy => s.legacyConfig.Some? && Now(s.disk, Config).None?
    case ConfigTemp(_, _) => s.legacyConfig.Some? && Now(s.disk, Config).None?
    case ConfigTempSynced(_, _) => s.legacyConfig.Some? && Now(s.disk, Config).None?
    case ConfigIdentical(_) => Now(s.disk, Config).Some?
    case _ => true
  }

  /** Nobody else has the lock or the marker, and the target and legacy configs are as the phase expects them. */
  predicate Expects(s: State, ph: Phase) {
    match ph
    case Checked => Now(s.disk, Lock).None? && Now(s.disk, Marker).None?
    case Locked => Now(s.disk, Marker).None?
    case InConfig(_, _, st) => ConfigExpects(s, st)
    case MarkerRenamed => false
    case Releasing => false
    case _ => true
  }

  /** The legacy store has not changed since the guard. */
  predicate SameVersion(s: State, ph: Phase) {
    match ph
    case InStage(v0, _) => v0 == s.version
    case InConfig(v0, _, _) => v0 == s.version
    case InClose(_, _, st) => (st.ConfigDone? || st.DirSynced?) ==> st.v == s.version
    case _ => true
  }

  ghost predicate OnTrack(s: State, p: nat) {
    && Inv(s) && LegacyOk(s) && s.legacy.Some? && p in s.procs
    && Expects(s, s.procs[p]) && SameVersion(s, s.procs[p])
  }

  /** The numbers of the backup names in use. */
  function BackupNumbers(d: Disk): (numbers: set<nat>)
    ensures forall n :: n in d.entries && (n.DbBackup? || n.ConfigBackup?) ==> n.k in numbers
  {
    set n | n in d.entries && (n.DbBackup? || n.ConfigBackup?) :: n.k
  }

  lemma {:induction false} Unused(numbers: set<nat>) returns (k: nat)
    ensures forall n :: n in numbers ==> n < k
  {
    if numbers == {} {
      k := 0;
    } else {
      var n :| n in numbers;
      var rest := Unused(numbers - {n});
      k := if n < rest then rest else n + 1;
      forall m | m in numbers ensures m < k { if m != n { assert m in numbers - {n}; } }
    }
  }

  lemma FreeNames(d: Disk) returns (k: nat)
    ensures FreeBackup(d, k) && Now(d, ConfigBackup(k)).None?
  {
    k := Unused(BackupNumbers(d));
  }

  function Step(s: State, p: nat, k: nat, rows: nat -> nat): State
    requires p in s.procs
  {
    After(s, p, Advance(s, s.procs[p], k, rows))
  }

  /** One step nearer to the marker. */
  ghost predicate Nearer(s: State, ph: Phase, m: Called) {
    && m.phase.Some? && Rank(m.phase.value) < Rank(ph)
    && Expects(s.(disk := m.disk), m.phase.value) && SameVersion(s, m.phase.value)
  }

  lemma StageNearer(s: State, ph: Phase, k: nat, rows: nat -> nat)
    requires PhaseOk(s, ph) && s.legacy.Some? && ContentAt(s.disk, LegacyDb) == s.legacy && ph.InStage? && SameVersion(s, ph)
    requires FreeBackup(s.disk, k)
    ensures Nearer(s, ph, Advance(s, ph, k, rows))
  {}

  lemma ConfigNearer(s: State, ph: Phase, k: nat, rows: nat -> nat)
    requires PhaseOk(s, ph) && ContentAt(s.disk, LegacyConfig) == s.legacyConfig && ph.InConfig? && SameVersion(s, ph) && Expects(s, ph)
    requires Now(s.disk, ConfigBackup(k)).None?
    ensures Nearer(s, ph, Advance(s, ph, k, rows))
  {}

  lemma OtherNearer(s: State, ph: Phase, k: nat, rows: nat -> nat)
    requires Valid(s.disk) && PhaseOk(s, ph) && s.legacy.Some? && ContentAt(s.disk, LegacyDb) == s.legacy
    requires Expects(s, ph) && SameVersion(s, ph) && !ph.InStage? && !ph.InConfig? && Rank(ph) > 0
    ensures Nearer(s, ph, Advance(s, ph, k, rows))
  {}

  lemma StepOnTrack(s: State, p: nat, rows: nat -> nat) returns (k: nat)
    requires OnTrack(s, p) && Rank(s.procs[p]) > 0
    ensures OnTrack(Step(s, p, k, rows), p) && Rank(Step(s, p, k, rows).procs[p]) < Rank(s.procs[p])
  {
    k := FreeNames(s.disk);
    var ph := s.procs[p];
    LegacyOnDisk(s);
    if ph.InStage? { StageNearer(s, ph, k, rows); }
    else if ph.InConfig? { ConfigNearer(s, ph, k, rows); }
    else { OtherNearer(s, ph, k, rows); }
    StepKeepsInv(s, Run(p, k), Step(s, p, k, rows), rows);
    StepSparesLegacy(s, Run(p, k), Step(s, p, k, rows), rows);
    StaysOnTrack(s, p, Advance(s, ph, k, rows));
  }

  lemma StaysOnTrack(s: State, p: nat, m: Called)
    requires OnTrack(s, p) && Nearer(s, s.procs[p], m) && Inv(After(s, p, m)) && LegacyOk(After(s, p, m))
    ensures OnTrack(After(s, p, m), p)
  {}

  /** Consecutive states of the system. */
  ghost predicate Follows(states: seq<State>, events: seq<Event>, rows: nat -> nat) {
    |states| == |events| + 1 && forall i :: 0 <= i < |events| ==> Next(states[i], events[i], states[i + 1], rows)
  }

  lemma Prepended(s: State, e: Event, states: seq<State>, events: seq<Event>, rows: nat -> nat)
    requires Follows(states, events, rows) && Next(s, e, states[0], rows)
    ensures Follows([s] + states, [e] + events, rows)
  {
    var all, es := [s] + states, [e] + events;
    forall i | 0 <= i < |es| ensures Next(all[i], es[i], all[i + 1], rows) {
      if i > 0 { assert all[i] == states[i - 1] && es[i] == events[i - 1] && all[i + 1] == states[i]; }
    }
  }

  lemma Appended(states: seq<State>, events: seq<Event>, e: Event, t: State, rows: nat -> nat)
    requires Follows(states, events, rows) && Next(states[|states| - 1], e, t, rows)
    ensures Follows(states + [t], events + [e], rows)
  {
    var all, es := states + [t], events + [e];
    forall i | 0 <= i < |es| ensures Next(all[i], es[i], all[i + 1], rows) {
      if i < |events| { assert all[i] == states[i] && all[i + 1] == states[i + 1] && es[i] == events[i]; }
    }
  }

  /** Only this migrator moves. */
  predicate Alone(events: seq<Event>, p: nat) {
    forall i :: 0 <= i < |events| ==> events[i].Run? && events[i].p == p
  }

  /**
   A migrator left alone, at any point before its marker and whatever it finds in the target, gets to the marker's
   rename: nothing in the protocol blocks it.
   */
  lemma {:induction false} LeftAloneFinishes(s: State, p: nat, rows: nat -> nat) returns (states: seq<State>, events: seq<Event>)
    requires OnTrack(s, p)
    ensures Follows(states, events, rows) && Alone(events, p) && states[0] == s
    ensures var last := states[|states| - 1]; OnTrack(last, p) && AtMarker(last.procs[p])
    decreases Rank(s.procs[p])
  {
    if Rank(s.procs[p]) == 0 {
      states, events := [s], [];
    } else {
      var k := StepOnTrack(s, p, rows);
      var rest, es := LeftAloneFinishes(Step(s, p, k, rows), p, rows);
      Prepended(s, Run(p, k), rest, es, rows);
      states, events := [s] + rest, [Run(p, k)] + es;
      assert states[|states| - 1] == rest[|rest| - 1];
    }
  }

  // --- a late edit ---------------------------------------------------------------------------------------------------

  /** A home with a legacy database and nothing else. */
  function FreshHome(db: nat): State {
    State(true, Some(db), 0, None, Disk(map[LegacyDb := Entry(Some(0), {Some(0)})], map[0 := Data(Some(db), true)], 1), map[], None, false, map[])
  }

  lemma FreshHomeReady(db: nat, p: nat)
    ensures Init(FreshHome(db)) && OnTrack(FreshHome(db).(procs := map[p := Checked]), p)
  {
    var s := FreshHome(db);
    assert forall n :: n != LegacyDb ==> Look(s.disk, n) == Entry(None, {None});
    assert Valid(s.disk) && !Marked(s.disk) && LegacyOk(s);
    assert Inv(s.(procs := map[p := Checked]));
  }

  lemma MarkDespiteEdit(s: State, p: nat, content: nat, rows: nat -> nat)
    requires Inv(s) && LegacyOk(s) && p in s.procs && AtMarker(s.procs[p]) && s.procs[p].seen != Some(content)
    requires ContentAt(s.disk, Config) == Some(content)
    ensures var t := Step(s, p, 0, rows);
            && Now(t.disk, Marker).Some? && StoreComplete(t) && t.ghostRecord == Some(Record(s.procs[p].close.legacy, s.procs[p].seen))
            && ContentAt(t.disk, Config) == Some(content) && !ConfigMirrors(t)
  {
    StepKeepsInv(s, Run(p, 0), Step(s, p, 0, rows), rows);
    MarkLooks(s, p, rows);
    MarkedComplete(Step(s, p, 0, rows));
  }

  lemma MarkLooks(s: State, p: nat, rows: nat -> nat)
    requires Inv(s) && p in s.procs && AtMarker(s.procs[p])
    ensures var t := Step(s, p, 0, rows);
            && Now(t.disk, Marker).Some? && t.ghostRecord == Some(Record(s.procs[p].close.legacy, s.procs[p].seen))
            && Now(t.disk, Config) == Now(s.disk, Config) && t.disk.inodes == s.disk.inodes
  {
    assert PhaseOk(s, s.procs[p]);
  }

  lemma MarkedComplete(t: State)
    requires Inv(t) && Now(t.disk, Marker).Some?
    ensures StoreComplete(t)
  {
    assert Marked(t.disk);
  }

  /** Up to the marker's rename: a home with only a legacy store, and one migrator. */
  lemma SoonMarked(db: nat, p: nat, rows: nat -> nat) returns (states: seq<State>, events: seq<Event>)
    ensures IsRun(states, events, rows)
    ensures var last := states[|states| - 1];
            p in last.procs && AtMarker(last.procs[p]) && last.procs[p].seen.None? && last.procs[p].close.legacy == db
  {
    var home := FreshHome(db);
    FreshHomeReady(db, p);
    var started := home.(procs := map[p := Checked]);
    var before, es := LeftAloneFinishes(started, p, rows);
    assert home.procs[p := Checked] == map[p := Checked];
    assert Next(home, Start(p), started, rows);
    Prepended(home, Start(p), before, es, rows);
    states, events := [home] + before, [Start(p)] + es;
    assert events[1..] == es && states[|states| - 1] == before[|before| - 1];
    AloneSeesNone(states, events, db, p, rows, |states| - 1);
  }

  /**
   Why the config half has its condition: a whole run, from a home with only a legacy store, in which the user creates a
   target config just before the marker. The marker comes with a complete database and that config, not the legacy one.
   */
  lemma LateEditStays(db: nat, content: nat, rows: nat -> nat) returns (states: seq<State>, events: seq<Event>)
    ensures IsRun(states, events, rows)
    ensures var last := states[|states| - 1];
            && Now(last.disk, Marker).Some? && StoreComplete(last) && last.ghostRecord == Some(Record(db, None))
            && ContentAt(last.disk, Config) == Some(content) && !ConfigMirrors(last)
  {
    var p, before, es := 0, [], [];
    before, es := SoonMarked(db, p, rows);
    var s := before[|before| - 1];
    RunInv(before, es, rows, |before| - 1);
    states, events := EditThenMark(before, es, s, p, content, rows);
  }

  lemma EditThenMark(before: seq<State>, es: seq<Event>, s: State, p: nat, content: nat, rows: nat -> nat)
    returns (states: seq<State>, events: seq<Event>)
    requires IsRun(before, es, rows) && s == before[|before| - 1] && Inv(s) && LegacyOk(s)
    requires p in s.procs && AtMarker(s.procs[p]) && s.procs[p].seen.None?
    ensures IsRun(states, events, rows)
    ensures var last := states[|states| - 1];
            && Now(last.disk, Marker).Some? && StoreComplete(last) && last.ghostRecord == Some(Record(s.procs[p].close.legacy, None))
            && ContentAt(last.disk, Config) == Some(content) && !ConfigMirrors(last)
  {
    var edited := Edited(s, content);
    EditedContent(s, content);
    StepKeepsInv(s, EditConfig(content), edited, rows);
    StepSparesLegacy(s, EditConfig(content), edited, rows);
    MarkDespiteEdit(edited, p, content, rows);
    TwoMore(before, es, EditConfig(content), edited, Run(p, 0), Step(edited, p, 0, rows), rows);
    states, events := before + [edited] + [Step(edited, p, 0, rows)], es + [EditConfig(content)] + [Run(p, 0)];
  }

  lemma TwoMore(states: seq<State>, events: seq<Event>, e: Event, t: State, f: Event, u: State, rows: nat -> nat)
    requires IsRun(states, events, rows) && Next(states[|states| - 1], e, t, rows) && Next(t, f, u, rows)
    ensures IsRun(states + [t] + [u], events + [e] + [f], rows)
  {
    Appended(states, events, e, t, rows);
    Appended(states + [t], events + [e], f, u, rows);
    assert (states + [t] + [u])[0] == states[0];
  }

  /** With nobody else around the legacy files stay as they were, so the run saw no config. */
  lemma {:induction false} AloneSeesNone(states: seq<State>, events: seq<Event>, db: nat, p: nat, rows: nat -> nat, i: nat)
    requires Follows(states, events, rows) && states[0] == FreshHome(db) && i < |states|
    requires events != [] && events[0] == Start(p) && Alone(events[1..], p)
    ensures states[i].legacy == Some(db) && states[i].legacyConfig.None?
    ensures p in states[i].procs && AtMarker(states[i].procs[p]) ==>
              states[i].procs[p].seen.None? && states[i].procs[p].close.legacy == db
  {
    FreshHomeReady(db, p);
    assert IsRun(states, events, rows);
    NoOthers(states, events, db, p, rows, i);
    if p in states[i].procs && AtMarker(states[i].procs[p]) {
      RunGrounded(states, events, rows, i);
      assert Grounded(states, i, states[i].procs[p]);
      var j :| 0 <= j <= i && ContentAt(states[j].disk, LegacyConfig) == states[i].procs[p].seen;
      NoOthers(states, events, db, p, rows, j);
      RunInv(states, events, rows, j);
      var k :| 0 <= k <= i && ContentAt(states[k].disk, LegacyDb) == Some(states[i].procs[p].close.legacy);
      NoOthers(states, events, db, p, rows, k);
      RunInv(states, events, rows, k);
    }
  }

  lemma {:induction false} NoOthers(states: seq<State>, events: seq<Event>, db: nat, p: nat, rows: nat -> nat, i: nat)
    requires IsRun(states, events, rows) && states[0] == FreshHome(db) && i < |states|
    requires events != [] && events[0] == Start(p) && Alone(events[1..], p)
    ensures states[i].legacy == Some(db) && states[i].legacyConfig.None?
    decreases i
  {
    if i > 0 {
      NoOthers(states, events, db, p, rows, i - 1);
      assert Next(states[i - 1], events[i - 1], states[i], rows);
      if i > 1 { assert events[1..][i - 2] == events[i - 1]; }
    }
  }
}
