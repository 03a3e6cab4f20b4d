/**
 The two store directories and their files, with what a power loss may leave of them.

 A name's entry is what processes see now, plus everything the disk may show after a power loss; a directory
 fsync leaves only the former. A file's bytes are certain once the file itself was synced.
 */
module Directory {
  import opened Rows

  datatype Name =
    | Db(suffix: nat)
    | Config
    | LegacyDb
    | LegacyConfig
    | Marker
    | Lock
    | Stage(id: nat)
    | Temp(id: nat)
    | DbBackup(k: nat, suffix: nat)
    | ConfigBackup(k: nat)

  /** No content stands for a partly written file. */
  datatype Data = Data(content: Option<nat>, synced: bool)

  datatype Entry = Entry(now: Option<nat>, maybe: set<Option<nat>>)

  datatype Disk = Disk(entries: map<Name, Entry>, inodes: map<nat, Data>, next: nat)

  function Look(d: Disk, n: Name): Entry {
    if n in d.entries then d.entries[n] else Entry(None, {None})
  }

  function Now(d: Disk, n: Name): Option<nat> {
    Look(d, n).now
  }

  /** Point a name at a file, or at nothing. */
  function Set(d: Disk, n: Name, x: Option<nat>): Disk {
    d.(entries := d.entries[n := Entry(x, Look(d, n).maybe + {x})])
  }

  /** A new file under a name. */
  function Create(d: Disk, n: Name, content: Option<nat>): Disk {
    Set(d.(inodes := d.inodes[d.next := Data(content, false)], next := d.next + 1), n, Some(d.next))
  }

  /** An atomic rename onto another name. */
  function Rename(d: Disk, from: Name, to: Name): Disk {
    Set(Set(d, to, Now(d, from)), from, None)
  }

  function Write(d: Disk, id: nat, content: nat): Disk {
    d.(inodes := d.inodes[id := Data(Some(content), false)])
  }

  function SyncFile(d: Disk, id: nat): Disk {
    if id in d.inodes then d.(inodes := d.inodes[id := d.inodes[id].(synced := true)]) else d
  }

  /** A file replaced for good, as a database commits and as a careful editor saves. */
  function Replace(d: Disk, n: Name, content: Option<nat>): Disk {
    if content.None? then d.(entries := d.entries[n := Entry(None, {None})])
    else
      d.(entries := d.entries[n := Entry(Some(d.next), {Some(d.next)})],
         inodes := d.inodes[d.next := Data(content, true)], next := d.next + 1)
  }

  function SyncDir(d: Disk): Disk {
    d.(entries := map n | n in d.entries :: Entry(d.entries[n].now, {d.entries[n].now}))
  }

  /** A disk a power loss may leave: some possible entry for every name, any bytes for what was not synced. */
  predicate AfterPowerLoss(d: Disk, after: Disk) {
    && after.next == d.next && after.inodes.Keys == d.inodes.Keys && after.entries.Keys == d.entries.Keys
    && (forall n :: n in d.entries ==> after.entries[n].now in d.entries[n].maybe && after.entries[n].maybe == {after.entries[n].now})
    && (forall id :: id in d.inodes ==> after.inodes[id].synced && (d.inodes[id].synced ==> after.inodes[id] == d.inodes[id]))
  }

  /** Files exist for all entries, and the next number is unused. */
  ghost predicate Valid(d: Disk) {
    && (forall n :: n in d.entries ==> d.entries[n].now in d.entries[n].maybe)
    && (forall n, id :: n in d.entries && Some(id) in d.entries[n].maybe ==> id in d.inodes)
    && (forall id :: id in d.inodes ==> id < d.next)
    && (forall id: nat :: Stage(id) in d.entries || Temp(id) in d.entries ==> id < d.next)
  }

  /** The name shows a completely written, synced file with this content. */
  predicate Holds(d: Disk, n: Name, content: nat) {
    var x := Now(d, n);
    x.Some? && x.value in d.inodes && d.inodes[x.value] == Data(Some(content), true)
  }

  /** Nothing but the present entry can survive. */
  predicate Sure(d: Disk, n: Name) {
    Look(d, n).maybe == {Now(d, n)}
  }

  function ContentAt(d: Disk, n: Name): Option<nat> {
    var x := Now(d, n);
    if x.Some? && x.value in d.inodes then d.inodes[x.value].content else None
  }

  predicate Possible(d: Disk, n: Name) {
    exists x :: x in Look(d, n).maybe && x.Some?
  }

  /** A sure name with a synced file survives any power loss as it is. */
  lemma SureSurvives(d: Disk, after: Disk, n: Name)
    requires Valid(d) && AfterPowerLoss(d, after) && Sure(d, n)
    ensures Now(after, n) == Now(d, n) && Sure(after, n)
    ensures forall c :: Holds(d, n, c) ==> Holds(after, n, c)
  {}

  lemma PowerLossValid(d: Disk, after: Disk)
    requires Valid(d) && AfterPowerLoss(d, after)
    ensures Valid(after)
  {
    forall n, id | n in after.entries && Some(id) in after.entries[n].maybe ensures id in after.inodes {
      assert after.entries[n].maybe == {after.entries[n].now};
      assert Some(id) in d.entries[n].maybe;
    }
  }

  // --- what each operation keeps ---------------------------------------------------------------------------

  lemma SetValid(d: Disk, n: Name, x: Option<nat>)
    requires Valid(d) && (x.Some? ==> x.value in d.inodes)
    requires (n.Stage? || n.Temp?) ==> n.id < d.next
    ensures Valid(Set(d, n, x))
  {
    var e := Set(d, n, x);
    forall m, id | m in e.entries && Some(id) in e.entries[m].maybe ensures id in e.inodes {
      if m == n { assert Some(id) in Look(d, n).maybe || x == Some(id); }
    }
  }

  lemma CreateValid(d: Disk, n: Name, content: Option<nat>)
    requires Valid(d) && ((n.Stage? || n.Temp?) ==> n.id <= d.next)
    ensures Valid(Create(d, n, content)) && d.next !in d.inodes
  {
    var grown := d.(inodes := d.inodes[d.next := Data(content, false)], next := d.next + 1);
    assert Valid(grown);
    SetValid(grown, n, Some(d.next));
  }

  lemma RenameValid(d: Disk, from: Name, to: Name)
    requires Valid(d) && Now(d, from).Some? && !to.Stage? && !to.Temp? && from != to
    ensures Valid(Rename(d, from, to))
  {
    SetValid(d, to, Now(d, from));
    SetValid(Set(d, to, Now(d, from)), from, None);
  }

  lemma ReplaceValid(d: Disk, n: Name, content: Option<nat>)
    requires Valid(d) && !n.Stage? && !n.Temp?
    ensures Valid(Replace(d, n, content)) && d.next !in d.inodes
    ensures forall m :: m != n ==> Look(Replace(d, n, content), m) == Look(d, m)
    ensures forall id :: id in d.inodes ==> id in Replace(d, n, content).inodes && Replace(d, n, content).inodes[id] == d.inodes[id]
  {}

  lemma SyncDirValid(d: Disk)
    requires Valid(d)
    ensures Valid(SyncDir(d)) && forall n :: Now(SyncDir(d), n) == Now(d, n) && Sure(SyncDir(d), n)
  {}

  predicate Named(d: Disk, id: nat) {
    exists n :: n in d.entries && d.entries[n].now == Some(id)
  }

  /** Pointing a name elsewhere loses only the file that was there. */
  lemma SetKeepsNamed(d: Disk, n: Name, x: Option<nat>, id: nat)
    requires Named(d, id) && Now(d, n) != Some(id)
    ensures Named(Set(d, n, x), id)
  {
    var m :| m in d.entries && d.entries[m].now == Some(id);
    assert Set(d, n, x).entries[m].now == Some(id);
  }

  /** A rename to a free name loses nothing. */
  lemma RenameKeepsNamed(d: Disk, from: Name, to: Name, id: nat)
    requires Named(d, id) && Now(d, from).Some? && Now(d, to).None? && from != to
    ensures Named(Rename(d, from, to), id)
  {
    var e := Rename(d, from, to);
    var m :| m in d.entries && d.entries[m].now == Some(id);
    if m == from { assert e.entries[to].now == Some(id); } else { assert e.entries[m].now == Some(id); }
  }

  lemma SyncDirKeepsNamed(d: Disk, id: nat)
    requires Named(d, id)
    ensures Named(SyncDir(d), id)
  {
    var n :| n in d.entries && d.entries[n].now == Some(id);
    assert SyncDir(d).entries[n].now == Some(id);
  }
}
