/** What every history of transactions keeps true of rule revisions and their watermarks. */
module RuleHistory {
  import opened Rows
  import opened GovernanceDb

  // --- the invariant ------------------------------------------------------------------------------

  /** One revision of a family in table order: numbered from 1, linked to both neighbours, never followed when retired. */
  predicate Link(f: seq<RuleRow>, k: nat)
    requires k < |f|
  {
    && f[k].revision == k + 1
    && (if k == 0 then f[k].supersedes.None? else f[k].supersedes == Some(f[k - 1].memoryId))
    && (if k == |f| - 1 then f[k].supersededBy.None? else f[k].supersededBy == Some(f[k + 1].memoryId) && f[k].status != Retired)
  }

  /** The family is one supersession chain, whose only unsuperseded row is the last. */
  predicate Chain(f: seq<RuleRow>) {
    forall k: nat :: k < |f| ==> Link(f, k)
  }

  predicate IdOrder(a: RuleRow, b: RuleRow) { a.memoryId < b.memoryId }

  ghost predicate RulesInv(db: Db) {
    && Pairwise(IdOrder, db.rules)
    && (forall r :: r in db.rules ==> r.memoryId <= db.lastMemoryId)
    && forall project, ruleId :: Chain(History(db, project, ruleId))
  }

  /** No revision is marked twice. */
  predicate MarkOrder(a: AuditRow, b: AuditRow) {
    a.entry.RuleWatermark? && b.entry.RuleWatermark? ==> a.linkedMemoryId != b.linkedMemoryId
  }

  predicate MarkFor(a: AuditRow, r: RuleRow) {
    && a.linkedMemoryId == Some(r.memoryId) && a.linkedRuleId == Some(r.ruleId)
    && a.project == r.project && a.entry.RuleWatermark? && a.entry.revision == r.revision
  }

  ghost predicate MarksInv(db: Db) {
    && Pairwise(MarkOrder, db.audit)
    && forall a :: a in db.audit && a.entry.RuleWatermark? ==> exists r :: r in db.rules && MarkFor(a, r)
  }

  ghost predicate Inv(db: Db) { RulesInv(db) && MarksInv(db) }

  /**
   What the read behind a revision guarantees at its transaction: if the row it supersedes is still
   current, it is the row that was read.
   */
  predicate StepOk(db: Db, s: Step) {
    s.RevisionStep? ==>
      && s.revision.supersedes.Some?
      && forall i :: 0 <= i < |db.rules| && s.revision.supersedes == Some(db.rules[i].memoryId) && db.rules[i].supersededBy.None? ==>
           && InFamily(db.rules[i], s.revision.project, s.revision.ruleId)
           && s.revision.revision == db.rules[i].revision + 1
           && AllowedTransition(db.rules[i].status, s.revision.status)
  }

  // --- rows by identity ------------------------------------------------------------------------------

  lemma OneRowPerId(rows: seq<RuleRow>, a: RuleRow, b: RuleRow)
    requires Pairwise(IdOrder, rows) && a in rows && b in rows && a.memoryId == b.memoryId
    ensures a == b
  {
    var i: nat, j: nat :| i < |rows| && j < |rows| && rows[i] == a && rows[j] == b;
  }

  lemma FamilyIds(db: Db, project: string, ruleId: string)
    requires RulesInv(db)
    ensures Pairwise(IdOrder, History(db, project, ruleId))
  {
    PairwiseFilter(IdOrder, Family(project, ruleId), db.rules);
  }

  /** The current row of a family is the end of its chain. */
  lemma CurrentIsLast(db: Db, project: string, ruleId: string, r: RuleRow)
    requires RulesInv(db) && r in db.rules && InFamily(r, project, ruleId) && r.supersededBy.None?
    ensures var h := History(db, project, ruleId); h != [] && h[|h| - 1] == r
  {
    var h := History(db, project, ruleId);
    assert r in h && Chain(h);
    var k: nat :| k < |h| && h[k] == r;
    assert Link(h, k);
  }

  // --- one transaction --------------------------------------------------------------------------------

  lemma UpdateKeepsIds(rows: seq<RuleRow>, oldId: nat, newId: nat)
    requires Pairwise(IdOrder, rows)
    ensures Pairwise(IdOrder, Map(Supersede(oldId, newId), rows))
  {
    var updated := Map(Supersede(oldId, newId), rows);
    forall i, j | 0 <= i < j < |updated| ensures IdOrder(updated[i], updated[j]) {
      assert IdOrder(rows[i], rows[j]);
    }
  }

  /** The row an insert adds. */
  function Inserted(db: Db, p: Revision): RuleRow {
    RuleRow(db.lastMemoryId + 1, p.project, p.ruleId, p.revision, p.status, p.content.phases, p.content.level,
      p.content.gateIds, p.content.paths, p.supersedes, None, p.at)
  }

  /** How an insert changes each family: the other families keep their rows, its own gets one more. */
  lemma InsertFamily(db: Db, p: Revision, project: string, ruleId: string)
    requires InsertRevision(db, p).Ok?
    ensures var after, h := InsertRevision(db, p).value, History(db, project, ruleId);
            History(after, project, ruleId)
              == (if p.supersedes.Some? then Map(Supersede(p.supersedes.value, db.lastMemoryId + 1), h) else h)
                 + (if p.project == project && p.ruleId == ruleId then [Inserted(db, p)] else [])
  {
    var after, q, row := InsertRevision(db, p).value, Family(project, ruleId), Inserted(db, p);
    var base := if p.supersedes.Some? then Map(Supersede(p.supersedes.value, db.lastMemoryId + 1), db.rules) else db.rules;
    assert after.rules == base + [row];
    FilterConcat(q, base, [row]);
    assert Filter(q, [row]) == if q(row) then [row] else [] by { assert [row][1..] == []; }
    if p.supersedes.Some? { FilterMap(q, Supersede(p.supersedes.value, db.lastMemoryId + 1), db.rules); }
  }

  /** Superseding the end of a chain and adding its successor gives a chain. */
  lemma ExtendChain(f: seq<RuleRow>, newId: nat, row: RuleRow)
    requires Chain(f) && f != [] && Pairwise(IdOrder, f) && f[|f| - 1].status != Retired
    requires row.memoryId == newId && row.revision == |f| + 1 && row.supersedes == Some(f[|f| - 1].memoryId) && row.supersededBy.None?
    ensures Chain(Map(Supersede(f[|f| - 1].memoryId, newId), f) + [row])
  {
    var last := |f| - 1;
    var g := Map(Supersede(f[last].memoryId, newId), f) + [row];
    forall k: nat | k < |g| ensures Link(g, k) {
      if k <= last { assert Link(f, k); }
      if k < last { assert IdOrder(f[k], f[last]); }
      if k + 1 < last { assert IdOrder(f[k + 1], f[last]); }
    }
  }

  /** A successful insert found the row it supersedes still current. */
  lemma FoundCurrent(db: Db, p: Revision) returns (r: RuleRow)
    requires InsertRevision(db, p).Ok? && p.supersedes.Some?
    ensures r in db.rules && r.memoryId == p.supersedes.value && r.supersededBy.None?
  {
    r := Find(CurrentAt(p.supersedes.value), db.rules).value;
  }

  /** So it is the row that was read, at the end of its family. */
  lemma SupersededRow(db: Db, p: Revision, r: RuleRow)
    requires RulesInv(db) && p.supersedes == Some(r.memoryId) && StepOk(db, RevisionStep(p))
    requires r in db.rules && r.supersededBy.None?
    ensures InFamily(r, p.project, p.ruleId)
    ensures var h := History(db, p.project, p.ruleId);
            h != [] && h[|h| - 1] == r && r.status != Retired && p.revision == |h| + 1
  {
    var i :| 0 <= i < |db.rules| && db.rules[i] == r;
    CurrentIsLast(db, p.project, p.ruleId, r);
    var h := History(db, p.project, p.ruleId);
    assert Link(h, |h| - 1);
  }

  /** Superseding a row leaves every family it is not in as it was. */
  lemma OtherFamilyUntouched(db: Db, r: RuleRow, newId: nat, project: string, ruleId: string)
    requires RulesInv(db) && r in db.rules && !InFamily(r, project, ruleId)
    ensures var h := History(db, project, ruleId); Map(Supersede(r.memoryId, newId), h) == h
  {
    var h := History(db, project, ruleId);
    forall k | 0 <= k < |h| ensures h[k].memoryId != r.memoryId {
      assert h[k] in h;
      if h[k].memoryId == r.memoryId { OneRowPerId(db.rules, h[k], r); }
    }
  }

  lemma RevisionKeepsFamily(db: Db, p: Revision, project: string, ruleId: string)
    requires RulesInv(db) && InsertRevision(db, p).Ok? && p.supersedes.Some? && StepOk(db, RevisionStep(p))
    ensures Chain(History(InsertRevision(db, p).value, project, ruleId))
    ensures var h := History(db, project, ruleId);
            h != [] && h[|h| - 1].status == Retired ==> History(InsertRevision(db, p).value, project, ruleId) == h
  {
    var h, newId := History(db, project, ruleId), db.lastMemoryId + 1;
    var r := FoundCurrent(db, p);
    SupersededRow(db, p, r);
    InsertFamily(db, p, project, ruleId);
    assert Chain(h);
    if p.project == project && p.ruleId == ruleId {
      FamilyIds(db, project, ruleId);
      ExtendChain(h, newId, Inserted(db, p));
    } else {
      OtherFamilyUntouched(db, r, newId, project, ruleId);
      assert h + [] == h;
    }
  }

  lemma InsertKeepsFamilies(db: Db, p: Revision)
    requires RulesInv(db) && InsertRevision(db, p).Ok?
    requires if p.supersedes.Some? then StepOk(db, RevisionStep(p)) else p.revision == 1 && History(db, p.project, p.ruleId) == []
    ensures forall project, ruleId :: Chain(History(InsertRevision(db, p).value, project, ruleId))
  {
    forall project, ruleId ensures Chain(History(InsertRevision(db, p).value, project, ruleId)) {
      if p.supersedes.Some? {
        RevisionKeepsFamily(db, p, project, ruleId);
      } else {
        var h, row := History(db, project, ruleId), Inserted(db, p);
        InsertFamily(db, p, project, ruleId);
        assert Chain(h) && Chain([row]) && h + [] == h && [] + [row] == [row];
      }
    }
  }

  /**
   A first revision whose history check is older than its transaction: the family is still a chain exactly when the id
   is still unused. Two creators that both saw it unused leave two current rows.
   */
  lemma CreationKeepsChainIff(db: Db, p: Revision)
    requires RulesInv(db) && p.supersedes.None? && p.revision == 1
    ensures InsertRevision(db, p).Ok?
    ensures Chain(History(InsertRevision(db, p).value, p.project, p.ruleId)) <==> History(db, p.project, p.ruleId) == []
  {
    var h, row := History(db, p.project, p.ruleId), Inserted(db, p);
    InsertFamily(db, p, p.project, p.ruleId);
    var after := h + [row];
    if h == [] {
      assert after == [row] && Link([row], 0);
    } else {
      assert after[|h|] == row && !Link(after, |h|);
    }
  }

  lemma InsertKeepsRules(db: Db, p: Revision)
    requires RulesInv(db) && InsertRevision(db, p).Ok?
    requires if p.supersedes.Some? then StepOk(db, RevisionStep(p)) else p.revision == 1 && History(db, p.project, p.ruleId) == []
    ensures RulesInv(InsertRevision(db, p).value)
  {
    var after, row := InsertRevision(db, p).value, Inserted(db, p);
    var base := if p.supersedes.Some? then Map(Supersede(p.supersedes.value, row.memoryId), db.rules) else db.rules;
    if p.supersedes.Some? { UpdateKeepsIds(db.rules, p.supersedes.value, row.memoryId); }
    forall r | r in base ensures IdOrder(r, row) {
      var i :| 0 <= i < |base| && base[i] == r;
      assert db.rules[i] in db.rules;
    }
    PairwiseAppend(IdOrder, base, row);
    assert after.rules == base + [row];
    InsertKeepsFamilies(db, p);
  }

  lemma InsertKeepsMarks(db: Db, p: Revision)
    requires MarksInv(db) && InsertRevision(db, p).Ok?
    ensures MarksInv(InsertRevision(db, p).value)
  {
    var after := InsertRevision(db, p).value;
    PairwiseAppend(MarkOrder, db.audit, after.audit[|db.audit|]);
    forall a | a in after.audit && a.entry.RuleWatermark? ensures exists r :: r in after.rules && MarkFor(a, r) {
      var r :| r in db.rules && MarkFor(a, r);
      var i :| 0 <= i < |db.rules| && db.rules[i] == r;
      assert MarkFor(a, after.rules[i]);
    }
  }

  // --- marking first-seen revisions -----------------------------------------------------------------------

  /** No remaining key has a mark that the transaction did not see when it began. */
  ghost predicate SeenMarks(db: Db, project: string, existing: seq<AuditRow>, keys: seq<RuleKey>) {
    forall i, j, a |
      0 <= i < |keys| && 0 <= j < |db.rules| && IsCurrentRevision(db.rules[j], project, keys[i])
      && a in db.audit && a.entry.RuleWatermark? && a.linkedMemoryId == Some(keys[i].memoryId) :: a in existing
  }

  lemma MarkIsFound(db: Db, project: string, existing: seq<AuditRow>, key: RuleKey, j: nat, a: AuditRow)
    requires RulesInv(db) && MarksInv(db) && j < |db.rules| && IsCurrentRevision(db.rules[j], project, key)
    requires a in db.audit && a in existing && a.entry.RuleWatermark? && a.linkedMemoryId == Some(key.memoryId)
    ensures WatermarksOf(existing, key.ruleId, key.revision) != []
  {
    var r :| r in db.rules && MarkFor(a, r);
    OneRowPerId(db.rules, r, db.rules[j]);
    assert Marks(a, key.ruleId, key.revision);
    assert a in WatermarksOf(existing, key.ruleId, key.revision);
  }

  lemma EnsureOneKeeps(db: Db, project: string, at: int, s: Sequence, existing: seq<AuditRow>, keys: seq<RuleKey>)
    requires Inv(db) && keys != [] && DistinctRevisions(keys) && SeenMarks(db, project, existing, keys)
    requires EnsureOne(db, project, at, s, existing, keys[0]).Ok?
    ensures var next := EnsureOne(db, project, at, s, existing, keys[0]).value;
            Inv(next) && SeenMarks(next, project, existing, keys[1..])
  {
    var key, next := keys[0], EnsureOne(db, project, at, s, existing, keys[0]).value;
    if next == db {
      assert forall i :: 0 <= i < |keys[1..]| ==> keys[1..][i] == keys[i + 1];
    } else {
      var j: nat :| j < |db.rules| && IsCurrentRevision(db.rules[j], project, key);
      var row := next.audit[|db.audit|];
      assert next.audit == db.audit + [row] && MarkFor(row, db.rules[j]);
      forall a | a in db.audit ensures MarkOrder(a, row) {
        if a.entry.RuleWatermark? && a.linkedMemoryId == row.linkedMemoryId { MarkIsFound(db, project, existing, key, j, a); }
      }
      PairwiseAppend(MarkOrder, db.audit, row);
      assert forall project, ruleId :: History(next, project, ruleId) == History(db, project, ruleId);
      forall i, k, a | 0 <= i < |keys[1..]| && 0 <= k < |db.rules| && IsCurrentRevision(db.rules[k], project, keys[1..][i])
          && a in next.audit && a.entry.RuleWatermark? && a.linkedMemoryId == Some(keys[1..][i].memoryId)
        ensures a in existing
      {
        assert keys[1..][i] == keys[i + 1];
        assert (keys[0].ruleId, keys[0].revision) != (keys[i + 1].ruleId, keys[i + 1].revision);
        if a == row { OneRowPerId(db.rules, db.rules[k], db.rules[j]); }
      }
    }
  }

  lemma {:induction false} EnsureAllKeeps(db: Db, project: string, at: int, s: Sequence, existing: seq<AuditRow>, keys: seq<RuleKey>)
    requires Inv(db) && DistinctRevisions(keys) && SeenMarks(db, project, existing, keys)
    ensures var r := EnsureAll(db, project, at, s, existing, keys); r.Ok? ==> Inv(r.value)
    decreases |keys|
  {
    if keys != [] {
      var one := EnsureOne(db, project, at, s, existing, keys[0]);
      if one.Ok? {
        EnsureOneKeeps(db, project, at, s, existing, keys);
        EnsureAllKeeps(one.value, project, at, s, existing, keys[1..]);
      }
    }
  }

  /** At the start of the transaction the marks it sees are all there are. */
  lemma AllMarksSeen(db: Db, project: string, keys: seq<RuleKey>)
    requires Inv(db)
    ensures SeenMarks(db, project, WatermarkRows(db, project), keys)
  {
    forall i, j, a | 0 <= i < |keys| && 0 <= j < |db.rules| && IsCurrentRevision(db.rules[j], project, keys[i])
        && a in db.audit && a.entry.RuleWatermark? && a.linkedMemoryId == Some(keys[i].memoryId)
      ensures a in WatermarkRows(db, project)
    {
      var r :| r in db.rules && MarkFor(a, r);
      OneRowPerId(db.rules, r, db.rules[j]);
      assert MarksActiveRule(a, db, project);
    }
  }

  // --- dropping retired families -------------------------------------------------------------------------

  lemma DropOne(db: Db, project: string, ruleId: string)
    requires Inv(db)
    ensures var after := DropFamily(db, project, ruleId);
            && Inv(after) && after.lastMemoryId == db.lastMemoryId
            && History(after, project, ruleId) == [] && (forall a :: a in after.audit ==> !LinkedTo(a, project, ruleId))
            && (forall p, id :: (p, id) != (project, ruleId) ==> History(after, p, id) == History(db, p, id))
  {
    var after := DropFamily(db, project, ruleId);
    PairwiseFilter(IdOrder, Outside(project, ruleId), db.rules);
    PairwiseFilter(MarkOrder, Unlinked(project, ruleId), db.audit);
    FilterNone(Family(project, ruleId), after.rules);
    forall p, id | (p, id) != (project, ruleId) ensures History(after, p, id) == History(db, p, id) {
      FilterWithin(Family(p, id), Outside(project, ruleId), db.rules);
    }
    forall p, id ensures Chain(History(after, p, id)) {
      assert Chain(History(db, p, id));
    }
    forall a | a in after.audit && a.entry.RuleWatermark? ensures exists r :: r in after.rules && MarkFor(a, r) {
      var r :| r in db.rules && MarkFor(a, r);
      assert !LinkedTo(a, project, ruleId);
      assert r in after.rules;
    }
  }

  /** A family is either untouched by the drops or gone with every audit row linked to it. */
  ghost predicate KeptOrGone(a: Db, b: Db, project: string, ruleId: string) {
    || History(b, project, ruleId) == History(a, project, ruleId)
    || (History(b, project, ruleId) == [] && forall x :: x in b.audit ==> !LinkedTo(x, project, ruleId))
  }

  lemma {:induction false} DropMany(db: Db, project: string, ruleIds: seq<string>)
    requires Inv(db)
    ensures var r := DropFamilies(db, project, ruleIds);
            r.Ok? ==> Inv(r.value) && (forall x :: x in r.value.audit ==> x in db.audit)
                      && (forall x :: x in r.value.rules ==> x in db.rules) && r.value.lastMemoryId == db.lastMemoryId
                      && forall p, id :: KeptOrGone(db, r.value, p, id)
    decreases |ruleIds|
  {
    if ruleIds != [] {
      var next := DropFamily(db, project, ruleIds[0]);
      DropOne(db, project, ruleIds[0]);
      DropMany(next, project, ruleIds[1..]);
      var r := DropFamilies(db, project, ruleIds);
      if r.Ok? {
        forall p, id ensures KeptOrGone(db, r.value, p, id) {
          assert KeptOrGone(next, r.value, p, id);
          assert KeptOrGone(db, next, p, id);
          if History(next, p, id) != History(db, p, id) {
            assert forall x :: x in r.value.audit ==> !LinkedTo(x, p, id);
            EmptyStaysEmpty(next, r.value, p, id);
          }
        }
      }
    }
  }

  lemma EmptyStaysEmpty(a: Db, b: Db, project: string, ruleId: string)
    requires History(a, project, ruleId) == [] && forall r :: r in b.rules ==> r in a.rules
    ensures History(b, project, ruleId) == []
  {
    forall r | r in b.rules ensures !Family(project, ruleId)(r) {
      assert r in a.rules && (Family(project, ruleId)(r) ==> r in History(a, project, ruleId));
    }
    FilterNone(Family(project, ruleId), b.rules);
  }

  /** Audit pruning and the final audit row, after the families are dropped. */
  lemma PruneKeeps(dropped: Db, project: string, cutoff: int, now: int, hadAudit: nat, hadRules: nat)
    requires Inv(dropped)
    ensures var after := PruneAudit(dropped, project, cutoff, now, hadAudit, hadRules);
            && Inv(after) && after.rules == dropped.rules && after.lastMemoryId == dropped.lastMemoryId
            && forall x :: x in after.audit && x.linkedRuleId.Some? ==> x in dropped.audit
  {
    var after := PruneAudit(dropped, project, cutoff, now, hadAudit, hadRules);
    var kept := Filter(KeepsAudit(dropped, project, cutoff), dropped.audit);
    PairwiseFilter(MarkOrder, KeepsAudit(dropped, project, cutoff), dropped.audit);
    if after.audit != kept { PairwiseAppend(MarkOrder, kept, after.audit[|kept|]); }
    forall p, id ensures Chain(History(after, p, id)) {
      assert History(after, p, id) == History(dropped, p, id) && Chain(History(dropped, p, id));
    }
  }

  lemma KeptOrGoneThen(a: Db, b: Db, c: Db)
    requires forall p, id :: KeptOrGone(a, b, p, id)
    requires c.rules == b.rules && forall x :: x in c.audit && x.linkedRuleId.Some? ==> x in b.audit
    ensures forall p, id :: KeptOrGone(a, c, p, id)
  {
    forall p, id ensures KeptOrGone(a, c, p, id) {
      assert KeptOrGone(a, b, p, id) && History(c, p, id) == History(b, p, id);
    }
  }

  lemma LifecycleKeeps(db: Db, project: string, auditDays: int, ruleDays: int, now: int)
    requires Inv(db)
    ensures var r := CleanupLifecycle(db, project, auditDays, ruleDays, now);
            r.Ok? ==> Inv(r.value) && r.value.lastMemoryId == db.lastMemoryId
                      && (forall x :: x in r.value.rules ==> x in db.rules) && forall p, id :: KeptOrGone(db, r.value, p, id)
  {
    var joint := if auditDays > ruleDays then auditDays else ruleDays;
    if DropRetired(db, project, DaysBefore(now, joint)).Ok? {
      DropThenPrune(db, project, DaysBefore(now, joint), DaysBefore(now, auditDays), now);
    }
  }

  lemma DropThenPrune(db: Db, project: string, before: int, cutoff: int, now: int)
    requires Inv(db) && DropRetired(db, project, before).Ok?
    ensures var after := PruneAudit(DropRetired(db, project, before).value, project, cutoff, now, |db.audit|, |db.rules|);
            && Inv(after) && after.lastMemoryId == db.lastMemoryId
            && (forall x :: x in after.rules ==> x in db.rules) && forall p, id :: KeptOrGone(db, after, p, id)
  {
    DropMany(db, project, RetiredFamilies(db, project, before));
    var dropped := DropRetired(db, project, before).value;
    PruneKeeps(dropped, project, cutoff, now, |db.audit|, |db.rules|);
    KeptOrGoneThen(db, dropped, PruneAudit(dropped, project, cutoff, now, |db.audit|, |db.rules|));
  }

  // --- every step ---------------------------------------------------------------------------------------

  lemma {:induction false} IncidentsAreNotMarks(runs: seq<EvidenceSelector.GateRun>, e: EventInput, eventSeq: nat, id: nat)
    ensures forall x :: x in Incidents(runs, e, eventSeq, id) ==> !x.entry.RuleWatermark?
  {
    if runs != [] {
      IncidentsAreNotMarks(runs[1..], e, eventSeq, id + 1);
      IncidentsAreNotMarks(runs[1..], e, eventSeq, id);
    }
  }

  /** Rules untouched, audit only grown by rows that are not marks. */
  lemma OtherRowsKeep(db: Db, after: Db, more: seq<AuditRow>)
    requires Inv(db) && after.rules == db.rules && after.lastMemoryId == db.lastMemoryId && after.audit == db.audit + more
    requires forall x :: x in more ==> !x.entry.RuleWatermark?
    ensures Inv(after)
  {
    assert forall p, id :: History(after, p, id) == History(db, p, id);
  }

  lemma CleanupOneKeepsRules(db: Db, project: string, cutoff: int, now: int) returns (next: Db)
    requires Inv(db)
    ensures next == CleanupProject(db, project, cutoff, now)
    ensures Inv(next) && next.rules == db.rules && next.lastMemoryId == db.lastMemoryId
  {
    next := CleanupProject(db, project, cutoff, now);
    var more := next.audit[|db.audit|..];
    assert next.audit == db.audit + more;
    OtherRowsKeep(db, next, more);
  }

  lemma {:induction false} CleanupKeepsRules(db: Db, projects: seq<string>, r: Retention, now: int)
    requires Inv(db)
    ensures var c := CleanupProjects(db, projects, r, now);
            c.Ok? ==> Inv(c.value) && c.value.rules == db.rules && c.value.lastMemoryId == db.lastMemoryId
    decreases |projects|
  {
    if projects != [] && ValidDays(DaysFor(db, projects[0], r)) {
      var next := CleanupOneKeepsRules(db, projects[0], DaysBefore(now, DaysFor(db, projects[0], r)), now);
      CleanupKeepsRules(next, projects[1..], r, now);
    }
  }

  lemma RecordKeeps(db: Db, input: RecordInput)
    requires Inv(db) && Record(db, input).Ok?
    ensures Inv(Record(db, input).value.0)
  {
    var after := Record(db, input).value.0;
    var more := after.audit[|db.audit|..];
    assert after.audit == db.audit + more;
    IncidentsAreNotMarks(input.runs, input.event, db.lastEventSeq + 1, db.lastAuditId + 1);
    OtherRowsKeep(db, after, more);
  }

  lemma CreateKeeps(db: Db, project: string, ruleId: string, content: RuleContent, at: int)
    requires Inv(db) && StepOk(db, CreateStep(project, ruleId, content, at))
    ensures Inv(Apply(db, CreateStep(project, ruleId, content, at)))
  {
    if History(db, project, ruleId) == [] {
      var p := Revision(project, ruleId, 1, Active, content, None, at);
      InsertKeepsRules(db, p);
      InsertKeepsMarks(db, p);
    }
  }

  lemma EnsureStepKeeps(db: Db, project: string, at: int, keys: seq<RuleKey>)
    requires Inv(db) && StepOk(db, EnsureStep(project, at, keys))
    ensures Inv(Apply(db, EnsureStep(project, at, keys)))
  {
    if DistinctRevisions(keys) {
      AllMarksSeen(db, project, keys);
      EnsureAllKeeps(db, project, at, ShadowSequence(db, project), WatermarkRows(db, project), keys);
    }
  }

  lemma VerdictKeeps(db: Db, v: VerdictInput)
    requires Inv(db)
    ensures Inv(Apply(db, VerdictStep(v)))
  {
    var after := Apply(db, VerdictStep(v));
    assert after.audit == db.audit + after.audit[|db.audit|..];
    OtherRowsKeep(db, after, after.audit[|db.audit|..]);
  }

  lemma StepKeepsInv(db: Db, s: Step)
    requires Inv(db) && StepOk(db, s)
    ensures Inv(Apply(db, s))
  {
    match s
    case RecordStep(input) => if Record(db, input).Ok? { RecordKeeps(db, input); }
    case CreateStep(project, ruleId, content, at) => CreateKeeps(db, project, ruleId, content, at);
    case RevisionStep(p) => if InsertRevision(db, p).Ok? { InsertKeepsRules(db, p); InsertKeepsMarks(db, p); }
    case EnsureStep(project, at, keys) => EnsureStepKeeps(db, project, at, keys);
    case VerdictStep(v) => VerdictKeeps(db, v);
    case EvidenceCleanupStep(projects, r, now) => CleanupKeepsRules(db, projects, r, now);
    case LifecycleCleanupStep(project, auditDays, ruleDays, now) => LifecycleKeeps(db, project, auditDays, ruleDays, now);
  }

  // --- reads before writes ---------------------------------------------------------------------------------

  /** Old rows keep everything but their successor, and a row without a successor is as it was. */
  ghost predicate RowsFrom(a: Db, b: Db) {
    && a.lastMemoryId <= b.lastMemoryId
    && forall r :: r in b.rules && r.memoryId <= a.lastMemoryId && r.supersededBy.None? ==> r in a.rules
  }

  lemma InsertRowsFrom(db: Db, p: Revision)
    requires InsertRevision(db, p).Ok?
    ensures RowsFrom(db, InsertRevision(db, p).value)
  {
    var after := InsertRevision(db, p).value;
    forall r | r in after.rules && r.memoryId <= db.lastMemoryId && r.supersededBy.None? ensures r in db.rules {
      var i :| 0 <= i < |after.rules| && after.rules[i] == r;
      assert i < |db.rules| && db.rules[i] in db.rules;
    }
  }

  lemma StepRowsFrom(db: Db, s: Step)
    requires Inv(db)
    ensures RowsFrom(db, Apply(db, s))
  {
    match s
    case CreateStep(project, ruleId, content, at) =>
      if History(db, project, ruleId) == [] { InsertRowsFrom(db, Revision(project, ruleId, 1, Active, content, None, at)); }
    case RevisionStep(p) => if InsertRevision(db, p).Ok? { InsertRowsFrom(db, p); }
    case EnsureStep(project, at, keys) =>
      EnsureKeepsRules(db, project, at, ShadowSequence(db, project), WatermarkRows(db, project), keys);
    case EvidenceCleanupStep(projects, r, now) => CleanupKeepsRules(db, projects, r, now);
    case LifecycleCleanupStep(project, auditDays, ruleDays, now) => LifecycleKeeps(db, project, auditDays, ruleDays, now);
    case _ =>
  }

  lemma {:induction false} EnsureKeepsRules(db: Db, project: string, at: int, s: Sequence, existing: seq<AuditRow>, keys: seq<RuleKey>)
    ensures var r := EnsureAll(db, project, at, s, existing, keys);
            r.Ok? ==> r.value.rules == db.rules && r.value.lastMemoryId == db.lastMemoryId
    decreases |keys|
  {
    if keys != [] {
      var one := EnsureOne(db, project, at, s, existing, keys[0]);
      if one.Ok? { EnsureKeepsRules(one.value, project, at, s, existing, keys[1..]); }
    }
  }

  function At(steps: seq<Step>, k: nat): Db
    requires k <= |steps|
  {
    RunSteps(EMPTY, steps[..k])
  }

  lemma AtNext(steps: seq<Step>, k: nat)
    requires k < |steps|
    ensures At(steps, k + 1) == Apply(At(steps, k), steps[k])
  {
    assert steps[..k + 1] == steps[..k] + [steps[k]];
    RunConcat(EMPTY, steps[..k], [steps[k]]);
    RunOne(At(steps, k), steps[k]);
  }

  /** The row was the current one of its family after `i` transactions, and allowed the transition. */
  predicate ReadAt(steps: seq<Step>, i: nat, read: RuleRow, p: Revision)
    requires i <= |steps|
  {
    && Current(At(steps, i), p.project, p.ruleId) == Some(read)
    && AllowedTransition(read.status, p.status)
    && p == NextRevision(read, p.status, p.content, p.at)
  }

  /** A history in which every revision was computed from a read of some earlier state, however long ago. */
  ghost predicate ValidHistory(steps: seq<Step>) {
    forall k :: 0 <= k < |steps| && steps[k].RevisionStep? ==>
      exists i: nat, read :: i <= k && ReadAt(steps, i, read, steps[k].revision)
  }

  lemma {:induction false} RowsFromEarlier(steps: seq<Step>, i: nat, k: nat)
    requires i <= k <= |steps| && forall j: nat :: j <= k ==> Inv(At(steps, j))
    ensures RowsFrom(At(steps, i), At(steps, k))
    decreases k - i
  {
    if i < k {
      AtNext(steps, k - 1);
      StepRowsFrom(At(steps, k - 1), steps[k - 1]);
      RowsFromEarlier(steps, i, k - 1);
    }
  }

  lemma ReadIsStepOk(steps: seq<Step>, k: nat)
    requires k < |steps| && ValidHistory(steps) && forall j: nat :: j <= k ==> Inv(At(steps, j))
    ensures StepOk(At(steps, k), steps[k])
  {
    if steps[k].RevisionStep? {
      var p, db := steps[k].revision, At(steps, k);
      var i: nat, read :| i <= k && ReadAt(steps, i, read, p);
      RowsFromEarlier(steps, i, k);
      forall n | 0 <= n < |db.rules| && p.supersedes == Some(db.rules[n].memoryId) && db.rules[n].supersededBy.None?
        ensures db.rules[n] == read
      {
        assert db.rules[n] in db.rules;
        OneRowPerId(At(steps, i).rules, db.rules[n], read);
      }
    }
  }

  lemma {:induction false} HistoryKeepsInv(steps: seq<Step>, k: nat)
    requires ValidHistory(steps) && k <= |steps|
    ensures forall j: nat :: j <= k ==> Inv(At(steps, j))
  {
    if k == 0 {
      assert steps[..0] == [];
    } else {
      HistoryKeepsInv(steps, k - 1);
      ReadIsStepOk(steps, k - 1);
      AtNext(steps, k - 1);
      StepKeepsInv(At(steps, k - 1), steps[k - 1]);
      forall j: nat | j <= k ensures Inv(At(steps, j)) {
        if j == k { assert At(steps, j) == Apply(At(steps, k - 1), steps[k - 1]); }
      }
    }
  }

  // --- the results -------------------------------------------------------------------------------------------

  /**
   With racing transitions, each computed from a read of any age, every family in every reachable state has the
   revisions 1 to n in one supersession chain, and its only unsuperseded row is the last.
   */
  lemma FamiliesAreChains(steps: seq<Step>, k: nat, project: string, ruleId: string)
    requires ValidHistory(steps) && k <= |steps|
    ensures var h := History(At(steps, k), project, ruleId);
            && Chain(h)
            && (forall r :: r in h && r.supersededBy.None? ==> r == h[|h| - 1])
            && (h != [] ==> Current(At(steps, k), project, ruleId) == Some(h[|h| - 1]))
  {
    HistoryKeepsInv(steps, k);
    var db := At(steps, k);
    var h := History(db, project, ruleId);
    assert Chain(h);
    forall r | r in h && r.supersededBy.None? ensures r == h[|h| - 1] { CurrentIsLast(db, project, ruleId, r); }
    if h != [] {
      assert Link(h, |h| - 1);
      assert h[|h| - 1] in h && InFamily(h[|h| - 1], project, ruleId);
      var c := Find((r: RuleRow) => InFamily(r, project, ruleId) && r.supersededBy.None?, db.rules);
      CurrentIsLast(db, project, ruleId, c.value);
    }
  }

  lemma StepKeepsRetired(db: Db, s: Step, project: string, ruleId: string)
    requires Inv(db) && StepOk(db, s)
    requires var h := History(db, project, ruleId); h != [] && h[|h| - 1].status == Retired
    ensures KeptOrGone(db, Apply(db, s), project, ruleId)
    ensures !s.LifecycleCleanupStep? ==> History(Apply(db, s), project, ruleId) == History(db, project, ruleId)
  {
    match s
    case CreateStep(p, id, content, at) => CreateKeepsRetired(db, p, id, content, at, project, ruleId);
    case RevisionStep(p) => if InsertRevision(db, p).Ok? { RevisionKeepsFamily(db, p, project, ruleId); }
    case LifecycleCleanupStep(p, auditDays, ruleDays, now) => LifecycleKeeps(db, p, auditDays, ruleDays, now);
    case _ => OtherStepsKeepRules(db, s);
  }

  lemma CreateKeepsRetired(db: Db, p: string, id: string, content: RuleContent, at: int, project: string, ruleId: string)
    requires Inv(db) && History(db, project, ruleId) != []
    ensures History(Apply(db, CreateStep(p, id, content, at)), project, ruleId) == History(db, project, ruleId)
  {
    if History(db, p, id) == [] {
      InsertFamily(db, Revision(p, id, 1, Active, content, None, at), project, ruleId);
      assert History(db, project, ruleId) + [] == History(db, project, ruleId);
    }
  }

  lemma OtherStepsKeepRules(db: Db, s: Step)
    requires Inv(db) && (s.RecordStep? || s.EnsureStep? || s.VerdictStep? || s.EvidenceCleanupStep?)
    ensures Apply(db, s).rules == db.rules
  {
    match s
    case EnsureStep(p, at, keys) => EnsureKeepsRules(db, p, at, ShadowSequence(db, p), WatermarkRows(db, p), keys);
    case EvidenceCleanupStep(projects, r, now) => CleanupKeepsRules(db, projects, r, now);
    case _ =>
  }

  /** A retired family never changes again; only lifecycle cleanup may remove it, whole and with its watermarks. */
  lemma RetiredIsFinal(steps: seq<Step>, k: nat, project: string, ruleId: string)
    requires ValidHistory(steps) && k < |steps|
    requires var c := Current(At(steps, k), project, ruleId); c.Some? && c.value.status == Retired
    ensures KeptOrGone(At(steps, k), At(steps, k + 1), project, ruleId)
    ensures !steps[k].LifecycleCleanupStep? ==> History(At(steps, k + 1), project, ruleId) == History(At(steps, k), project, ruleId)
  {
    HistoryKeepsInv(steps, k);
    ReadIsStepOk(steps, k);
    AtNext(steps, k);
    CurrentIsLast(At(steps, k), project, ruleId, Current(At(steps, k), project, ruleId).value);
    StepKeepsRetired(At(steps, k), steps[k], project, ruleId);
  }

  /** In no reachable state does a snapshot find two watermarks for one active revision. */
  lemma NoDuplicateWatermark(steps: seq<Step>, k: nat, project: string, r: RuleRow)
    requires ValidHistory(steps) && k <= |steps|
    requires var db := At(steps, k); r in ActiveRules(db, project)
    ensures var db := At(steps, k);
            |WatermarksOf(WatermarkRows(db, project), r.ruleId, r.revision)| <= 1
  {
    HistoryKeepsInv(steps, k);
    OneMarkPerRule(At(steps, k), project, r);
  }

  lemma OneMarkPerRule(db: Db, project: string, r: RuleRow)
    requires Inv(db) && r in ActiveRules(db, project)
    ensures |WatermarksOf(WatermarkRows(db, project), r.ruleId, r.revision)| <= 1
  {
    var rows := WatermarkRows(db, project);
    var found := WatermarksOf(rows, r.ruleId, r.revision);
    PairwiseFilter(MarkOrder, MarkOf(db, project), db.audit);
    PairwiseFilter(MarkOrder, MarksRevision(r.ruleId, r.revision), rows);
    if |found| > 1 {
      assert found[0] in found && found[1] in found && MarkOrder(found[0], found[1]);
      MarkedRow(db, project, r, found[0]);
      MarkedRow(db, project, r, found[1]);
    }
  }

  /** A mark found for an active revision was written for that very row. */
  lemma MarkedRow(db: Db, project: string, r: RuleRow, a: AuditRow)
    requires Inv(db) && r in ActiveRules(db, project) && a in WatermarkRows(db, project) && Marks(a, r.ruleId, r.revision)
    ensures a in db.audit && a.linkedMemoryId == Some(r.memoryId) && a.project == project
  {
    var m :| m in db.rules && MarkFor(a, m);
    var h := History(db, project, r.ruleId);
    assert m in h && r in h && Chain(h);
    OneRowPerRevision(h, m, r);
  }

  /** A chain has one row of each revision. */
  lemma OneRowPerRevision(h: seq<RuleRow>, m: RuleRow, r: RuleRow)
    requires Chain(h) && m in h && r in h && m.revision == r.revision
    ensures m == r
  {
    var i: nat, j: nat :| i < |h| && j < |h| && h[i] == m && h[j] == r;
    assert Link(h, i) && Link(h, j);
  }
}
