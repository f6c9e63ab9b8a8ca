/** The undo log of operator edits (`recordRollbackLocked`, `captureOverrides` and `Rollback` in
    `internal/aghmanaged/manager.go`). */
module Undo {
  import opened Collections
  import opened Wire
  import opened Catalog
  import opened Store

  // ----- edits and their records -----

  /** `captureOverrides`: the overrides of `ids` before an edit. */
  function Capture(ovs: Overrides, ids: set<string>): map<string, Option<Override>> {
    map id | id in ids :: if id in ovs then Some(ovs[id]) else None
  }

  /** The same patch applied to each of `ids`. */
  function EditAll(ovs: Overrides, ids: set<string>, patch: Override, actor: string): Overrides {
    map id | id in ovs.Keys + ids ::
      if id in ids then Patched(OverrideOf(ovs, id), patch, actor) else ovs[id]
  }

  function Recorded(ovs: Overrides, ids: set<string>, patch: Override, actor: string,
                    recId: string, action: string): RollbackRecord {
    RollbackRecord(recId, action, ids, Capture(ovs, ids),
                   map id | id in ids :: Patched(OverrideOf(ovs, id), patch, actor))
  }

  /** Puts the overrides of a record back as they were before it. */
  function Restore(ovs: Overrides, r: RollbackRecord): Overrides
    requires r.before.Keys == r.ids
  {
    map id | id in ovs.Keys + r.ids && (id in r.ids ==> r.before[id].Some?) ::
      if id in r.ids then r.before[id].value else ovs[id]
  }

  /** Undoing an edit with its own record is exact. */
  lemma RestoreUndoesEdit(ovs: Overrides, ids: set<string>, patch: Override, actor: string, recId: string,
                          action: string)
    ensures Restore(EditAll(ovs, ids, patch, actor), Recorded(ovs, ids, patch, actor, recId, action)) == ovs
  {
    hide Patched;
  }

  // ----- a log that can be unwound -----

  predicate WellFormed(r: RollbackRecord) {
    r.before.Keys == r.ids && r.after.Keys == r.ids
  }

  /** The overrides are what `r` left behind. */
  ghost predicate LeftBy(ovs: Overrides, r: RollbackRecord)
    requires WellFormed(r)
  {
    forall id | id in r.ids :: id in ovs && ovs[id] == r.after[id]
  }

  /** Unwinding the log newest first, each record finds exactly what it left behind. */
  ghost predicate Unwinds(ovs: Overrides, log: seq<RollbackRecord>) {
    if log == [] then true else
    var r := log[|log| - 1];
    WellFormed(r) && LeftBy(ovs, r) && Unwinds(Restore(ovs, r), log[..|log| - 1])
  }

  ghost predicate AllWellFormed(log: seq<RollbackRecord>) {
    forall i | 0 <= i < |log| :: WellFormed(log[i])
  }

  /** The overrides after undoing the `k` newest records, newest first. */
  ghost function Unwound(ovs: Overrides, log: seq<RollbackRecord>, k: nat): Overrides
    requires k <= |log| && AllWellFormed(log)
    decreases k
  {
    if k == 0 then ovs
    else Unwound(Restore(ovs, log[|log| - 1]), log[..|log| - 1], k - 1)
  }

  lemma {:induction false} UnwindsIsWellFormed(ovs: Overrides, log: seq<RollbackRecord>)
    requires Unwinds(ovs, log)
    ensures AllWellFormed(log)
  {
    if log != [] {
      UnwindsIsWellFormed(Restore(ovs, log[|log| - 1]), log[..|log| - 1]);
      assert log == log[..|log| - 1] + [log[|log| - 1]];
    }
  }

  /** Forgetting the oldest records keeps the rest unwindable. */
  lemma {:induction false} ForgetOldest(ovs: Overrides, log: seq<RollbackRecord>, k: nat)
    requires Unwinds(ovs, log) && k <= |log|
    ensures Unwinds(ovs, log[k..])
  {
    if k < |log| {
      var n := |log| - 1;
      ForgetOldest(Restore(ovs, log[n]), log[..n], k);
      assert log[k..][..n - k] == log[..n][k..];
    }
  }

  /** The newest record that touches an entry states the entry's current override. */
  lemma {:induction false} NewestStatesCurrent(ovs: Overrides, log: seq<RollbackRecord>, i: nat, id: string)
    requires Unwinds(ovs, log) && i < |log| && id in log[i].ids
    requires forall j | i < j < |log| :: id !in log[j].ids
    ensures id in log[i].after && id in ovs && ovs[id] == log[i].after[id]
  {
    var n := |log| - 1;
    if i < n {
      NewestStatesCurrent(Restore(ovs, log[n]), log[..n], i, id);
    }
  }

  /** Successive records that touch an entry chain: the later one's before is the earlier one's after. */
  lemma {:induction false} SuccessiveRecordsChain(ovs: Overrides, log: seq<RollbackRecord>, i: nat, j: nat, id: string)
    requires Unwinds(ovs, log) && i < j < |log| && id in log[i].ids && id in log[j].ids
    requires forall k | i < k < j :: id !in log[k].ids
    ensures id in log[i].after && id in log[j].before && log[j].before[id] == Some(log[i].after[id])
  {
    var n := |log| - 1;
    if j < n {
      SuccessiveRecordsChain(Restore(ovs, log[n]), log[..n], i, j, id);
    } else {
      NewestStatesCurrent(Restore(ovs, log[n]), log[..n], i, id);
    }
  }

  // ----- what each operation does to the log -----

  lemma EditLeavesRecord(ovs: Overrides, ids: set<string>, patch: Override, actor: string, recId: string,
                         action: string)
    ensures WellFormed(Recorded(ovs, ids, patch, actor, recId, action))
    ensures LeftBy(EditAll(ovs, ids, patch, actor), Recorded(ovs, ids, patch, actor, recId, action))
  {
    hide Patched;
  }

  /** An edit and its record keep the log unwindable, also when the oldest record is dropped. */
  lemma EditKeepsUnwinds(ovs: Overrides, log: seq<RollbackRecord>, ids: set<string>, patch: Override,
                         actor: string, recId: string, action: string)
    requires Unwinds(ovs, log)
    ensures Unwinds(EditAll(ovs, ids, patch, actor),
                    PushBounded(log, Recorded(ovs, ids, patch, actor, recId, action), UNDO_LIMIT))
  {
    hide EditAll, Recorded, Restore, Patched;
    var ovs', r := EditAll(ovs, ids, patch, actor), Recorded(ovs, ids, patch, actor, recId, action);
    var all := log + [r];
    RestoreUndoesEdit(ovs, ids, patch, actor, recId, action);
    EditLeavesRecord(ovs, ids, patch, actor, recId, action);
    assert all[..|all| - 1] == log;
    assert Unwinds(ovs', all);
    if |all| > UNDO_LIMIT {
      ForgetOldest(ovs', all, |all| - UNDO_LIMIT);
    }
  }

  lemma RestoresCommute(ovs: Overrides, a: RollbackRecord, b: RollbackRecord)
    requires WellFormed(a) && WellFormed(b) && a.ids !! b.ids
    ensures Restore(Restore(ovs, a), b) == Restore(Restore(ovs, b), a)
  {
  }

  lemma RestoreLeavesOthers(ovs: Overrides, a: RollbackRecord, b: RollbackRecord)
    requires WellFormed(a) && WellFormed(b) && a.ids !! b.ids && LeftBy(ovs, b)
    ensures LeftBy(Restore(ovs, a), b)
  {
  }

  /** No record newer than `i` touches an entry that record `i` touches. */
  predicate Newest(log: seq<RollbackRecord>, i: nat)
    requires i < |log|
  {
    forall j | i < j < |log| :: log[j].ids !! log[i].ids
  }

  /** Rolling back a record that is newest for its entries, from anywhere in the log, keeps the log
      unwindable and does not change what unwinding all of it leads to. */
  lemma {:induction false} RollbackKeepsUnwinds(ovs: Overrides, log: seq<RollbackRecord>, i: nat)
    requires Unwinds(ovs, log) && i < |log| && Newest(log, i)
    ensures AllWellFormed(log) && AllWellFormed(RemoveAt(log, i))
    ensures Unwinds(Restore(ovs, log[i]), RemoveAt(log, i))
    ensures Unwound(Restore(ovs, log[i]), RemoveAt(log, i), |log| - 1) == Unwound(ovs, log, |log|)
    decreases |log|
  {
    hide Restore, LeftBy;
    UnwindsIsWellFormed(ovs, log);
    var n := |log| - 1;
    var front := log[..n];
    if i == n {
      assert RemoveAt(log, i) == front;
    } else {
      var rec, r := log[i], log[n];
      RollbackKeepsUnwinds(Restore(ovs, r), front, i);
      var rest := RemoveAt(log, i);
      assert rest[..|rest| - 1] == RemoveAt(front, i) && rest[|rest| - 1] == r;
      RestoresCommute(ovs, rec, r);
      RestoreLeavesOthers(ovs, rec, r);
    }
  }

  /** Removing the overrides `gone` keeps the log unwindable exactly when no record touches any of
      them. */
  lemma {:induction false} RemovingOverrides(ovs: Overrides, log: seq<RollbackRecord>, gone: set<string>)
    requires Unwinds(ovs, log)
    ensures Unwinds(ovs - gone, log) <==> forall r | r in log :: r.ids !! gone
    decreases |log|
  {
    if log != [] {
      var n := |log| - 1;
      var r, front := log[n], log[..n];
      assert log == front + [r];
      if r.ids !! gone {
        RemovingOverrides(Restore(ovs, r), front, gone);
        assert Restore(ovs - gone, r) == Restore(ovs, r) - gone;
        assert LeftBy(ovs - gone, r);
      } else {
        var id :| id in r.ids && id in gone;
        assert id !in ovs - gone;
        assert r in log;
      }
    }
  }

  /** Undoing few enough records does not notice that older ones have been forgotten. */
  lemma {:induction false} UnwoundForgets(ovs: Overrides, log: seq<RollbackRecord>, drop: nat, k: nat)
    requires AllWellFormed(log) && drop + k <= |log|
    ensures AllWellFormed(log[drop..]) && Unwound(ovs, log[drop..], k) == Unwound(ovs, log, k)
    decreases k
  {
    if k > 0 {
      var n := |log| - 1;
      UnwoundForgets(Restore(ovs, log[n]), log[..n], drop, k - 1);
      assert log[drop..][..n - drop] == log[..n][drop..];
    }
  }

  /** One edit more is one record more to undo. */
  lemma EditThenUnwind(ovs: Overrides, log: seq<RollbackRecord>, r: RollbackRecord, ovs': Overrides, k: nat)
    requires AllWellFormed(log) && WellFormed(r) && Restore(ovs', r) == ovs
    requires k <= |log| && k < UNDO_LIMIT
    ensures AllWellFormed(PushBounded(log, r, UNDO_LIMIT)) && k + 1 <= |PushBounded(log, r, UNDO_LIMIT)|
    ensures Unwound(ovs', PushBounded(log, r, UNDO_LIMIT), k + 1) == Unwound(ovs, log, k)
  {
    var all := log + [r];
    assert all[..|all| - 1] == log && AllWellFormed(all);
    assert Unwound(ovs', all, k + 1) == Unwound(ovs, log, k);
    if |all| > UNDO_LIMIT {
      UnwoundForgets(ovs', all, |all| - UNDO_LIMIT, k + 1);
    }
  }
}
