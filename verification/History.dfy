/** Whole histories of the feed manager: what every run keeps, whatever operators, imports and feed
    generations it is made of. */
module History {
  import opened Collections
  import opened Wire
  import opened Catalog
  import opened Conflicts
  import opened Store
  import opened Undo
  import opened Edits
  import opened Imports
  import opened Feed

  datatype Event =
    | Patch(id: string, ov: Override, changedBy: Option<string>, recId: string)
    | BulkPatch(ids: seq<string>, ov: Override, changedBy: Option<string>, recId: string)
    | Resolve(key: string, target: string, ov: Override, changedBy: Option<string>, recId: string)
    | ResolveByPriority(key: string, changedBy: Option<string>, recId: string)
    | RollBack(recId: string)
    | Upsert(source: Source, freshId: string)
    | Delete(id: string)
    | Sync(id: string, fetch: Fetch, times: SyncTimes)
    | Approve(id: string)
    | Reject(id: string)
    | GenerateFeed(resolved: Option<seq<Ip>>, record: bool, now: int)
    | SetEmergency(on: bool)
    | SetPreset(preset: string)

  /** Entries are stored under their identifiers, pending lists belong to sources under review, and
      undo records are complete. */
  ghost predicate Valid(s: State) {
    Keyed(s.entries) && Reviewable(s) && AllRestorable(s.rollbacks)
  }

  ghost function Step(s: State, e: Event): State
    requires AllRestorable(s.rollbacks)
  {
    match e
    case Patch(id, ov, who, recId) => PatchStep(s, id, ov, who, recId).0
    case BulkPatch(ids, ov, who, recId) => BulkPatchStep(s, ids, ov, who, recId).0
    case Resolve(key, target, ov, who, recId) => ResolveStep(s, key, target, ov, who, recId).0
    case ResolveByPriority(key, who, recId) => PriorityStep(s, key, who, recId).0
    case RollBack(recId) => RollbackStep(s, recId).0
    case Upsert(source, freshId) => UpsertStep(s, source, freshId).0
    case Delete(id) => DeleteStep(s, id)
    case Sync(id, fetch, times) => SyncStep(s, id, fetch, times).0
    case Approve(id) => ApproveStep(s, id).0
    case Reject(id) => RejectStep(s, id).0
    case GenerateFeed(resolved, record, now) => GenerateStep(s, resolved, record, now).0
    case SetEmergency(on) => s.(cfg := s.cfg.(emergencyEmpty := on))
    case SetPreset(preset) => if preset in {"conservative", "balanced", "aggressive"} then s.(preset := preset) else s
  }

  // ----- the kinds of step -----

  predicate IsEdit(e: Event) {
    e.Patch? || e.BulkPatch? || e.Resolve? || e.ResolveByPriority?
  }

  /** A successful edit patches and records some entries; an unsuccessful one changes nothing. */
  lemma EditParts(s: State, e: Event)
    returns (edits: bool, ids: set<string>, patch: Override, actor: string, recId: string, action: string)
    requires IsEdit(e) && AllRestorable(s.rollbacks)
    ensures Step(s, e) == if edits then EditStep(s, ids, patch, actor, recId, action) else s
    ensures edits ==> recId == e.recId && (Keyed(s.entries) ==> ids <= s.entries.Keys)
  {
    hide EditStep, InConflict, Rows, Losers, WinnersPatch, IsWinner;
    edits, ids, patch, actor, recId, action := false, {}, NoOverride, "", "", "";
    match e
    case Patch(id, ov, who, r) =>
      edits := PatchStep(s, id, ov, who, r).1 == Done;
      ids, patch, actor, recId, action := {id}, ov, Actor(s, who), r, "catalog patch";
    case BulkPatch(many, ov, who, r) =>
      edits := BulkPatchStep(s, many, ov, who, r).1 == Done;
      ids, patch, actor, recId, action := AsSet(many), ov, Actor(s, who), r, "catalog bulk patch";
    case Resolve(key, target, ov, who, r) =>
      edits := ResolveStep(s, key, target, ov, who, r).1 == Done;
      ids, patch, actor, recId, action := {target}, ov, Actor(s, who), r, "conflict resolve";
    case ResolveByPriority(key, who, r) =>
      edits := PriorityStep(s, key, who, r).1 == Done;
      if edits {
        var w :| IsWinner(s, Rows(s, key), w);
        PriorityStepOf(s, key, who, r, w);
        LosersAreStored(s, key, w);
        ids, patch, actor, recId, action :=
          Losers(Rows(s, key), w), WinnersPatch(w), Actor(s, who), r, BY_PRIORITY;
      }
  }

  /** Only edits, rollbacks and deletions touch overrides and the undo log. */
  lemma OthersKeepUndo(s: State, e: Event)
    requires AllRestorable(s.rollbacks) && !IsEdit(e) && !e.RollBack? && !e.Delete?
    ensures SameUndo(s, Step(s, e))
  {
    hide UpsertStep, SyncStep, ApproveStep, RejectStep, GenerateStep;
    match e
    case Upsert(source, freshId) => UpsertKeeps(s, source, freshId);
    case Sync(id, fetch, times) => SyncKeeps(s, id, fetch, times);
    case Approve(id) => ApproveKeeps(s, id);
    case Reject(id) => RejectKeeps(s, id);
    case GenerateFeed(resolved, record, now) => GenerateKeeps(s, resolved, record, now);
    case SetEmergency(_) =>
    case SetPreset(_) =>
  }

  // ----- validity -----

  lemma SyncKeepsValid(s: State, id: string, fetch: Fetch, times: SyncTimes)
    requires Valid(s)
    ensures Valid(SyncStep(s, id, fetch, times).0)
  {
    SyncKeeps(s, id, fetch, times);
    if fetch.Fetched? {
      ImportKeepsKeyed(s.entries, id, fetch.list);
    }
  }

  lemma ApproveKeepsValid(s: State, id: string)
    requires Valid(s)
    ensures Valid(ApproveStep(s, id).0)
  {
    ApproveKeeps(s, id);
    if id in s.pending {
      ImportKeepsKeyed(s.entries, id, s.pending[id]);
    }
  }

  lemma EditEventKeepsValid(s: State, e: Event)
    requires Valid(s) && IsEdit(e)
    ensures Valid(Step(s, e))
  {
    hide Step, EditStep;
    var edits, ids, patch, actor, recId, action := EditParts(s, e);
    EditKeeps(s, ids, patch, actor, recId, action);
  }

  /** Every step keeps the state valid. In particular a pending list always belongs to an existing
      source that is marked for review. */
  lemma StepKeepsValid(s: State, e: Event)
    requires Valid(s)
    ensures Valid(Step(s, e))
  {
    hide PatchStep, BulkPatchStep, ResolveStep, PriorityStep, RollbackStep, UpsertStep, DeleteStep, SyncStep,
      ApproveStep, RejectStep, GenerateStep;
    if IsEdit(e) {
      EditEventKeepsValid(s, e);
    } else {
      match e
      case RollBack(recId) => RollbackKeeps(s, recId);
      case Upsert(source, freshId) => UpsertKeeps(s, source, freshId);
      case Delete(id) => DeleteKeeps(s, id);
      case Sync(id, fetch, times) => SyncKeepsValid(s, id, fetch, times);
      case Approve(id) => ApproveKeepsValid(s, id);
      case Reject(id) => RejectKeeps(s, id);
      case GenerateFeed(resolved, record, now) => GenerateKeeps(s, resolved, record, now);
      case SetEmergency(_) =>
      case SetPreset(_) =>
    }
  }

  /** The state after a run. */
  ghost function After(s: State, events: seq<Event>): (r: State)
    requires Valid(s)
    ensures Valid(r)
  {
    if events == [] then s else
    var before := After(s, events[..|events| - 1]);
    StepKeepsValid(before, events[|events| - 1]);
    Step(before, events[|events| - 1])
  }

  // ----- undo over whole runs -----

  /** Deleting a source discards overrides. It keeps the undo log unwindable exactly when no record
      still kept touches one of the source's entries. */
  lemma DeletionAndUndo(s: State, id: string)
    requires Unwinds(s.overrides, s.rollbacks)
    ensures Unwinds(DeleteStep(s, id).overrides, DeleteStep(s, id).rollbacks) <==>
            forall r | r in s.rollbacks :: r.ids !! SourceIds(s.entries, id)
  {
    RemovingOverrides(s.overrides, s.rollbacks, SourceIds(s.entries, id));
  }

  /** The condition is needed: patch the only entry of a source, delete the source, and the record left
      behind no longer states any current override. */
  lemma DeletionCanBreakUndo(s: State, e: Entry, ov: Override)
    requires s.entries == map[e.id := e] && s.rollbacks == []
    ensures
      var patched := PatchStep(s, e.id, ov, None, "rb").0;
      var deleted := DeleteStep(patched, e.source);
      Unwinds(patched.overrides, patched.rollbacks) && !Unwinds(deleted.overrides, deleted.rollbacks)
  {
    var patched := PatchStep(s, e.id, ov, None, "rb").0;
    EditKeepsUnwinds(s.overrides, s.rollbacks, {e.id}, ov, "", "rb", "catalog patch");
    DeletionAndUndo(patched, e.source);
    assert patched.rollbacks[0] in patched.rollbacks && e.id in patched.rollbacks[0].ids;
    assert e.id in SourceIds(patched.entries, e.source);
  }

  /** A deletion that leaves no record of the deleted entries behind. */
  ghost predicate CleanDelete(s: State, e: Event) {
    e.Delete? ==> forall r | r in s.rollbacks :: r.ids !! SourceIds(s.entries, e.id)
  }

  lemma StepKeepsUnwinds(s: State, e: Event)
    requires Valid(s) && Unwinds(s.overrides, s.rollbacks) && CleanDelete(s, e)
    ensures Unwinds(Step(s, e).overrides, Step(s, e).rollbacks)
  {
    hide PatchStep, BulkPatchStep, ResolveStep, PriorityStep, UpsertStep, SyncStep, ApproveStep, RejectStep,
      GenerateStep, EditAll, Recorded, PushBounded, Restore;
    if IsEdit(e) {
      var edits, ids, patch, actor, recId, action := EditParts(s, e);
      EditKeepsUnwinds(s.overrides, s.rollbacks, ids, patch, actor, recId, action);
    } else if e.RollBack? {
      var i := FindRecord(s.rollbacks, e.recId);
      if i < |s.rollbacks| && Newest(s.rollbacks, i) {
        RollbackKeepsUnwinds(s.overrides, s.rollbacks, i);
      }
    } else if e.Delete? {
      DeletionAndUndo(s, e.id);
    } else {
      OthersKeepUndo(s, e);
    }
  }

  ghost predicate CleanRun(s: State, events: seq<Event>)
    requires Valid(s)
  {
    forall k | 0 <= k < |events| :: CleanDelete(After(s, events[..k]), events[k])
  }

  /** Over every run of edits, resolutions, imports, generations and rollbacks, and of deletions that
      leave no record behind, the undo log stays unwindable: the newest record that touches an entry
      states its current override, and successive records chain. */
  lemma {:induction false} RunKeepsUnwinds(s: State, events: seq<Event>)
    requires Valid(s) && Unwinds(s.overrides, s.rollbacks) && CleanRun(s, events)
    ensures Unwinds(After(s, events).overrides, After(s, events).rollbacks)
  {
    hide Step, Unwinds;
    if events != [] {
      var n := |events| - 1;
      forall k | 0 <= k < n ensures CleanDelete(After(s, events[..n][..k]), events[..n][k]) {
        assert events[..n][..k] == events[..k];
      }
      RunKeepsUnwinds(s, events[..n]);
      StepKeepsUnwinds(After(s, events[..n]), events[n]);
    }
  }

  // ----- undoing the newest edits -----

  /** How many records a step adds. */
  ghost function RecordedBy(s: State, e: Event): nat
    requires AllRestorable(s.rollbacks)
  {
    if IsEdit(e) && Step(s, e) != s then 1 else 0
  }

  /** How many edits of a run took effect. */
  ghost function EditCount(s: State, events: seq<Event>): nat
    requires Valid(s)
  {
    if events == [] then 0 else
    var n := |events| - 1;
    EditCount(s, events[..n]) + RecordedBy(After(s, events[..n]), events[n])
  }

  lemma EditStepUnwinds(s: State, ids: set<string>, patch: Override, actor: string, recId: string,
                        action: string, k: nat)
    requires AllWellFormed(s.rollbacks) && k <= |s.rollbacks| && k < UNDO_LIMIT
    ensures
      var s' := EditStep(s, ids, patch, actor, recId, action);
      && AllWellFormed(s'.rollbacks) && k + 1 <= |s'.rollbacks|
      && Unwound(s'.overrides, s'.rollbacks, k + 1) == Unwound(s.overrides, s.rollbacks, k)
  {
    hide EditAll, Recorded, Unwound, PushBounded;
    RestoreUndoesEdit(s.overrides, ids, patch, actor, recId, action);
    EditLeavesRecord(s.overrides, ids, patch, actor, recId, action);
    EditThenUnwind(s.overrides, s.rollbacks, Recorded(s.overrides, ids, patch, actor, recId, action),
                   EditAll(s.overrides, ids, patch, actor), k);
  }

  /** A step that neither rolls back nor deletes adds what its edit recorded to what is to be undone. */
  lemma StepUnwindsBack(s: State, e: Event, k: nat)
    requires Valid(s) && Unwinds(s.overrides, s.rollbacks) && !e.RollBack? && !e.Delete?
    requires k <= |s.rollbacks| && k + RecordedBy(s, e) <= UNDO_LIMIT
    ensures
      var s' := Step(s, e);
      && AllWellFormed(s.rollbacks) && AllWellFormed(s'.rollbacks)
      && k + RecordedBy(s, e) <= |s'.rollbacks|
      && Unwound(s'.overrides, s'.rollbacks, k + RecordedBy(s, e)) == Unwound(s.overrides, s.rollbacks, k)
  {
    hide Step, EditStep, Unwinds, Unwound;
    UnwindsIsWellFormed(s.overrides, s.rollbacks);
    if IsEdit(e) {
      var edits, ids, patch, actor, recId, action := EditParts(s, e);
      if Step(s, e) != s {
        EditStepUnwinds(s, ids, patch, actor, recId, action, k);
      }
    } else {
      OthersKeepUndo(s, e);
    }
  }

  /** A run that neither rolls back nor deletes, and makes at most as many effective edits as the log
      keeps: undoing that many records leads back to the overrides it started from. */
  lemma {:induction false} RunUnwindsBack(s: State, events: seq<Event>)
    requires Valid(s) && Unwinds(s.overrides, s.rollbacks)
    requires forall k | 0 <= k < |events| :: !events[k].RollBack? && !events[k].Delete?
    requires EditCount(s, events) <= UNDO_LIMIT
    ensures
      var s' := After(s, events);
      && Unwinds(s'.overrides, s'.rollbacks) && AllWellFormed(s'.rollbacks)
      && EditCount(s, events) <= |s'.rollbacks|
      && Unwound(s'.overrides, s'.rollbacks, EditCount(s, events)) == s.overrides
  {
    hide Step, Unwinds, Valid, RecordedBy;
    UnwindsIsWellFormed(s.overrides, s.rollbacks);
    if events != [] {
      var n := |events| - 1;
      var s1 := After(s, events[..n]);
      RunUnwindsBack(s, events[..n]);
      StepKeepsUnwinds(s1, events[n]);
      StepUnwindsBack(s1, events[n], EditCount(s, events[..n]));
    }
  }

  /** Rolling back by identifier the `k` newest records, newest first, until one is refused. */
  ghost function UndoNewest(s: State, k: nat): State
    requires AllRestorable(s.rollbacks) && k <= |s.rollbacks|
    decreases k
  {
    if k == 0 then s else
    var recId := s.rollbacks[|s.rollbacks| - 1].id;
    RollbackKeeps(s, recId);
    if RollbackStep(s, recId).1 != Done then s else UndoNewest(RollbackStep(s, recId).0, k - 1)
  }

  /** Records are told apart by their identifiers, as hashes of distinct edits are. */
  ghost predicate DistinctRecords(log: seq<RollbackRecord>) {
    forall i, j | 0 <= i < j < |log| :: log[i].id != log[j].id
  }

  /** The entries that the `k` newest records touch are all still stored. */
  ghost predicate TouchedAreStored(s: State, k: nat)
    requires k <= |s.rollbacks|
  {
    forall i | |s.rollbacks| - k <= i < |s.rollbacks| :: s.rollbacks[i].ids <= s.entries.Keys
  }

  /** The newest record can be rolled back exactly when its entries are still stored. */
  lemma NewestRollsBack(s: State)
    requires AllRestorable(s.rollbacks) && s.rollbacks != [] && DistinctRecords(s.rollbacks)
    ensures
      var n := |s.rollbacks| - 1;
      RollbackStep(s, s.rollbacks[n].id) ==
      if s.rollbacks[n].ids <= s.entries.Keys
      then (s.(overrides := Restore(s.overrides, s.rollbacks[n]), rollbacks := s.rollbacks[..n]), Done)
      else (s, Refused)
  {
    hide Restore;
    var n := |s.rollbacks| - 1;
    var i := FindRecord(s.rollbacks, s.rollbacks[n].id);
    assert i == n;
    assert RemoveAt(s.rollbacks, n) == s.rollbacks[..n];
  }

  /** `u` is what undoing `j` of the `k` newest records of `s` leaves, the next one being refused. */
  ghost predicate UndoneUpTo(s: State, k: nat, u: State, j: nat)
    requires AllWellFormed(s.rollbacks) && k <= |s.rollbacks|
  {
    && j <= k && u.rollbacks == s.rollbacks[..|s.rollbacks| - j]
    && u.overrides == Unwound(s.overrides, s.rollbacks, j)
    && SameImports(s, u) && SameFeedLog(s, u)
    && (j < k ==> !(s.rollbacks[|s.rollbacks| - 1 - j].ids <= s.entries.Keys))
  }

  /** Undoing goes on exactly until a record touches an entry that is no longer stored, and what it has
      undone until then is exactly unwound. So all `k` are undone if and only if the entries they touch
      are all still stored. */
  lemma {:induction false} UndoNewestUnwinds(s: State, k: nat)
    requires AllWellFormed(s.rollbacks) && AllRestorable(s.rollbacks) && k <= |s.rollbacks|
    requires DistinctRecords(s.rollbacks)
    ensures
      var u := UndoNewest(s, k);
      && |u.rollbacks| <= |s.rollbacks| && UndoneUpTo(s, k, u, |s.rollbacks| - |u.rollbacks|)
      && (|u.rollbacks| == |s.rollbacks| - k <==> TouchedAreStored(s, k))
    decreases k
  {
    hide Restore, RollbackStep, UndoneUpTo, TouchedAreStored, Unwound, UndoNewest;
    if k == 0 || !(s.rollbacks[|s.rollbacks| - 1].ids <= s.entries.Keys) {
      NothingUndone(s, k);
    } else {
      var s1 := UndoneOnce(s, k);
      UndoNewestUnwinds(s1, k - 1);
      var u := UndoNewest(s1, k - 1);
      OneMoreUndone(s, s1, k, u, |s1.rollbacks| - |u.rollbacks|);
    }
  }

  lemma NothingUndone(s: State, k: nat)
    requires AllWellFormed(s.rollbacks) && AllRestorable(s.rollbacks) && k <= |s.rollbacks|
    requires DistinctRecords(s.rollbacks)
    requires k == 0 || !(s.rollbacks[|s.rollbacks| - 1].ids <= s.entries.Keys)
    ensures UndoNewest(s, k) == s && UndoneUpTo(s, k, s, 0) && (k == 0 <==> TouchedAreStored(s, k))
  {
    hide Restore, RollbackStep;
    assert s.rollbacks[..|s.rollbacks|] == s.rollbacks;
    if k > 0 {
      NewestRollsBack(s);
    }
  }

  lemma UndoneOnce(s: State, k: nat) returns (s1: State)
    requires AllWellFormed(s.rollbacks) && AllRestorable(s.rollbacks) && 0 < k <= |s.rollbacks|
    requires DistinctRecords(s.rollbacks) && s.rollbacks[|s.rollbacks| - 1].ids <= s.entries.Keys
    ensures
      var n := |s.rollbacks| - 1;
      s1 == s.(overrides := Restore(s.overrides, s.rollbacks[n]), rollbacks := s.rollbacks[..n])
    ensures AllWellFormed(s1.rollbacks) && AllRestorable(s1.rollbacks) && DistinctRecords(s1.rollbacks)
    ensures UndoNewest(s, k) == UndoNewest(s1, k - 1)
  {
    hide Restore, RollbackStep;
    var n := |s.rollbacks| - 1;
    NewestRollsBack(s);
    s1 := s.(overrides := Restore(s.overrides, s.rollbacks[n]), rollbacks := s.rollbacks[..n]);
  }

  lemma OneMoreUndone(s: State, s1: State, k: nat, u: State, j: nat)
    requires AllWellFormed(s.rollbacks) && AllWellFormed(s1.rollbacks) && 0 < k <= |s.rollbacks|
    requires var n := |s.rollbacks| - 1;
             && s1 == s.(overrides := Restore(s.overrides, s.rollbacks[n]), rollbacks := s.rollbacks[..n])
             && s.rollbacks[n].ids <= s.entries.Keys
    ensures TouchedAreStored(s1, k - 1) == TouchedAreStored(s, k)
    ensures UndoneUpTo(s1, k - 1, u, j) ==> UndoneUpTo(s, k, u, j + 1)
  {
    hide Restore, Unwound, AllWellFormed;
    if UndoneUpTo(s1, k - 1, u, j) {
      UnwoundOnce(s.overrides, s.rollbacks, s1.overrides, s1.rollbacks, j);
      TakeOfTake(s.rollbacks, |s.rollbacks| - 1, |s1.rollbacks| - j);
    }
  }

  lemma TakeOfTake<T>(s: seq<T>, n: nat, m: nat)
    requires m <= n <= |s|
    ensures s[..n][..m] == s[..m]
  {
  }

  lemma UnwoundOnce(ovs: Overrides, log: seq<RollbackRecord>, ovs1: Overrides, log1: seq<RollbackRecord>, j: nat)
    requires AllWellFormed(log) && AllWellFormed(log1) && j < |log|
    requires log1 == log[..|log| - 1] && ovs1 == Restore(ovs, log[|log| - 1])
    ensures Unwound(ovs, log, j + 1) == Unwound(ovs1, log1, j)
  {
    hide Restore;
  }

  /** The condition is needed: patch the only entry of a source, let a sync drop the entry, and the edit
      can no longer be undone, although the log still states the current override. */
  lemma SyncCanBlockUndo(s: State, e: Entry, ov: Override, t: SyncTimes)
    requires s.entries == map[e.id := e] && s.rollbacks == [] && e.id !in s.overrides
    requires e.source in s.sources && !s.cfg.largeChangeRequiresReview
    ensures
      var patched := PatchStep(s, e.id, ov, None, "rb").0;
      var synced := SyncStep(patched, e.source, Fetched([]), t).0;
      && Unwinds(synced.overrides, synced.rollbacks) && AllRestorable(synced.rollbacks)
      && RollbackStep(synced, "rb") == (synced, Refused) && synced.overrides != s.overrides
  {
    hide Counted, Patched, DiffEntries;
    var patched := PatchStep(s, e.id, ov, None, "rb").0;
    var synced := SyncStep(patched, e.source, Fetched([]), t).0;
    EditKeepsUnwinds(s.overrides, s.rollbacks, {e.id}, ov, "", "rb", "catalog patch");
    SyncEffect(patched, e.source, [], t);
    assert e.id in SourceIds(patched.entries, e.source);
    assert FindRecord(synced.rollbacks, "rb") == 0;
    assert e.id in synced.rollbacks[0].ids && e.id !in synced.entries;
    assert e.id in synced.overrides;
  }

  // ----- distinct records and stored entries over whole runs -----

  /** No edit reuses the identifier of a record still kept. */
  ghost predicate FreshRecords(s: State, events: seq<Event>)
    requires Valid(s)
  {
    forall k | 0 <= k < |events| && IsEdit(events[k]) :: IsFresh(After(s, events[..k]).rollbacks, events[k].recId)
  }

  ghost predicate IsFresh(log: seq<RollbackRecord>, recId: string) {
    forall i | 0 <= i < |log| :: log[i].id != recId
  }

  lemma PushKeepsDistinct(log: seq<RollbackRecord>, r: RollbackRecord)
    requires DistinctRecords(log) && IsFresh(log, r.id)
    ensures DistinctRecords(PushBounded(log, r, UNDO_LIMIT))
  {
    assert DistinctRecords(log + [r]);
  }

  lemma StepKeepsDistinct(s: State, e: Event)
    requires Valid(s) && DistinctRecords(s.rollbacks) && (IsEdit(e) ==> IsFresh(s.rollbacks, e.recId))
    ensures DistinctRecords(Step(s, e).rollbacks)
  {
    hide PatchStep, BulkPatchStep, ResolveStep, PriorityStep, UpsertStep, SyncStep, ApproveStep, RejectStep,
      GenerateStep, PushBounded, Restore;
    if IsEdit(e) {
      var edits, ids, patch, actor, recId, action := EditParts(s, e);
      if edits {
        PushKeepsDistinct(s.rollbacks, Recorded(s.overrides, ids, patch, actor, recId, action));
      }
    } else if !e.RollBack? && !e.Delete? {
      OthersKeepUndo(s, e);
    }
  }

  lemma {:induction false} RunKeepsDistinct(s: State, events: seq<Event>)
    requires Valid(s) && DistinctRecords(s.rollbacks) && FreshRecords(s, events)
    ensures DistinctRecords(After(s, events).rollbacks)
  {
    hide Step, Valid, DistinctRecords, IsFresh;
    if events != [] {
      var n := |events| - 1;
      forall k | 0 <= k < n && IsEdit(events[k])
        ensures IsFresh(After(s, events[..n][..k]).rollbacks, events[..n][k].recId)
      {
        assert events[..n][..k] == events[..k];
      }
      RunKeepsDistinct(s, events[..n]);
      StepKeepsDistinct(After(s, events[..n]), events[n]);
    }
  }

  /** Only a sync, an approval or a deletion takes an entry away. */
  predicate KeepsEntries(e: Event) {
    !e.Sync? && !e.Approve? && !e.Delete?
  }

  /** An edit touches stored entries only. */
  lemma StepKeepsStored(s: State, e: Event)
    requires Valid(s) && TouchedAreStored(s, |s.rollbacks|) && KeepsEntries(e)
    ensures TouchedAreStored(Step(s, e), |Step(s, e).rollbacks|)
  {
    hide PatchStep, BulkPatchStep, ResolveStep, PriorityStep, UpsertStep, RejectStep, GenerateStep, Restore;
    if IsEdit(e) {
      var edits, ids, patch, actor, recId, action := EditParts(s, e);
    } else {
      match e
      case RollBack(recId) =>
      case Upsert(source, freshId) => UpsertKeeps(s, source, freshId);
      case Reject(id) => RejectKeeps(s, id);
      case GenerateFeed(resolved, record, now) => GenerateKeeps(s, resolved, record, now);
      case SetEmergency(_) =>
      case SetPreset(_) =>
    }
  }

  lemma {:induction false} RunKeepsStored(s: State, events: seq<Event>)
    requires Valid(s) && TouchedAreStored(s, |s.rollbacks|) && forall k | 0 <= k < |events| :: KeepsEntries(events[k])
    ensures TouchedAreStored(After(s, events), |After(s, events).rollbacks|)
  {
    hide Step, Valid, TouchedAreStored;
    if events != [] {
      var n := |events| - 1;
      RunKeepsStored(s, events[..n]);
      StepKeepsStored(After(s, events[..n]), events[n]);
    }
  }

  // ----- what can be undone after a run -----

  /** After any run without rollbacks and deletions that makes at most as many effective edits as the log
      keeps, rolling those edits back newest first succeeds exactly when the entries they touched are
      still stored, and then restores the overrides the run started from. */
  lemma EditsCanBeUndone(s: State, events: seq<Event>)
    requires Valid(s) && Unwinds(s.overrides, s.rollbacks)
    requires DistinctRecords(s.rollbacks) && FreshRecords(s, events)
    requires forall k | 0 <= k < |events| :: !events[k].RollBack? && !events[k].Delete?
    requires EditCount(s, events) <= UNDO_LIMIT
    ensures
      var s', k := After(s, events), EditCount(s, events);
      && k <= |s'.rollbacks|
      && (|UndoNewest(s', k).rollbacks| == |s'.rollbacks| - k <==> TouchedAreStored(s', k))
      && (TouchedAreStored(s', k) ==> UndoNewest(s', k).overrides == s.overrides)
  {
    hide Step, Unwinds, DistinctRecords, FreshRecords, TouchedAreStored, UndoNewest;
    RunUnwindsBack(s, events);
    RunKeepsDistinct(s, events);
    UndoNewestUnwinds(After(s, events), EditCount(s, events));
  }

  // ----- rollbacks in the middle of a run -----

  /** What undoing the whole log would lead to. */
  ghost function Origin(s: State): Overrides
    requires AllWellFormed(s.rollbacks)
  {
    Unwound(s.overrides, s.rollbacks, |s.rollbacks|)
  }

  lemma EditKeepsOrigin(s: State, e: Event)
    requires Valid(s) && Unwinds(s.overrides, s.rollbacks) && IsEdit(e)
    requires |s.rollbacks| + RecordedBy(s, e) <= UNDO_LIMIT
    ensures AllWellFormed(s.rollbacks) && AllWellFormed(Step(s, e).rollbacks)
    ensures Origin(Step(s, e)) == Origin(s) && |Step(s, e).rollbacks| == |s.rollbacks| + RecordedBy(s, e)
  {
    hide Step, Unwinds, Unwound, Recorded;
    StepUnwindsBack(s, e, |s.rollbacks|);
    var edits, ids, patch, actor, recId, action := EditParts(s, e);
  }

  /** While the log has room, no step but a deletion changes where undoing all of it leads, not even a
      rollback from its middle. */
  lemma StepKeepsOrigin(s: State, e: Event)
    requires Valid(s) && Unwinds(s.overrides, s.rollbacks) && !e.Delete?
    requires |s.rollbacks| + RecordedBy(s, e) <= UNDO_LIMIT
    ensures AllWellFormed(s.rollbacks) && AllWellFormed(Step(s, e).rollbacks)
    ensures Origin(Step(s, e)) == Origin(s) && |Step(s, e).rollbacks| <= |s.rollbacks| + RecordedBy(s, e)
  {
    hide Unwinds, Unwound, Restore;
    UnwindsIsWellFormed(s.overrides, s.rollbacks);
    if IsEdit(e) {
      EditKeepsOrigin(s, e);
    } else if e.RollBack? {
      var i := FindRecord(s.rollbacks, e.recId);
      if i < |s.rollbacks| && Newest(s.rollbacks, i) {
        RollbackKeepsUnwinds(s.overrides, s.rollbacks, i);
      }
    } else {
      OthersKeepUndo(s, e);
    }
  }

  /** No step of the run has to forget a record. */
  ghost predicate HasRoom(s: State, events: seq<Event>)
    requires Valid(s)
  {
    forall k | 0 <= k < |events| :: RoomFor(After(s, events[..k]), events[k])
  }

  ghost predicate RoomFor(s: State, e: Event)
    requires AllRestorable(s.rollbacks)
  {
    |s.rollbacks| + RecordedBy(s, e) <= UNDO_LIMIT
  }

  lemma {:induction false} RunKeepsOrigin(s: State, events: seq<Event>)
    requires Valid(s) && Unwinds(s.overrides, s.rollbacks) && HasRoom(s, events)
    requires forall k | 0 <= k < |events| :: !events[k].Delete?
    ensures
      var s' := After(s, events);
      && Unwinds(s'.overrides, s'.rollbacks) && AllWellFormed(s.rollbacks) && AllWellFormed(s'.rollbacks)
      && Origin(s') == Origin(s)
  {
    hide Step, Unwinds, Reviewable, Keyed, RecordedBy, Origin;
    UnwindsIsWellFormed(s.overrides, s.rollbacks);
    if events != [] {
      var n := |events| - 1;
      var s1 := After(s, events[..n]);
      forall k | 0 <= k < n ensures RoomFor(After(s, events[..n][..k]), events[..n][k]) {
        assert events[..n][..k] == events[..k];
      }
      RunKeepsOrigin(s, events[..n]);
      StepKeepsUnwinds(s1, events[n]);
      StepKeepsOrigin(s1, events[n]);
    }
  }

  /** The promise with rollbacks inside the run, however long it is: as long as no record had to be
      forgotten, rolling back what the log then holds, newest first, empties the log exactly when the
      entries it touches are still stored, and then leads to where undoing the log the run started with
      would have led: to the overrides it started from, when that log was empty. */
  lemma WhatIsLeftCanBeUndone(s: State, events: seq<Event>)
    requires Valid(s) && Unwinds(s.overrides, s.rollbacks) && HasRoom(s, events)
    requires DistinctRecords(s.rollbacks) && FreshRecords(s, events)
    requires forall k | 0 <= k < |events| :: !events[k].Delete?
    ensures AllWellFormed(s.rollbacks) && (s.rollbacks == [] ==> Origin(s) == s.overrides)
    ensures
      var s' := After(s, events);
      var u := UndoNewest(s', |s'.rollbacks|);
      && (u.rollbacks == [] <==> TouchedAreStored(s', |s'.rollbacks|))
      && (u.rollbacks == [] ==> u.overrides == Origin(s))
  {
    hide Step, Unwinds, DistinctRecords, FreshRecords, TouchedAreStored, UndoNewest;
    UnwindsIsWellFormed(s.overrides, s.rollbacks);
    RunKeepsOrigin(s, events);
    RunKeepsDistinct(s, events);
    UndoNewestUnwinds(After(s, events), |After(s, events).rollbacks|);
  }

  /** In particular, while no sync, approval or deletion takes entries away, everything can be undone. */
  lemma OperatorsCanUndoAll(s: State, events: seq<Event>)
    requires Valid(s) && s.rollbacks == [] && HasRoom(s, events) && FreshRecords(s, events)
    requires forall k | 0 <= k < |events| :: KeepsEntries(events[k])
    ensures
      var s' := After(s, events);
      var u := UndoNewest(s', |s'.rollbacks|);
      u.rollbacks == [] && u.overrides == s.overrides
  {
    hide Step, FreshRecords, UndoNewest, HasRoom;
    RunKeepsStored(s, events);
    WhatIsLeftCanBeUndone(s, events);
  }

  // ----- the feed ledger over whole runs -----

  /** No stored or pending entry has an empty identifier, and the history balances. */
  ghost predicate Ledger(s: State) {
    && "" !in s.entries && (forall id | id in s.pending :: "" !in Ids(s.pending[id]))
    && Balanced(s) && Telescopes(s.feedHistory)
  }

  /** What is imported has identifiers. */
  predicate Named(e: Event) {
    e.Sync? && e.fetch.Fetched? ==> "" !in Ids(e.fetch.list)
  }

  lemma SyncKeepsLedger(s: State, id: string, fetch: Fetch, times: SyncTimes)
    requires Ledger(s) && (fetch.Fetched? ==> "" !in Ids(fetch.list))
    ensures Ledger(SyncStep(s, id, fetch, times).0)
  {
    SyncKeeps(s, id, fetch, times);
    if fetch.Fetched? {
      InsertAllAt(s.entries - SourceIds(s.entries, id), id, fetch.list, "");
    }
  }

  lemma ApproveKeepsLedger(s: State, id: string)
    requires Ledger(s)
    ensures Ledger(ApproveStep(s, id).0)
  {
    ApproveKeeps(s, id);
    if id in s.pending {
      InsertAllAt(s.entries - SourceIds(s.entries, id), id, s.pending[id], "");
    }
  }

  lemma EditEventKeepsLedger(s: State, e: Event)
    requires Valid(s) && Ledger(s) && IsEdit(e)
    ensures Ledger(Step(s, e))
  {
    hide Step, EditStep;
    var edits, ids, patch, actor, recId, action := EditParts(s, e);
    EditKeeps(s, ids, patch, actor, recId, action);
  }

  lemma StepKeepsLedger(s: State, e: Event)
    requires Valid(s) && Ledger(s) && Named(e)
    ensures Ledger(Step(s, e))
  {
    hide PatchStep, BulkPatchStep, ResolveStep, PriorityStep, RollbackStep, UpsertStep, SyncStep, ApproveStep,
      RejectStep, GenerateStep;
    if IsEdit(e) {
      EditEventKeepsLedger(s, e);
    } else {
      match e
      case RollBack(recId) => RollbackKeeps(s, recId);
      case Upsert(source, freshId) => UpsertKeeps(s, source, freshId);
      case Delete(id) => DeleteKeeps(s, id);
      case Sync(id, fetch, times) => SyncKeepsLedger(s, id, fetch, times);
      case Approve(id) => ApproveKeepsLedger(s, id);
      case Reject(id) => RejectKeeps(s, id);
      case GenerateFeed(resolved, record, now) =>
        GenerateKeeps(s, resolved, record, now);
        GenerateBalances(s, resolved, record, now);
      case SetEmergency(_) =>
      case SetPreset(_) =>
    }
  }

  /** Over every run of named imports and anything else, emergency generations included, each recorded
      feed differs in size from the one before it by what it reports as added and removed. */
  lemma {:induction false} RunKeepsLedger(s: State, events: seq<Event>)
    requires Valid(s) && Ledger(s) && forall k | 0 <= k < |events| :: Named(events[k])
    ensures Ledger(After(s, events))
  {
    hide Step;
    if events != [] {
      var n := |events| - 1;
      RunKeepsLedger(s, events[..n]);
      StepKeepsLedger(After(s, events[..n]), events[n]);
    }
  }
}
