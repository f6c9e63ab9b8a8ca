/** The feed manager as it runs (`Manager` in `internal/aghmanaged/manager.go`). Each public method
    holds the lock for its whole duration here, and is proved to be one step of the state. */
module Manager {
  import opened Collections
  import opened Wire
  import opened Catalog
  import opened Conflicts
  import opened Store
  import opened Undo
  import opened Edits
  import opened Imports
  import opened Feed

  class Manager {
    var cfg: Config
    var preset: string
    var sources: map<string, Source>
    var entries: map<string, Entry>
    var pending: map<string, seq<Entry>>
    var overrides: Overrides
    var rollbacks: seq<RollbackRecord>
    var feedSeen: map<string, int>
    var feedSnapshot: set<string>
    var feedHistory: seq<FeedRecord>
    var targetIPs: seq<Ip>
    var lastResolve: Option<int>

    function Value(): State
      reads this
    {
      State(cfg, preset, sources, entries, pending, overrides, rollbacks,
            feedSeen, feedSnapshot, feedHistory, targetIPs, lastResolve)
    }

    constructor (cfg: Config)
      ensures Value() == State(cfg, "", map[], map[], map[], map[], [], map[], {}, [], [], None)
    {
      this.cfg, preset := cfg, "";
      sources, entries, pending, overrides := map[], map[], map[], map[];
      rollbacks, feedSeen, feedSnapshot, feedHistory := [], map[], {}, [];
      targetIPs, lastResolve := [], None;
    }

    // ----- operator edits -----

    /** The patch loop over a list that may repeat identifiers. */
    method PatchAll(ids: seq<string>, patch: Override, actor: string)
      modifies this`overrides
      ensures overrides == EditAll(old(overrides), AsSet(ids), patch, actor)
    {
      for i := 0 to |ids|
        invariant overrides == EditAll(old(overrides), AsSet(ids[..i]), patch, actor)
      {
        assert ids[..i + 1] == ids[..i] + [ids[i]];
        Snoc(ids[..i], ids[i]);
        PatchIsIdempotent(OverrideOf(old(overrides), ids[i]), patch, actor);
        var cur := OverrideOf(overrides, ids[i]);
        overrides := overrides[ids[i] := Patched(cur, patch, actor)];
      }
      assert ids[..|ids|] == ids;
    }

    /** `captureOverrides`, then the patch loop, then `recordRollbackLocked`. */
    method EditEntries(ids: seq<string>, patch: Override, actor: string, recId: string, action: string)
      modifies this`overrides, this`rollbacks
      ensures Value() == EditStep(old(Value()), AsSet(ids), patch, actor, recId, action)
    {
      hide Patched, AsSet;
      var touched := AsSet(ids);
      var before := Capture(overrides, touched);
      PatchAll(ids, patch, actor);
      var after := map id | id in touched :: overrides[id];
      var rec := RollbackRecord(recId, action, touched, before, after);
      assert rec == Recorded(old(overrides), touched, patch, actor, recId, action);
      rollbacks := rollbacks + [rec];
      if |rollbacks| > UNDO_LIMIT {
        rollbacks := rollbacks[|rollbacks| - UNDO_LIMIT..];
      }
    }

    method PatchEntry(id: string, ov: Override, changedBy: Option<string>, recId: string) returns (outcome: Outcome)
      modifies this`overrides, this`rollbacks
      ensures (Value(), outcome) == PatchStep(old(Value()), id, ov, changedBy, recId)
    {
      if id !in entries {
        return NotFound;
      }
      EditEntries([id], ov, Actor(Value(), changedBy), recId, "catalog patch");
      OneId(id);
      return Done;
    }

    method BulkPatchEntries(ids: seq<string>, ov: Override, changedBy: Option<string>,
                            recId: string) returns (outcome: Outcome)
      modifies this`overrides, this`rollbacks
      ensures (Value(), outcome) == BulkPatchStep(old(Value()), ids, ov, changedBy, recId)
    {
      if |ids| == 0 {
        return Refused;
      }
      for i := 0 to |ids|
        invariant AsSet(ids[..i]) <= entries.Keys
        invariant Value() == old(Value())
      {
        assert ids[..i + 1] == ids[..i] + [ids[i]];
        Snoc(ids[..i], ids[i]);
        if ids[i] !in entries {
          assert ids[i] in AsSet(ids);
          return Refused;
        }
      }
      assert ids[..|ids|] == ids;
      EditEntries(ids, ov, Actor(Value(), changedBy), recId, "catalog bulk patch");
      return Done;
    }

    /** The stored entries with overrides applied, in any order. */
    method ListApplied() returns (list: seq<Entry>)
      ensures AsSet(list) == AppliedEntries(entries, overrides)
      ensures Keyed(entries) ==> Distinct(list)
    {
      list := [];
      var todo := entries.Keys;
      while todo != {}
        invariant todo <= entries.Keys
        invariant AsSet(list) == set id | id in entries && id !in todo :: Applied(entries[id], overrides)
        invariant Keyed(entries) ==> Distinct(list) && forall e | e in list :: e.id in entries && e.id !in todo
        decreases |todo|
      {
        var id :| id in todo;
        todo := todo - {id};
        Snoc(list, Applied(entries[id], overrides));
        list := list + [Applied(entries[id], overrides)];
      }
    }

    /** The conflicts of the stored entries. */
    method ListConflicts() returns (conflicts: map<string, Conflict>)
      ensures forall key :: key in conflicts <==> InConflict(Value(), key)
      ensures forall key | key in conflicts :: AsSet(conflicts[key].rows) == Rows(Value(), key)
      ensures Keyed(entries) ==> forall key | key in conflicts :: Distinct(conflicts[key].rows)
    {
      var list := ListApplied();
      conflicts := BuildConflicts(list, View(overrides, EffectivePreset(Value()), cfg.lower, cfg.trim));
    }

    method ResolveConflict(key: string, ov: Override, changedBy: Option<string>, recId: string)
      returns (outcome: Outcome, ghost target: string)
      requires Keyed(entries)
      modifies this`overrides, this`rollbacks
      ensures InConflict(old(Value()), key) ==> IsTarget(Rows(old(Value()), key), target)
      ensures (Value(), outcome) == ResolveStep(old(Value()), key, target, ov, changedBy, recId)
    {
      hide EditStep, Rows, InConflict, IsTarget, AsSet;
      var conflicts := ListConflicts();
      if key !in conflicts {
        return NotFound, "";
      }
      ConflictParticipates(Value(), key);
      var id := FirstTarget(conflicts[key].rows);
      target := id;
      if id == "" || id !in entries {
        return NotFound, id;
      }
      EditEntries([id], ov, Actor(Value(), changedBy), recId, "conflict resolve");
      OneId(id);
      return Done, id;
    }

    method ResolveConflictByPriority(key: string, changedBy: Option<string>, recId: string) returns (outcome: Outcome)
      requires Keyed(entries)
      modifies this`overrides, this`rollbacks
      ensures (Value(), outcome) == PriorityStep(old(Value()), key, changedBy, recId)
    {
      var conflicts := ListConflicts();
      if key !in conflicts {
        return NotFound;
      }
      var rows := conflicts[key].rows;
      ConflictParticipates(Value(), key);
      var winner, tied := FindWinner(Value(), rows);
      if tied {
        return Refused;
      }
      forall w | IsWinner(Value(), Rows(Value(), key), w) ensures w == winner {
        WinnerIsUnique(Value(), Rows(Value(), key), w, winner);
      }
      var ids := LoserIds(rows, winner);
      if |ids| == 0 {
        return NotFound;
      }
      assert ids[0] in AsSet(ids);
      EditEntries(ids, WinnersPatch(winner), Actor(Value(), changedBy), recId, BY_PRIORITY);
      return Done;
    }

    /** Looks the record up, refuses when an entry is gone or a newer record overlaps, restores. */
    method Rollback(recId: string) returns (outcome: Outcome)
      requires AllRestorable(rollbacks)
      modifies this`overrides, this`rollbacks
      ensures (Value(), outcome) == RollbackStep(old(Value()), recId)
    {
      var idx := 0;
      while idx < |rollbacks| && rollbacks[idx].id != recId
        invariant idx <= |rollbacks|
        invariant forall j | 0 <= j < idx :: rollbacks[j].id != recId
      {
        idx := idx + 1;
      }
      assert idx == FindRecord(rollbacks, recId);
      if idx == |rollbacks| {
        return NotFound;
      }
      var rec := rollbacks[idx];
      if !(rec.ids <= entries.Keys) {
        return Refused;
      }
      for i := idx + 1 to |rollbacks|
        invariant forall j | idx < j < i :: rollbacks[j].ids !! rec.ids
        invariant Value() == old(Value())
      {
        if !(rollbacks[i].ids !! rec.ids) {
          return Refused;
        }
      }
      overrides := RestoreAll(overrides, rec);
      rollbacks := rollbacks[..idx] + rollbacks[idx + 1..];
      return Done;
    }

    // ----- sources -----

    method UpsertSource(given: Source, freshId: string) returns (outcome: Outcome)
      modifies this`sources
      ensures (Value(), outcome) == UpsertStep(old(Value()), given, freshId)
    {
      var src := WithDefaults(Value(), given, freshId);
      if !ValidSource(src) {
        return Refused;
      }
      if src.id in sources {
        src := src.(sync := sources[src.id].sync);
      }
      sources := sources[src.id := src];
      return Done;
    }

    method DeleteSource(id: string)
      modifies this
      ensures Value() == DeleteStep(old(Value()), id)
    {
      sources := sources - {id};
      pending := pending - {id};
      var kept, gone := Replace(entries, id, []);
      entries := kept;
      overrides := overrides - gone;
      feedSeen := feedSeen - gone;
    }

    /** `applyEntriesLocked`. */
    method Apply(id: string, list: seq<Entry>)
      modifies this`entries, this`feedSeen
      ensures entries == ApplyEntries(old(entries), id, list)
      ensures feedSeen == old(feedSeen) - SourceIds(old(entries), id)
    {
      var gone;
      entries, gone := Replace(entries, id, list);
      feedSeen := feedSeen - gone;
    }

    /** The counts of a list against the entries stored now. */
    method Count(r: SyncRecord, id: string, list: seq<Entry>) returns (counted: SyncRecord)
      ensures counted == Counted(r, entries, id, list)
    {
      var d := ComputeDiff(Previous(entries, id), list);
      var unsupported, allow := CountImported(list);
      counted := r.(entries := |list|, added := d.added, removed := d.removed, changed := d.changed,
                    unsupported := unsupported, allowExceptions := allow);
    }

    method SyncSource(id: string, fetch: Fetch, t: SyncTimes) returns (outcome: Outcome)
      modifies this
      ensures (Value(), outcome) == SyncStep(old(Value()), id, fetch, t)
    {
      if id !in sources {
        return NotFound;
      }
      var src := sources[id];
      match fetch {
        case Failed(error) =>
          sources := sources[id := src.(sync := Failing(src.sync, error, t))];
          return Refused;
        case Fetched(list) =>
          Import(id, list, t);
          return Done;
      }
    }

    /** The successful half of a sync. */
    method Import(id: string, list: seq<Entry>, t: SyncTimes)
      requires id in sources
      modifies this
      ensures Value() == SyncStep(old(Value()), id, Fetched(list), t).0
    {
      hide Counted, LargeChange, ApplyEntries, HeldBack, Succeeding, SourceIds;
      var src := sources[id];
      var counted := Count(Succeeding(src.sync, t), id, list);
      var large := TripsReview(counted.removed + counted.changed, |list|, cfg);
      CountsDecide(Succeeding(src.sync, t), Value(), id, list);
      sources := sources[id := src.(sync := counted.(pendingReview := large))];
      if !large {
        Apply(id, list);
        pending := pending - {id};
      } else {
        pending := pending[id := list];
      }
    }

    method ApproveSource(id: string) returns (outcome: Outcome)
      modifies this
      ensures (Value(), outcome) == ApproveStep(old(Value()), id)
    {
      hide Counted, ApplyEntries, SourceIds;
      if id !in sources || id !in pending {
        return NotFound;
      }
      var src, list := sources[id], pending[id];
      var counted := Count(src.sync, id, list);
      Apply(id, list);
      pending := pending - {id};
      sources := sources[id := src.(sync := counted.(pendingReview := false))];
      return Done;
    }

    method RejectSource(id: string) returns (outcome: Outcome)
      modifies this`sources, this`pending
      ensures (Value(), outcome) == RejectStep(old(Value()), id)
    {
      if id !in sources || id !in pending {
        return NotFound;
      }
      var src := sources[id];
      pending := pending - {id};
      sources := sources[id := src.(sync := src.sync.(pendingReview := false))];
      return Done;
    }

    // ----- the feed -----

    /** `persistGenerationLocked`. */
    method Persist(included: set<string>, count: nat, rest: nat, conflicts: nat, now: int)
      modifies this`feedSnapshot, this`feedHistory
      ensures Value() == RecordGeneration(old(Value()), included, count, rest, conflicts, now)
    {
      var next, added, removed := SnapshotDelta(feedSnapshot, included);
      feedSnapshot := next;
      feedHistory := feedHistory + [FeedRecord(now, count, rest, added, removed, conflicts,
                                               NonEmpty(cfg.targetMode, "resolved_ip"), cfg.emergencyEmpty)];
      if |feedHistory| > HISTORY_LIMIT {
        feedHistory := feedHistory[|feedHistory| - HISTORY_LIMIT..];
      }
    }

    /** Resolves, switches to the emergency feed when it must, and returns the addresses to use. */
    method PrepareTarget(resolved: Option<seq<Ip>>, record: bool, now: int) returns (ips: seq<Ip>)
      modifies this`cfg, this`targetIPs, this`lastResolve
      ensures ips == TargetIps(old(Value()), resolved, now)
      ensures Value() == AutoEmergency(RememberTarget(old(Value()), resolved, now), ips, record)
    {
      ips := [];
      if ResolvedMode(cfg) {
        if resolved.Some? {
          ips, targetIPs, lastResolve := resolved.value, resolved.value, Some(now);
        } else if targetIPs != [] && lastResolve.Some? && now - lastResolve.value <= cfg.staleTargetTTL {
          ips := targetIPs;
        }
        if ips == [] && cfg.autoEmergencyEmpty && record {
          cfg := cfg.(emergencyEmpty := true);
        }
      }
    }

    method Generate(resolved: Option<seq<Ip>>, record: bool, now: int) returns (g: Generated)
      requires Keyed(entries)
      modifies this
      ensures (Value(), g) == GenerateStep(old(Value()), resolved, record, now)
    {
      hide Items, ConflictKeys, RecordGeneration, InConflict, MarkSeen, IncludedIds, AutoEmergency,
        RememberTarget, TargetIps;
      var ips := PrepareTarget(resolved, record, now);
      ghost var s1 := Value();
      var conflicts := ListConflicts();
      ConflictsByKey(s1, conflicts.Keys);
      if cfg.emergencyEmpty || !cfg.enabled {
        g := Generated(map[], 0, |entries|, cfg.emergencyEmpty, true);
        if record {
          Persist({}, 0, |entries|, |conflicts.Keys|, now);
        }
        return;
      }
      if ResolvedMode(cfg) && ips == [] {
        return Generated(map[], 0, 0, false, false);
      }
      var items, included, count, rest := GenerateItems(Value(), ips, now, conflicts);
      g := Generated(items, count, rest, false, true);
      if record {
        feedSeen := MarkSeen(feedSeen, included, now);
        Persist(included, count, rest, |conflicts.Keys|, now);
      }
    }

    method SetEmergencyEmpty(on: bool)
      modifies this`cfg
      ensures Value() == old(Value()).(cfg := old(cfg).(emergencyEmpty := on))
    {
      cfg := cfg.(emergencyEmpty := on);
    }

    method SetPreset(p: string) returns (outcome: Outcome)
      modifies this`preset
      ensures outcome == (if p in {"conservative", "balanced", "aggressive"} then Done else Refused)
      ensures Value() == if outcome == Done then old(Value()).(preset := p) else old(Value())
    {
      if p != "conservative" && p != "balanced" && p != "aggressive" {
        return Refused;
      }
      preset := p;
      return Done;
    }
  }

  // ----- the loop of a rollback -----

  /** The overrides once the entries `done` of a record have been restored. */
  ghost function RestoreSome(ovs: Overrides, r: RollbackRecord, done: set<string>): Overrides
    requires done <= r.before.Keys
  {
    map id | id in ovs.Keys + done && (id in done ==> r.before[id].Some?) ::
      if id in done then r.before[id].value else ovs[id]
  }

  lemma RestoreOneMore(ovs: Overrides, r: RollbackRecord, todo: set<string>, id: string)
    requires r.before.Keys == r.ids && id in todo && todo <= r.ids
    ensures RestoreSome(ovs, r, r.ids - (todo - {id})) ==
            RestoreOne(RestoreSome(ovs, r, r.ids - todo), id, r.before[id])
  {
    assert r.ids - (todo - {id}) == (r.ids - todo) + {id};
  }

  /** One turn of the restoring loop. */
  function RestoreOne(ovs: Overrides, id: string, was: Option<Override>): Overrides {
    if was.Some? then ovs[id := was.value] else ovs - {id}
  }

  /** The restoring loop. */
  method RestoreAll(ovs: Overrides, rec: RollbackRecord) returns (out: Overrides)
    requires rec.before.Keys == rec.ids
    ensures out == Restore(ovs, rec)
  {
    out := ovs;
    var todo := rec.ids;
    RestoreBounds(ovs, rec);
    while todo != {}
      invariant todo <= rec.ids
      invariant out == RestoreSome(ovs, rec, rec.ids - todo)
      decreases |todo|
    {
      var id :| id in todo;
      RestoreOneMore(ovs, rec, todo, id);
      out := RestoreOne(out, id, rec.before[id]);
      todo := todo - {id};
    }
    assert rec.ids - todo == rec.ids;
  }

  lemma RestoreBounds(ovs: Overrides, r: RollbackRecord)
    requires r.before.Keys == r.ids
    ensures RestoreSome(ovs, r, r.ids - r.ids) == ovs && RestoreSome(ovs, r, r.ids) == Restore(ovs, r)
  {
    assert r.ids - r.ids == {};
  }

  // ----- the parts of an import -----

  lemma CountsDecide(r: SyncRecord, s: State, id: string, list: seq<Entry>)
    ensures var counted := Counted(r, s.entries, id, list);
            LargeChange(counted.removed + counted.changed, |list|, s.cfg) == HeldBack(s, id, list)
  {
  }

  lemma OneId(id: string)
    ensures AsSet([id]) == {id}
  {
  }

  // ----- the loops of conflict resolution -----

  lemma ConflictsByKey(s: State, keys: set<string>)
    requires forall key :: key in keys <==> InConflict(s, key)
    ensures keys == ConflictKeys(s)
  {
    forall key | key in keys ensures key in ConflictKeys(s) {
      ConflictHasRows(AppliedEntries(s.entries, s.overrides), ViewOf(s), key);
      var e :| e in AppliedEntries(s.entries, s.overrides) && InGroup(e, key);
      var id :| id in s.entries && e == Applied(s.entries[id], s.overrides);
      assert Key(s.entries[id]) == key;
    }
  }

  /** The least identifier among the rows that satisfy `p`. */
  method LeastAmong(rows: seq<Row>, p: Row -> bool) returns (found: bool, id: string)
    ensures found <==> exists r :: r in rows && p(r)
    ensures found ==> IsLeast(IdsOf(set r | r in rows && p(r)), id)
  {
    found, id := false, "";
    for i := 0 to |rows|
      invariant found <==> exists r :: r in rows[..i] && p(r)
      invariant found ==> IsLeast(IdsOf(set r | r in rows[..i] && p(r)), id)
    {
      var row := rows[i];
      assert rows[..i + 1] == rows[..i] + [row];
      if p(row) {
        ghost var was := set r | r in rows[..i] && p(r);
        assert (set r | r in rows[..i + 1] && p(r)) == was + {row};
        assert IdsOf(was + {row}) == IdsOf(was) + {row.entry.id};
        assert !found ==> was == {};
        if !found || StrLeq(row.entry.id, id) {
          forall other | other in IdsOf(was) ensures StrLeq(row.entry.id, other) {
            StrLeqOrders(row.entry.id, id, other);
          }
          StrLeqOrders(row.entry.id, row.entry.id, "");
          found, id := true, row.entry.id;
        } else {
          StrLeqOrders(row.entry.id, id, "");
        }
      } else {
        assert (set r | r in rows[..i + 1] && p(r)) == (set r | r in rows[..i] && p(r));
      }
    }
    assert rows[..|rows|] == rows;
  }

  method FirstTarget(rows: seq<Row>) returns (id: string)
    requires exists r :: r in AsSet(rows) && Participant(r)
    ensures IsTarget(AsSet(rows), id)
  {
    var found;
    found, id := LeastAmong(rows, r => Candidate(r));
    assert (set r | r in rows && Candidate(r)) == set r | r in AsSet(rows) && Candidate(r);
    if !found {
      found, id := LeastAmong(rows, r => true);
      assert (set r | r in rows && true) == AsSet(rows);
    }
  }

  /** The loop that looks for the participant of highest source priority and notices ties. The rows
      of a group are of different entries. */
  method FindWinner(s: State, rows: seq<Row>) returns (winner: Row, tied: bool)
    requires Distinct(rows)
    requires exists r :: r in AsSet(rows) && Participant(r)
    ensures tied <==> !HasWinner(s, AsSet(rows))
    ensures !tied ==> IsWinner(s, AsSet(rows), winner)
  {
    var winnerSet := false;
    tied := false;
    winner := rows[0];
    for i := 0 to |rows|
      invariant winnerSet <==> exists r :: r in rows[..i] && Participant(r)
      invariant winnerSet ==> winner in rows[..i] && Participant(winner)
      invariant winnerSet ==> forall q | q in rows[..i] && Participant(q) :: Priority(s, q) <= Priority(s, winner)
      invariant winnerSet ==>
        (tied <==> exists q :: q in rows[..i] && Participant(q) && q != winner && Priority(s, q) == Priority(s, winner))
      invariant !winnerSet ==> !tied
    {
      var row := rows[i];
      assert rows[..i + 1] == rows[..i] + [row];
      if Participant(row) {
        if !winnerSet || Priority(s, row) > Priority(s, winner) {
          winner, winnerSet, tied := row, true, false;
        } else if Priority(s, row) == Priority(s, winner) {
          assert row !in rows[..i];
          tied := true;
        }
      }
    }
    assert rows[..|rows|] == rows;
    if tied {
      TiedHasNoWinner(s, rows, winner);
    } else {
      assert IsWinner(s, AsSet(rows), winner);
    }
  }

  lemma TiedHasNoWinner(s: State, rows: seq<Row>, top: Row)
    requires top in rows && Participant(top)
    requires forall q | q in rows && Participant(q) :: Priority(s, q) <= Priority(s, top)
    requires exists q :: q in rows && Participant(q) && q != top && Priority(s, q) == Priority(s, top)
    ensures !HasWinner(s, AsSet(rows))
  {
    var q :| q in rows && Participant(q) && q != top && Priority(s, q) == Priority(s, top);
    assert q in AsSet(rows) && top in AsSet(rows);
  }

  method LoserIds(rows: seq<Row>, w: Row) returns (ids: seq<string>)
    ensures AsSet(ids) == Losers(AsSet(rows), w)
  {
    ids := [];
    for i := 0 to |rows|
      invariant AsSet(ids) == Losers(AsSet(rows[..i]), w)
    {
      assert rows[..i + 1] == rows[..i] + [rows[i]];
      Snoc(rows[..i], rows[i]);
      if rows[i].entry.id != w.entry.id {
        Snoc(ids, rows[i].entry.id);
        ids := ids + [rows[i].entry.id];
      }
    }
    assert rows[..|rows|] == rows;
  }
}
