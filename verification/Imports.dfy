/** Importing sources under review (`UpsertSource`, `DeleteSource`, `SyncSource`, `ApproveSource` and
    `RejectSource` in `internal/aghmanaged/manager.go`), each as one atomic step. What a fetch
    brought, and the clock, are inputs. */
module Imports {
  import opened Collections
  import opened Wire
  import opened Catalog
  import opened Conflicts
  import opened Store

  // ----- replacing the entries of a source -----

  function SourceIds(entries: map<string, Entry>, src: string): set<string> {
    set id | id in entries && entries[id].source == src
  }

  /** Stores a list in order, so that a repeated identifier keeps its last entry. */
  function InsertAll(entries: map<string, Entry>, src: string, list: seq<Entry>): map<string, Entry> {
    if list == [] then entries
    else
      var last := list[|list| - 1];
      InsertAll(entries, src, list[..|list| - 1])[last.id := last.(source := src)]
  }

  /** `applyEntriesLocked`: the old entries of the source go, the list comes in. */
  function ApplyEntries(entries: map<string, Entry>, src: string, list: seq<Entry>): map<string, Entry> {
    InsertAll(entries - SourceIds(entries, src), src, list)
  }

  function Ids(list: seq<Entry>): set<string> {
    set e | e in list :: e.id
  }

  /** The two loops of `applyEntriesLocked` on the entry map. */
  method Replace(entries: map<string, Entry>, src: string, list: seq<Entry>)
    returns (out: map<string, Entry>, deleted: set<string>)
    ensures out == ApplyEntries(entries, src, list) && deleted == SourceIds(entries, src)
  {
    out, deleted := entries, {};
    var todo := entries.Keys;
    while todo != {}
      invariant todo <= entries.Keys
      invariant deleted == set id | id in entries.Keys - todo && entries[id].source == src
      invariant out == entries - deleted
      decreases |todo|
    {
      var eid :| eid in todo;
      todo := todo - {eid};
      if entries[eid].source == src {
        out := out - {eid};
        deleted := deleted + {eid};
      }
    }
    assert deleted == SourceIds(entries, src);
    ghost var kept := out;
    for i := 0 to |list|
      invariant out == InsertAll(kept, src, list[..i])
    {
      assert list[..i + 1][..i] == list[..i];
      var e := list[i].(source := src);
      out := out[e.id := e];
    }
    assert list[..|list|] == list;
  }

  /** Which entry the list leaves under an identifier, and what stays when it has none. */
  lemma {:induction false} InsertAllAt(entries: map<string, Entry>, src: string, list: seq<Entry>, id: string)
    ensures id in InsertAll(entries, src, list) <==> id in entries || id in Ids(list)
    ensures id !in Ids(list) && id in entries ==> InsertAll(entries, src, list)[id] == entries[id]
    ensures id in Ids(list) ==>
              exists e :: e in list && e.id == id && InsertAll(entries, src, list)[id] == e.(source := src)
  {
    if list != [] {
      var n := |list| - 1;
      InsertAllAt(entries, src, list[..n], id);
      assert list == list[..n] + [list[n]];
      assert forall e :: e in list <==> e in list[..n] || e == list[n];
      if list[n].id == id {
        assert list[n] in list;
      } else if id in Ids(list) {
        var e :| e in list && e.id == id;
        assert e in list[..n];
      }
    }
  }

  // ----- the size of a change -----

  /** The stored entries of a source, by identifier. */
  function Previous(entries: map<string, Entry>, src: string): map<string, Entry> {
    map id | id in entries && entries[id].source == src :: entries[id]
  }

  predicate Differs(was: Entry, e: Entry) {
    was.originalRule != e.originalRule || was.category != e.category || was.resourceType != e.resourceType
  }

  datatype Diff = Diff(added: nat, removed: nat, changed: nat)

  function CountAdded(p: map<string, Entry>, next: seq<Entry>): nat {
    if next == [] then 0
    else CountAdded(p, next[..|next| - 1]) + if next[|next| - 1].id !in p then 1 else 0
  }

  function CountChanged(p: map<string, Entry>, next: seq<Entry>): nat {
    if next == [] then 0
    else
      var e := next[|next| - 1];
      CountChanged(p, next[..|next| - 1]) + if e.id in p && Differs(p[e.id], e) then 1 else 0
  }

  function DiffEntries(p: map<string, Entry>, next: seq<Entry>): Diff {
    Diff(CountAdded(p, next), |p.Keys - Ids(next)|, CountChanged(p, next))
  }

  /** `diffEntries`: one pass over the new list, one over the old identifiers. */
  method ComputeDiff(p: map<string, Entry>, next: seq<Entry>) returns (d: Diff)
    ensures d == DiffEntries(p, next)
  {
    var added: nat, changed: nat, n: set<string> := 0, 0, {};
    for i := 0 to |next|
      invariant added == CountAdded(p, next[..i]) && changed == CountChanged(p, next[..i])
      invariant n == Ids(next[..i])
    {
      var e := next[i];
      assert next[..i + 1] == next[..i] + [e] && next[..i + 1][..i] == next[..i];
      n := n + {e.id};
      if e.id !in p {
        added := added + 1;
      } else if Differs(p[e.id], e) {
        changed := changed + 1;
      }
    }
    assert next[..|next|] == next;
    var removed := CountOutside(p.Keys, n);
    d := Diff(added, removed, changed);
  }

  function CountUnsupported(list: seq<Entry>): nat {
    if list == [] then 0
    else CountUnsupported(list[..|list| - 1])
         + if list[|list| - 1].unsupported || list[|list| - 1].layer == "dom" then 1 else 0
  }

  function CountAllows(list: seq<Entry>): nat {
    if list == [] then 0
    else CountAllows(list[..|list| - 1]) + if Allows(list[|list| - 1]) then 1 else 0
  }

  method CountImported(list: seq<Entry>) returns (unsupported: nat, allow: nat)
    ensures unsupported == CountUnsupported(list) && allow == CountAllows(list)
  {
    unsupported, allow := 0, 0;
    for i := 0 to |list|
      invariant unsupported == CountUnsupported(list[..i]) && allow == CountAllows(list[..i])
    {
      assert list[..i + 1][..i] == list[..i];
      if list[i].unsupported || list[i].layer == "dom" {
        unsupported := unsupported + 1;
      }
      if Allows(list[i]) {
        allow := allow + 1;
      }
    }
    assert list[..|list|] == list;
  }

  /** The program divides, rounding down; comparing the product instead is the same test. */
  lemma ShareTest(x: nat, size: nat, percent: int)
    requires size > 0
    ensures x / size >= percent <==> x >= percent * size
  {
    var q := x / size;
    assert x == q * size + x % size && 0 <= x % size < size;
    if q >= percent {
      assert q * size >= percent * size;
    } else {
      assert (q + 1) * size <= percent * size;
    }
  }

  /** `touched` removed and changed entries are too many, as a count or as a share of a new list of `size`. */
  predicate LargeChange(touched: nat, size: nat, cfg: Config) {
    cfg.largeChangeRequiresReview &&
    ((cfg.largeChangeCount > 0 && touched >= cfg.largeChangeCount)
     || (cfg.largeChangePercent > 0 && size != 0 && touched * 100 >= cfg.largeChangePercent * size))
  }

  /** `largeChange` as it runs, with its division. */
  method TripsReview(touched: nat, size: nat, cfg: Config) returns (large: bool)
    ensures large == LargeChange(touched, size, cfg)
  {
    if !cfg.largeChangeRequiresReview {
      return false;
    }
    if cfg.largeChangeCount > 0 && touched >= cfg.largeChangeCount {
      return true;
    }
    if cfg.largeChangePercent <= 0 || size == 0 {
      return false;
    }
    ShareTest(touched * 100, size, cfg.largeChangePercent);
    return touched * 100 / size >= cfg.largeChangePercent;
  }

  // ----- the steps -----

  datatype Fetch = Fetched(list: seq<Entry>) | Failed(error: string)

  /** The clock readings of one sync. */
  datatype SyncTimes = SyncTimes(started: int, finished: int, durationMS: int, next: int)

  /** The record with a new list counted against the entries stored now. */
  function Counted(r: SyncRecord, entries: map<string, Entry>, id: string, list: seq<Entry>): SyncRecord {
    var d := DiffEntries(Previous(entries, id), list);
    r.(entries := |list|, added := d.added, removed := d.removed, changed := d.changed,
       unsupported := CountUnsupported(list), allowExceptions := CountAllows(list))
  }

  function Failing(r: SyncRecord, error: string, t: SyncTimes): SyncRecord {
    r.(lastSyncStarted := t.started, lastDurationMS := t.durationMS, lastError := error,
       consecutiveFails := r.consecutiveFails + 1, nextSync := t.next)
  }

  function Succeeding(r: SyncRecord, t: SyncTimes): SyncRecord {
    r.(lastSyncStarted := t.started, lastDurationMS := t.durationMS, lastError := "",
       lastSuccess := Some(t.finished), consecutiveFails := 0, nextSync := t.next)
  }

  function WithRecord(s: State, id: string, r: SyncRecord): State
    requires id in s.sources
  {
    s.(sources := s.sources[id := s.sources[id].(sync := r)])
  }

  /** Puts a list in force. */
  function Activate(s: State, id: string, list: seq<Entry>): State {
    s.(entries := ApplyEntries(s.entries, id, list),
       feedSeen := s.feedSeen - SourceIds(s.entries, id),
       pending := s.pending - {id})
  }

  /** The list changes so much of the source that it must be reviewed first. */
  predicate HeldBack(s: State, id: string, list: seq<Entry>) {
    var d := DiffEntries(Previous(s.entries, id), list);
    LargeChange(d.removed + d.changed, |list|, s.cfg)
  }

  function SyncStep(s: State, id: string, fetch: Fetch, t: SyncTimes): (State, Outcome) {
    if id !in s.sources then (s, NotFound) else
    var r := s.sources[id].sync;
    match fetch
    case Failed(error) => (WithRecord(s, id, Failing(r, error, t)), Refused)
    case Fetched(list) =>
      var counted := Counted(Succeeding(r, t), s.entries, id, list);
      var large := HeldBack(s, id, list);
      var s1 := WithRecord(s, id, counted.(pendingReview := large));
      (if large then s1.(pending := s1.pending[id := list]) else Activate(s1, id, list), Done)
  }

  function ApproveStep(s: State, id: string): (State, Outcome) {
    if id !in s.sources || id !in s.pending then (s, NotFound) else
    var list := s.pending[id];
    var counted := Counted(s.sources[id].sync, s.entries, id, list);
    (Activate(WithRecord(s, id, counted.(pendingReview := false)), id, list), Done)
  }

  function RejectStep(s: State, id: string): (State, Outcome) {
    if id !in s.sources || id !in s.pending then (s, NotFound)
    else (WithRecord(s, id, s.sources[id].sync.(pendingReview := false)).(pending := s.pending - {id}), Done)
  }

  function DeleteStep(s: State, id: string): State {
    var gone := SourceIds(s.entries, id);
    s.(sources := s.sources - {id}, pending := s.pending - {id}, entries := s.entries - gone,
       overrides := s.overrides - gone, feedSeen := s.feedSeen - gone)
  }

  predicate ValidKind(kind: string) {
    kind == "filter_url" || kind == "manual" || kind == "agh_custom_rules" || kind == "agh_query_log_cname"
  }

  predicate ValidPolicy(policy: string) {
    policy == "exclude" || policy == "keep"
  }

  /** The defaults `UpsertSource` fills in; `freshId` is the hash of the source's description. */
  function WithDefaults(s: State, src: Source, freshId: string): Source {
    src.(kind := NonEmpty(src.kind, "filter_url"), name := NonEmpty(src.name, src.url),
         id := NonEmpty(src.id, freshId), syncInterval := NonEmpty(src.syncInterval, s.cfg.defaultSyncInterval),
         staleFeedPolicy := NonEmpty(src.staleFeedPolicy, "exclude"))
  }

  predicate ValidSource(src: Source) {
    && ValidKind(src.kind) && ValidPolicy(src.staleFeedPolicy)
    && (src.kind != "manual" ==> src.url != "") && (src.kind == "manual" ==> src.content != "")
  }

  /** Editing a source keeps everything recorded about its syncs. */
  function UpsertStep(s: State, given: Source, freshId: string): (State, Outcome) {
    var src := WithDefaults(s, given, freshId);
    if !ValidSource(src) then (s, Refused) else
    var kept := if src.id in s.sources then src.(sync := s.sources[src.id].sync) else src;
    (s.(sources := s.sources[src.id := kept]), Done)
  }

  // ----- the review gate -----

  /** A pending list always belongs to a source that is marked for review. */
  ghost predicate Reviewable(s: State) {
    forall id | id in s.pending :: id in s.sources && s.sources[id].sync.pendingReview
  }

  /** What a sync of a known source does to everything but the source's own record. */
  lemma SyncEffect(s: State, id: string, list: seq<Entry>, t: SyncTimes)
    requires id in s.sources
    ensures SyncStep(s, id, Fetched(list), t).0.overrides == s.overrides
    ensures SyncStep(s, id, Fetched(list), t).0.rollbacks == s.rollbacks
    ensures id in SyncStep(s, id, Fetched(list), t).0.sources
    ensures SyncStep(s, id, Fetched(list), t).0.sources[id].sync.pendingReview == HeldBack(s, id, list)
    ensures HeldBack(s, id, list) ==>
              var s' := SyncStep(s, id, Fetched(list), t).0;
              s'.entries == s.entries && s'.feedSeen == s.feedSeen && s'.pending == s.pending[id := list]
    ensures !HeldBack(s, id, list) ==>
              var s' := SyncStep(s, id, Fetched(list), t).0;
              s'.entries == ApplyEntries(s.entries, id, list) && s'.pending == s.pending - {id}
  {
    hide Counted, ApplyEntries, SourceIds, HeldBack;
  }

  /** The gate: an import becomes pending exactly when it trips `LargeChange`, and while it is
      pending the active entries, the overrides and the undo log are what they were. */
  lemma GateHolds(s: State, id: string, list: seq<Entry>, t: SyncTimes)
    requires id in s.sources
    ensures id in SyncStep(s, id, Fetched(list), t).0.pending <==> HeldBack(s, id, list)
    ensures id in SyncStep(s, id, Fetched(list), t).0.pending ==>
              SameRules(s, SyncStep(s, id, Fetched(list), t).0)
  {
    SyncEffect(s, id, list, t);
  }

  /** The two states have the same entries, overrides and undo log. */
  ghost predicate SameRules(s: State, s': State) {
    s'.entries == s.entries && s'.overrides == s.overrides && s'.rollbacks == s.rollbacks
  }

  /** A failed fetch and a rejection leave the rules as they were. */
  lemma FailureAndRejectionKeepRules(s: State, id: string, error: string, t: SyncTimes)
    ensures SameRules(s, SyncStep(s, id, Failed(error), t).0)
    ensures SameRules(s, RejectStep(s, id).0)
  {
  }

  /** Counting a list twice against the same entries gives the record of counting it once. */
  lemma ApprovedRecord(s: State, id: string, list: seq<Entry>, t: SyncTimes)
    requires id in s.sources && HeldBack(s, id, list)
    ensures ApproveStep(SyncStep(s, id, Fetched(list), t).0, id).0.sources ==
            s.sources[id := s.sources[id].(sync :=
              Counted(Succeeding(s.sources[id].sync, t), s.entries, id, list).(pendingReview := false))]
  {
    hide HeldBack, ApplyEntries, SourceIds, DiffEntries, CountUnsupported, CountAllows, Succeeding, Previous;
    var once := Counted(Succeeding(s.sources[id].sync, t), s.entries, id, list);
    assert Counted(once.(pendingReview := true), s.entries, id, list).(pendingReview := false)
        == once.(pendingReview := false);
  }

  lemma ApprovedEntries(s: State, id: string, list: seq<Entry>, t: SyncTimes)
    requires id in s.sources && HeldBack(s, id, list)
    ensures
      var approved := ApproveStep(SyncStep(s, id, Fetched(list), t).0, id).0;
      && approved.entries == ApplyEntries(s.entries, id, list)
      && approved.feedSeen == s.feedSeen - SourceIds(s.entries, id)
      && approved.pending == s.pending - {id}
  {
    hide Counted, ApplyEntries, SourceIds, HeldBack;
    assert s.pending[id := list] - {id} == s.pending - {id};
  }

  function Ungated(s: State): State {
    s.(cfg := s.cfg.(largeChangeRequiresReview := false))
  }

  lemma UngatedSync(s: State, id: string, list: seq<Entry>, t: SyncTimes)
    requires id in s.sources
    ensures
      var ungated := SyncStep(Ungated(s), id, Fetched(list), t).0;
      && ungated.entries == ApplyEntries(s.entries, id, list)
      && ungated.feedSeen == s.feedSeen - SourceIds(s.entries, id)
      && ungated.pending == s.pending - {id}
      && ungated.sources == s.sources[id := s.sources[id].(sync :=
           Counted(Succeeding(s.sources[id].sync, t), s.entries, id, list).(pendingReview := false))]
  {
    assert !HeldBack(Ungated(s), id, list);
  }

  /** Holding a list back and then approving it gives the same state, in all that the feed depends
      on, as letting it straight in. */
  lemma ApprovalEqualsUngatedSync(s: State, id: string, list: seq<Entry>, t: SyncTimes)
    requires id in s.sources && id in SyncStep(s, id, Fetched(list), t).0.pending
    ensures
      var approved := ApproveStep(SyncStep(s, id, Fetched(list), t).0, id).0;
      var ungated := SyncStep(Ungated(s), id, Fetched(list), t).0;
      && approved.entries == ungated.entries && approved.feedSeen == ungated.feedSeen
      && approved.pending == ungated.pending && approved.sources == ungated.sources
  {
    GateHolds(s, id, list, t);
    ApprovedRecord(s, id, list, t);
    ApprovedEntries(s, id, list, t);
    UngatedSync(s, id, list, t);
  }

  /** Entries of other sources are untouched by an import that does not claim their identifiers. */
  lemma ImportKeepsOthers(entries: map<string, Entry>, src: string, list: seq<Entry>, id: string)
    requires id in entries && entries[id].source != src && id !in Ids(list)
    ensures id in ApplyEntries(entries, src, list) && ApplyEntries(entries, src, list)[id] == entries[id]
  {
    InsertAllAt(entries - SourceIds(entries, src), src, list, id);
  }

  /** After an import the source has exactly the identifiers of the list. */
  lemma ImportReplacesSource(entries: map<string, Entry>, src: string, list: seq<Entry>)
    ensures SourceIds(ApplyEntries(entries, src, list), src) == Ids(list)
  {
    var after := ApplyEntries(entries, src, list);
    forall id ensures id in SourceIds(after, src) <==> id in Ids(list) {
      InsertAllAt(entries - SourceIds(entries, src), src, list, id);
    }
  }

  lemma {:induction false} InsertKeepsKeyed(entries: map<string, Entry>, src: string, list: seq<Entry>)
    requires Keyed(entries)
    ensures Keyed(InsertAll(entries, src, list))
  {
    if list != [] {
      InsertKeepsKeyed(entries, src, list[..|list| - 1]);
    }
  }

  lemma ImportKeepsKeyed(entries: map<string, Entry>, src: string, list: seq<Entry>)
    requires Keyed(entries)
    ensures Keyed(ApplyEntries(entries, src, list))
  {
    InsertKeepsKeyed(entries - SourceIds(entries, src), src, list);
  }

  // ----- what each step keeps -----

  lemma UpsertKeeps(s: State, given: Source, freshId: string)
    ensures
      var s' := UpsertStep(s, given, freshId).0;
      && SameUndo(s, s') && SameFeedLog(s, s') && s'.entries == s.entries && s'.pending == s.pending
      && (Reviewable(s) ==> Reviewable(s'))
  {
  }

  lemma SyncKeeps(s: State, id: string, fetch: Fetch, t: SyncTimes)
    ensures SameUndo(s, SyncStep(s, id, fetch, t).0) && SameFeedLog(s, SyncStep(s, id, fetch, t).0)
    ensures Reviewable(s) ==> Reviewable(SyncStep(s, id, fetch, t).0)
    ensures
      var s' := SyncStep(s, id, fetch, t).0;
      || (s'.entries == s.entries && s'.pending == s.pending)
      || (fetch.Fetched? && s'.entries == s.entries && s'.pending == s.pending[id := fetch.list])
      || (fetch.Fetched? && s'.entries == ApplyEntries(s.entries, id, fetch.list) && s'.pending == s.pending - {id})
  {
    hide Counted, ApplyEntries, SourceIds, HeldBack;
    if id in s.sources && fetch.Fetched? {
      SyncEffect(s, id, fetch.list, t);
    }
  }

  lemma ApproveKeeps(s: State, id: string)
    ensures SameUndo(s, ApproveStep(s, id).0) && SameFeedLog(s, ApproveStep(s, id).0)
    ensures Reviewable(s) ==> Reviewable(ApproveStep(s, id).0)
    ensures
      var s' := ApproveStep(s, id).0;
      || s' == s
      || (id in s.pending && s'.entries == ApplyEntries(s.entries, id, s.pending[id]) && s'.pending == s.pending - {id})
  {
  }

  lemma RejectKeeps(s: State, id: string)
    ensures
      var s' := RejectStep(s, id).0;
      && SameUndo(s, s') && SameFeedLog(s, s') && s'.entries == s.entries && s'.pending.Keys <= s.pending.Keys
      && (forall k | k in s'.pending :: s'.pending[k] == s.pending[k])
      && (Reviewable(s) ==> Reviewable(s'))
  {
  }

  lemma DeleteKeeps(s: State, id: string)
    ensures
      var s' := DeleteStep(s, id);
      && s'.rollbacks == s.rollbacks && SameFeedLog(s, s')
      && s'.entries == s.entries - SourceIds(s.entries, id) && s'.pending == s.pending - {id}
      && (Reviewable(s) ==> Reviewable(s'))
  {
  }
}
