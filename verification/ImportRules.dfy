/** What saving, syncing, approving, rejecting and deleting a source does, in terms of sources, lists and
    stored entries (`UpsertSource` to `RejectSource`, `diffEntries`, `countImported` and `largeChange` in
    `internal/aghmanaged/manager.go`). */
module ImportRules {
  import opened Collections
  import opened Wire
  import opened Catalog
  import opened Conflicts
  import opened Store
  import opened Imports

  // ----- how a list differs from what is stored -----

  /** The source has an entry with this identifier. */
  predicate Has(s: State, src: string, id: string) {
    id in s.entries && s.entries[id].source == src
  }

  /** The source's entry of that identifier has another rule, category or resource type. */
  predicate Altered(s: State, src: string, e: Entry) {
    Has(s, src, e.id)
    && !(s.entries[e.id].originalRule == e.originalRule && s.entries[e.id].category == e.category
         && s.entries[e.id].resourceType == e.resourceType)
  }

  /** The places of a list where ... the source has no such entry. */
  function NewAt(s: State, src: string, list: seq<Entry>): set<int> {
    set i | 0 <= i < |list| && !Has(s, src, list[i].id)
  }

  function AlteredAt(s: State, src: string, list: seq<Entry>): set<int> {
    set i | 0 <= i < |list| && Altered(s, src, list[i])
  }

  function UnsupportedAt(list: seq<Entry>): set<int> {
    set i | 0 <= i < |list| && (list[i].unsupported || list[i].layer == "dom")
  }

  function AllowAt(list: seq<Entry>): set<int> {
    set i | 0 <= i < |list| && list[i].category == "allow_exception"
  }

  /** The entries of the source that the list no longer has. */
  function Gone(s: State, src: string, list: seq<Entry>): set<string> {
    set id | id in s.entries && s.entries[id].source == src && forall e | e in list :: e.id != id
  }

  /** A place more or not. */
  lemma OneMorePlace(was: set<int>, now: set<int>, n: int, more: bool)
    requires n !in was && now == if more then was + {n} else was
    ensures |now| == |was| + if more then 1 else 0
  {
  }

  lemma {:induction false} NewAreCounted(s: State, src: string, list: seq<Entry>)
    ensures CountAdded(Previous(s.entries, src), list) == |NewAt(s, src, list)|
  {
    if list != [] {
      var n := |list| - 1;
      NewAreCounted(s, src, list[..n]);
      OneMorePlace(NewAt(s, src, list[..n]), NewAt(s, src, list), n, !Has(s, src, list[n].id));
    }
  }

  lemma {:induction false} AlteredAreCounted(s: State, src: string, list: seq<Entry>)
    ensures CountChanged(Previous(s.entries, src), list) == |AlteredAt(s, src, list)|
  {
    if list != [] {
      var n := |list| - 1;
      AlteredAreCounted(s, src, list[..n]);
      OneMorePlace(AlteredAt(s, src, list[..n]), AlteredAt(s, src, list), n, Altered(s, src, list[n]));
    }
  }

  lemma {:induction false} UnsupportedAreCounted(list: seq<Entry>)
    ensures CountUnsupported(list) == |UnsupportedAt(list)|
  {
    if list != [] {
      var n := |list| - 1;
      UnsupportedAreCounted(list[..n]);
      OneMorePlace(UnsupportedAt(list[..n]), UnsupportedAt(list), n, list[n].unsupported || list[n].layer == "dom");
    }
  }

  lemma {:induction false} AllowsAreCounted(list: seq<Entry>)
    ensures CountAllows(list) == |AllowAt(list)|
  {
    if list != [] {
      var n := |list| - 1;
      AllowsAreCounted(list[..n]);
      OneMorePlace(AllowAt(list[..n]), AllowAt(list), n, list[n].category == "allow_exception");
    }
  }

  lemma CountsMean(s: State, src: string, list: seq<Entry>)
    ensures DiffEntries(Previous(s.entries, src), list) ==
            Diff(|NewAt(s, src, list)|, |Gone(s, src, list)|, |AlteredAt(s, src, list)|)
  {
    NewAreCounted(s, src, list);
    AlteredAreCounted(s, src, list);
    assert Previous(s.entries, src).Keys - Ids(list) == Gone(s, src, list);
  }

  /** Review is asked for, and the entries gone or altered reach the limit set for their number, or for
      their percentage of the new list. */
  predicate TooLarge(s: State, src: string, list: seq<Entry>) {
    var touched := |Gone(s, src, list)| + |AlteredAt(s, src, list)|;
    && s.cfg.largeChangeRequiresReview
    && ((s.cfg.largeChangeCount > 0 && touched >= s.cfg.largeChangeCount)
        || (s.cfg.largeChangePercent > 0 && list != [] && 100 * touched >= s.cfg.largeChangePercent * |list|))
  }

  // ----- putting a list in force -----

  /** The list's entry at `i` is its last with that identifier. */
  predicate LastAt(list: seq<Entry>, i: nat) {
    i < |list| && forall j | i < j < |list| :: list[j].id != list[i].id
  }

  /** The source's old entries are gone, those of other sources stay unless the list has their identifiers,
      and each identifier of the list has the list's last entry for it, filed under the source. */
  ghost predicate InForce(was: map<string, Entry>, now: map<string, Entry>, src: string, list: seq<Entry>) {
    && (forall i: nat | LastAt(list, i) :: list[i].id in now && now[list[i].id] == list[i].(source := src))
    && (forall id | forall e | e in list :: e.id != id ::
          if id in was && was[id].source != src then id in now && now[id] == was[id] else id !in now)
  }

  lemma {:induction false} InsertedInForce(kept: map<string, Entry>, src: string, list: seq<Entry>, i: nat)
    requires LastAt(list, i)
    ensures list[i].id in InsertAll(kept, src, list)
    ensures InsertAll(kept, src, list)[list[i].id] == list[i].(source := src)
  {
    var n := |list| - 1;
    if i < n {
      assert list[n].id != list[i].id;
      InsertedInForce(kept, src, list[..n], i);
    }
  }

  lemma ListIsInForce(entries: map<string, Entry>, src: string, list: seq<Entry>)
    ensures InForce(entries, ApplyEntries(entries, src, list), src, list)
  {
    var kept, now := entries - SourceIds(entries, src), ApplyEntries(entries, src, list);
    forall i: nat | LastAt(list, i) ensures list[i].id in now && now[list[i].id] == list[i].(source := src) {
      InsertedInForce(kept, src, list, i);
    }
    forall id | forall e | e in list :: e.id != id
      ensures if id in entries && entries[id].source != src then id in now && now[id] == entries[id] else id !in now
    {
      InsertAllAt(kept, src, list, id);
    }
  }

  /** From `s` to `s'` the list is put in force: entries, feed times and the pending list, nothing else but
      the record of the source. */
  ghost predicate PutInForce(s: State, s': State, src: string, list: seq<Entry>) {
    && InForce(s.entries, s'.entries, src, list)
    && (forall id :: id in s'.feedSeen <==> id in s.feedSeen && !Has(s, src, id))
    && (forall id | id in s'.feedSeen :: s'.feedSeen[id] == s.feedSeen[id])
    && s'.pending == s.pending - {src}
    && s' == s.(entries := s'.entries, feedSeen := s'.feedSeen, pending := s'.pending, sources := s'.sources)
  }

  lemma ActivationPutsInForce(s: State, s': State, src: string, list: seq<Entry>)
    requires s' == Activate(s.(sources := s'.sources), src, list)
    ensures PutInForce(s, s', src, list)
  {
    hide ApplyEntries, InForce;
    ListIsInForce(s.entries, src, list);
  }

  // ----- syncing and reviewing -----

  /** Only the record of `src` changes among the sources. */
  predicate Records(s: State, s': State, src: string, r: SyncRecord)
    requires src in s.sources
  {
    s'.sources == s.sources[src := s.sources[src].(sync := r)]
  }

  /** What is recorded of a list. */
  function Account(r: SyncRecord, s: State, src: string, list: seq<Entry>, pendingReview: bool): SyncRecord {
    SyncRecord(r.nextSync, r.lastSyncStarted, r.lastSuccess, r.lastError, r.lastDurationMS, r.consecutiveFails,
               |list|, |NewAt(s, src, list)|, |Gone(s, src, list)|, |AlteredAt(s, src, list)|,
               |UnsupportedAt(list)|, |AllowAt(list)|, pendingReview)
  }

  lemma CountedIsAccount(r: SyncRecord, s: State, src: string, list: seq<Entry>, review: bool)
    ensures Counted(r, s.entries, src, list).(pendingReview := review) == Account(r, s, src, list, review)
  {
    hide DiffEntries, CountUnsupported, CountAllows;
    CountsMean(s, src, list);
    UnsupportedAreCounted(list);
    AllowsAreCounted(list);
  }

  lemma HeldBackMeans(s: State, src: string, list: seq<Entry>)
    ensures HeldBack(s, src, list) <==> TooLarge(s, src, list)
  {
    hide DiffEntries, Gone, AlteredAt;
    CountsMean(s, src, list);
  }

  /** A successful sync of a known source records the fetch and the counts, and either holds a list that is
      too large a change back for review, changing nothing else, or puts it in force. */
  lemma SyncMeans(s: State, src: string, list: seq<Entry>, t: SyncTimes)
    requires src in s.sources
    ensures
      var (s', outcome) := SyncStep(s, src, Fetched(list), t);
      var held := TooLarge(s, src, list);
      var fetched := s.sources[src].sync.(nextSync := t.next, lastSyncStarted := t.started,
        lastSuccess := Some(t.finished), lastError := "", lastDurationMS := t.durationMS, consecutiveFails := 0);
      && outcome == Done && Records(s, s', src, Account(fetched, s, src, list, held))
      && (held ==> s' == s.(sources := s'.sources, pending := s.pending[src := list]))
      && (!held ==> PutInForce(s, s', src, list))
  {
    hide Counted, HeldBack, ApplyEntries, SourceIds, TooLarge, Account, PutInForce;
    var r := Succeeding(s.sources[src].sync, t);
    HeldBackMeans(s, src, list);
    CountedIsAccount(r, s, src, list, HeldBack(s, src, list));
    var s' := SyncStep(s, src, Fetched(list), t).0;
    if !HeldBack(s, src, list) {
      ActivationPutsInForce(s, s', src, list);
    }
  }

  /** A failed fetch of a known source is recorded, and nothing else changes; neither does anything when
      the source is unknown. */
  lemma FailureMeans(s: State, src: string, fetch: Fetch, t: SyncTimes)
    ensures
      var (s', outcome) := SyncStep(s, src, fetch, t);
      && (src !in s.sources ==> outcome == NotFound && s' == s)
      && (src in s.sources && fetch.Failed? ==>
            var r := s.sources[src].sync;
            && outcome == Refused && s' == s.(sources := s'.sources)
            && Records(s, s', src, r.(nextSync := t.next, lastSyncStarted := t.started, lastError := fetch.error,
                                      lastDurationMS := t.durationMS, consecutiveFails := r.consecutiveFails + 1)))
  {
  }

  /** An approval succeeds exactly on a known source with a pending list, which it counts against what is
      stored now and puts in force. */
  lemma ApprovalMeans(s: State, src: string)
    ensures
      var (s', outcome) := ApproveStep(s, src);
      if src in s.sources && src in s.pending then
        && outcome == Done && PutInForce(s, s', src, s.pending[src])
        && Records(s, s', src, Account(s.sources[src].sync, s, src, s.pending[src], false))
      else outcome == NotFound && s' == s
  {
    hide Counted, ApplyEntries, SourceIds, Account, PutInForce;
    if src in s.sources && src in s.pending {
      CountedIsAccount(s.sources[src].sync, s, src, s.pending[src], false);
      ActivationPutsInForce(s, ApproveStep(s, src).0, src, s.pending[src]);
    }
  }

  /** A rejection drops the pending list and the mark for review, and nothing else. */
  lemma RejectionMeans(s: State, src: string)
    ensures
      var (s', outcome) := RejectStep(s, src);
      if src in s.sources && src in s.pending then
        && outcome == Done && s' == s.(sources := s'.sources, pending := s.pending - {src})
        && Records(s, s', src, s.sources[src].sync.(pendingReview := false))
      else outcome == NotFound && s' == s
  {
  }

  /** A deletion takes the source, its pending list and its entries, with their overrides and feed times,
      and leaves everything else. */
  lemma DeletionMeans(s: State, src: string, id: string)
    ensures
      var s' := DeleteStep(s, src);
      && s'.sources == s.sources - {src} && s'.pending == s.pending - {src}
      && (id in s'.entries <==> id in s.entries && !Has(s, src, id))
      && (id in s'.overrides <==> id in s.overrides && !Has(s, src, id))
      && (id in s'.feedSeen <==> id in s.feedSeen && !Has(s, src, id))
      && (id in s'.entries ==> s'.entries[id] == s.entries[id])
      && (id in s'.overrides ==> s'.overrides[id] == s.overrides[id])
      && (id in s'.feedSeen ==> s'.feedSeen[id] == s.feedSeen[id])
      && s' == s.(sources := s'.sources, pending := s'.pending, entries := s'.entries, overrides := s'.overrides,
                  feedSeen := s'.feedSeen)
  {
  }

  // ----- saving a source -----

  function Or(given: string, fallback: string): string {
    if given == "" then fallback else given
  }

  /** A source is saved exactly when its kind and policy are known and it says where its rules come from;
      what is not given is filled in, and what is known of earlier syncs is kept. */
  lemma UpsertMeans(s: State, given: Source, freshId: string)
    ensures
      var (s', outcome) := UpsertStep(s, given, freshId);
      var kind, policy, id := Or(given.kind, "filter_url"), Or(given.staleFeedPolicy, "exclude"), Or(given.id, freshId);
      if kind in {"filter_url", "manual", "agh_custom_rules", "agh_query_log_cname"} && policy in {"exclude", "keep"}
         && (if kind == "manual" then given.content != "" else given.url != "")
      then
        && outcome == Done
        && s' == s.(sources := s.sources[id := Source(
             id, kind, Or(given.name, given.url), given.url, given.content, given.enabled,
             Or(given.syncInterval, s.cfg.defaultSyncInterval), given.priority, policy,
             if id in s.sources then s.sources[id].sync else given.sync)])
      else outcome == Refused && s' == s
  {
  }
}
