/** The preview of a pending import (`PendingDiff`, `pendingDiffLocked`, `replaceSourceEntries` and
    `feedImpactLocked` in `internal/aghmanaged/manager.go`), and its agreement with the feed. */
module Preview {
  import opened Collections
  import opened Wire
  import opened Catalog
  import opened Conflicts
  import opened Store
  import opened Edits
  import opened Imports
  import opened Feed
  import opened ImportRules

  /** What the feed would make of an entry. */
  datatype Impact = Impact(wouldInclude: bool, reason: string, lineCount: nat)

  function ImpactOf(item: FeedItem): Impact {
    Impact(item.included, item.reason, |item.lines|)
  }

  /** A listed entry, what it replaces and in which fields, and what the feed would make of it. */
  datatype DiffEntry = DiffEntry(entry: Entry, previous: Option<Entry>, changed: seq<string>, impact: Impact)

  /** `pendingDiffChangedFields`. */
  function ChangedFields(was: Entry, e: Entry): (fields: seq<string>)
    ensures fields != [] <==> Differs(was, e)
  {
    (if was.originalRule != e.originalRule then ["original_rule"] else [])
    + (if was.category != e.category then ["category"] else [])
    + (if was.resourceType != e.resourceType then ["resource_type"] else [])
  }

  /** The entries there would be after approval, overrides applied. */
  function NextApplied(s: State, src: string, list: seq<Entry>): set<Entry> {
    (set id | id in s.entries && s.entries[id].source != src :: Applied(s.entries[id], s.overrides))
    + (set e | e in list :: Applied(e.(source := src), s.overrides))
  }

  /** The keys in conflict among `es`. */
  function KeysInConflict(es: set<Entry>, v: View): set<string> {
    set e | e in es && Conflicted(es, v, Key(e)) :: Key(e)
  }

  lemma KeysAreConflicted(es: set<Entry>, v: View, key: string)
    ensures key in KeysInConflict(es, v) <==> Conflicted(es, v, key)
  {
    hide Conflicted;
    if Conflicted(es, v, key) {
      ConflictHasRows(es, v, key);
    }
  }

  /** `feedImpactLocked`: the entry's item, with the last known target addresses. */
  function FeedImpact(s: State, e: Entry, keys: set<string>): Impact {
    ImpactOf(ItemOf(RowOf(Applied(e, s.overrides), ViewOf(s)), s.cfg, s.targetIPs, Key(e) in keys))
  }

  /** Entries of the list that the source does not have yet, in the list's order. */
  function AddedIn(s: State, keys: set<string>, p: map<string, Entry>, list: seq<Entry>): seq<DiffEntry> {
    if list == [] then [] else
    var e := list[|list| - 1];
    AddedIn(s, keys, p, list[..|list| - 1])
    + if e.id !in p then [DiffEntry(e, None, [], FeedImpact(s, e, keys))] else []
  }

  /** Entries of the list that differ from the source's own. */
  function ChangedIn(s: State, keys: set<string>, p: map<string, Entry>, list: seq<Entry>): seq<DiffEntry> {
    if list == [] then [] else
    var e := list[|list| - 1];
    ChangedIn(s, keys, p, list[..|list| - 1])
    + if e.id in p && Differs(p[e.id], e)
      then [DiffEntry(e, Some(p[e.id]), ChangedFields(p[e.id], e), FeedImpact(s, e, keys))] else []
  }

  /** Entries of the source that the list no longer has. */
  function RemovedFrom(s: State, keys: set<string>, p: map<string, Entry>, list: seq<Entry>): set<DiffEntry> {
    set id | id in p && id !in Ids(list) :: DiffEntry(p[id], None, [], FeedImpact(s, p[id], keys))
  }

  /** The conflicts a preview judges by: those there would be after approval, and those there are now. */
  function NextKeys(s: State, src: string, list: seq<Entry>): set<string> {
    KeysInConflict(NextApplied(s, src, list), ViewOf(s))
  }

  function CurrentKeys(s: State): set<string> {
    KeysInConflict(AppliedEntries(s.entries, s.overrides), ViewOf(s))
  }

  // ----- agreement with the feed -----

  /** Identifiers in the list are distinct, and no other source uses them. */
  ghost predicate Unambiguous(entries: map<string, Entry>, src: string, list: seq<Entry>) {
    && (forall i, j | 0 <= i < j < |list| :: list[i].id != list[j].id)
    && (forall e | e in list && e.id in entries :: entries[e.id].source == src)
  }

  lemma {:induction false} InsertedDistinct(entries: map<string, Entry>, src: string, list: seq<Entry>, e: Entry)
    requires forall i, j | 0 <= i < j < |list| :: list[i].id != list[j].id
    requires e in list
    ensures e.id in InsertAll(entries, src, list) && InsertAll(entries, src, list)[e.id] == e.(source := src)
  {
    var n := |list| - 1;
    if e != list[n] {
      var i :| 0 <= i < |list| && list[i] == e;
      assert list[..n][i] == e;
      InsertedDistinct(entries, src, list[..n], e);
    }
  }

  /** Approval stores exactly the entries the preview assumed. */
  lemma ApprovalStoresNext(s: State, src: string, list: seq<Entry>)
    requires Keyed(s.entries) && Unambiguous(s.entries, src, list)
    ensures AppliedEntries(ApplyEntries(s.entries, src, list), s.overrides) == NextApplied(s, src, list)
  {
    hide Applied;
    var kept := s.entries - SourceIds(s.entries, src);
    var after := ApplyEntries(s.entries, src, list);
    forall x | x in AppliedEntries(after, s.overrides) ensures x in NextApplied(s, src, list) {
      var id :| id in after && x == Applied(after[id], s.overrides);
      InsertAllAt(kept, src, list, id);
      if id in Ids(list) {
        var e :| e in list && e.id == id && after[id] == e.(source := src);
      }
    }
    forall x | x in NextApplied(s, src, list) ensures x in AppliedEntries(after, s.overrides) {
      if e :| e in list && x == Applied(e.(source := src), s.overrides) {
        InsertedDistinct(kept, src, list, e);
      } else {
        var id :| id in s.entries && s.entries[id].source != src && x == Applied(s.entries[id], s.overrides);
        assert id !in Ids(list);
        ImportKeepsOthers(s.entries, src, list, id);
      }
    }
  }

  /** What an item says does not depend on which source the entry is filed under, nor, but for the number
      of lines, on which target addresses there are as long as there are some. */
  lemma ItemIgnores(e: Entry, src: string, v: View, cfg: Config, ips: seq<Ip>, ips': seq<Ip>, conflict: bool)
    requires cfg.targetMode == "cname" || cfg.targetMode == "static_ip" || (ips == [] <==> ips' == [])
    ensures
      var item := ItemOf(RowOf(e.(source := src), v), cfg, ips, conflict);
      var item' := ItemOf(RowOf(e, v), cfg, ips', conflict);
      && item.included == item'.included && item.reason == item'.reason
      && (cfg.targetMode == "cname" || cfg.targetMode == "static_ip" || |ips| == |ips'| ==>
            |item.lines| == |item'.lines|)
  {
  }

  /** The item bears out what the preview said of it; the number of lines may differ where the target
      resolves to another number of addresses by then. */
  ghost predicate BearsOut(s: State, ips: seq<Ip>, item: FeedItem, impact: Impact) {
    && item.included == impact.wouldInclude && item.reason == impact.reason
    && (!ResolvedMode(s.cfg) || |ips| == |s.targetIPs| ==> |item.lines| == impact.lineCount)
  }

  /** The feed is on, and what the target resolves to is as usable as what the preview last saw. */
  ghost predicate FeedIsOn(s: State, resolved: Option<seq<Ip>>, now: int) {
    && s.cfg.enabled && !s.cfg.emergencyEmpty
    && (ResolvedMode(s.cfg) ==> s.targetIPs != [] && TargetIps(s, resolved, now) != [])
    && (!ResolvedMode(s.cfg) ==> s.cfg.targetMode == "cname" || s.cfg.targetMode == "static_ip")
  }

  /** In a feed that is on, the served item of a stored entry is the one for its applied entry. */
  lemma ServedItem(s: State, resolved: Option<seq<Ip>>, record: bool, now: int, id: string)
    requires FeedIsOn(s, resolved, now) && id in s.entries
    requires !WithheldAsStale(s, s.entries[id].source, now)
    ensures
      var g := GenerateStep(s, resolved, record, now).1;
      g.ok && id in g.items &&
      g.items[id] == ItemOf(StoredRow(s, id), s.cfg, TargetIps(s, resolved, now), InConflict(s, Key(s.entries[id])))
  {
    var s1 := RememberTarget(s, resolved, now);
    assert InConflict(s1, Key(s.entries[id])) == InConflict(s, Key(s.entries[id]));
  }

  /** Approval changes only what it is about. */
  lemma ApprovalKeepsRest(s: State, src: string)
    requires src in s.sources && src in s.pending
    ensures
      var after := ApproveStep(s, src).0;
      && after.cfg == s.cfg && after.preset == s.preset && after.overrides == s.overrides
      && after.targetIPs == s.targetIPs && after.lastResolve == s.lastResolve
      && after.entries == ApplyEntries(s.entries, src, s.pending[src])
  {
  }

  lemma RowUnderSource(s: State, s': State, src: string, e: Entry)
    requires s'.cfg == s.cfg && s'.preset == s.preset && s'.overrides == s.overrides
    requires e.id in s'.entries && s'.entries[e.id] == e.(source := src)
    ensures StoredRow(s', e.id) == RowOf(Applied(e, s.overrides).(source := src), ViewOf(s))
  {
    assert Applied(e.(source := src), s.overrides) == Applied(e, s.overrides).(source := src);
  }

  /** What approval leaves of an entry of the list, and of all that its item depends on. */
  lemma ApprovedEntry(s: State, src: string, e: Entry, resolved: Option<seq<Ip>>, now: int)
    requires Keyed(s.entries) && src in s.sources && src in s.pending
    requires Unambiguous(s.entries, src, s.pending[src]) && e in s.pending[src]
    ensures
      var after := ApproveStep(s, src).0;
      && e.id in after.entries && after.entries[e.id] == e.(source := src)
      && StoredRow(after, e.id) == RowOf(Applied(e, s.overrides).(source := src), ViewOf(s))
      && (FeedIsOn(after, resolved, now) <==> FeedIsOn(s, resolved, now))
      && TargetIps(after, resolved, now) == TargetIps(s, resolved, now)
      && after.cfg == s.cfg
  {
    hide Applied, InsertAll, RowOf, SourceIds, ApproveStep, StoredRow;
    InsertedDistinct(s.entries - SourceIds(s.entries, src), src, s.pending[src], e);
    ApprovalKeepsRest(s, src);
    RowUnderSource(s, ApproveStep(s, src).0, src, e);
  }

  /** The groups in conflict after approval are those the preview assumed. */
  lemma ApprovedConflicts(s: State, src: string, key: string)
    requires Keyed(s.entries) && src in s.sources && src in s.pending
    requires Unambiguous(s.entries, src, s.pending[src])
    ensures InConflict(ApproveStep(s, src).0, key) == Conflicted(NextApplied(s, src, s.pending[src]), ViewOf(s), key)
  {
    ApprovalStoresNext(s, src, s.pending[src]);
  }

  /** The preview of an added or changed entry is right: it says "included", and why or why not, exactly
      as the feed generated right after approval does. */
  lemma PreviewOfNextIsRight(s: State, src: string, e: Entry, resolved: Option<seq<Ip>>, record: bool, now: int)
    requires Keyed(s.entries) && src in s.sources && src in s.pending
    requires Unambiguous(s.entries, src, s.pending[src]) && e in s.pending[src]
    requires FeedIsOn(s, resolved, now) && !WithheldAsStale(s, src, now)
    ensures
      var g := GenerateStep(ApproveStep(s, src).0, resolved, record, now).1;
      e.id in g.items
      && BearsOut(s, TargetIps(s, resolved, now), g.items[e.id], FeedImpact(s, e, NextKeys(s, src, s.pending[src])))
  {
    hide ApproveStep, GenerateStep, Conflicted, NextApplied, ItemOf, Unambiguous, KeysInConflict;
    var after := ApproveStep(s, src).0;
    var next := NextApplied(s, src, s.pending[src]);
    ApprovedEntry(s, src, e, resolved, now);
    ApprovalKeepsStaleness(s, src, now);
    ServedItem(after, resolved, record, now, e.id);
    ApprovedConflicts(s, src, Key(e));
    KeysAreConflicted(next, ViewOf(s), Key(e));
    ItemIgnores(Applied(e, s.overrides), src, ViewOf(s), s.cfg, TargetIps(s, resolved, now), s.targetIPs,
                Conflicted(next, ViewOf(s), Key(e)));
  }

  lemma ApprovalKeepsStaleness(s: State, src: string, now: int)
    requires src in s.sources && src in s.pending
    ensures var after := ApproveStep(s, src).0;
            WithheldAsStale(after, src, now) == WithheldAsStale(s, src, now)
  {
  }

  /** The preview of a removed entry is right: it says what the feed generated right before approval makes
      of the entry. */
  lemma PreviewOfRemovedIsRight(s: State, src: string, id: string, resolved: Option<seq<Ip>>, record: bool, now: int)
    requires Keyed(s.entries) && id in s.entries && s.entries[id].source == src
    requires FeedIsOn(s, resolved, now) && !WithheldAsStale(s, src, now)
    ensures
      var g := GenerateStep(s, resolved, record, now).1;
      id in g.items
      && BearsOut(s, TargetIps(s, resolved, now), g.items[id], FeedImpact(s, s.entries[id], CurrentKeys(s)))
  {
    hide GenerateStep, Conflicted, ItemOf, KeysInConflict;
    ServedItem(s, resolved, record, now, id);
    var e := Applied(s.entries[id], s.overrides);
    KeysAreConflicted(AppliedEntries(s.entries, s.overrides), ViewOf(s), Key(e));
    ItemIgnores(e, e.source, ViewOf(s), s.cfg, TargetIps(s, resolved, now), s.targetIPs, InConflict(s, Key(e)));
    assert e.(source := e.source) == e;
  }

  // ----- computing the preview -----

  /** `entriesSlice`: the stored entries, in any order. */
  method EntriesSlice(entries: map<string, Entry>) returns (out: seq<Entry>)
    ensures AsSet(out) == set id | id in entries :: entries[id]
  {
    out := [];
    var todo := entries.Keys;
    while todo != {}
      invariant todo <= entries.Keys
      invariant AsSet(out) == set id | id in entries && id !in todo :: entries[id]
      decreases |todo|
    {
      var id :| id in todo;
      todo := todo - {id};
      Snoc(out, entries[id]);
      out := out + [entries[id]];
    }
  }

  /** `replaceSourceEntries`: two loops. */
  method ReplaceSource(es: seq<Entry>, src: string, next: seq<Entry>) returns (out: seq<Entry>)
    ensures AsSet(out) == (set e | e in es && e.source != src) + (set e | e in next :: e.(source := src))
  {
    out := [];
    for i := 0 to |es|
      invariant AsSet(out) == set e | e in es[..i] && e.source != src
    {
      assert es[..i + 1] == es[..i] + [es[i]];
      if es[i].source != src {
        Snoc(out, es[i]);
        out := out + [es[i]];
      }
    }
    assert es[..|es|] == es;
    ghost var kept := AsSet(out);
    for i := 0 to |next|
      invariant AsSet(out) == kept + set e | e in next[..i] :: e.(source := src)
    {
      assert next[..i + 1] == next[..i] + [next[i]];
      Snoc(out, next[i].(source := src));
      out := out + [next[i].(source := src)];
    }
    assert next[..|next|] == next;
  }

  /** `conflictKeysForEntriesLocked`: overrides applied, conflicts built, keys joined again. */
  method ConflictKeysFor(s: State, es: seq<Entry>) returns (keys: set<string>)
    ensures keys == KeysInConflict(set e | e in es :: Applied(e, s.overrides), ViewOf(s))
  {
    hide Conflicted, Applied;
    var applied := [];
    for i := 0 to |es|
      invariant AsSet(applied) == set e | e in es[..i] :: Applied(e, s.overrides)
    {
      assert es[..i + 1] == es[..i] + [es[i]];
      Snoc(applied, Applied(es[i], s.overrides));
      applied := applied + [Applied(es[i], s.overrides)];
    }
    assert es[..|es|] == es;
    var conflicts := BuildConflicts(applied, ViewOf(s));
    keys := set key | key in conflicts :: JoinKey(conflicts[key].domain, conflicts[key].path);
    forall key ensures key in keys <==> key in KeysInConflict(AsSet(applied), ViewOf(s)) {
      KeysAreConflicted(AsSet(applied), ViewOf(s), key);
    }
  }

  /** The loop over the new list. */
  method ClassifyList(s: State, keys: set<string>, p: map<string, Entry>, list: seq<Entry>)
    returns (added: seq<DiffEntry>, changed: seq<DiffEntry>)
    ensures added == AddedIn(s, keys, p, list) && changed == ChangedIn(s, keys, p, list)
  {
    hide FeedImpact, ChangedFields, Differs;
    added, changed := [], [];
    for i := 0 to |list|
      invariant added == AddedIn(s, keys, p, list[..i]) && changed == ChangedIn(s, keys, p, list[..i])
    {
      var e := list[i];
      assert list[..i + 1][..i] == list[..i];
      if e.id !in p {
        added := added + [DiffEntry(e, None, [], FeedImpact(s, e, keys))];
      } else if Differs(p[e.id], e) {
        changed := changed + [DiffEntry(e, Some(p[e.id]), ChangedFields(p[e.id], e), FeedImpact(s, e, keys))];
      }
    }
    assert list[..|list|] == list;
  }

  /** The loop over the source's own entries. */
  method CollectRemoved(s: State, keys: set<string>, p: map<string, Entry>, list: seq<Entry>)
    returns (removed: set<DiffEntry>)
    ensures removed == RemovedFrom(s, keys, p, list)
  {
    hide FeedImpact;
    removed := {};
    var n, todo := Ids(list), p.Keys;
    while todo != {}
      invariant todo <= p.Keys
      invariant removed ==
        set id | id in p && id !in todo && id !in n :: DiffEntry(p[id], None, [], FeedImpact(s, p[id], keys))
      decreases |todo|
    {
      var id :| id in todo;
      todo := todo - {id};
      if id !in n {
        removed := removed + {DiffEntry(p[id], None, [], FeedImpact(s, p[id], keys))};
      }
    }
  }

  // ----- what the lists are -----

  /** The added entries are exactly those of the list that the source does not have, in the list's order. */
  lemma {:induction false} AddedMean(s: State, keys: set<string>, src: string, list: seq<Entry>)
    ensures
      var added := AddedIn(s, keys, Previous(s.entries, src), list);
      && (forall d | d in added :: d == DiffEntry(d.entry, None, [], FeedImpact(s, d.entry, keys)))
      && (forall e :: (exists d :: d in added && d.entry == e) <==> e in list && !Has(s, src, e.id))
      && |added| == |NewAt(s, src, list)|
  {
    hide FeedImpact;
    var p := Previous(s.entries, src);
    if list != [] {
      var n := |list| - 1;
      var e := list[n];
      AddedMean(s, keys, src, list[..n]);
      NewAreCounted(s, src, list);
      NewAreCounted(s, src, list[..n]);
      assert list == list[..n] + [e] && (e.id in p <==> Has(s, src, e.id));
      if e.id !in p {
        var d := DiffEntry(e, None, [], FeedImpact(s, e, keys));
        assert AddedIn(s, keys, p, list) == AddedIn(s, keys, p, list[..n]) + [d];
        assert d in AddedIn(s, keys, p, list);
        forall x | x in list && !Has(s, src, x.id)
          ensures exists y :: y in AddedIn(s, keys, p, list) && y.entry == x
        {
          if x in list[..n] {
            var y :| y in AddedIn(s, keys, p, list[..n]) && y.entry == x;
            assert y in AddedIn(s, keys, p, list);
          }
        }
      }
    }
  }

  /** The changed entries are exactly those of the list that the source has with another rule, category or
      resource type; each names what it replaces, and those fields. */
  lemma {:induction false} ChangedMean(s: State, keys: set<string>, src: string, list: seq<Entry>)
    ensures
      var changed := ChangedIn(s, keys, Previous(s.entries, src), list);
      && (forall d | d in changed :: Has(s, src, d.entry.id) && IsChange(s, keys, s.entries[d.entry.id], d))
      && (forall e :: (exists d :: d in changed && d.entry == e) <==> e in list && Altered(s, src, e))
      && |changed| == |AlteredAt(s, src, list)|
  {
    hide FeedImpact, ChangedFields;
    var p := Previous(s.entries, src);
    if list != [] {
      var n := |list| - 1;
      var e := list[n];
      ChangedMean(s, keys, src, list[..n]);
      AlteredAreCounted(s, src, list);
      AlteredAreCounted(s, src, list[..n]);
      assert list == list[..n] + [e] && (e.id in p && Differs(p[e.id], e) <==> Altered(s, src, e));
      if e.id in p && Differs(p[e.id], e) {
        var d := DiffEntry(e, Some(p[e.id]), ChangedFields(p[e.id], e), FeedImpact(s, e, keys));
        assert ChangedIn(s, keys, p, list) == ChangedIn(s, keys, p, list[..n]) + [d];
        FieldsAreNamed(p[e.id], e);
        assert d in ChangedIn(s, keys, p, list);
        forall x | x in list && Altered(s, src, x)
          ensures exists y :: y in ChangedIn(s, keys, p, list) && y.entry == x
        {
          if x in list[..n] {
            var y :| y in ChangedIn(s, keys, p, list[..n]) && y.entry == x;
            assert y in ChangedIn(s, keys, p, list);
          }
        }
      }
    }
  }

  ghost predicate IsChange(s: State, keys: set<string>, was: Entry, d: DiffEntry) {
    && d.previous == Some(was) && d.impact == FeedImpact(s, d.entry, keys)
    && ("original_rule" in d.changed <==> was.originalRule != d.entry.originalRule)
    && ("category" in d.changed <==> was.category != d.entry.category)
    && ("resource_type" in d.changed <==> was.resourceType != d.entry.resourceType)
  }

  lemma FieldsAreNamed(was: Entry, e: Entry)
    ensures "original_rule" in ChangedFields(was, e) <==> was.originalRule != e.originalRule
    ensures "category" in ChangedFields(was, e) <==> was.category != e.category
    ensures "resource_type" in ChangedFields(was, e) <==> was.resourceType != e.resourceType
  {
  }

  /** The removed entries are exactly those of the source whose identifiers the list no longer has. */
  lemma RemovedMean(s: State, keys: set<string>, src: string, list: seq<Entry>, id: string)
    requires Keyed(s.entries) && id in s.entries
    ensures (exists d :: d in RemovedFrom(s, keys, Previous(s.entries, src), list) && d.entry == s.entries[id]) <==>
            id in Gone(s, src, list)
  {
    hide FeedImpact;
    var p := Previous(s.entries, src);
    if id in Gone(s, src, list) {
      assert DiffEntry(p[id], None, [], FeedImpact(s, p[id], keys)) in RemovedFrom(s, keys, p, list);
    }
  }

  method PendingDiff(s: State, src: string)
    returns (found: bool, added: seq<DiffEntry>, changed: seq<DiffEntry>, removed: set<DiffEntry>)
    ensures found <==> src in s.sources && src in s.pending
    ensures found ==>
      var p, list := Previous(s.entries, src), s.pending[src];
      && added == AddedIn(s, NextKeys(s, src, list), p, list)
      && changed == ChangedIn(s, NextKeys(s, src, list), p, list)
      && removed == RemovedFrom(s, CurrentKeys(s), p, list)
  {
    hide KeysInConflict, Applied, AddedIn, ChangedIn, RemovedFrom, Previous;
    if src !in s.sources || src !in s.pending {
      return false, [], [], {};
    }
    found := true;
    var p, list := Previous(s.entries, src), s.pending[src];
    var current := EntriesSlice(s.entries);
    var next := ReplaceSource(current, src, list);
    AppliedSlices(s, src, list, current, next);
    var nextKeys := ConflictKeysFor(s, next);
    var currentKeys := ConflictKeysFor(s, current);
    added, changed := ClassifyList(s, nextKeys, p, list);
    removed := CollectRemoved(s, currentKeys, p, list);
  }

  lemma AppliedSlices(s: State, src: string, list: seq<Entry>, current: seq<Entry>, next: seq<Entry>)
    requires AsSet(current) == set id | id in s.entries :: s.entries[id]
    requires AsSet(next) == (set e | e in current && e.source != src) + (set e | e in list :: e.(source := src))
    ensures (set e | e in current :: Applied(e, s.overrides)) == AppliedEntries(s.entries, s.overrides)
    ensures (set e | e in next :: Applied(e, s.overrides)) == NextApplied(s, src, list)
  {
    hide Applied;
    forall e ensures e in current <==> exists id :: id in s.entries && e == s.entries[id] {
      assert e in current <==> e in AsSet(current);
    }
    forall e
      ensures e in next <==> (e in current && e.source != src) || exists x :: x in list && e == x.(source := src)
    {
      assert e in next <==> e in AsSet(next);
    }
  }
}
