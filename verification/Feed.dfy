/** Generating the rewrite feed (`feedItem`, `rewriteLines`, `generate` and
    `persistGenerationLocked` in `internal/aghmanaged/manager.go`). The outcome of resolving the
    target name, and the clock, are inputs. Items are found by entry; the order and the comment
    lines of the served text are left out. */
module Feed {
  import opened Collections
  import opened Wire
  import opened Catalog
  import opened Conflicts
  import opened Store
  import opened Edits

  // ----- one entry -----

  datatype FeedItem = FeedItem(included: bool, reason: string, lines: seq<string>)

  function Excluded(reason: string): FeedItem {
    FeedItem(false, reason, [])
  }

  function LineFor(domain: string, kind: string, value: string): string {
    "||" + domain + "^$dnsrewrite=NOERROR;" + kind + ";" + value
  }

  function StaticV4(domain: string, ips: seq<Option<Ip>>): seq<string> {
    if ips == [] then []
    else (if ips[0].Some? && ips[0].value.V4? then [LineFor(domain, "A", ips[0].value.text)] else [])
         + StaticV4(domain, ips[1..])
  }

  function StaticV6(domain: string, ips: seq<Option<Ip>>): seq<string> {
    if ips == [] then []
    else (if ips[0].Some? && ips[0].value.V6? then [LineFor(domain, "AAAA", ips[0].value.text)] else [])
         + StaticV6(domain, ips[1..])
  }

  function ResolvedLines(domain: string, ips: seq<Ip>): (lines: seq<string>)
    ensures |lines| == |ips|
  {
    if ips == [] then []
    else [LineFor(domain, if ips[0].V4? then "A" else "AAAA", ips[0].text)] + ResolvedLines(domain, ips[1..])
  }

  predicate ResolvedMode(cfg: Config) {
    cfg.targetMode == "" || cfg.targetMode == "resolved_ip"
  }

  /** `rewriteLines`; no lines is the error case. */
  function RewriteLines(domain: string, cfg: Config, ips: seq<Ip>): seq<string> {
    match NonEmpty(cfg.targetMode, "resolved_ip")
    case "cname" => if cfg.targetName == "" then [] else [LineFor(domain, "CNAME", cfg.targetName)]
    case "static_ip" => StaticV4(domain, cfg.staticIPv4) + StaticV6(domain, cfg.staticIPv6)
    case _ => ResolvedLines(domain, ips)
  }

  /** `feedItem` for an entry with overrides applied. */
  function ItemOf(r: Row, cfg: Config, ips: seq<Ip>, conflict: bool): FeedItem {
    var e := r.entry;
    if e.domain == "" then Excluded("empty domain")
    else if e.unsupported || e.layer == "dom" then Excluded("unsupported layer")
    else if e.layer != "" && e.layer != "dns" then Excluded("http layer")
    else if e.path != "" then Excluded("path scoped rule")
    else if Allows(e) then Excluded("allow exception")
    else if conflict then Excluded("conflict unresolved")
    else if e.reviewStatus == "rejected" || e.reviewStatus == "disabled" then Excluded("rejected or disabled")
    else if !r.rewrite then Excluded("disabled by preset or user")
    else
      var lines := RewriteLines(e.domain, cfg, ips);
      if lines == [] then Excluded("no target") else FeedItem(true, "included", lines)
  }

  // ----- stale sources -----

  predicate Remote(kind: string) {
    kind == "filter_url" || kind == "agh_custom_rules" || kind == "agh_query_log_cname"
  }

  predicate StaleSource(src: Source, ttl: int, now: int) {
    ttl > 0 && Remote(src.kind) && src.sync.lastSuccess.Some? && now - src.sync.lastSuccess.value > ttl
  }

  /** The entry's source is stale and asks for its entries to be left out then. */
  predicate WithheldAsStale(s: State, source: string, now: int) {
    source in s.sources && StaleSource(s.sources[source], s.cfg.staleSourceTTL, now)
    && NonEmpty(s.sources[source].staleFeedPolicy, "exclude") == "exclude"
  }

  function StoredRow(s: State, id: string): Row
    requires id in s.entries
  {
    RowOf(Applied(s.entries[id], s.overrides), ViewOf(s))
  }

  /** The item of a stored entry, given whether its group is in conflict. */
  function ItemGiven(s: State, id: string, ips: seq<Ip>, now: int, conflict: bool): FeedItem
    requires id in s.entries
  {
    var r := StoredRow(s, id);
    var item := ItemOf(r, s.cfg, ips, conflict);
    if WithheldAsStale(s, r.entry.source, now) then item.(included := false, reason := "stale source") else item
  }

  /** The item of a stored entry in a feed generated now. */
  function FeedItemFor(s: State, id: string, ips: seq<Ip>, now: int): FeedItem
    requires id in s.entries
  {
    ItemGiven(s, id, ips, now, InConflict(s, Key(s.entries[id])))
  }

  // ----- a generation -----

  /** What is served. `ok` is false when the target could not be resolved. */
  datatype Generated = Generated(
    items: map<string, FeedItem>, itemCount: nat, excludedCount: nat, emergencyEmpty: bool, ok: bool)

  /** The addresses in use: what resolving gave, or the last ones while they are fresh enough. */
  function TargetIps(s: State, resolved: Option<seq<Ip>>, now: int): seq<Ip> {
    if !ResolvedMode(s.cfg) then []
    else if resolved.Some? then resolved.value
    else if s.targetIPs != [] && s.lastResolve.Some? && now - s.lastResolve.value <= s.cfg.staleTargetTTL
    then s.targetIPs
    else []
  }

  function RememberTarget(s: State, resolved: Option<seq<Ip>>, now: int): State {
    if ResolvedMode(s.cfg) && resolved.Some? then s.(targetIPs := resolved.value, lastResolve := Some(now)) else s
  }

  /** Serving a recorded feed without a target switches the emergency feed on, when configured. */
  function AutoEmergency(s: State, ips: seq<Ip>, record: bool): State {
    if ResolvedMode(s.cfg) && ips == [] && s.cfg.autoEmergencyEmpty && record
    then s.(cfg := s.cfg.(emergencyEmpty := true)) else s
  }

  function Items(s: State, ips: seq<Ip>, now: int): map<string, FeedItem> {
    map id | id in s.entries :: FeedItemFor(s, id, ips, now)
  }

  function IncludedIds(items: map<string, FeedItem>): set<string> {
    set id | id in items && items[id].included
  }

  function ConflictKeys(s: State): set<string> {
    set id | id in s.entries && InConflict(s, Key(s.entries[id])) :: Key(s.entries[id])
  }

  /** `persistGenerationLocked`: the counts, the change against the last snapshot, and the new one. */
  function RecordGeneration(s: State, included: set<string>, itemCount: nat, excludedCount: nat,
                            conflicts: nat, now: int): State {
    var next := included - {""};
    s.(feedSnapshot := next,
       feedHistory := PushBounded(s.feedHistory,
         FeedRecord(now, itemCount, excludedCount, |next - s.feedSnapshot|, |s.feedSnapshot - next|,
                    conflicts, NonEmpty(s.cfg.targetMode, "resolved_ip"), s.cfg.emergencyEmpty),
         HISTORY_LIMIT))
  }

  function MarkSeen(seen: map<string, int>, included: set<string>, now: int): map<string, int> {
    map id | id in seen.Keys + included :: if id in included then now else seen[id]
  }

  function GenerateStep(s: State, resolved: Option<seq<Ip>>, record: bool, now: int): (State, Generated) {
    var ips := TargetIps(s, resolved, now);
    var s1 := AutoEmergency(RememberTarget(s, resolved, now), ips, record);
    if s1.cfg.emergencyEmpty || !s1.cfg.enabled then
      (if record then RecordGeneration(s1, {}, 0, |s1.entries|, |ConflictKeys(s1)|, now) else s1,
       Generated(map[], 0, |s1.entries|, s1.cfg.emergencyEmpty, true))
    else if ResolvedMode(s1.cfg) && ips == [] then
      (s1, Generated(map[], 0, 0, false, false))
    else
      var items := Items(s1, ips, now);
      var included := IncludedIds(items);
      var count, rest := |included|, |items.Keys - included|;
      (if record
       then RecordGeneration(s1.(feedSeen := MarkSeen(s1.feedSeen, included, now)), included, count, rest,
                             |ConflictKeys(s1)|, now)
       else s1,
       Generated(items, count, rest, false, true))
  }

  /** The counts that the loop over entries keeps. */
  method Tally(items: map<string, FeedItem>) returns (included: set<string>, count: nat, rest: nat)
    ensures included == IncludedIds(items)
    ensures count == |included| && rest == |items.Keys - included|
  {
    included, count, rest := {}, 0, 0;
    var todo := items.Keys;
    ghost var excluded: set<string> := {};
    while todo != {}
      invariant todo <= items.Keys
      invariant forall id :: id in included <==> id in items && id !in todo && items[id].included
      invariant forall id :: id in excluded <==> id in items && id !in todo && !items[id].included
      invariant count == |included| && rest == |excluded|
      decreases |todo|
    {
      var id :| id in todo;
      todo := todo - {id};
      if items[id].included {
        included := included + {id};
        count := count + 1;
      } else {
        excluded := excluded + {id};
        rest := rest + 1;
      }
    }
    assert included == IncludedIds(items) && excluded == items.Keys - included;
  }

  method GenerateItems(s: State, ips: seq<Ip>, now: int, conflicts: map<string, Conflict>)
    returns (items: map<string, FeedItem>, included: set<string>, count: nat, rest: nat)
    requires forall key :: key in conflicts <==> InConflict(s, key)
    ensures items == Items(s, ips, now) && included == IncludedIds(items)
    ensures count == |included| && rest == |items.Keys - included|
  {
    items := ItemsWith(s, ips, now, conflicts.Keys);
    ItemsByKeys(s, ips, now, conflicts.Keys);
    included, count, rest := Tally(items);
  }

  /** The items, with conflicts looked up among the keys found. */
  function ItemsWith(s: State, ips: seq<Ip>, now: int, keys: set<string>): map<string, FeedItem> {
    map id | id in s.entries :: ItemGiven(s, id, ips, now, Key(s.entries[id]) in keys)
  }

  lemma ItemsByKeys(s: State, ips: seq<Ip>, now: int, keys: set<string>)
    requires forall key :: key in keys <==> InConflict(s, key)
    ensures ItemsWith(s, ips, now, keys) == Items(s, ips, now)
  {
    hide InConflict, ItemGiven;
    forall id | id in s.entries ensures ItemsWith(s, ips, now, keys)[id] == Items(s, ips, now)[id] {
      assert (Key(s.entries[id]) in keys) == InConflict(s, Key(s.entries[id]));
    }
  }

  /** `feedSnapshotDelta`: two counting loops. */
  method SnapshotDelta(prev: set<string>, included: set<string>) returns (next: set<string>, added: nat, removed: nat)
    ensures next == included - {""} && added == |next - prev| && removed == |prev - next|
  {
    next := included - {""};
    added := CountOutside(next, prev);
    removed := CountOutside(prev, next);
  }

  // ----- what a feed may contain -----

  /** What has to hold of an entry for it to be included. */
  lemma IncludedMeans(s: State, id: string, ips: seq<Ip>, now: int)
    requires id in s.entries && FeedItemFor(s, id, ips, now).included
    ensures StoredRow(s, id).rewrite && !Allows(StoredRow(s, id).entry)
    ensures s.entries[id].domain != "" && s.entries[id].path == ""
    ensures !InConflict(s, Key(s.entries[id]))
    ensures FeedItemFor(s, id, ips, now).lines != []
  {
    hide InConflict, RewriteLines, RewriteEnabled;
  }

  predicate UsableAction(s: State, r: Row) {
    s.cfg.lower(s.cfg.trim(EffectiveAction(r))) !in {"", "passthrough", "forward-asis", "forward_as_is"}
  }

  /** `other` is no allow exception, and where it is rewritten it agrees with `id` on category and review
      status and has a usable action. */
  predicate SafeBeside(s: State, id: string, other: string)
    requires id in s.entries && other in s.entries
  {
    var r, q := StoredRow(s, id), StoredRow(s, other);
    && !Allows(q.entry)
    && (q.rewrite ==> q.entry.category == r.entry.category && q.entry.reviewStatus == r.entry.reviewStatus
                      && UsableAction(s, q))
  }

  /** Whenever a generation serves an entry, every stored entry of the same domain and path is safe
      beside it. */
  lemma EmissionIsSafe(s: State, resolved: Option<seq<Ip>>, record: bool, now: int, id: string, other: string)
    requires Keyed(s.entries)
    requires id in IncludedIds(GenerateStep(s, resolved, record, now).1.items)
    requires id in s.entries ==> other in s.entries && Key(s.entries[other]) == Key(s.entries[id])
    requires other in s.entries ==> s.entries[other].domain != ""
    ensures id in s.entries && SafeBeside(s, id, other)
    ensures GenerateStep(s, resolved, record, now).1.items[id].lines != []
  {
    hide FeedItemFor, InConflict, RecordGeneration, ConflictKeys, StoredRow;
    var ips := TargetIps(s, resolved, now);
    var s1 := AutoEmergency(RememberTarget(s, resolved, now), ips, record);
    PrepareKeeps(s, resolved, ips, record, now);
    PrepareKeepsSettings(s, resolved, ips, record, now);
    assert id in s1.entries && FeedItemFor(s1, id, ips, now).included;
    IncludedMeans(s1, id, ips, now);
    UnconflictedPeers(s1, id, other);
    SameSafety(s, s1, id, other);
  }

  lemma SameSafety(s: State, s1: State, id: string, other: string)
    requires SameUndo(s, s1) && SameImports(s, s1) && s1.preset == s.preset && id in s.entries && other in s.entries
    requires s1.cfg.defaultPreset == s.cfg.defaultPreset && s1.cfg.lower == s.cfg.lower && s1.cfg.trim == s.cfg.trim
    ensures SafeBeside(s, id, other) == SafeBeside(s1, id, other)
  {
    hide RewriteEnabled;
    assert ViewOf(s1) == ViewOf(s);
  }

  lemma UnconflictedPeers(s: State, id: string, other: string)
    requires Keyed(s.entries) && id in s.entries && other in s.entries
    requires s.entries[id].domain != "" && s.entries[other].domain != ""
    requires Key(s.entries[other]) == Key(s.entries[id]) && !InConflict(s, Key(s.entries[id]))
    requires StoredRow(s, id).rewrite && !Allows(StoredRow(s, id).entry)
    ensures SafeBeside(s, id, other)
  {
    var key := Key(s.entries[id]);
    var r, q := StoredRow(s, id), StoredRow(s, other);
    NoConflictMeansAgreement(AppliedEntries(s.entries, s.overrides), ViewOf(s), key);
    RowOfStored(s, key, id);
    RowOfStored(s, key, other);
    assert r in Rows(s, key) && q in Rows(s, key);
    assert ActionReason(q, ViewOf(s)).None?;
  }

  /** The emergency feed, a disabled feed and a feed without a target include nothing. */
  lemma NothingWithoutLicence(s: State, resolved: Option<seq<Ip>>, record: bool, now: int)
    ensures s.cfg.emergencyEmpty || !s.cfg.enabled || (ResolvedMode(s.cfg) && TargetIps(s, resolved, now) == [])
            ==> IncludedIds(GenerateStep(s, resolved, record, now).1.items) == {}
  {
  }

  // ----- accounting -----

  lemma ItemsPartition(s: State, ips: seq<Ip>, now: int)
    ensures
      var items := Items(s, ips, now);
      |IncludedIds(items)| + |items.Keys - IncludedIds(items)| == |s.entries|
  {
    var items := Items(s, ips, now);
    assert items.Keys == s.entries.Keys;
    assert |IncludedIds(items)| + |items.Keys - IncludedIds(items)| == |items.Keys|;
  }

  lemma IncludedAreStored(s: State, ips: seq<Ip>, now: int)
    ensures IncludedIds(Items(s, ips, now)) <= s.entries.Keys
  {
    hide FeedItemFor;
  }

  /** Every successful generation accounts for every stored entry, once. */
  lemma EveryEntryIsCounted(s: State, resolved: Option<seq<Ip>>, record: bool, now: int)
    requires GenerateStep(s, resolved, record, now).1.ok
    ensures
      var g := GenerateStep(s, resolved, record, now).1;
      g.itemCount + g.excludedCount == |s.entries| && g.itemCount == |IncludedIds(g.items)|
  {
    hide Items, InConflict, FeedItemFor, RecordGeneration, ConflictKeys, MarkSeen, TargetIps;
    var ips := TargetIps(s, resolved, now);
    var s1 := AutoEmergency(RememberTarget(s, resolved, now), ips, record);
    assert s1.entries == s.entries;
    ItemsPartition(s1, ips, now);
    assert IncludedIds(map[]) == {};
  }

  lemma DifferenceOfSizes(a: set<string>, b: set<string>)
    ensures |b| - |a| == |b - a| - |a - b|
  {
    assert a == (a - b) + (a * b) && b == (b - a) + (a * b);
  }

  /** The last recorded size is the size of the snapshot it left. */
  ghost predicate Balanced(s: State) {
    s.feedHistory != [] ==> s.feedHistory[|s.feedHistory| - 1].included == |s.feedSnapshot|
  }

  /** Each recorded size differs from the one before it by what was added and removed. */
  ghost predicate Telescopes(h: seq<FeedRecord>) {
    forall k | 0 < k < |h| :: h[k].included - h[k - 1].included == h[k].added - h[k].removed
  }

  /** Recording a generation of `included` entries keeps the ledger balanced exactly when none of
      them has an empty identifier, which the snapshot drops. */
  lemma RecordingBalances(s: State, included: set<string>, excludedCount: nat, conflicts: nat, now: int)
    ensures
      var s' := RecordGeneration(s, included, |included|, excludedCount, conflicts, now);
      && (Balanced(s') <==> "" !in included)
      && (Balanced(s) && Telescopes(s.feedHistory) && "" !in included ==> Telescopes(s'.feedHistory))
  {
    hide NonEmpty;
    var s' := RecordGeneration(s, included, |included|, excludedCount, conflicts, now);
    var next := included - {""};
    if "" in included {
      assert |next| == |included| - 1;
    } else {
      assert next == included;
      DifferenceOfSizes(s.feedSnapshot, next);
      var h, h' := s.feedHistory, s'.feedHistory;
      var all := h + [h'[|h'| - 1]];
      if Balanced(s) && Telescopes(h) {
        assert Telescopes(all);
      }
    }
  }

  function SumAdded(h: seq<FeedRecord>): int {
    if h == [] then 0 else SumAdded(h[..|h| - 1]) + h[|h| - 1].added - h[|h| - 1].removed
  }

  /** Over any stretch of the history the changes add up to the difference of the sizes. */
  lemma {:induction false} ChangesAddUp(h: seq<FeedRecord>, i: nat, j: nat)
    requires Telescopes(h) && i <= j < |h|
    ensures h[j].included - h[i].included == SumAdded(h[i + 1..j + 1])
  {
    if i < j {
      ChangesAddUp(h, i, j - 1);
      assert h[i + 1..j + 1][..j - i - 1] == h[i + 1..j];
    }
  }

  lemma RecordKeeps(s: State, included: set<string>, itemCount: nat, excludedCount: nat, conflicts: nat, now: int)
    ensures SameUndo(s, RecordGeneration(s, included, itemCount, excludedCount, conflicts, now))
    ensures SameImports(s, RecordGeneration(s, included, itemCount, excludedCount, conflicts, now))
  {
  }

  lemma PrepareKeeps(s: State, resolved: Option<seq<Ip>>, ips: seq<Ip>, record: bool, now: int)
    ensures SameUndo(s, AutoEmergency(RememberTarget(s, resolved, now), ips, record))
    ensures SameImports(s, AutoEmergency(RememberTarget(s, resolved, now), ips, record))
    ensures SameFeedLog(s, AutoEmergency(RememberTarget(s, resolved, now), ips, record))
  {
  }

  lemma PrepareKeepsSettings(s: State, resolved: Option<seq<Ip>>, ips: seq<Ip>, record: bool, now: int)
    ensures
      var s1 := AutoEmergency(RememberTarget(s, resolved, now), ips, record);
      && s1.preset == s.preset && s1.cfg.defaultPreset == s.cfg.defaultPreset
      && s1.cfg.lower == s.cfg.lower && s1.cfg.trim == s.cfg.trim
  {
  }

  /** Generating a feed changes only the feed's own records and the target. */
  lemma GenerateKeeps(s: State, resolved: Option<seq<Ip>>, record: bool, now: int)
    ensures SameUndo(s, GenerateStep(s, resolved, record, now).0)
    ensures SameImports(s, GenerateStep(s, resolved, record, now).0)
  {
    hide Items, ConflictKeys, RecordGeneration;
    var ips := TargetIps(s, resolved, now);
    var s1 := AutoEmergency(RememberTarget(s, resolved, now), ips, record);
    PrepareKeeps(s, resolved, ips, record, now);
    RecordKeeps(s1, {}, 0, |s1.entries|, |ConflictKeys(s1)|, now);
    var included := IncludedIds(Items(s1, ips, now));
    RecordKeeps(s1.(feedSeen := MarkSeen(s1.feedSeen, included, now)), included, |included|,
                |Items(s1, ips, now).Keys - included|, |ConflictKeys(s1)|, now);
  }

  lemma BalanceOfLog(s: State, s': State)
    requires SameFeedLog(s, s')
    ensures Balanced(s) == Balanced(s')
  {
  }

  /** A generation keeps a balanced history balanced, when no stored entry has an empty identifier. */
  lemma GenerateBalances(s: State, resolved: Option<seq<Ip>>, record: bool, now: int)
    requires "" !in s.entries && Balanced(s) && Telescopes(s.feedHistory)
    ensures Balanced(GenerateStep(s, resolved, record, now).0)
    ensures Telescopes(GenerateStep(s, resolved, record, now).0.feedHistory)
  {
    hide Items, ConflictKeys, RecordGeneration, Telescopes, Balanced, IncludedIds, AutoEmergency, RememberTarget,
      TargetIps, MarkSeen, ResolvedMode;
    var ips := TargetIps(s, resolved, now);
    var s1 := AutoEmergency(RememberTarget(s, resolved, now), ips, record);
    PrepareKeeps(s, resolved, ips, record, now);
    BalanceOfLog(s, s1);
    if s1.cfg.emergencyEmpty || !s1.cfg.enabled {
      RecordingBalances(s1, {}, |s1.entries|, |ConflictKeys(s1)|, now);
    } else {
      var items := Items(s1, ips, now);
      var included := IncludedIds(items);
      IncludedAreStored(s1, ips, now);
      var s2 := s1.(feedSeen := MarkSeen(s1.feedSeen, included, now));
      BalanceOfLog(s, s2);
      RecordingBalances(s2, included, |items.Keys - included|, |ConflictKeys(s1)|, now);
    }
  }

  /** A recorded generation leaves the ledger balanced exactly when it includes no entry with an empty
      identifier. */
  lemma GenerationBalances(s: State, resolved: Option<seq<Ip>>, now: int)
    ensures
      var (s', g) := GenerateStep(s, resolved, true, now);
      g.ok ==> (Balanced(s') <==> "" !in IncludedIds(g.items))
  {
    hide Items, ConflictKeys, RecordGeneration, Balanced, AutoEmergency, RememberTarget, TargetIps, MarkSeen,
      ResolvedMode;
    var ips := TargetIps(s, resolved, now);
    var s1 := AutoEmergency(RememberTarget(s, resolved, now), ips, true);
    if s1.cfg.emergencyEmpty || !s1.cfg.enabled {
      RecordingBalances(s1, {}, |s1.entries|, |ConflictKeys(s1)|, now);
    } else {
      var items := Items(s1, ips, now);
      var included := IncludedIds(items);
      var s2 := s1.(feedSeen := MarkSeen(s1.feedSeen, included, now));
      RecordingBalances(s2, included, |items.Keys - included|, |ConflictKeys(s1)|, now);
    }
  }

  /** An entry that every preset rewrites and nothing holds back. */
  predicate Plain(s: State, e: Entry) {
    && e.domain != "" && e.path == "" && e.layer == "dns" && !e.unsupported && !Allows(e)
    && e.reviewStatus == "approved" && e.verified && e.source !in s.sources
    && e.actionCandidates != []
    && s.cfg.lower(s.cfg.trim(e.actionCandidates[0])) !in {"", "passthrough", "forward-asis", "forward_as_is"}
  }

  /** The condition is needed: a store file is loaded as it is, and one that holds an entry without an
      identifier makes the first generation report one entry more than its snapshot has. */
  lemma EmptyIdentifierUnbalances(s: State, e: Entry, now: int)
    requires s.entries == map["" := e] && e.id == "" && s.overrides == map[] && Plain(s, e)
    requires s.cfg.enabled && !s.cfg.emergencyEmpty && s.cfg.targetMode == "cname" && s.cfg.targetName != ""
    ensures
      var (s', g) := GenerateStep(s, None, true, now);
      g.ok && g.itemCount == 1 && |s'.feedSnapshot| == 0 && !Balanced(s')
  {
    hide InConflict, ConflictKeys, ItemOf;
    LonePlainEntry(s, e);
    PlainItem(s, e);
    var (s', g) := GenerateStep(s, None, true, now);
    assert IncludedIds(g.items) == {""};
    GenerationBalances(s, None, now);
  }

  lemma LonePlainEntry(s: State, e: Entry)
    requires s.entries == map["" := e] && e.id == "" && s.overrides == map[] && Plain(s, e)
    ensures !InConflict(s, Key(e)) && StoredRow(s, "") == Row(e, "", true)
  {
    var rows := Rows(s, Key(e));
    assert Applied(e, s.overrides) == e;
    assert AppliedEntries(s.entries, s.overrides) == {e};
    assert rows == {RowOf(e, ViewOf(s))};
    NoConflictMeansAgreement({e}, ViewOf(s), Key(e));
  }

  lemma PlainItem(s: State, e: Entry)
    requires Plain(s, e) && s.cfg.targetMode == "cname" && s.cfg.targetName != ""
    ensures ItemOf(Row(e, "", true), s.cfg, [], false).included
  {
  }
}
