/** Which entries a generated feed serves, with which lines, and what it remembers, in terms of the fields
    of entries, overrides, sources and settings (`rewriteEnabled`, `feedItem`, `rewriteLines`, `generate`
    and `persistGenerationLocked` in `internal/aghmanaged/manager.go`). */
module FeedRules {
  import opened Wire
  import opened Catalog
  import opened Conflicts
  import opened Store
  import opened Edits
  import opened Feed
  import opened Patching

  // ----- what a stored entry shows -----

  function Shown(stated: string, own: string): string {
    if stated == "" then own else stated
  }

  function Category(s: State, id: string): string
    requires id in s.entries
  {
    Shown(Had(s, id).category, s.entries[id].category)
  }

  function Status(s: State, id: string): string
    requires id in s.entries
  {
    Shown(Had(s, id).reviewStatus, s.entries[id].reviewStatus)
  }

  function Confidence(s: State, id: string): string
    requires id in s.entries
  {
    Shown(Had(s, id).confidence, s.entries[id].confidence)
  }

  predicate Verified(s: State, id: string)
    requires id in s.entries
  {
    if Had(s, id).verified.Some? then Had(s, id).verified.value else s.entries[id].verified
  }

  /** The chosen preset, or else the configured one, or else "balanced", is `p`. */
  predicate PresetIs(s: State, p: string) {
    s.preset == p || (s.preset == "" && (s.cfg.defaultPreset == p || (s.cfg.defaultPreset == "" && p == "balanced")))
  }

  /** Whether a stored entry is rewritten: as an operator says, or else as the preset has it. Any preset
      but the two named works as "balanced"; a lower-cased "medium" is assumed to be itself. */
  lemma RewriteMeans(s: State, id: string)
    requires Keyed(s.entries) && id in s.entries && s.cfg.lower("medium") == "medium"
    ensures
      var flag, rewritten := Had(s, id).rewriteEnabled, StoredRow(s, id).rewrite;
      if flag.Some? then rewritten == flag.value
      else if PresetIs(s, "conservative") then rewritten <==> Status(s, id) == "approved" && Verified(s, id)
      else if PresetIs(s, "aggressive") then rewritten <==> Status(s, id) !in {"rejected", "disabled"}
      else rewritten <==>
             Status(s, id) in {"approved", "needs_test"}
             || (Status(s, id) == "candidate" && s.cfg.lower(Confidence(s, id)) in {"", "medium", "high"})
  {
  }

  // ----- what is served -----

  predicate ByResolving(s: State) {
    s.cfg.targetMode in {"", "resolved_ip"}
  }

  /** The addresses to use when the target is resolved: what resolving gave, or the last ones while fresh. */
  function Addresses(s: State, resolved: Option<seq<Ip>>, now: int): seq<Ip> {
    if resolved.Some? then resolved.value
    else if s.lastResolve.Some? && now - s.lastResolve.value <= s.cfg.staleTargetTTL then s.targetIPs
    else []
  }

  /** A feed is produced: it is enabled, not emptied, and its target resolves if it has to. */
  predicate Produces(s: State, resolved: Option<seq<Ip>>, now: int) {
    s.cfg.enabled && !s.cfg.emergencyEmpty && (ByResolving(s) ==> Addresses(s, resolved, now) != [])
  }

  /** The entry's source is remote, has not been synced for too long, and asks for its entries to be left
      out then, as it does by default. */
  predicate Outdated(s: State, id: string, now: int)
    requires id in s.entries
  {
    var src := s.entries[id].source;
    && src in s.sources && s.sources[src].kind in {"filter_url", "agh_custom_rules", "agh_query_log_cname"}
    && s.sources[src].staleFeedPolicy in {"", "exclude"}
    && s.cfg.staleSourceTTL > 0 && s.sources[src].sync.lastSuccess.Some?
    && now - s.sources[src].sync.lastSuccess.value > s.cfg.staleSourceTTL
  }

  /** A DNS rule for a whole domain. */
  predicate IsDnsRule(e: Entry) {
    e.domain != "" && e.path == "" && !e.unsupported && e.layer in {"", "dns"}
  }

  /** Nothing but the question whether it is rewritten keeps the entry out of a feed. */
  predicate FreeToServe(s: State, id: string, now: int)
    requires id in s.entries
  {
    && IsDnsRule(s.entries[id]) && Category(s, id) != "allow_exception"
    && Status(s, id) !in {"rejected", "disabled"} && !InConflict(s, Key(s.entries[id])) && !Outdated(s, id, now)
  }

  function Rule(domain: string, kind: string, value: string): string {
    "||" + domain + "^$dnsrewrite=NOERROR;" + kind + ";" + value
  }

  /** The addresses of the wanted family among the configured ones, in order. */
  function Texts(ips: seq<Option<Ip>>, four: bool): seq<string> {
    if ips == [] then [] else
    var last := ips[|ips| - 1];
    Texts(ips[..|ips| - 1], four) + if last.Some? && last.value.V4? == four then [last.value.text] else []
  }

  /** The lines of a feed for a domain: one for the name, or one for each address. */
  predicate LinesAre(s: State, resolved: Option<seq<Ip>>, now: int, domain: string, lines: seq<string>) {
    if ByResolving(s) then
      var ips := Addresses(s, resolved, now);
      && |lines| == |ips|
      && forall i | 0 <= i < |ips| :: lines[i] == Rule(domain, if ips[i].V4? then "A" else "AAAA", ips[i].text)
    else if s.cfg.targetMode == "cname" then
      lines == if s.cfg.targetName == "" then [] else [Rule(domain, "CNAME", s.cfg.targetName)]
    else if s.cfg.targetMode == "static_ip" then
      var four, six := Texts(s.cfg.staticIPv4, true), Texts(s.cfg.staticIPv6, false);
      && |lines| == |four| + |six|
      && (forall i | 0 <= i < |four| :: lines[i] == Rule(domain, "A", four[i]))
      && (forall i | 0 <= i < |six| :: lines[|four| + i] == Rule(domain, "AAAA", six[i]))
    else lines == []
  }

  /** There is something to point a rewritten domain at. */
  predicate HasTarget(s: State) {
    ByResolving(s)
    || (s.cfg.targetMode == "cname" && s.cfg.targetName != "")
    || (s.cfg.targetMode == "static_ip"
        && (Texts(s.cfg.staticIPv4, true) != [] || Texts(s.cfg.staticIPv6, false) != []))
  }

  lemma {:induction false} StaticFour(domain: string, ips: seq<Option<Ip>>)
    ensures |StaticV4(domain, ips)| == |Texts(ips, true)|
    ensures forall i | 0 <= i < |Texts(ips, true)| :: StaticV4(domain, ips)[i] == Rule(domain, "A", Texts(ips, true)[i])
  {
    if ips != [] {
      var n := |ips| - 1;
      StaticFour(domain, ips[..n]);
      StaticSplits(domain, ips[..n], ips[n]);
      assert ips == ips[..n] + [ips[n]];
    }
  }

  lemma {:induction false} StaticSix(domain: string, ips: seq<Option<Ip>>)
    ensures |StaticV6(domain, ips)| == |Texts(ips, false)|
    ensures forall i | 0 <= i < |Texts(ips, false)| ::
      StaticV6(domain, ips)[i] == Rule(domain, "AAAA", Texts(ips, false)[i])
  {
    if ips != [] {
      var n := |ips| - 1;
      StaticSix(domain, ips[..n]);
      StaticSplits(domain, ips[..n], ips[n]);
      assert ips == ips[..n] + [ips[n]];
    }
  }

  lemma {:induction false} StaticSplits(domain: string, ips: seq<Option<Ip>>, last: Option<Ip>)
    ensures StaticV4(domain, ips + [last]) == StaticV4(domain, ips) + StaticV4(domain, [last])
    ensures StaticV6(domain, ips + [last]) == StaticV6(domain, ips) + StaticV6(domain, [last])
  {
    if ips != [] {
      StaticSplits(domain, ips[1..], last);
      assert (ips + [last])[1..] == ips[1..] + [last];
    } else {
      assert ips + [last] == [last] && StaticV4(domain, ips) == [] && StaticV6(domain, ips) == [];
    }
  }

  lemma {:induction false} ResolvedAt(domain: string, ips: seq<Ip>)
    ensures |ResolvedLines(domain, ips)| == |ips|
    ensures forall i | 0 <= i < |ips| ::
      ResolvedLines(domain, ips)[i] == Rule(domain, if ips[i].V4? then "A" else "AAAA", ips[i].text)
  {
    if ips != [] {
      ResolvedAt(domain, ips[1..]);
      forall i | 0 < i < |ips|
        ensures ResolvedLines(domain, ips)[i] == Rule(domain, if ips[i].V4? then "A" else "AAAA", ips[i].text)
      {
        assert ips[1..][i - 1] == ips[i];
      }
    }
  }

  lemma LineIsRule(domain: string, kind: string, value: string)
    ensures LineFor(domain, kind, value) == Rule(domain, kind, value)
  {
  }

  lemma LinesMean(s: State, resolved: Option<seq<Ip>>, now: int, domain: string)
    requires ByResolving(s) ==> Addresses(s, resolved, now) != []
    ensures
      var lines := RewriteLines(domain, s.cfg, TargetIps(s, resolved, now));
      LinesAre(s, resolved, now, domain, lines) && (lines != [] <==> HasTarget(s))
  {
    hide StaticV4, StaticV6, ResolvedLines, Texts, LineFor, Rule;
    LineIsRule(domain, "CNAME", s.cfg.targetName);
    ResolvedAt(domain, TargetIps(s, resolved, now));
    StaticFour(domain, s.cfg.staticIPv4);
    StaticSix(domain, s.cfg.staticIPv6);
    assert ByResolving(s) ==> TargetIps(s, resolved, now) == Addresses(s, resolved, now);
  }

  /** The item of a stored entry in a feed that is produced. */
  lemma ProducedItem(s: State, resolved: Option<seq<Ip>>, record: bool, now: int, id: string)
    requires Produces(s, resolved, now) && id in s.entries
    ensures
      var g := GenerateStep(s, resolved, record, now).1;
      g.ok && id in g.items && g.items[id] == FeedItemFor(s, id, TargetIps(s, resolved, now), now)
  {
    hide FeedItemFor, RecordGeneration, ConflictKeys, MarkSeen;
    var ips := TargetIps(s, resolved, now);
    var s1 := RememberTarget(s, resolved, now);
    assert AutoEmergency(s1, ips, record) == s1;
    SameItem(s, s1, ips, now, id);
  }

  lemma SameItem(s: State, s1: State, ips: seq<Ip>, now: int, id: string)
    requires id in s.entries && s1 == s.(targetIPs := s1.targetIPs, lastResolve := s1.lastResolve)
    ensures FeedItemFor(s1, id, ips, now) == FeedItemFor(s, id, ips, now)
  {
    hide ItemOf, Reasons, Group, RewriteEnabled;
    assert ViewOf(s1) == ViewOf(s);
  }

  /** An entry is served exactly when it is free to serve, is rewritten, and there is a target; and then
      with exactly the lines of its domain. */
  lemma ServedExactly(s: State, resolved: Option<seq<Ip>>, record: bool, now: int, id: string)
    requires Keyed(s.entries) && Produces(s, resolved, now) && id in s.entries
    ensures
      var g := GenerateStep(s, resolved, record, now).1;
      && g.ok && id in g.items
      && (g.items[id].included <==> FreeToServe(s, id, now) && StoredRow(s, id).rewrite && HasTarget(s))
      && (g.items[id].included ==> LinesAre(s, resolved, now, s.entries[id].domain, g.items[id].lines))
  {
    hide GenerateStep, InConflict, RewriteLines, RewriteEnabled, LinesAre, HasTarget, TargetIps;
    ProducedItem(s, resolved, record, now, id);
    LinesMean(s, resolved, now, s.entries[id].domain);
  }

  /** The first of these that applies is the reason given for an entry. */
  function Reason(s: State, id: string, now: int): string
    requires id in s.entries
  {
    var e := s.entries[id];
    if Outdated(s, id, now) then "stale source"
    else if e.domain == "" then "empty domain"
    else if e.unsupported || e.layer == "dom" then "unsupported layer"
    else if e.layer != "" && e.layer != "dns" then "http layer"
    else if e.path != "" then "path scoped rule"
    else if Category(s, id) == "allow_exception" then "allow exception"
    else if InConflict(s, Key(e)) then "conflict unresolved"
    else if Status(s, id) in {"rejected", "disabled"} then "rejected or disabled"
    else if !StoredRow(s, id).rewrite then "disabled by preset or user"
    else if !HasTarget(s) then "no target"
    else "included"
  }

  /** The reason a feed gives for each entry. */
  lemma ReasonIs(s: State, resolved: Option<seq<Ip>>, record: bool, now: int, id: string)
    requires Keyed(s.entries) && Produces(s, resolved, now) && id in s.entries
    ensures
      var g := GenerateStep(s, resolved, record, now).1;
      id in g.items && g.items[id].reason == Reason(s, id, now)
  {
    hide GenerateStep, InConflict, RewriteLines, RewriteEnabled, LinesAre, HasTarget, TargetIps;
    ProducedItem(s, resolved, record, now, id);
    LinesMean(s, resolved, now, s.entries[id].domain);
  }

  /** What a preset means for a feed: an entry that is free to serve is served exactly as an operator says
      or else as the preset has it. */
  lemma PresetsDecide(s: State, resolved: Option<seq<Ip>>, record: bool, now: int, id: string)
    requires Keyed(s.entries) && Produces(s, resolved, now) && HasTarget(s) && s.cfg.lower("medium") == "medium"
    requires id in s.entries && FreeToServe(s, id, now)
    ensures
      var g := GenerateStep(s, resolved, record, now).1;
      var flag := Had(s, id).rewriteEnabled;
      && id in g.items
      && var served := g.items[id].included;
      if flag.Some? then served == flag.value
      else if PresetIs(s, "conservative") then served <==> Status(s, id) == "approved" && Verified(s, id)
      else if PresetIs(s, "aggressive") then served
      else served <==>
             Status(s, id) in {"approved", "needs_test"}
             || (Status(s, id) == "candidate" && s.cfg.lower(Confidence(s, id)) in {"", "medium", "high"})
  {
    hide GenerateStep, InConflict, RewriteEnabled, HasTarget, PresetIs;
    ServedExactly(s, resolved, record, now, id);
    RewriteMeans(s, id);
  }

  // ----- what a generation leaves behind -----

  /** The target has to be resolved, and there is no address to use. */
  predicate TargetLost(s: State, resolved: Option<seq<Ip>>, now: int) {
    ByResolving(s) && Addresses(s, resolved, now) == []
  }

  /** The emergency feed stays on, and is switched on by a recorded generation that lost its target when
      the configuration says so. */
  predicate EndsEmptied(s: State, resolved: Option<seq<Ip>>, record: bool, now: int) {
    s.cfg.emergencyEmpty || (TargetLost(s, resolved, now) && s.cfg.autoEmergencyEmpty && record)
  }

  /** How every generation ends: emptied or disabled, it serves nothing and leaves out every entry; with its
      target lost it fails; otherwise it is produced. */
  lemma GenerationEnds(s: State, resolved: Option<seq<Ip>>, record: bool, now: int)
    ensures
      var (s', g) := GenerateStep(s, resolved, record, now);
      var emptied := EndsEmptied(s, resolved, record, now);
      && s'.cfg == (if emptied then s.cfg.(emergencyEmpty := true) else s.cfg)
      && g.emergencyEmpty == emptied
      && (g.ok <==> emptied || !s.cfg.enabled || !TargetLost(s, resolved, now))
      && (emptied || !s.cfg.enabled ==> g.items == map[] && g.itemCount == 0 && g.excludedCount == |s.entries|)
      && (!g.ok ==> g.items == map[])
      && (g.ok && !emptied && s.cfg.enabled ==> Produces(s, resolved, now) && g.items.Keys == s.entries.Keys)
  {
    hide Items, ConflictKeys, MarkSeen, NonEmpty, AutoEmergency, RememberTarget, TargetIps, EndsEmptied, PushBounded;
    var ips := TargetIps(s, resolved, now);
    var s1 := AutoEmergency(RememberTarget(s, resolved, now), ips, record);
    Prepared(s, resolved, record, now);
    PrepareKeeps(s, resolved, ips, record, now);
    ItemKeys(s1, ips, now);
  }

  lemma Prepared(s: State, resolved: Option<seq<Ip>>, record: bool, now: int)
    ensures
      var ips := TargetIps(s, resolved, now);
      var s1 := AutoEmergency(RememberTarget(s, resolved, now), ips, record);
      && s1.cfg == (if EndsEmptied(s, resolved, record, now) then s.cfg.(emergencyEmpty := true) else s.cfg)
      && s1.cfg.emergencyEmpty == EndsEmptied(s, resolved, record, now)
      && (TargetLost(s, resolved, now) <==> ResolvedMode(s.cfg) && ips == [])
  {
  }

  lemma ItemKeys(s: State, ips: seq<Ip>, now: int)
    ensures Items(s, ips, now).Keys == s.entries.Keys
  {
    hide FeedItemFor;
  }

  /** What resolving gave is remembered, with the time, exactly when the target is resolved and resolving
      gave something. */
  lemma TargetIsRemembered(s: State, resolved: Option<seq<Ip>>, record: bool, now: int)
    ensures
      var s' := GenerateStep(s, resolved, record, now).0;
      if ByResolving(s) && resolved.Some? then s'.targetIPs == resolved.value && s'.lastResolve == Some(now)
      else s'.targetIPs == s.targetIPs && s'.lastResolve == s.lastResolve
  {
    hide Items, ConflictKeys, MarkSeen, NonEmpty, IncludedIds, PushBounded;
  }

  /** A successful recorded generation appends what it served and how that differs from the last snapshot,
      keeps the newest fifty, takes the new snapshot, and marks what it served as seen now; every other
      generation leaves all of this as it was. */
  ghost predicate Remembers(s: State, s': State, g: Generated, now: int) {
    && s'.feedSnapshot == Served(g.items)
    && s'.feedHistory == (if |s.feedHistory| < 50 then s.feedHistory else s.feedHistory[|s.feedHistory| - 49..])
                         + [Account(s, g, now)]
    && SeenNow(s.feedSeen, s'.feedSeen, g.items, now)
  }

  function Served(items: map<string, FeedItem>): set<string> {
    set id | id in items && items[id].included && id != ""
  }

  function Account(s: State, g: Generated, now: int): FeedRecord {
    FeedRecord(now, g.itemCount, g.excludedCount,
               |Served(g.items) - s.feedSnapshot|, |s.feedSnapshot - Served(g.items)|, |ConflictKeys(s)|,
               if s.cfg.targetMode == "" then "resolved_ip" else s.cfg.targetMode, g.emergencyEmpty)
  }

  ghost predicate SeenNow(was: map<string, int>, seen: map<string, int>, items: map<string, FeedItem>, now: int) {
    && (forall id :: id in seen <==> id in was || (id in items && items[id].included))
    && (forall id | id in seen :: seen[id] == if id in items && items[id].included then now else was[id])
  }

  lemma GenerationRemembers(s: State, resolved: Option<seq<Ip>>, record: bool, now: int)
    ensures
      var (s', g) := GenerateStep(s, resolved, record, now);
      if record && g.ok then Remembers(s, s', g, now)
      else s'.feedSnapshot == s.feedSnapshot && s'.feedHistory == s.feedHistory && s'.feedSeen == s.feedSeen
  {
    hide Items, ConflictKeys, Remembers, RecordGeneration, RememberTarget, AutoEmergency, TargetIps, MarkSeen;
    var (s', g) := GenerateStep(s, resolved, record, now);
    var ips := TargetIps(s, resolved, now);
    var s1 := AutoEmergency(RememberTarget(s, resolved, now), ips, record);
    PrepareKeeps(s, resolved, ips, record, now);
    PrepareKeepsSettings(s, resolved, ips, record, now);
    SameConflictKeys(s, s1);
    PreparedMemory(s, resolved, record, now);
    if record && g.ok {
      if s1.cfg.emergencyEmpty || !s1.cfg.enabled {
        assert IncludedIds(map[]) == {};
        RecordingRemembers(s1, map[], now, {}, s1.feedSeen, 0, |s1.entries|);
        assert s' == RecordGeneration(s1, {}, 0, |s1.entries|, |ConflictKeys(s1)|, now);
      } else {
        var included := IncludedIds(g.items);
        RecordingRemembers(s1, g.items, now, included, MarkSeen(s1.feedSeen, included, now), g.itemCount,
                           g.excludedCount);
        assert s' == RecordGeneration(s1.(feedSeen := MarkSeen(s1.feedSeen, included, now)), included, g.itemCount,
                                      g.excludedCount, |ConflictKeys(s1)|, now);
      }
      SameMemory(s, s1, s', g, now);
    }
  }

  lemma PreparedMemory(s: State, resolved: Option<seq<Ip>>, record: bool, now: int)
    ensures
      var s1 := AutoEmergency(RememberTarget(s, resolved, now), TargetIps(s, resolved, now), record);
      s1.feedSeen == s.feedSeen && s1.cfg.targetMode == s.cfg.targetMode
  {
  }

  lemma SameConflictKeys(s: State, s1: State)
    requires SameUndo(s, s1) && SameImports(s, s1) && s1.preset == s.preset
    requires s1.cfg.defaultPreset == s.cfg.defaultPreset && s1.cfg.lower == s.cfg.lower && s1.cfg.trim == s.cfg.trim
    ensures ConflictKeys(s1) == ConflictKeys(s)
  {
    hide Conflicted, Applied;
    assert ViewOf(s1) == ViewOf(s);
  }

  lemma SameMemory(s: State, s1: State, s': State, g: Generated, now: int)
    requires s1.feedSnapshot == s.feedSnapshot && s1.feedHistory == s.feedHistory && s1.feedSeen == s.feedSeen
    requires s1.cfg.targetMode == s.cfg.targetMode && ConflictKeys(s1) == ConflictKeys(s)
    ensures Remembers(s1, s', g, now) ==> Remembers(s, s', g, now)
  {
    hide ConflictKeys;
  }

  lemma RecordingRemembers(s: State, items: map<string, FeedItem>, now: int, included: set<string>,
                           seen: map<string, int>, count: nat, rest: nat)
    requires included == IncludedIds(items)
    requires seen == MarkSeen(s.feedSeen, included, now) || (included == {} && seen == s.feedSeen)
    ensures
      var s' := RecordGeneration(s.(feedSeen := seen), included, count, rest, |ConflictKeys(s)|, now);
      Remembers(s, s', Generated(items, count, rest, s.cfg.emergencyEmpty, true), now)
  {
    hide ConflictKeys, PushBounded, SeenNow, MarkSeen, IncludedIds, Served;
    assert Served(items) == included - {""} by { ServedAre(items); }
    SeenIsNow(s.feedSeen, seen, items, now);
    var s' := RecordGeneration(s.(feedSeen := seen), included, count, rest, |ConflictKeys(s)|, now);
    KeepsFifty(s.feedHistory, Account(s, Generated(items, count, rest, s.cfg.emergencyEmpty, true), now));
  }

  lemma ServedAre(items: map<string, FeedItem>)
    ensures Served(items) == IncludedIds(items) - {""}
  {
  }

  lemma SeenIsNow(was: map<string, int>, seen: map<string, int>, items: map<string, FeedItem>, now: int)
    requires seen == MarkSeen(was, IncludedIds(items), now) || (IncludedIds(items) == {} && seen == was)
    ensures SeenNow(was, seen, items, now)
  {
    forall id | id in items ensures items[id].included <==> id in IncludedIds(items) {
    }
  }
}
