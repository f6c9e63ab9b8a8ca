/** The values that the managed rewrite feed is made of (`internal/aghmanaged/manager.go`):
    catalogue entries, operator overrides, sources and configuration.

    Times are seconds. Case folding and trimming are parameters of the configuration, so that
    nothing depends on how Unicode does them; parsing of configured addresses has already happened. */
module Catalog {
  import opened Wire

  /** An imported rule. Fields of the program's record that nothing here reads are left out. */
  datatype Entry = Entry(
    id: string, source: string, originalRule: string, domain: string, path: string,
    category: string, layer: string, resourceType: string, risk: string, confidence: string,
    reviewStatus: string, verified: bool, actionCandidates: seq<string>,
    expectedCatalog: string, unsupported: bool)

  /** Operator-owned state over an entry. Empty strings and `None` leave the entry's own value. */
  datatype Override = Override(
    category: string, resourceType: string, risk: string, confidence: string,
    reviewStatus: string, verified: Option<bool>, expectedCatalog: string, action: string,
    rewriteEnabled: Option<bool>, rewriteReason: string, notes: string, lastChangedBy: string)

  const NoOverride := Override("", "", "", "", "", None, "", "", None, "", "", "")

  type Overrides = map<string, Override>

  /** Go's map read: the zero value for a missing key. */
  function OverrideOf(ovs: Overrides, id: string): Override {
    if id in ovs then ovs[id] else NoOverride
  }

  datatype Ip = V4(text: string) | V6(text: string)

  datatype Config = Config(
    enabled: bool, targetName: string, targetMode: string,
    staticIPv4: seq<Option<Ip>>, staticIPv6: seq<Option<Ip>>,
    emergencyEmpty: bool, autoEmergencyEmpty: bool, defaultPreset: string,
    staleTargetTTL: int, staleSourceTTL: int, defaultSyncInterval: string,
    largeChangePercent: int, largeChangeCount: int, largeChangeRequiresReview: bool,
    lower: string -> string, trim: string -> string)

  /** What the program records about syncing a source; an edit of the source keeps all of it. */
  datatype SyncRecord = SyncRecord(
    nextSync: int, lastSyncStarted: int, lastSuccess: Option<int>, lastError: string,
    lastDurationMS: int, consecutiveFails: nat, entries: nat, added: nat, removed: nat,
    changed: nat, unsupported: nat, allowExceptions: nat, pendingReview: bool)

  datatype Source = Source(
    id: string, kind: string, name: string, url: string, content: string, enabled: bool,
    syncInterval: string, priority: int, staleFeedPolicy: string, sync: SyncRecord)

  // ----- overrides -----

  function Pick(preferred: string, fallback: string): string {
    if preferred != "" then preferred else fallback
  }

  /** `applyOverrideLocked`. */
  function Applied(e: Entry, ovs: Overrides): Entry {
    var ov := OverrideOf(ovs, e.id);
    e.(category := Pick(ov.category, e.category),
       resourceType := Pick(ov.resourceType, e.resourceType),
       risk := Pick(ov.risk, e.risk),
       confidence := Pick(ov.confidence, e.confidence),
       reviewStatus := Pick(ov.reviewStatus, e.reviewStatus),
       verified := if ov.verified.Some? then ov.verified.value else e.verified,
       expectedCatalog := Pick(ov.expectedCatalog, e.expectedCatalog))
  }

  function PickOption<T>(preferred: Option<T>, fallback: Option<T>): Option<T> {
    if preferred.Some? then preferred else fallback
  }

  /** `mergeOverride`: what `src` states wins. The actor is set separately. */
  function Merge(dst: Override, src: Override): Override {
    Override(
      Pick(src.category, dst.category), Pick(src.resourceType, dst.resourceType),
      Pick(src.risk, dst.risk), Pick(src.confidence, dst.confidence),
      Pick(src.reviewStatus, dst.reviewStatus), PickOption(src.verified, dst.verified),
      Pick(src.expectedCatalog, dst.expectedCatalog), Pick(src.action, dst.action),
      PickOption(src.rewriteEnabled, dst.rewriteEnabled),
      Pick(src.rewriteReason, dst.rewriteReason), Pick(src.notes, dst.notes), dst.lastChangedBy)
  }

  /** `setLastChangedBy`, given the trimmed actor. */
  function SetActor(dst: Override, actor: string): Override {
    dst.(lastChangedBy := Pick(actor, dst.lastChangedBy))
  }

  /** One operator edit of one override. */
  function Patched(cur: Override, ov: Override, actor: string): Override {
    SetActor(Merge(cur, ov), actor)
  }

  /** Editing the same override twice with the same patch is editing it once. */
  lemma PatchIsIdempotent(cur: Override, ov: Override, actor: string)
    ensures Patched(Patched(cur, ov, actor), ov, actor) == Patched(cur, ov, actor)
  {
  }

  // ----- when an entry is rewritten -----

  function NonEmpty(v: string, fallback: string): string {
    if v == "" then fallback else v
  }

  function ConfidenceRank(v: string, lower: string -> string): nat {
    match lower(v)
    case "low" => 1
    case "medium" => 2
    case "" => 2
    case "high" => 3
    case _ => 0
  }

  /** `rewriteEnabled`, given the effective preset. */
  predicate RewriteEnabled(e: Entry, ov: Override, preset: string, lower: string -> string) {
    if ov.rewriteEnabled.Some? then ov.rewriteEnabled.value else
    match NonEmpty(preset, "balanced")
    case "conservative" => e.reviewStatus == "approved" && e.verified
    case "aggressive" => e.reviewStatus != "rejected" && e.reviewStatus != "disabled"
    case _ =>
      || e.reviewStatus == "approved" || e.reviewStatus == "needs_test"
      || (e.reviewStatus == "candidate"
          && ConfidenceRank(e.confidence, lower) >= ConfidenceRank("medium", lower))
  }

  // ----- keys -----

  const SEP := '\0'

  /** `domainPathKey`: the domain and path around a NUL. */
  function JoinKey(domain: string, path: string): string {
    domain + [SEP] + path
  }

  function Key(e: Entry): string {
    JoinKey(e.domain, e.path)
  }

  /** `splitEntryKey`: at the first NUL. */
  function SplitKey(key: string): (r: (string, string)) {
    if key == "" then ("", "")
    else if key[0] == SEP then ("", key[1..])
    else
      var (d, p) := SplitKey(key[1..]);
      ([key[0]] + d, p)
  }

  /** Splitting and joining gives a grouping key back, even one whose domain contains a NUL, so
      looking a conflict up by its joined domain and path finds the group it was built from. */
  lemma {:induction false} SplitThenJoin(key: string)
    requires SEP in key
    ensures var (d, p) := SplitKey(key); JoinKey(d, p) == key && SEP !in d
  {
    if key[0] == SEP {
      assert key == "" + [SEP] + key[1..];
    } else {
      SplitThenJoin(key[1..]);
      var (d, p) := SplitKey(key[1..]);
      assert [key[0]] + (d + [SEP] + p) == key;
      assert ([key[0]] + d) + [SEP] + p == [key[0]] + (d + [SEP] + p);
    }
  }
}
