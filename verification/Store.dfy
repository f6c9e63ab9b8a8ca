/** The state of the feed manager (`Manager` in `internal/aghmanaged/manager.go`). Persistence is
    the identity; the text of summaries and the wall-clock times kept only for display are left
    out. Identifiers that the program computes by hashing are inputs of the steps that make them. */
module Store {
  import opened Wire
  import opened Catalog
  import opened Conflicts

  const UNDO_LIMIT := 50
  const HISTORY_LIMIT := 50

  /** One reversible edit: the entries it touched, their overrides before (`None` where there was
      none) and after. */
  datatype RollbackRecord = RollbackRecord(
    id: string, action: string, ids: set<string>,
    before: map<string, Option<Override>>, after: Overrides)

  /** One recorded feed generation. */
  datatype FeedRecord = FeedRecord(
    time: int, included: nat, excluded: nat, added: nat, removed: nat, conflicts: nat,
    targetMode: string, emergencyEmpty: bool)

  datatype State = State(
    cfg: Config, preset: string,
    sources: map<string, Source>, entries: map<string, Entry>, pending: map<string, seq<Entry>>,
    overrides: Overrides, rollbacks: seq<RollbackRecord>,
    feedSeen: map<string, int>, feedSnapshot: set<string>, feedHistory: seq<FeedRecord>,
    targetIPs: seq<Ip>, lastResolve: Option<int>)

  /** How a public method returned. */
  datatype Outcome = Done | NotFound | Refused

  /** `append` followed by keeping the newest `limit`. */
  function PushBounded<T>(log: seq<T>, x: T, limit: nat): (r: seq<T>)
    ensures |r| <= limit || limit == 0
    ensures limit > 0 ==> |r| > 0 && r[|r| - 1] == x
  {
    var all := log + [x];
    if |all| > limit then all[|all| - limit..] else all
  }

  /** Both logs keep the newest fifty. */
  lemma KeepsFifty<T>(log: seq<T>, x: T)
    ensures UNDO_LIMIT == HISTORY_LIMIT
    ensures PushBounded(log, x, UNDO_LIMIT) == (if |log| < 50 then log else log[|log| - 49..]) + [x]
  {
  }

  /** `effectivePreset`. */
  function EffectivePreset(s: State): string {
    if s.preset != "" then s.preset else NonEmpty(s.cfg.defaultPreset, "balanced")
  }

  function ViewOf(s: State): View {
    View(s.overrides, EffectivePreset(s), s.cfg.lower, s.cfg.trim)
  }

  /** Every entry is stored under its own identifier. */
  ghost predicate Keyed(entries: map<string, Entry>) {
    forall id | id in entries :: entries[id].id == id
  }

  /** The two states have the same overrides and undo log. */
  ghost predicate SameUndo(s: State, s': State) {
    s'.overrides == s.overrides && s'.rollbacks == s.rollbacks
  }

  /** The two states have the same feed snapshot and history. */
  ghost predicate SameFeedLog(s: State, s': State) {
    s'.feedSnapshot == s.feedSnapshot && s'.feedHistory == s.feedHistory
  }

  /** The two states have the same sources, entries and pending lists. */
  ghost predicate SameImports(s: State, s': State) {
    s'.sources == s.sources && s'.entries == s.entries && s'.pending == s.pending
  }

  /** The stored entries with overrides applied. */
  function AppliedEntries(entries: map<string, Entry>, ovs: Overrides): set<Entry> {
    set id | id in entries :: Applied(entries[id], ovs)
  }
}
