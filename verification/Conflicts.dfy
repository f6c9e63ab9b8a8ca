/** Conflicts between catalogue entries (`buildConflicts` in `internal/aghmanaged/manager.go`):
    which domain/path groups disagree, and why. A conflicted group emits nothing. */
module Conflicts {
  import opened Collections
  import opened Wire
  import opened Catalog

  /** What a row depends on besides its entry. */
  datatype View = View(ovs: Overrides, preset: string, lower: string -> string, trim: string -> string)

  /** An entry with overrides applied, its overridden action, and whether it is to be rewritten. */
  datatype Row = Row(entry: Entry, action: string, rewrite: bool)

  function RowOf(e: Entry, v: View): Row {
    var ov := OverrideOf(v.ovs, e.id);
    Row(e, ov.action, RewriteEnabled(e, ov, v.preset, v.lower))
  }

  datatype Reason = CategoryMismatch | ReviewMismatch | AllowVersusRewrite | MissingAction | UnsafeAction

  const AllActionReasons := {MissingAction, UnsafeAction}

  predicate Allows(e: Entry) {
    e.category == "allow_exception"
  }

  predicate Participant(r: Row) {
    Allows(r.entry) || r.rewrite
  }

  /** `effectiveMirageAction`. */
  function EffectiveAction(r: Row): string {
    if r.action != "" then r.action
    else if |r.entry.actionCandidates| > 0 then r.entry.actionCandidates[0]
    else ""
  }

  /** `rewriteActionConflictReason`. */
  function ActionReason(r: Row, v: View): Option<Reason> {
    if !r.rewrite || Allows(r.entry) then None else
    match v.lower(v.trim(EffectiveAction(r)))
    case "" => Some(MissingAction)
    case "passthrough" => Some(UnsafeAction)
    case "forward-asis" => Some(UnsafeAction)
    case "forward_as_is" => Some(UnsafeAction)
    case _ => None
  }

  // ----- what a conflict is -----

  predicate InGroup(e: Entry, key: string) {
    e.domain != "" && Key(e) == key
  }

  /** The rows of the entries `es` (overrides already applied) that share `key`. */
  function Group(es: set<Entry>, v: View, key: string): set<Row> {
    set e | e in es && InGroup(e, key) :: RowOf(e, v)
  }

  function Categories(rows: set<Row>): set<string> {
    set r | r in rows && Participant(r) :: r.entry.category
  }

  function Reviews(rows: set<Row>): set<string> {
    set r | r in rows && Participant(r) :: r.entry.reviewStatus
  }

  function ActionReasons(rows: set<Row>, v: View): set<Reason> {
    set r | r in rows && ActionReason(r, v).Some? :: ActionReason(r, v).value
  }

  predicate MixesAllowAndRewrite(rows: set<Row>) {
    (exists r :: r in rows && Allows(r.entry)) && (exists r :: r in rows && !Allows(r.entry) && r.rewrite)
  }

  function Reasons(rows: set<Row>, v: View): set<Reason> {
    (if |Categories(rows)| > 1 then {CategoryMismatch} else {})
    + (if |Reviews(rows)| > 1 then {ReviewMismatch} else {})
    + (if MixesAllowAndRewrite(rows) then {AllowVersusRewrite} else {})
    + ActionReasons(rows, v)
  }

  /** The group `key` of `es` is in conflict. */
  predicate Conflicted(es: set<Entry>, v: View, key: string) {
    Reasons(Group(es, v, key), v) != {}
  }

  // ----- finding the conflicts -----

  datatype Conflict = Conflict(domain: string, path: string, reasons: set<Reason>, rows: seq<Row>)

  function AsSet<T>(s: seq<T>): set<T> {
    set x | x in s
  }

  lemma Snoc<T>(s: seq<T>, x: T)
    ensures AsSet(s + [x]) == AsSet(s) + {x}
  {
  }

  ghost predicate AreParticipants(participants: seq<Row>, rows: seq<Row>) {
    forall r :: r in participants <==> r in rows && Participant(r)
  }

  /** The first loop over a group: who takes part, and which actions are missing or unsafe. */
  method Collect(rows: seq<Row>, v: View) returns (participants: seq<Row>, actionReasons: set<Reason>)
    ensures AreParticipants(participants, rows)
    ensures actionReasons == ActionReasons(AsSet(rows), v)
  {
    participants, actionReasons := [], {};
    for i := 0 to |rows|
      invariant AreParticipants(participants, rows[..i])
      invariant actionReasons == ActionReasons(AsSet(rows[..i]), v)
    {
      var row := rows[i];
      assert rows[..i + 1] == rows[..i] + [row];
      Snoc(rows[..i], row);
      var reason := ActionReason(row, v);
      if reason.Some? {
        actionReasons := actionReasons + {reason.value};
        participants := participants + [row];
      } else if Participant(row) {
        participants := participants + [row];
      }
    }
    assert rows[..|rows|] == rows;
  }

  /** The second loop: what the participants say. */
  method Tally(participants: seq<Row>)
    returns (categories: set<string>, reviews: set<string>, hasAllow: bool, hasRewrite: bool)
    ensures categories == set r | r in participants :: r.entry.category
    ensures reviews == set r | r in participants :: r.entry.reviewStatus
    ensures hasAllow <==> exists r :: r in participants && Allows(r.entry)
    ensures hasRewrite <==> exists r :: r in participants && !Allows(r.entry) && r.rewrite
  {
    categories, reviews, hasAllow, hasRewrite := {}, {}, false, false;
    for i := 0 to |participants|
      invariant categories == set r | r in participants[..i] :: r.entry.category
      invariant reviews == set r | r in participants[..i] :: r.entry.reviewStatus
      invariant hasAllow <==> exists r :: r in participants[..i] && Allows(r.entry)
      invariant hasRewrite <==> exists r :: r in participants[..i] && !Allows(r.entry) && r.rewrite
    {
      var row := participants[i];
      assert participants[..i + 1] == participants[..i] + [row];
      categories := categories + {row.entry.category};
      reviews := reviews + {row.entry.reviewStatus};
      if Allows(row.entry) {
        hasAllow := true;
      } else if row.rewrite {
        hasRewrite := true;
      }
    }
    assert participants[..|participants|] == participants;
  }

  /** The scan of one group. A lone participant without action reasons is passed over, as the
      program does; it could not have disagreed with itself. */
  method Classify(rows: seq<Row>, v: View) returns (reasons: set<Reason>)
    ensures reasons == Reasons(AsSet(rows), v)
  {
    hide Categories, Reviews, MixesAllowAndRewrite, ActionReasons, Participant, Allows, AsSet;
    var participants, actionReasons := Collect(rows, v);
    ParticipantsDecide(rows, participants);
    if |participants| < 2 && actionReasons == {} {
      LonelyRowsAgree(rows, participants, v);
      return {};
    }
    var categories, reviews, hasAllow, hasRewrite := Tally(participants);
    reasons := (if |categories| > 1 then {CategoryMismatch} else {})
      + (if |reviews| > 1 then {ReviewMismatch} else {})
      + (if hasAllow && hasRewrite then {AllowVersusRewrite} else {})
      + actionReasons;
  }

  lemma ParticipantsDecide(rows: seq<Row>, participants: seq<Row>)
    requires AreParticipants(participants, rows)
    ensures Categories(AsSet(rows)) == set r | r in participants :: r.entry.category
    ensures Reviews(AsSet(rows)) == set r | r in participants :: r.entry.reviewStatus
    ensures MixesAllowAndRewrite(AsSet(rows)) <==>
            && (exists r :: r in participants && Allows(r.entry))
            && (exists r :: r in participants && !Allows(r.entry) && r.rewrite)
  {
    assert forall r :: r in rows <==> r in AsSet(rows);
  }

  lemma AtMostOne<T>(s: set<T>)
    requires forall x, y | x in s && y in s :: x == y
    ensures |s| <= 1
  {
    if s != {} {
      var x :| x in s;
      assert s == {x};
    }
  }

  lemma LonelyRowsAgree(rows: seq<Row>, participants: seq<Row>, v: View)
    requires AreParticipants(participants, rows)
    requires |participants| < 2 && ActionReasons(AsSet(rows), v) == {}
    ensures Reasons(AsSet(rows), v) == {}
  {
    ParticipantsDecide(rows, participants);
    AtMostOne(Categories(AsSet(rows)));
    AtMostOne(Reviews(AsSet(rows)));
  }

  /** Distinct entries have distinct rows. */
  lemma NewRow(entries: seq<Entry>, i: nat, v: View, key: string, rows: seq<Row>)
    requires Distinct(entries) && i < |entries| && Distinct(rows)
    requires AsSet(rows) == Group(AsSet(entries[..i]), v, key)
    ensures Distinct(rows + [RowOf(entries[i], v)])
  {
    hide RewriteEnabled;
    forall r | r in rows ensures r.entry in entries[..i] {
      assert r in AsSet(rows);
    }
    assert entries[i] !in entries[..i];
  }

  /** Appends the row of `e` to its group; an entry without a domain is passed over. */
  function AddRow(grouped: map<string, seq<Row>>, e: Entry, v: View): map<string, seq<Row>> {
    if e.domain == "" then grouped
    else grouped[Key(e) := (if Key(e) in grouped then grouped[Key(e)] else []) + [RowOf(e, v)]]
  }

  /** `grouped` holds the rows of exactly the groups that `entries` have. */
  ghost predicate Grouped(grouped: map<string, seq<Row>>, entries: seq<Entry>, v: View) {
    && (forall key :: key in grouped <==> exists e :: e in entries && InGroup(e, key))
    && (forall key | key in grouped :: AsSet(grouped[key]) == Group(AsSet(entries), v, key))
  }

  lemma GroupedGrows(grouped: map<string, seq<Row>>, entries: seq<Entry>, e: Entry, v: View)
    requires Grouped(grouped, entries, v)
    ensures Grouped(AddRow(grouped, e, v), entries + [e], v)
  {
    hide RowOf, Key;
    var all, now := entries + [e], AddRow(grouped, e, v);
    Snoc(entries, e);
    forall key ensures key in now <==> exists x :: x in all && InGroup(x, key) {
      if key in grouped {
        var x :| x in entries && InGroup(x, key);
        assert x in all;
      }
      assert e in all;
    }
    forall key | key in now ensures AsSet(now[key]) == Group(AsSet(all), v, key) {
      RowsGrow(grouped, entries, e, v, key);
    }
  }

  lemma RowsGrow(grouped: map<string, seq<Row>>, entries: seq<Entry>, e: Entry, v: View, key: string)
    requires Grouped(grouped, entries, v) && key in AddRow(grouped, e, v)
    ensures AsSet(AddRow(grouped, e, v)[key]) == Group(AsSet(entries + [e]), v, key)
  {
    hide RowOf, Key;
    var rows := if key in grouped then grouped[key] else [];
    Snoc(entries, e);
    Snoc(rows, RowOf(e, v));
    assert AsSet(rows) == Group(AsSet(entries), v, key);
  }

  lemma GroupedStaysDistinct(grouped: map<string, seq<Row>>, entries: seq<Entry>, i: nat, v: View)
    requires Distinct(entries) && i < |entries| && Grouped(grouped, entries[..i], v)
    requires forall key | key in grouped :: Distinct(grouped[key])
    ensures
      var now := AddRow(grouped, entries[i], v);
      forall key | key in now :: Distinct(now[key])
  {
    hide RowOf, Key;
    var e := entries[i];
    if e.domain != "" && Key(e) in grouped {
      NewRow(entries, i, v, Key(e), grouped[Key(e)]);
    }
  }

  /** The grouping loop. */
  method GroupRows(entries: seq<Entry>, v: View) returns (grouped: map<string, seq<Row>>)
    ensures Grouped(grouped, entries, v)
    ensures Distinct(entries) ==> forall key | key in grouped :: Distinct(grouped[key])
  {
    grouped := map[];
    for i := 0 to |entries|
      invariant Grouped(grouped, entries[..i], v)
      invariant Distinct(entries) ==> forall key | key in grouped :: Distinct(grouped[key])
    {
      hide Grouped, Distinct;
      assert entries[..i + 1] == entries[..i] + [entries[i]];
      GroupedGrows(grouped, entries[..i], entries[i], v);
      if Distinct(entries) {
        GroupedStaysDistinct(grouped, entries, i, v);
      }
      if entries[i].domain != "" {
        var rows := if Key(entries[i]) in grouped then grouped[Key(entries[i])] else [];
        grouped := grouped[Key(entries[i]) := rows + [RowOf(entries[i], v)]];
      }
    }
    assert entries[..|entries|] == entries;
  }

  /** `c` reports the group `key`: its rows, all its reasons, and a domain and path that join to it. */
  ghost predicate Reports(c: Conflict, es: set<Entry>, v: View, key: string) {
    && AsSet(c.rows) == Group(es, v, key)
    && c.reasons == Reasons(Group(es, v, key), v)
    && JoinKey(c.domain, c.path) == key
  }

  /** The body of the loop over groups. */
  method Examine(key: string, rows: seq<Row>, ghost es: set<Entry>, v: View) returns (c: Option<Conflict>)
    requires AsSet(rows) == Group(es, v, key) && exists e :: e in es && InGroup(e, key)
    ensures c.Some? <==> Conflicted(es, v, key)
    ensures c.Some? ==> Reports(c.value, es, v, key) && c.value.rows == rows
  {
    var reasons := Classify(rows, v);
    if reasons == {} {
      return None;
    }
    assert SEP in key by {
      var e :| e in es && InGroup(e, key);
      assert key[|e.domain|] == SEP;
    }
    SplitThenJoin(key);
    var (domain, path) := SplitKey(key);
    return Some(Conflict(domain, path, reasons, rows));
  }

  /** `buildConflicts`: exactly the conflicted groups, with their rows and all their reasons. The
      program lists them sorted; here they are found by key. */
  method BuildConflicts(entries: seq<Entry>, v: View) returns (out: map<string, Conflict>)
    ensures forall key :: key in out <==> Conflicted(AsSet(entries), v, key)
    ensures forall key | key in out :: Reports(out[key], AsSet(entries), v, key)
    ensures Distinct(entries) ==> forall key | key in out :: Distinct(out[key].rows)
  {
    ghost var es := AsSet(entries);
    var grouped := GroupRows(entries, v);
    out := map[];
    var todo := grouped.Keys;
    while todo != {}
      invariant todo <= grouped.Keys
      invariant forall key :: key in out <==> key in grouped && key !in todo && Conflicted(es, v, key)
      invariant forall key | key in out :: Reports(out[key], es, v, key)
      invariant Distinct(entries) ==> forall key | key in out :: Distinct(out[key].rows)
      decreases |todo|
    {
      var key :| key in todo;
      var c := Examine(key, grouped[key], es, v);
      todo := todo - {key};
      if c.Some? {
        out := out[key := c.value];
      }
    }
    forall key | Conflicted(es, v, key) ensures key in grouped {
      ConflictHasRows(es, v, key);
    }
  }

  lemma NoRowsNoReasons(v: View)
    ensures Reasons({}, v) == {}
  {
    assert Categories({}) == {} && Reviews({}) == {} && ActionReasons({}, v) == {};
  }

  lemma ConflictHasRows(es: set<Entry>, v: View, key: string)
    requires Conflicted(es, v, key)
    ensures exists e :: e in es && InGroup(e, key)
  {
    NoRowsNoReasons(v);
    var r :| r in Group(es, v, key);
  }

  // ----- what an unconflicted group is -----

  lemma AtLeastTwo<T>(s: set<T>, x: T, y: T)
    requires x in s && y in s && x != y
    ensures |s| > 1
  {
    assert {x, y} <= s;
    assert |s - {x, y}| == |s| - |{x, y}|;
  }

  /** Disagreeing participants, and unusable actions, are always reported. */
  lemma DisagreementIsReported(rows: set<Row>, v: View, r: Row, q: Row)
    requires r in rows && q in rows && Participant(r) && Participant(q)
    ensures r.entry.category != q.entry.category ==> CategoryMismatch in Reasons(rows, v)
    ensures r.entry.reviewStatus != q.entry.reviewStatus ==> ReviewMismatch in Reasons(rows, v)
    ensures ActionReason(r, v).Some? ==> ActionReason(r, v).value in Reasons(rows, v)
  {
    assert r.entry.category in Categories(rows) && q.entry.category in Categories(rows);
    assert r.entry.reviewStatus in Reviews(rows) && q.entry.reviewStatus in Reviews(rows);
    if r.entry.category != q.entry.category {
      AtLeastTwo(Categories(rows), r.entry.category, q.entry.category);
    }
    if r.entry.reviewStatus != q.entry.reviewStatus {
      AtLeastTwo(Reviews(rows), r.entry.reviewStatus, q.entry.reviewStatus);
    }
  }

  /** The participants all agree on category and review status. */
  ghost predicate Agree(rows: set<Row>) {
    forall r, q | r in rows && q in rows && Participant(r) && Participant(q) ::
      r.entry.category == q.entry.category && r.entry.reviewStatus == q.entry.reviewStatus
  }

  /** Where the participants agree, only actions can be at fault. */
  lemma AgreementLeavesActions(rows: set<Row>, v: View)
    requires Agree(rows)
    ensures Reasons(rows, v) == ActionReasons(rows, v)
  {
    AtMostOne(Categories(rows));
    AtMostOne(Reviews(rows));
  }

  /** A group is free of conflict exactly when its participants agree on category and review status
      and every rewritten row has a usable action. */
  lemma NoConflictMeansAgreement(es: set<Entry>, v: View, key: string)
    ensures !Conflicted(es, v, key) <==>
      Agree(Group(es, v, key)) && forall r | r in Group(es, v, key) :: ActionReason(r, v).None?
  {
    var rows := Group(es, v, key);
    if Agree(rows) {
      AgreementLeavesActions(rows, v);
      forall r | r in rows && ActionReason(r, v).Some? ensures ActionReason(r, v).value in Reasons(rows, v) {
      }
    }
    forall r, q | r in rows && q in rows && Participant(r) && Participant(q)
      ensures r.entry.category != q.entry.category ==> CategoryMismatch in Reasons(rows, v)
      ensures r.entry.reviewStatus != q.entry.reviewStatus ==> ReviewMismatch in Reasons(rows, v)
    {
      DisagreementIsReported(rows, v, r, q);
    }
  }
}
