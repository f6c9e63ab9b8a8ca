/** Operator edits of the catalogue (`PatchEntry`, `BulkPatchEntries`, `ResolveConflict`,
    `ResolveConflictByPriority` and `Rollback` in `internal/aghmanaged/manager.go`), each as one
    atomic step. A conflict is named by its key, which the program hashes into an identifier. */
module Edits {
  import opened Collections
  import opened Wire
  import opened Catalog
  import opened Conflicts
  import opened Store
  import opened Undo

  /** The actor an edit is attributed to; empty when none was given. */
  function Actor(s: State, changedBy: Option<string>): string {
    match changedBy
    case None => ""
    case Some(who) => s.cfg.trim(who)
  }

  /** Patches `ids` and records the edit. */
  function EditStep(s: State, ids: set<string>, patch: Override, actor: string, recId: string, action: string): State {
    s.(overrides := EditAll(s.overrides, ids, patch, actor),
       rollbacks := PushBounded(s.rollbacks, Recorded(s.overrides, ids, patch, actor, recId, action), UNDO_LIMIT))
  }

  function PatchStep(s: State, id: string, ov: Override, changedBy: Option<string>, recId: string): (State, Outcome) {
    if id !in s.entries then (s, NotFound)
    else (EditStep(s, {id}, ov, Actor(s, changedBy), recId, "catalog patch"), Done)
  }

  function BulkPatchStep(s: State, ids: seq<string>, ov: Override, changedBy: Option<string>,
                         recId: string): (State, Outcome) {
    if ids == [] || !(AsSet(ids) <= s.entries.Keys) then (s, Refused)
    else (EditStep(s, AsSet(ids), ov, Actor(s, changedBy), recId, "catalog bulk patch"), Done)
  }

  // ----- resolving a conflict by hand -----

  /** Go's order on strings, which is the order of their code points. */
  predicate StrLeq(a: string, b: string) {
    a == "" || (b != "" && (a[0] < b[0] || (a[0] == b[0] && StrLeq(a[1..], b[1..]))))
  }

  lemma {:induction false} StrLeqOrders(a: string, b: string, c: string)
    ensures StrLeq(a, b) || StrLeq(b, a)
    ensures StrLeq(a, b) && StrLeq(b, a) ==> a == b
    ensures StrLeq(a, b) && StrLeq(b, c) ==> StrLeq(a, c)
  {
    if a != "" && b != "" {
      StrLeqOrders(a[1..], b[1..], if c == "" then "" else c[1..]);
      assert a == [a[0]] + a[1..] && b == [b[0]] + b[1..];
    }
  }

  ghost predicate IsLeast(ids: set<string>, id: string) {
    id in ids && forall other | other in ids :: StrLeq(id, other)
  }

  predicate Candidate(r: Row) {
    !Allows(r.entry) && r.rewrite
  }

  function IdsOf(rows: set<Row>): set<string> {
    set r | r in rows :: r.entry.id
  }

  /** The entry a manual resolution patches: the first rewrite candidate in order of identifiers,
      or else the first entry. */
  ghost predicate IsTarget(rows: set<Row>, id: string) {
    var candidates := set r | r in rows && Candidate(r);
    IsLeast(IdsOf(if candidates != {} then candidates else rows), id)
  }

  function Rows(s: State, key: string): set<Row> {
    Group(AppliedEntries(s.entries, s.overrides), ViewOf(s), key)
  }

  predicate InConflict(s: State, key: string) {
    Conflicted(AppliedEntries(s.entries, s.overrides), ViewOf(s), key)
  }

  /** `target` is the entry chosen, which the step does not depend on when there is no conflict. */
  function ResolveStep(s: State, key: string, target: string, ov: Override, changedBy: Option<string>,
                       recId: string): (State, Outcome) {
    if !InConflict(s, key) || target == "" || target !in s.entries then (s, NotFound)
    else (EditStep(s, {target}, ov, Actor(s, changedBy), recId, "conflict resolve"), Done)
  }

  // ----- resolving a conflict by source priority -----

  function Priority(s: State, r: Row): int {
    if r.entry.source in s.sources then s.sources[r.entry.source].priority else 0
  }

  /** The one participant whose source outranks those of all others. */
  ghost predicate IsWinner(s: State, rows: set<Row>, w: Row) {
    && w in rows && Participant(w)
    && forall q | q in rows && Participant(q) && q != w :: Priority(s, q) < Priority(s, w)
  }

  function Losers(rows: set<Row>, w: Row): set<string> {
    set r | r in rows && r.entry.id != w.entry.id :: r.entry.id
  }

  /** What the losers take over. */
  function WinnersPatch(w: Row): Override {
    NoOverride.(category := w.entry.category, resourceType := w.entry.resourceType, risk := w.entry.risk,
                confidence := w.entry.confidence, reviewStatus := w.entry.reviewStatus,
                verified := Some(w.entry.verified), expectedCatalog := w.entry.expectedCatalog,
                action := w.action)
  }

  const BY_PRIORITY := "conflict source priority resolve"

  ghost predicate HasWinner(s: State, rows: set<Row>) {
    exists w :: IsWinner(s, rows, w)
  }

  lemma WinnerIsUnique(s: State, rows: set<Row>, w: Row, q: Row)
    requires IsWinner(s, rows, w) && IsWinner(s, rows, q)
    ensures w == q
  {
  }

  ghost function PriorityStep(s: State, key: string, changedBy: Option<string>, recId: string): (State, Outcome) {
    var rows := Rows(s, key);
    if !InConflict(s, key) then (s, NotFound)
    else if !HasWinner(s, rows) then (s, Refused)
    else
      var w :| IsWinner(s, rows, w);
      if Losers(rows, w) == {} then (s, NotFound)
      else
        (EditStep(s, Losers(rows, w), WinnersPatch(w), Actor(s, changedBy), recId, BY_PRIORITY), Done)
  }

  // ----- rolling back -----

  /** The first record with the identifier. */
  function FindRecord(log: seq<RollbackRecord>, recId: string): (i: nat)
    ensures i <= |log|
    ensures i < |log| ==> log[i].id == recId
    ensures forall j | 0 <= j < i :: log[j].id != recId
  {
    if log == [] then 0
    else if log[0].id == recId then 0
    else 1 + FindRecord(log[1..], recId)
  }

  function RollbackStep(s: State, recId: string): (State, Outcome)
    requires AllRestorable(s.rollbacks)
  {
    var i := FindRecord(s.rollbacks, recId);
    if i == |s.rollbacks| then (s, NotFound)
    else if !(s.rollbacks[i].ids <= s.entries.Keys) || !Newest(s.rollbacks, i) then (s, Refused)
    else (s.(overrides := Restore(s.overrides, s.rollbacks[i]), rollbacks := RemoveAt(s.rollbacks, i)), Done)
  }

  predicate AllRestorable(log: seq<RollbackRecord>) {
    forall i | 0 <= i < |log| :: log[i].before.Keys == log[i].ids
  }

  /** The override an entry has, if any. */
  function Lookup(ovs: Overrides, id: string): Option<Override> {
    if id in ovs then Some(ovs[id]) else None
  }

  /** A rollback is refused, with nothing changed, exactly when an entry of the record is gone or a newer
      record touches one; otherwise every entry of the record, and no other, has the override it had
      before, and the record alone leaves the log. */
  lemma RollbackRestores(s: State, i: nat)
    requires AllRestorable(s.rollbacks) && i < |s.rollbacks|
    requires forall j | 0 <= j < i :: s.rollbacks[j].id != s.rollbacks[i].id
    ensures
      var rec := s.rollbacks[i];
      var (s', outcome) := RollbackStep(s, rec.id);
      && (outcome == Done <==>
            && rec.ids <= s.entries.Keys
            && forall j | i < j < |s.rollbacks| :: s.rollbacks[j].ids !! rec.ids)
      && (outcome != Done ==> outcome == Refused && s' == s)
      && (outcome == Done ==> s'.rollbacks == s.rollbacks[..i] + s.rollbacks[i + 1..])
      && (outcome == Done ==>
            forall id :: Lookup(s'.overrides, id) == if id in rec.ids then rec.before[id] else Lookup(s.overrides, id))
  {
    var k := FindRecord(s.rollbacks, s.rollbacks[i].id);
    assert k == i;
  }

  /** Without such a record nothing is rolled back. */
  lemma NothingToRollBack(s: State, recId: string)
    requires AllRestorable(s.rollbacks) && forall i | 0 <= i < |s.rollbacks| :: s.rollbacks[i].id != recId
    ensures RollbackStep(s, recId) == (s, NotFound)
  {
    var i := FindRecord(s.rollbacks, recId);
    assert i == |s.rollbacks|;
  }

  // ----- what a priority resolution achieves -----

  lemma RowOfStored(s: State, key: string, id: string)
    requires Keyed(s.entries) && id in s.entries
    requires InGroup(s.entries[id], key)
    ensures RowOf(Applied(s.entries[id], s.overrides), ViewOf(s)) in Rows(s, key)
  {
    var e := Applied(s.entries[id], s.overrides);
    assert e in AppliedEntries(s.entries, s.overrides) && InGroup(e, key);
  }

  /** A row of a group is the row of a stored entry. */
  lemma RowIsStored(s: State, key: string, r: Row)
    requires Keyed(s.entries) && r in Rows(s, key)
    ensures r.entry.id in s.entries && InGroup(s.entries[r.entry.id], key)
    ensures r == RowOf(Applied(s.entries[r.entry.id], s.overrides), ViewOf(s))
  {
    var e :| e in AppliedEntries(s.entries, s.overrides) && InGroup(e, key) && r == RowOf(e, ViewOf(s));
    var id :| id in s.entries && e == Applied(s.entries[id], s.overrides);
  }

  lemma LosersAreStored(s: State, key: string, w: Row)
    ensures Keyed(s.entries) ==> Losers(Rows(s, key), w) <= s.entries.Keys
  {
    if Keyed(s.entries) {
      forall r | r in Rows(s, key) ensures r.entry.id in s.entries {
        RowIsStored(s, key, r);
      }
    }
  }

  /** An edit does not disturb a group none of whose entries it touches. */
  lemma EditKeepsOtherGroups(s: State, ids: set<string>, patch: Override, actor: string, recId: string,
                             action: string, key: string)
    requires Keyed(s.entries)
    requires forall id | id in ids && id in s.entries :: !InGroup(s.entries[id], key)
    ensures Rows(EditStep(s, ids, patch, actor, recId, action), key) == Rows(s, key)
  {
    var s' := EditStep(s, ids, patch, actor, recId, action);
    forall r | r in Rows(s, key) ensures r in Rows(s', key) {
      RowIsStored(s, key, r);
      RowOfStored(s', key, r.entry.id);
    }
    forall r | r in Rows(s', key) ensures r in Rows(s, key) {
      RowIsStored(s', key, r);
      RowOfStored(s, key, r.entry.id);
    }
  }

  /** After the losers took over the winner's classification, every row of the group has it. */
  lemma GroupFollowsWinner(s: State, key: string, w: Row, actor: string, recId: string, action: string, r: Row)
    requires Keyed(s.entries) && w in Rows(s, key)
    requires w.entry.category != "" && w.entry.reviewStatus != ""
    requires r in Rows(EditStep(s, Losers(Rows(s, key), w), WinnersPatch(w), actor, recId, action), key)
    ensures r.entry.category == w.entry.category && r.entry.reviewStatus == w.entry.reviewStatus
  {
    var losers := Losers(Rows(s, key), w);
    var s' := EditStep(s, losers, WinnersPatch(w), actor, recId, action);
    RowIsStored(s', key, r);
    RowIsStored(s, key, w);
    var id := r.entry.id;
    RowOfStored(s, key, id);
    if id != w.entry.id {
      assert RowOf(Applied(s.entries[id], s.overrides), ViewOf(s)).entry.id in losers;
      assert s'.overrides[id] == Patched(OverrideOf(s.overrides, id), WinnersPatch(w), actor);
    }
  }

  /** When a priority resolution succeeds and the winner states a category and a review status, the
      group can remain in conflict only over actions. */
  lemma PriorityLeavesOnlyActions(s: State, key: string, changedBy: Option<string>, recId: string, w: Row)
    requires Keyed(s.entries) && PriorityStep(s, key, changedBy, recId).1 == Done
    requires IsWinner(s, Rows(s, key), w) && w.entry.category != "" && w.entry.reviewStatus != ""
    ensures
      var s' := PriorityStep(s, key, changedBy, recId).0;
      Reasons(Rows(s', key), ViewOf(s')) <= AllActionReasons
  {
    PriorityStepOf(s, key, changedBy, recId, w);
    GroupAgrees(s, key, w, Actor(s, changedBy), recId, BY_PRIORITY);
    var s' := PriorityStep(s, key, changedBy, recId).0;
    AgreementLeavesActions(Rows(s', key), ViewOf(s'));
    ActionReasonsAreActions(Rows(s', key), ViewOf(s'));
  }

  lemma GroupAgrees(s: State, key: string, w: Row, actor: string, recId: string, action: string)
    requires Keyed(s.entries) && w in Rows(s, key)
    requires w.entry.category != "" && w.entry.reviewStatus != ""
    ensures Agree(Rows(EditStep(s, Losers(Rows(s, key), w), WinnersPatch(w), actor, recId, action), key))
  {
    var rows := Rows(EditStep(s, Losers(Rows(s, key), w), WinnersPatch(w), actor, recId, action), key);
    forall r | r in rows
      ensures r.entry.category == w.entry.category && r.entry.reviewStatus == w.entry.reviewStatus
    {
      GroupFollowsWinner(s, key, w, actor, recId, action, r);
    }
  }

  lemma ActionReasonsAreActions(rows: set<Row>, v: View)
    ensures ActionReasons(rows, v) <= AllActionReasons
  {
  }

  lemma PriorityStepOf(s: State, key: string, changedBy: Option<string>, recId: string, w: Row)
    requires PriorityStep(s, key, changedBy, recId).1 == Done && IsWinner(s, Rows(s, key), w)
    ensures Losers(Rows(s, key), w) != {}
    ensures PriorityStep(s, key, changedBy, recId).0 ==
            EditStep(s, Losers(Rows(s, key), w), WinnersPatch(w), Actor(s, changedBy), recId, BY_PRIORITY)
  {
    var q :| IsWinner(s, Rows(s, key), q)
             && PriorityStep(s, key, changedBy, recId).0 ==
                EditStep(s, Losers(Rows(s, key), q), WinnersPatch(q), Actor(s, changedBy), recId, BY_PRIORITY)
             && Losers(Rows(s, key), q) != {};
    WinnerIsUnique(s, Rows(s, key), w, q);
  }

  /** The conflicts of every other key, with their rows and reasons, are untouched. */
  lemma PriorityKeepsOtherKeys(s: State, key: string, changedBy: Option<string>, recId: string, other: string)
    requires Keyed(s.entries) && other != key
    ensures
      var s' := PriorityStep(s, key, changedBy, recId).0;
      Rows(s', other) == Rows(s, other) && Reasons(Rows(s', other), ViewOf(s')) == Reasons(Rows(s, other), ViewOf(s))
  {
    hide Rows, Reasons, IsWinner, WinnersPatch, EditAll, Recorded;
    var s' := PriorityStep(s, key, changedBy, recId).0;
    if PriorityStep(s, key, changedBy, recId).1 == Done {
      var w :| IsWinner(s, Rows(s, key), w);
      PriorityStepOf(s, key, changedBy, recId, w);
      var losers := Losers(Rows(s, key), w);
      forall id | id in losers && id in s.entries ensures !InGroup(s.entries[id], other) {
        var r :| r in Rows(s, key) && r.entry.id == id;
        RowIsStored(s, key, r);
      }
      EditKeepsOtherGroups(s, losers, WinnersPatch(w), Actor(s, changedBy), recId, BY_PRIORITY, other);
      ReasonsIgnoreOverrides(Rows(s, other), ViewOf(s), ViewOf(s'));
    }
  }

  lemma ReasonsIgnoreOverrides(rows: set<Row>, v: View, v': View)
    requires v.lower == v'.lower && v.trim == v'.trim
    ensures Reasons(rows, v) == Reasons(rows, v')
  {
    assert forall r :: ActionReason(r, v) == ActionReason(r, v');
    assert ActionReasons(rows, v) == ActionReasons(rows, v');
  }

  /** Some participants share the top priority. */
  ghost predicate TopIsShared(s: State, rows: set<Row>) {
    exists a, b :: a in rows && b in rows && a != b && Participant(a) && Participant(b)
                   && Priority(s, a) == Priority(s, b)
                   && forall q | q in rows && Participant(q) :: Priority(s, q) <= Priority(s, a)
  }

  /** It is refused, with nothing changed, exactly when there is no such conflict, the top priority
      among its participants is shared, or the group has a single entry. */
  lemma PriorityRefusals(s: State, key: string, changedBy: Option<string>, recId: string)
    requires Keyed(s.entries)
    ensures PriorityStep(s, key, changedBy, recId).1 != Done <==>
            !InConflict(s, key) || TopIsShared(s, Rows(s, key)) || |Rows(s, key)| == 1
    ensures PriorityStep(s, key, changedBy, recId).1 != Done ==> PriorityStep(s, key, changedBy, recId).0 == s
  {
    if InConflict(s, key) {
      ConflictParticipates(s, key);
      WinnerUnlessShared(s, Rows(s, key));
      if HasWinner(s, Rows(s, key)) {
        WinnerDecides(s, key, changedBy, recId);
      }
    }
  }

  lemma WinnerDecides(s: State, key: string, changedBy: Option<string>, recId: string)
    requires Keyed(s.entries) && InConflict(s, key) && HasWinner(s, Rows(s, key))
    ensures PriorityStep(s, key, changedBy, recId).1 == Done <==> |Rows(s, key)| != 1
  {
    var w :| IsWinner(s, Rows(s, key), w);
    LosersEmptyIffAlone(s, key, w);
    forall q | IsWinner(s, Rows(s, key), q) ensures q == w {
      WinnerIsUnique(s, Rows(s, key), w, q);
    }
  }

  lemma WinnerUnlessShared(s: State, rows: set<Row>)
    requires exists r :: r in rows && Participant(r)
    ensures HasWinner(s, rows) <==> !TopIsShared(s, rows)
  {
    var participants := set r | r in rows && Participant(r);
    var someone :| someone in rows && Participant(someone);
    assert someone in participants;
    var top := TopParticipant(s, rows, participants);
    forall q | q in rows && Participant(q) ensures Priority(s, q) <= Priority(s, top) {
      assert q in participants;
    }
    if HasWinner(s, rows) {
      var w :| IsWinner(s, rows, w);
    } else {
      assert !IsWinner(s, rows, top);
      var other :| other in rows && Participant(other) && other != top && !(Priority(s, other) < Priority(s, top));
    }
  }

  lemma ConflictHasParticipant(rows: set<Row>, v: View)
    requires Reasons(rows, v) != {}
    ensures exists r :: r in rows && Participant(r)
  {
    if forall r | r in rows :: !Participant(r) {
      assert Categories(rows) == {} && Reviews(rows) == {} && ActionReasons(rows, v) == {};
    }
  }

  lemma ConflictParticipates(s: State, key: string)
    requires InConflict(s, key)
    ensures exists r :: r in Rows(s, key) && Participant(r)
  {
    ConflictHasParticipant(Rows(s, key), ViewOf(s));
  }

  lemma TopParticipant(s: State, rows: set<Row>, ps: set<Row>) returns (top: Row)
    requires ps != {}
    ensures top in ps && forall q | q in ps :: Priority(s, q) <= Priority(s, top)
    decreases |ps|
  {
    var r :| r in ps;
    top := r;
    if ps != {r} {
      var best := TopParticipant(s, rows, ps - {r});
      if Priority(s, best) > Priority(s, r) {
        top := best;
      }
    }
  }

  lemma LosersEmptyIffAlone(s: State, key: string, w: Row)
    requires Keyed(s.entries) && w in Rows(s, key)
    ensures Losers(Rows(s, key), w) == {} <==> |Rows(s, key)| == 1
  {
    var rows := Rows(s, key);
    if Losers(rows, w) == {} {
      forall r | r in rows ensures r == w {
        RowIsStored(s, key, r);
        RowIsStored(s, key, w);
        assert r.entry.id !in Losers(rows, w);
      }
      assert rows == {w};
    } else {
      var id :| id in Losers(rows, w);
      var r :| r in rows && r.entry.id == id;
      AtLeastTwo(rows, r, w);
    }
  }

  // ----- what each step keeps -----

  lemma EditKeeps(s: State, ids: set<string>, patch: Override, actor: string, recId: string, action: string)
    ensures
      var s' := EditStep(s, ids, patch, actor, recId, action);
      && SameImports(s, s') && SameFeedLog(s, s')
      && (AllRestorable(s.rollbacks) ==> AllRestorable(s'.rollbacks))
  {
  }

  lemma RollbackKeeps(s: State, recId: string)
    requires AllRestorable(s.rollbacks)
    ensures
      var s' := RollbackStep(s, recId).0;
      SameImports(s, s') && SameFeedLog(s, s') && AllRestorable(s'.rollbacks)
  {
  }
}
