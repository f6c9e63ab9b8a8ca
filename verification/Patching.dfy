/** What an operator's edit means for the fields of overrides and entries, however the merging is done
    (`mergeOverride`, `setLastChangedBy`, `applyOverrideLocked` and the edits that use them in
    `internal/aghmanaged/manager.go`). */
module Patching {
  import opened Collections
  import opened Wire
  import opened Catalog
  import opened Conflicts
  import opened Store
  import opened Undo
  import opened Edits

  // ----- the fields of an override -----

  /** In `now` every field that `patch` states is as stated, and every other is as it was. An empty text
      and a missing flag state nothing; the last editor changes only when one is named. */
  predicate Overlaid(was: Override, patch: Override, actor: string, now: Override) {
    && now.category == (if patch.category == "" then was.category else patch.category)
    && now.resourceType == (if patch.resourceType == "" then was.resourceType else patch.resourceType)
    && now.risk == (if patch.risk == "" then was.risk else patch.risk)
    && now.confidence == (if patch.confidence == "" then was.confidence else patch.confidence)
    && now.reviewStatus == (if patch.reviewStatus == "" then was.reviewStatus else patch.reviewStatus)
    && now.verified == (if patch.verified.None? then was.verified else patch.verified)
    && now.expectedCatalog == (if patch.expectedCatalog == "" then was.expectedCatalog else patch.expectedCatalog)
    && now.action == (if patch.action == "" then was.action else patch.action)
    && now.rewriteEnabled == (if patch.rewriteEnabled.None? then was.rewriteEnabled else patch.rewriteEnabled)
    && now.rewriteReason == (if patch.rewriteReason == "" then was.rewriteReason else patch.rewriteReason)
    && now.notes == (if patch.notes == "" then was.notes else patch.notes)
    && now.lastChangedBy == (if actor == "" then was.lastChangedBy else actor)
  }

  /** An override that states nothing. */
  const Blank := Override("", "", "", "", "", None, "", "", None, "", "", "")

  function Had(s: State, id: string): Override {
    if id in s.overrides then s.overrides[id] else Blank
  }

  /** From `s` to `s'` exactly the overrides of `ids` are overlaid with `patch`, and nothing but the undo
      log changes besides. */
  ghost predicate OverlaysExactly(s: State, s': State, ids: set<string>, patch: Override, actor: string) {
    && (forall id | id in ids :: id in s'.overrides && Overlaid(Had(s, id), patch, actor, s'.overrides[id]))
    && (forall id | id !in ids :: Lookup(s'.overrides, id) == Lookup(s.overrides, id))
    && s' == s.(overrides := s'.overrides, rollbacks := s'.rollbacks)
  }

  /** The log gains one record, which says what the entries had and have, and keeps the newest fifty. */
  ghost predicate RecordsEdit(s: State, s': State, ids: set<string>, recId: string) {
    && s'.rollbacks != []
    && (var r := s'.rollbacks[|s'.rollbacks| - 1];
        && r.id == recId && r.ids == ids && r.before.Keys == ids && r.after.Keys == ids
        && (forall id | id in ids :: r.before[id] == Lookup(s.overrides, id))
        && (forall id | id in ids :: Some(r.after[id]) == Lookup(s'.overrides, id)))
    && (var kept := s'.rollbacks[..|s'.rollbacks| - 1];
        && (|s.rollbacks| < 50 ==> kept == s.rollbacks)
        && (|s.rollbacks| >= 50 ==> |kept| == 49 && kept == s.rollbacks[|s.rollbacks| - 49..]))
  }

  lemma PatchedOverlays(cur: Override, patch: Override, actor: string)
    ensures Overlaid(cur, patch, actor, Patched(cur, patch, actor))
  {
  }

  lemma EditOverlays(s: State, ids: set<string>, patch: Override, actor: string, recId: string, action: string)
    ensures OverlaysExactly(s, EditStep(s, ids, patch, actor, recId, action), ids, patch, actor)
  {
    hide Overlaid, Patched, Recorded, PushBounded;
    forall id | id in ids
      ensures Overlaid(Had(s, id), patch, actor, Patched(OverrideOf(s.overrides, id), patch, actor))
    {
      PatchedOverlays(OverrideOf(s.overrides, id), patch, actor);
    }
  }

  lemma EditRecords(s: State, ids: set<string>, patch: Override, actor: string, recId: string, action: string)
    ensures RecordsEdit(s, EditStep(s, ids, patch, actor, recId, action), ids, recId)
  {
    hide Patched;
    var r := Recorded(s.overrides, ids, patch, actor, recId, action);
    var log := EditStep(s, ids, patch, actor, recId, action).rollbacks;
    KeepsFifty(s.rollbacks, r);
    assert log[|log| - 1] == r;
  }

  /** Who an edit is attributed to. */
  function Editor(s: State, changedBy: Option<string>): string {
    if changedBy.Some? then s.cfg.trim(changedBy.value) else ""
  }

  /** A patch succeeds exactly on a stored entry, and then overlays and records it alone. */
  lemma PatchMeans(s: State, id: string, ov: Override, changedBy: Option<string>, recId: string)
    ensures
      var (s', outcome) := PatchStep(s, id, ov, changedBy, recId);
      if id in s.entries then
        outcome == Done && OverlaysExactly(s, s', {id}, ov, Editor(s, changedBy)) && RecordsEdit(s, s', {id}, recId)
      else outcome == NotFound && s' == s
  {
    hide OverlaysExactly, RecordsEdit, EditStep;
    EditOverlays(s, {id}, ov, Editor(s, changedBy), recId, "catalog patch");
    EditRecords(s, {id}, ov, Editor(s, changedBy), recId, "catalog patch");
  }

  /** A bulk patch succeeds exactly when there are identifiers and all are stored, and then overlays and
      records each of them, once. */
  lemma BulkPatchMeans(s: State, ids: seq<string>, ov: Override, changedBy: Option<string>, recId: string)
    ensures
      var (s', outcome) := BulkPatchStep(s, ids, ov, changedBy, recId);
      var named := set id | id in ids;
      if ids != [] && forall id | id in ids :: id in s.entries then
        outcome == Done && OverlaysExactly(s, s', named, ov, Editor(s, changedBy)) && RecordsEdit(s, s', named, recId)
      else outcome == Refused && s' == s
  {
    hide OverlaysExactly, RecordsEdit, EditStep;
    assert AsSet(ids) == set id | id in ids;
    EditOverlays(s, AsSet(ids), ov, Editor(s, changedBy), recId, "catalog bulk patch");
    EditRecords(s, AsSet(ids), ov, Editor(s, changedBy), recId, "catalog bulk patch");
  }

  // ----- what entries look like then -----

  /** From `was` to `now` an entry shows every field the patch states, and otherwise what it showed. */
  predicate Shows(was: Entry, patch: Override, now: Entry) {
    && now.category == (if patch.category == "" then was.category else patch.category)
    && now.resourceType == (if patch.resourceType == "" then was.resourceType else patch.resourceType)
    && now.risk == (if patch.risk == "" then was.risk else patch.risk)
    && now.confidence == (if patch.confidence == "" then was.confidence else patch.confidence)
    && now.reviewStatus == (if patch.reviewStatus == "" then was.reviewStatus else patch.reviewStatus)
    && now.verified == (if patch.verified.None? then was.verified else patch.verified.value)
    && now.expectedCatalog == (if patch.expectedCatalog == "" then was.expectedCatalog else patch.expectedCatalog)
    && now == was.(category := now.category, resourceType := now.resourceType, risk := now.risk,
                   confidence := now.confidence, reviewStatus := now.reviewStatus, verified := now.verified,
                   expectedCatalog := now.expectedCatalog)
  }

  /** An entry without an override shows its own fields. */
  lemma UnpatchedShowsItself(e: Entry, ovs: Overrides)
    requires e.id !in ovs
    ensures Applied(e, ovs) == e
  {
  }

  /** After an overlay the patched entries show the patch over what they showed, and others what they
      showed. */
  lemma OverlayShows(s: State, s': State, ids: set<string>, patch: Override, actor: string, e: Entry)
    requires OverlaysExactly(s, s', ids, patch, actor)
    ensures if e.id in ids then Shows(Applied(e, s.overrides), patch, Applied(e, s'.overrides))
            else Applied(e, s'.overrides) == Applied(e, s.overrides)
  {
    assert e.id !in ids ==> Lookup(s'.overrides, e.id) == Lookup(s.overrides, e.id);
  }

  // ----- resolving by source priority -----

  /** The source of `a` has a higher priority than that of `b`; unknown sources count as zero. */
  predicate Outranks(s: State, a: Row, b: Row) {
    var known, other := a.entry.source in s.sources, b.entry.source in s.sources;
    if known && other then s.sources[a.entry.source].priority > s.sources[b.entry.source].priority
    else if known then s.sources[a.entry.source].priority > 0
    else other && 0 > s.sources[b.entry.source].priority
  }

  /** Allow exceptions and rewritten rows have a say. */
  predicate HasASay(r: Row) {
    r.entry.category == "allow_exception" || r.rewrite
  }

  /** What the other rows take over from the winner. */
  function Verdict(w: Row): Override {
    Override(w.entry.category, w.entry.resourceType, w.entry.risk, w.entry.confidence, w.entry.reviewStatus,
             Some(w.entry.verified), w.entry.expectedCatalog, w.action, None, "", "", "")
  }

  /** A resolution by priority leaves alone the one row with a say whose source outranks those of all
      others with a say, and overlays every other row of the key with its fields, verified or not. */
  lemma PriorityMeans(s: State, key: string, changedBy: Option<string>, recId: string) returns (w: Row)
    requires Keyed(s.entries) && PriorityStep(s, key, changedBy, recId).1 == Done
    ensures w in Rows(s, key) && HasASay(w)
    ensures forall q | q in Rows(s, key) && HasASay(q) && q != w :: Outranks(s, w, q)
    ensures
      var s' := PriorityStep(s, key, changedBy, recId).0;
      var others := set r | r in Rows(s, key) && r != w :: r.entry.id;
      && others != {} && w.entry.id !in others
      && OverlaysExactly(s, s', others, Verdict(w), Editor(s, changedBy)) && RecordsEdit(s, s', others, recId)
  {
    hide OverlaysExactly, RecordsEdit, EditStep, InConflict, Rows;
    var rows := Rows(s, key);
    w :| IsWinner(s, rows, w);
    PriorityStepOf(s, key, changedBy, recId, w);
    OthersAreLosers(s, key, w);
    EditOverlays(s, Losers(rows, w), WinnersPatch(w), Actor(s, changedBy), recId, BY_PRIORITY);
    EditRecords(s, Losers(rows, w), WinnersPatch(w), Actor(s, changedBy), recId, BY_PRIORITY);
  }

  lemma OthersAreLosers(s: State, key: string, w: Row)
    requires Keyed(s.entries) && w in Rows(s, key)
    ensures (set r | r in Rows(s, key) && r != w :: r.entry.id) == Losers(Rows(s, key), w)
  {
    hide Rows, InGroup, RowOf, Applied;
    forall r | r in Rows(s, key) && r.entry.id == w.entry.id ensures r == w {
      RowIsStored(s, key, r);
      RowIsStored(s, key, w);
    }
  }

  /** Two rows with a say are outranked by none, nor by each other. */
  ghost predicate Tied(s: State, rows: set<Row>) {
    exists a, b :: a in rows && b in rows && a != b && HasASay(a) && HasASay(b)
                   && !Outranks(s, a, b) && !Outranks(s, b, a)
                   && forall q | q in rows && HasASay(q) :: !Outranks(s, q, a)
  }

  /** It is refused, with nothing changed, exactly when there is no such conflict, the highest priority
      is shared, or the key has a single row. */
  lemma PriorityRefusedExactly(s: State, key: string, changedBy: Option<string>, recId: string)
    requires Keyed(s.entries)
    ensures PriorityStep(s, key, changedBy, recId).1 != Done <==>
            !InConflict(s, key) || Tied(s, Rows(s, key)) || |Rows(s, key)| == 1
    ensures PriorityStep(s, key, changedBy, recId).1 != Done ==> PriorityStep(s, key, changedBy, recId).0 == s
    ensures InConflict(s, key) && Tied(s, Rows(s, key)) <==> PriorityStep(s, key, changedBy, recId).1 == Refused
  {
    hide InConflict, Rows, PriorityStep, Tied, TopIsShared;
    PriorityRefusals(s, key, changedBy, recId);
    TiedMeansShared(s, Rows(s, key));
    RefusedMeansShared(s, key, changedBy, recId);
  }

  lemma RefusedMeansShared(s: State, key: string, changedBy: Option<string>, recId: string)
    ensures PriorityStep(s, key, changedBy, recId).1 == Refused <==> InConflict(s, key) && TopIsShared(s, Rows(s, key))
  {
    hide InConflict, Rows, EditStep, TopIsShared, HasWinner;
    if InConflict(s, key) {
      ConflictParticipates(s, key);
      WinnerUnlessShared(s, Rows(s, key));
    }
  }

  lemma TiedMeansShared(s: State, rows: set<Row>)
    ensures Tied(s, rows) <==> TopIsShared(s, rows)
  {
    forall a, b ensures Outranks(s, a, b) <==> Priority(s, a) > Priority(s, b) {
    }
    if Tied(s, rows) {
      var a, b :| a in rows && b in rows && a != b && HasASay(a) && HasASay(b)
                  && !Outranks(s, a, b) && !Outranks(s, b, a)
                  && forall q | q in rows && HasASay(q) :: !Outranks(s, q, a);
      forall q | q in rows && Participant(q) ensures Priority(s, q) <= Priority(s, a) {
        assert !Outranks(s, q, a);
      }
    }
  }

  // ----- resolving by hand -----

  /** `a` comes before `b` in a dictionary: they agree on `n` characters, and then `a` ends or has the
      smaller character. */
  predicate BeforeAt(a: string, b: string, n: nat) {
    && n <= |a| && n < |b| && a[..n] == b[..n]
    && (n < |a| ==> a[n] < b[n])
  }

  ghost predicate Before(a: string, b: string) {
    exists n: nat :: BeforeAt(a, b, n)
  }

  lemma {:induction false} StrLeqIsDictionary(a: string, b: string)
    ensures StrLeq(a, b) <==> a == b || Before(a, b)
  {
    if a != "" && b != "" && a[0] == b[0] {
      StrLeqIsDictionary(a[1..], b[1..]);
      assert a == [a[0]] + a[1..] && b == [b[0]] + b[1..];
      if n: nat :| BeforeAt(a[1..], b[1..], n) {
        assert a[..n + 1] == [a[0]] + a[1..][..n] && b[..n + 1] == [b[0]] + b[1..][..n];
        assert BeforeAt(a, b, n + 1);
      }
      if n: nat :| BeforeAt(a, b, n) {
        if n > 0 {
          assert a[1..][..n - 1] == a[..n][1..] && b[1..][..n - 1] == b[..n][1..];
          assert BeforeAt(a[1..], b[1..], n - 1);
        }
      }
    } else if b != "" && (a == "" || a[0] < b[0]) {
      assert BeforeAt(a, b, 0);
    } else {
      forall n: nat ensures !BeforeAt(a, b, n) {
        if 0 < n <= |a| && n < |b| {
          assert a[..n][0] == a[0] && b[..n][0] == b[0];
        }
      }
    }
  }

  /** A row that is to be rewritten and is no allow exception. */
  predicate MayBeResolved(r: Row) {
    r.rewrite && r.entry.category != "allow_exception"
  }

  /** A resolution by hand succeeds exactly on a conflict whose target has an identifier and is stored,
      and then overlays and records the target alone: of the rows that may be resolved, or of all when
      there are none, the one whose identifier comes first. */
  lemma ResolveMeans(s: State, key: string, target: string, ov: Override, changedBy: Option<string>, recId: string)
    requires InConflict(s, key) ==> IsTarget(Rows(s, key), target)
    ensures
      var (s', outcome) := ResolveStep(s, key, target, ov, changedBy, recId);
      if InConflict(s, key) && target != "" && target in s.entries then
        && outcome == Done && OverlaysExactly(s, s', {target}, ov, Editor(s, changedBy))
        && RecordsEdit(s, s', {target}, recId)
      else outcome == NotFound && s' == s
    ensures InConflict(s, key) ==>
              var some := exists r :: r in Rows(s, key) && MayBeResolved(r);
              && (exists r :: r in Rows(s, key) && r.entry.id == target && (some ==> MayBeResolved(r)))
              && forall r | r in Rows(s, key) && (some ==> MayBeResolved(r)) :: !Before(r.entry.id, target)
  {
    hide OverlaysExactly, RecordsEdit, EditStep, InConflict, Rows, Before, StrLeq;
    EditOverlays(s, {target}, ov, Editor(s, changedBy), recId, "conflict resolve");
    EditRecords(s, {target}, ov, Editor(s, changedBy), recId, "conflict resolve");
    if InConflict(s, key) {
      TargetIsFirst(Rows(s, key), target);
    }
  }

  lemma TargetIsFirst(rows: set<Row>, target: string)
    requires IsTarget(rows, target)
    ensures
      var some := exists r :: r in rows && MayBeResolved(r);
      && (exists r :: r in rows && r.entry.id == target && (some ==> MayBeResolved(r)))
      && forall r | r in rows && (some ==> MayBeResolved(r)) :: !Before(r.entry.id, target)
  {
    hide StrLeq, Before;
    var candidates := set r | r in rows && Candidate(r);
    var some := exists r :: r in rows && MayBeResolved(r);
    assert some <==> candidates != {} by {
      if some {
        var r :| r in rows && MayBeResolved(r);
        assert r in candidates;
      }
    }
    var pool := if candidates != {} then candidates else rows;
    assert IsLeast(IdsOf(pool), target);
    forall r | r in rows && (some ==> MayBeResolved(r)) ensures !Before(r.entry.id, target) {
      assert r in pool && r.entry.id in IdsOf(pool);
      NotBeforeLeast(r.entry.id, target);
    }
  }

  lemma NotBeforeLeast(a: string, least: string)
    requires StrLeq(least, a)
    ensures !Before(a, least)
  {
    hide StrLeq;
    StrLeqIsDictionary(least, a);
    StrLeqIsDictionary(a, least);
    StrLeqOrders(a, least, "");
  }
}
