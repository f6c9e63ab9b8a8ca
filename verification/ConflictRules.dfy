/** When the entries of a domain and path are in conflict, and why, in terms of the fields of stored
    entries and overrides (`buildConflicts`, `rewriteActionConflictReason` and `effectiveMirageAction` in
    `internal/aghmanaged/manager.go`). */
module ConflictRules {
  import opened Wire
  import opened Catalog
  import opened Conflicts
  import opened Store
  import opened Edits
  import opened Feed
  import opened Patching
  import opened FeedRules

  /** A domain without NULs and a path can be read back from their key. */
  lemma {:induction false} JoinThenSplit(domain: string, path: string)
    requires SEP !in domain
    ensures SplitKey(JoinKey(domain, path)) == (domain, path)
  {
    var key := JoinKey(domain, path);
    if domain == "" {
      assert key[1..] == path;
    } else {
      assert key[1..] == JoinKey(domain[1..], path);
      JoinThenSplit(domain[1..], path);
      assert domain == [domain[0]] + domain[1..] && key[0] == domain[0];
    }
  }

  /** So, without NULs in domains, equal keys mean equal domains and paths. */
  lemma KeyIsPair(d1: string, p1: string, d2: string, p2: string)
    requires SEP !in d1 && SEP !in d2
    ensures JoinKey(d1, p1) == JoinKey(d2, p2) <==> d1 == d2 && p1 == p2
  {
    hide SplitKey;
    JoinThenSplit(d1, p1);
    JoinThenSplit(d2, p2);
  }

  /** With a NUL in a domain, entries of different domains can share a key. */
  lemma NulDomainsShareAKey()
    ensures JoinKey("a" + [SEP] + "b", "c") == JoinKey("a", "b" + [SEP] + "c")
  {
  }

  predicate PlainDomains(s: State) {
    forall id | id in s.entries :: SEP !in s.entries[id].domain
  }

  /** The stored entry is for this domain and path. */
  predicate IsFor(s: State, id: string, domain: string, path: string) {
    id in s.entries && s.entries[id].domain == domain && s.entries[id].path == path
  }

  predicate IsRewritten(s: State, id: string)
    requires id in s.entries
  {
    StoredRow(s, id).rewrite
  }

  /** Allow exceptions and rewritten entries have a say. */
  predicate Says(s: State, id: string)
    requires id in s.entries
  {
    Category(s, id) == "allow_exception" || IsRewritten(s, id)
  }

  /** The action of an entry, lower-cased and trimmed: the operator's, or else the first candidate. */
  function ActionOf(s: State, id: string): string
    requires id in s.entries
  {
    var candidates := s.entries[id].actionCandidates;
    var action := if Had(s, id).action != "" then Had(s, id).action else if candidates != [] then candidates[0] else "";
    s.cfg.lower(s.cfg.trim(action))
  }

  /** Two entries for the domain and path that have a say differ. */
  ghost predicate CategoriesDiffer(s: State, domain: string, path: string) {
    exists a, b :: IsFor(s, a, domain, path) && IsFor(s, b, domain, path) && Says(s, a) && Says(s, b)
                   && Category(s, a) != Category(s, b)
  }

  ghost predicate StatusesDiffer(s: State, domain: string, path: string) {
    exists a, b :: IsFor(s, a, domain, path) && IsFor(s, b, domain, path) && Says(s, a) && Says(s, b)
                   && Status(s, a) != Status(s, b)
  }

  /** An entry that is rewritten and no allow exception has one of these actions. */
  ghost predicate SomeActs(s: State, domain: string, path: string, actions: set<string>) {
    exists a :: IsFor(s, a, domain, path) && IsRewritten(s, a) && Category(s, a) != "allow_exception"
                && ActionOf(s, a) in actions
  }

  ghost predicate AllowMeetsRewrite(s: State, domain: string, path: string) {
    && (exists a :: IsFor(s, a, domain, path) && Category(s, a) == "allow_exception")
    && (exists b :: IsFor(s, b, domain, path) && IsRewritten(s, b) && Category(s, b) != "allow_exception")
  }

  const Unsafe := {"passthrough", "forward-asis", "forward_as_is"}

  /** The rows of a key are those of the stored entries for its domain and path. */
  lemma RowsAreOf(s: State, domain: string, path: string, r: Row)
    requires Keyed(s.entries) && PlainDomains(s) && domain != "" && SEP !in domain
    ensures r in Rows(s, JoinKey(domain, path)) <==>
            exists id :: IsFor(s, id, domain, path) && r == StoredRow(s, id)
  {
    hide RowOf, Rows, JoinKey, Applied;
    var key := JoinKey(domain, path);
    if r in Rows(s, key) {
      RowIsStored(s, key, r);
      KeyIsPair(s.entries[r.entry.id].domain, s.entries[r.entry.id].path, domain, path);
      assert IsFor(s, r.entry.id, domain, path) && r == StoredRow(s, r.entry.id);
    }
    if id :| IsFor(s, id, domain, path) && r == StoredRow(s, id) {
      RowOfStored(s, key, id);
    }
  }

  lemma RowShows(s: State, id: string)
    requires Keyed(s.entries) && id in s.entries
    ensures
      var r := StoredRow(s, id);
      && r.entry.category == Category(s, id) && r.entry.reviewStatus == Status(s, id)
      && r.rewrite == IsRewritten(s, id)
      && s.cfg.lower(s.cfg.trim(EffectiveAction(r))) == ActionOf(s, id)
  {
    hide RewriteEnabled;
  }

  lemma Spread(xs: set<string>)
    ensures |xs| > 1 <==> exists x, y :: x in xs && y in xs && x != y
  {
    if x, y :| x in xs && y in xs && x != y {
      AtLeastTwo(xs, x, y);
    } else {
      AtMostOne(xs);
    }
  }

  /** The rows of the key, one for each entry. */
  ghost predicate AreRowsFor(s: State, rows: set<Row>, domain: string, path: string) {
    && (forall id | IsFor(s, id, domain, path) :: StoredRow(s, id) in rows)
    && (forall r | r in rows :: exists id :: IsFor(s, id, domain, path) && r == StoredRow(s, id))
  }

  lemma RowsAreFor(s: State, domain: string, path: string)
    requires Keyed(s.entries) && PlainDomains(s) && domain != "" && SEP !in domain
    ensures AreRowsFor(s, Rows(s, JoinKey(domain, path)), domain, path)
  {
    hide Rows, StoredRow, JoinKey;
    forall id | IsFor(s, id, domain, path) ensures StoredRow(s, id) in Rows(s, JoinKey(domain, path)) {
      RowsAreOf(s, domain, path, StoredRow(s, id));
    }
    forall r | r in Rows(s, JoinKey(domain, path))
      ensures exists id :: IsFor(s, id, domain, path) && r == StoredRow(s, id)
    {
      RowsAreOf(s, domain, path, r);
    }
  }

  lemma CategoriesMean(s: State, rows: set<Row>, domain: string, path: string)
    requires Keyed(s.entries) && AreRowsFor(s, rows, domain, path)
    ensures |Categories(rows)| > 1 <==> CategoriesDiffer(s, domain, path)
  {
    hide StoredRow, Category;
    Spread(Categories(rows));
    forall id | id in s.entries ensures Says(s, id) == Participant(StoredRow(s, id))
                                        && StoredRow(s, id).entry.category == Category(s, id) {
      RowShows(s, id);
    }
    if CategoriesDiffer(s, domain, path) {
      var a, b :| IsFor(s, a, domain, path) && IsFor(s, b, domain, path) && Says(s, a) && Says(s, b)
                  && Category(s, a) != Category(s, b);
      assert Category(s, a) in Categories(rows) && Category(s, b) in Categories(rows);
    }
    if x, y :| x in Categories(rows) && y in Categories(rows) && x != y {
      var r, q :| r in rows && q in rows && Participant(r) && Participant(q)
                  && r.entry.category == x && q.entry.category == y;
      var a :| IsFor(s, a, domain, path) && r == StoredRow(s, a);
      var b :| IsFor(s, b, domain, path) && q == StoredRow(s, b);
      assert Says(s, a) && Says(s, b);
    }
  }

  lemma StatusesMean(s: State, rows: set<Row>, domain: string, path: string)
    requires Keyed(s.entries) && AreRowsFor(s, rows, domain, path)
    ensures |Reviews(rows)| > 1 <==> StatusesDiffer(s, domain, path)
  {
    hide StoredRow, Category, Status;
    Spread(Reviews(rows));
    forall id | id in s.entries ensures Says(s, id) == Participant(StoredRow(s, id))
                                        && StoredRow(s, id).entry.reviewStatus == Status(s, id) {
      RowShows(s, id);
    }
    if StatusesDiffer(s, domain, path) {
      var a, b :| IsFor(s, a, domain, path) && IsFor(s, b, domain, path) && Says(s, a) && Says(s, b)
                  && Status(s, a) != Status(s, b);
      assert Status(s, a) in Reviews(rows) && Status(s, b) in Reviews(rows);
    }
    if x, y :| x in Reviews(rows) && y in Reviews(rows) && x != y {
      var r, q :| r in rows && q in rows && Participant(r) && Participant(q)
                  && r.entry.reviewStatus == x && q.entry.reviewStatus == y;
      var a :| IsFor(s, a, domain, path) && r == StoredRow(s, a);
      var b :| IsFor(s, b, domain, path) && q == StoredRow(s, b);
      assert Says(s, a) && Says(s, b);
    }
  }

  lemma AllowsMean(s: State, rows: set<Row>, domain: string, path: string)
    requires Keyed(s.entries) && AreRowsFor(s, rows, domain, path)
    ensures MixesAllowAndRewrite(rows) <==> AllowMeetsRewrite(s, domain, path)
  {
    hide StoredRow, Category;
    forall id | id in s.entries ensures Allows(StoredRow(s, id).entry) == (Category(s, id) == "allow_exception")
                                        && StoredRow(s, id).rewrite == IsRewritten(s, id) {
      RowShows(s, id);
    }
  }

  lemma ActionsMean(s: State, rows: set<Row>, domain: string, path: string, reason: Reason, actions: set<string>)
    requires Keyed(s.entries) && AreRowsFor(s, rows, domain, path)
    requires (reason == MissingAction && actions == {""}) || (reason == UnsafeAction && actions == Unsafe)
    ensures reason in ActionReasons(rows, ViewOf(s)) <==> SomeActs(s, domain, path, actions)
  {
    hide StoredRow, Category, EffectiveAction, ActionOf;
    var v := ViewOf(s);
    forall id | id in s.entries
      ensures ActionReason(StoredRow(s, id), v) == Some(reason) <==>
              IsRewritten(s, id) && Category(s, id) != "allow_exception" && ActionOf(s, id) in actions
    {
      RowShows(s, id);
    }
    if SomeActs(s, domain, path, actions) {
      var a :| IsFor(s, a, domain, path) && IsRewritten(s, a) && Category(s, a) != "allow_exception"
               && ActionOf(s, a) in actions;
      assert StoredRow(s, a) in rows;
    }
    if r :| r in rows && ActionReason(r, v) == Some(reason) {
      var a :| IsFor(s, a, domain, path) && r == StoredRow(s, a);
    }
  }

  lemma ReasonsAreThese(rows: set<Row>, v: View)
    ensures
      var reasons := Reasons(rows, v);
      && (CategoryMismatch in reasons <==> |Categories(rows)| > 1)
      && (ReviewMismatch in reasons <==> |Reviews(rows)| > 1)
      && (AllowVersusRewrite in reasons <==> MixesAllowAndRewrite(rows))
      && (MissingAction in reasons <==> MissingAction in ActionReasons(rows, v))
      && (UnsafeAction in reasons <==> UnsafeAction in ActionReasons(rows, v))
  {
    hide Categories, Reviews, MixesAllowAndRewrite;
    ActionReasonsAreActions(rows, v);
  }

  /** The reasons for a conflict over a domain and path are exactly these; there is a conflict when there
      is any. */
  lemma ReasonsMean(s: State, domain: string, path: string)
    requires Keyed(s.entries) && PlainDomains(s) && domain != "" && SEP !in domain
    ensures
      var reasons := Reasons(Rows(s, domain + [SEP] + path), ViewOf(s));
      && (CategoryMismatch in reasons <==> CategoriesDiffer(s, domain, path))
      && (ReviewMismatch in reasons <==> StatusesDiffer(s, domain, path))
      && (AllowVersusRewrite in reasons <==> AllowMeetsRewrite(s, domain, path))
      && (MissingAction in reasons <==> SomeActs(s, domain, path, {""}))
      && (UnsafeAction in reasons <==> SomeActs(s, domain, path, Unsafe))
    ensures InConflict(s, domain + [SEP] + path) <==>
            CategoriesDiffer(s, domain, path) || StatusesDiffer(s, domain, path)
            || SomeActs(s, domain, path, {""}) || SomeActs(s, domain, path, Unsafe)
  {
    hide Rows, Reasons, CategoriesDiffer, StatusesDiffer, AllowMeetsRewrite, SomeActs, AreRowsFor;
    var rows, v := Rows(s, JoinKey(domain, path)), ViewOf(s);
    RowsAreFor(s, domain, path);
    ReasonsAreThese(rows, v);
    CategoriesMean(s, rows, domain, path);
    StatusesMean(s, rows, domain, path);
    AllowsMean(s, rows, domain, path);
    ActionsMean(s, rows, domain, path, MissingAction, {""});
    ActionsMean(s, rows, domain, path, UnsafeAction, Unsafe);
    ConflictHasReason(s, rows, domain, path);
    if AllowMeetsRewrite(s, domain, path) {
      AllowIsDifference(s, domain, path);
    }
  }

  lemma ConflictHasReason(s: State, rows: set<Row>, domain: string, path: string)
    requires rows == Rows(s, JoinKey(domain, path))
    ensures
      var reasons := Reasons(rows, ViewOf(s));
      InConflict(s, JoinKey(domain, path)) <==>
        CategoryMismatch in reasons || ReviewMismatch in reasons || AllowVersusRewrite in reasons
        || MissingAction in reasons || UnsafeAction in reasons
  {
    hide Reasons;
    var reasons := Reasons(rows, ViewOf(s));
    if reasons != {} {
      var reason :| reason in reasons;
      assert reason.CategoryMismatch? || reason.ReviewMismatch? || reason.AllowVersusRewrite?
             || reason.MissingAction? || reason.UnsafeAction?;
    }
  }

  /** An allow exception that meets a rewritten entry is a difference of categories. */
  lemma AllowIsDifference(s: State, domain: string, path: string)
    requires Keyed(s.entries) && AllowMeetsRewrite(s, domain, path)
    ensures CategoriesDiffer(s, domain, path)
  {
    hide Category;
    var a :| IsFor(s, a, domain, path) && Category(s, a) == "allow_exception";
    var b :| IsFor(s, b, domain, path) && IsRewritten(s, b) && Category(s, b) != "allow_exception";
    assert Says(s, a) && Says(s, b);
  }
}
