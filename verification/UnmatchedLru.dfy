/** `aggregator` (`internal/policy/engine.go`): hit counts of unmatched domain/path pairs, kept for the
    most recently seen ones. */
module UnmatchedLru {
  import opened Collections

  datatype Unmatched = Unmatched(domain: string, path: string, count: nat, last: int)

  function KeyOf(domain: string, path: string): string {
    domain + " " + path
  }

  function EntryKey(e: Unmatched): string {
    KeyOf(e.domain, e.path)
  }

  // ----- the list as a value -----

  function Keys(l: seq<Unmatched>): (ks: seq<string>)
    ensures |ks| == |l| && forall i | 0 <= i < |l| :: ks[i] == EntryKey(l[i])
  {
    seq(|l|, i requires 0 <= i < |l| => EntryKey(l[i]))
  }

  /** Where `key` is, or the length. */
  function IndexOf(ks: seq<string>, key: string): (i: nat)
    ensures i <= |ks| && (i < |ks| ==> ks[i] == key)
    ensures forall j | 0 <= j < i :: ks[j] != key
    ensures i < |ks| <==> key in ks
  {
    if ks == [] then 0
    else if ks[0] == key then 0
    else
      assert ks == [ks[0]] + ks[1..];
      1 + IndexOf(ks[1..], key)
  }

  /** One `record`: a known key moves to the front with one hit more; a new one enters at the front,
      after the least recently seen has made room. */
  function RecordStep(l: seq<Unmatched>, max: int, domain: string, path: string, now: int): seq<Unmatched> {
    var i := IndexOf(Keys(l), KeyOf(domain, path));
    if i < |l| then [l[i].(count := l[i].count + 1, last := now)] + RemoveAt(l, i)
    else
      var kept := if |l| >= max && |l| > 0 then l[..|l| - 1] else l;
      [Unmatched(domain, path, 1, now)] + kept
  }

  // ----- the map and the linked list -----

  class Node {
    var entry: Unmatched

    constructor (entry: Unmatched)
      ensures this.entry == entry
    {
      this.entry := entry;
    }
  }

  /** The map and the list hold the same nodes, one per key, in the order of `contents`. */
  ghost predicate Linked(ll: seq<Node>, items: map<string, Node>, contents: seq<Unmatched>) {
    && |ll| == |contents| && Distinct(Keys(contents))
    && Distinct(ll)
    && (forall k :: k in items <==> k in Keys(contents))
    && (forall i | 0 <= i < |ll| :: items[Keys(contents)[i]] == ll[i])
  }

  lemma LinkedKnows(ll: seq<Node>, items: map<string, Node>, contents: seq<Unmatched>, key: string)
    requires Linked(ll, items, contents)
    ensures key in items <==> key in Keys(contents)
  {
  }

  lemma LinkedMoves(ll: seq<Node>, items: map<string, Node>, l: seq<Unmatched>, i: nat, e: Unmatched)
    requires Linked(ll, items, l) && i < |l| && EntryKey(e) == EntryKey(l[i])
    ensures Linked([ll[i]] + RemoveAt(ll, i), items, [e] + RemoveAt(l, i))
  {
    hide Distinct, RemoveAt, IndexOf, EntryKey;
    var ll', l' := [ll[i]] + RemoveAt(ll, i), [e] + RemoveAt(l, i);
    MovedAt(l, i);
    assert l'[1..] == RemoveAt(l, i);
    MovedKeys(l, l', i);
    MovedDistinct(ll, i);
    MovedAt(ll, i);
    MovedAt(Keys(l), i);
    forall j | 0 <= j < |ll'| ensures items[Keys(l')[j]] == ll'[j] {
      assert Keys(l')[j] == Keys(l)[Source(i, j)] && ll'[j] == ll[Source(i, j)];
    }
  }

  lemma MovedDistinct<T>(s: seq<T>, i: nat)
    requires i < |s| && Distinct(s)
    ensures Distinct([s[i]] + RemoveAt(s, i))
  {
    hide RemoveAt;
    MovedAt(s, i);
    var s' := [s[i]] + RemoveAt(s, i);
    forall a, b | 0 <= a < b < |s'| ensures s'[a] != s'[b] {
      assert Source(i, a) != Source(i, b);
    }
  }

  class Aggregator {
    const max: int
    /** Front is most recently seen. */
    var ll: seq<Node>
    var items: map<string, Node>
    /** The entries of the list, as a value. */
    ghost var contents: seq<Unmatched>

    constructor (max: int)
      ensures this.max == max && contents == [] && Valid() && ll == []
    {
      this.max, ll, items, contents := max, [], map[], [];
    }

    ghost predicate Valid()
      reads this, ll
    {
      Linked(ll, items, contents) && forall i | 0 <= i < |ll| :: ll[i].entry == contents[i]
    }

    method Record(domain: string, path: string, now: int)
      requires Valid()
      modifies this, ll
      ensures Valid() && (forall n | n in ll :: n in old(ll) || fresh(n))
      ensures contents == RecordStep(old(contents), max, domain, path, now)
    {
      hide Linked, RecordStep, RemoveAt, IndexOf;
      LinkedKnows(ll, items, contents, KeyOf(domain, path));
      if KeyOf(domain, path) in items {
        KnownKey(contents, max, domain, path, now);
        Touch(KeyOf(domain, path), now);
      } else {
        NewKey(contents, max, domain, path, now);
        Enter(domain, path, now);
      }
    }

    /** One hit more, and to the front. */
    method Touch(key: string, now: int)
      requires Valid() && key in items
      modifies this`ll, this`contents, ll
      ensures Valid() && (forall n | n in ll :: n in old(ll))
      ensures
        var l := old(contents);
        var i := IndexOf(Keys(l), key);
        i < |l| && contents == [l[i].(count := l[i].count + 1, last := now)] + RemoveAt(l, i)
    {
      var el := items[key];
      ghost var l := contents;
      assert el == ll[IndexOf(Keys(l), key)];
      var i := Locate(el);
      assert IndexOf(Keys(l), key) == i;
      hide *;
      Hit(el, i, now);
      MoveToFront(i);
      RemoveUpdated(l, i, contents[0]);
    }

    /** One hit more for the element at `i`. */
    method Hit(el: Node, ghost i: nat, now: int)
      requires Valid() && i < |ll| && ll[i] == el
      modifies this`contents, el
      ensures Valid() && contents == old(contents)[i := old(contents)[i].(count := old(contents)[i].count + 1, last := now)]
    {
      ghost var l := contents;
      el.entry := el.entry.(count := el.entry.count + 1, last := now);
      contents := l[i := el.entry];
      SameKeys(l, i, el.entry);
    }

    /** `MoveToFront` of the list. */
    method MoveToFront(i: nat)
      requires Valid() && i < |ll|
      modifies this`ll, this`contents
      ensures Valid() && ll == [old(ll)[i]] + RemoveAt(old(ll), i)
      ensures contents == [old(contents)[i]] + RemoveAt(old(contents), i)
      ensures forall n | n in ll :: n in old(ll)
    {
      assert |ll| == |contents|;
      hide Linked, RemoveAt;
      LinkedMoves(ll, items, contents, i, contents[i]);
      MovedAt(ll, i);
      MovedAt(contents, i);
      ll, contents := [ll[i]] + RemoveAt(ll, i), [contents[i]] + RemoveAt(contents, i);
    }

    /** A new key enters, after the least recently seen has made room. */
    method Enter(domain: string, path: string, now: int)
      requires Valid() && KeyOf(domain, path) !in items
      modifies this`ll, this`items, this`contents
      ensures Valid() && (forall n | n in ll :: n in old(ll) || fresh(n))
      ensures contents == [Unmatched(domain, path, 1, now)] +
              if |old(contents)| >= max && |old(contents)| > 0 then old(contents)[..|old(contents)| - 1]
              else old(contents)
    {
      if |ll| >= max && |ll| > 0 {
        DropBack();
      }
      PushFront(domain, path, now);
    }

    /** The least recently seen makes room. */
    method DropBack()
      requires Valid() && |ll| > 0
      modifies this`ll, this`items, this`contents
      ensures Valid() && contents == old(contents)[..|old(contents)| - 1]
      ensures ll == old(ll)[..|old(ll)| - 1] && items.Keys <= old(items).Keys
    {
      var n := |ll| - 1;
      var back := ll[n];
      ghost var l := contents;
      assert Keys(l)[n] == KeyOf(back.entry.domain, back.entry.path);
      items := items - {KeyOf(back.entry.domain, back.entry.path)};
      ll := ll[..n];
      contents := l[..n];
      assert Keys(l) == Keys(contents) + [Keys(l)[n]];
    }

    method PushFront(domain: string, path: string, now: int)
      requires Valid() && KeyOf(domain, path) !in items
      modifies this`ll, this`items, this`contents
      ensures Valid() && contents == [Unmatched(domain, path, 1, now)] + old(contents)
      ensures |ll| > 0 && fresh(ll[0]) && ll[1..] == old(ll)
    {
      var node := new Node(Unmatched(domain, path, 1, now));
      ghost var l := contents;
      ll := [node] + ll;
      items := items[KeyOf(domain, path) := node];
      contents := [Unmatched(domain, path, 1, now)] + l;
      assert Keys(contents) == [KeyOf(domain, path)] + Keys(l);
    }

    /** The position of an element of the list. */
    method Locate(el: Node) returns (i: nat)
      requires el in ll
      ensures i < |ll| && ll[i] == el
      ensures forall j | 0 <= j < i :: ll[j] != el
    {
      i := 0;
      while i < |ll| && ll[i] != el
        invariant i <= |ll| && forall j | 0 <= j < i :: ll[j] != el
      {
        i := i + 1;
      }
    }
  }

  lemma KnownKey(l: seq<Unmatched>, max: int, domain: string, path: string, now: int)
    requires KeyOf(domain, path) in Keys(l)
    ensures
      var i := IndexOf(Keys(l), KeyOf(domain, path));
      i < |l| && RecordStep(l, max, domain, path, now) == [l[i].(count := l[i].count + 1, last := now)] + RemoveAt(l, i)
  {
    hide RemoveAt, KeyOf;
  }

  lemma NewKey(l: seq<Unmatched>, max: int, domain: string, path: string, now: int)
    requires KeyOf(domain, path) !in Keys(l)
    ensures RecordStep(l, max, domain, path, now) ==
            [Unmatched(domain, path, 1, now)] + if |l| >= max && |l| > 0 then l[..|l| - 1] else l
  {
  }

  /** Where element `j` was before element `i` moved to the front. */
  function Source(i: nat, j: nat): nat {
    if j == 0 then i else if j <= i then j - 1 else j
  }

  lemma MovedAt<T>(s: seq<T>, i: nat)
    requires i < |s|
    ensures |[s[i]] + RemoveAt(s, i)| == |s|
    ensures forall j | 0 <= j < |s| :: ([s[i]] + RemoveAt(s, i))[j] == s[Source(i, j)]
  {
  }

  lemma RemoveUpdated(l: seq<Unmatched>, i: nat, e: Unmatched)
    requires i < |l|
    ensures RemoveAt(l[i := e], i) == RemoveAt(l, i)
  {
  }

  lemma SameKeys(l: seq<Unmatched>, i: nat, e: Unmatched)
    requires i < |l| && EntryKey(e) == EntryKey(l[i])
    ensures Keys(l[i := e]) == Keys(l)
  {
  }

  /** Moving an entry to the front moves its key, and leaves the others in order. */
  lemma MovedKeys(l: seq<Unmatched>, l': seq<Unmatched>, i: nat)
    requires i < |l| && Distinct(Keys(l))
    requires |l'| == |l| && EntryKey(l'[0]) == EntryKey(l[i]) && l'[1..] == RemoveAt(l, i)
    ensures Keys(l') == [Keys(l)[i]] + RemoveAt(Keys(l), i)
    ensures Distinct(Keys(l')) && forall k :: k in Keys(l') <==> k in Keys(l)
  {
    var ks := Keys(l);
    forall j | 0 <= j < |l| ensures Keys(l')[j] == ([ks[i]] + RemoveAt(ks, i))[j] {
      if j > 0 {
        assert l'[j] == l'[1..][j - 1];
      }
    }
    assert ks == ks[..i] + [ks[i]] + ks[i + 1..];
  }

  // ----- traces -----

  datatype Hit = Hit(domain: string, path: string, time: int) {
    function Key(): string { KeyOf(domain, path) }
  }

  function After(trace: seq<Hit>, max: int): seq<Unmatched> {
    if trace == [] then []
    else
      var h := trace[|trace| - 1];
      RecordStep(After(trace[..|trace| - 1], max), max, h.domain, h.path, h.time)
  }

  function Without(ks: seq<string>, key: string): seq<string> {
    var i := IndexOf(ks, key);
    if i < |ks| then RemoveAt(ks, i) else ks
  }

  /** The distinct keys of a trace, most recently seen first. */
  function Recency(trace: seq<Hit>): seq<string> {
    if trace == [] then []
    else
      var k := trace[|trace| - 1].Key();
      [k] + Without(Recency(trace[..|trace| - 1]), k)
  }

  predicate Occurs(trace: seq<Hit>, key: string) {
    exists i :: 0 <= i < |trace| && trace[i].Key() == key
  }

  /** `i` is the last time `key` was seen. */
  ghost predicate LastSeen(trace: seq<Hit>, key: string, i: nat) {
    i < |trace| && trace[i].Key() == key && forall j | i < j < |trace| :: trace[j].Key() != key
  }

  lemma WithoutIs(ks: seq<string>, key: string)
    requires Distinct(ks)
    ensures key !in Without(ks, key) && Distinct(Without(ks, key))
    ensures forall k :: k in Without(ks, key) <==> k in ks && k != key
  {
    var i := IndexOf(ks, key);
    if i < |ks| {
      var r := RemoveAt(ks, i);
      assert Without(ks, key) == r && |r| == |ks| - 1;
      assert forall j | 0 <= j < i :: r[j] == ks[j];
      assert forall j | i <= j < |r| :: r[j] == ks[j + 1];
      forall k | k in ks && k != key ensures k in r {
        var j :| 0 <= j < |ks| && ks[j] == k;
        assert r[if j < i then j else j - 1] == k;
      }
    }
  }

  /** `Recency` lists every key of the trace once. */
  lemma {:induction false} RecencyListsKeys(trace: seq<Hit>)
    ensures Distinct(Recency(trace)) && forall k :: k in Recency(trace) <==> Occurs(trace, k)
  {
    if trace != [] {
      var n := |trace| - 1;
      RecencyListsKeys(trace[..n]);
      hide Occurs, Without, Distinct;
      var k := trace[n].Key();
      WithoutIs(Recency(trace[..n]), k);
      PrependDistinct(Without(Recency(trace[..n]), k), k);
      OccursInFront(trace);
    }
  }

  lemma PrependDistinct(ks: seq<string>, k: string)
    requires Distinct(ks) && k !in ks
    ensures Distinct([k] + ks)
  {
  }

  lemma OccursInFront(trace: seq<Hit>)
    requires trace != []
    ensures
      var n := |trace| - 1;
      forall k :: Occurs(trace, k) <==> k == trace[n].Key() || Occurs(trace[..n], k)
  {
    var n := |trace| - 1;
    forall k ensures Occurs(trace, k) <==> k == trace[n].Key() || Occurs(trace[..n], k) {
      if i :| 0 <= i < n && trace[i].Key() == k {
        assert trace[..n][i].Key() == k;
      }
      if i :| 0 <= i < n && trace[..n][i].Key() == k {
        assert trace[i].Key() == k;
      }
    }
  }

  lemma WithoutAt(ks: seq<string>, key: string, j: nat)
    requires j < |Without(ks, key)|
    ensures OldIndex(j, IndexOf(ks, key)) < |ks| && Without(ks, key)[j] == ks[OldIndex(j, IndexOf(ks, key))]
  {
    var i := IndexOf(ks, key);
    if i < |ks| {
      RemovedAt(ks, i, j);
    }
  }

  lemma RemovedAt(ks: seq<string>, i: nat, j: nat)
    requires i < |ks| && j < |ks| - 1
    ensures RemoveAt(ks, i)[j] == ks[OldIndex(j, i)]
  {
  }

  lemma SeenEarlier(trace: seq<Hit>, key: string, i: nat)
    requires LastSeen(trace, key, i) && trace[|trace| - 1].Key() != key
    ensures LastSeen(trace[..|trace| - 1], key, i)
  {
  }

  lemma NewestIsUnique(trace: seq<Hit>, a: nat)
    requires 0 < a < |Recency(trace)|
    ensures Recency(trace)[a] != trace[|trace| - 1].Key()
  {
    RecencyListsKeys(trace);
    var r := Recency(trace);
    assert r[0] == trace[|trace| - 1].Key() && r[0] != r[a];
  }

  /** Where an older key stood before the newest hit. */
  function OldPlace(trace: seq<Hit>, a: nat): nat
    requires trace != [] && a > 0
  {
    OldIndex(a - 1, IndexOf(Recency(trace[..|trace| - 1]), trace[|trace| - 1].Key()))
  }

  lemma OldPlaceHolds(trace: seq<Hit>, a: nat)
    requires 0 < a < |Recency(trace)|
    ensures OldPlace(trace, a) < |Recency(trace[..|trace| - 1])|
    ensures Recency(trace[..|trace| - 1])[OldPlace(trace, a)] == Recency(trace)[a]
  {
    var n := |trace| - 1;
    BehindNewest(Recency(trace), Recency(trace[..n]), trace[n].Key(), a);
  }

  lemma BehindNewest(now: seq<string>, r: seq<string>, k: string, a: nat)
    requires now == [k] + Without(r, k) && 0 < a < |now|
    ensures OldIndex(a - 1, IndexOf(r, k)) < |r| && now[a] == r[OldIndex(a - 1, IndexOf(r, k))]
  {
    WithoutAt(r, k, a - 1);
  }

  /** ... in order of when it was last seen. */
  lemma {:induction false} RecencyIsOrdered(trace: seq<Hit>, a: nat, b: nat, i: nat, j: nat)
    requires a < b < |Recency(trace)|
    requires LastSeen(trace, Recency(trace)[a], i) && LastSeen(trace, Recency(trace)[b], j)
    ensures i > j
    decreases |trace|
  {
    NewestIsUnique(trace, b);
    SeenEarlier(trace, Recency(trace)[b], j);
    if a > 0 {
      NewestIsUnique(trace, a);
      SeenEarlier(trace, Recency(trace)[a], i);
      OldPlaceHolds(trace, a);
      OldPlaceHolds(trace, b);
      RecencyIsOrdered(trace[..|trace| - 1], OldPlace(trace, a), OldPlace(trace, b), i, j);
    } else {
      NewestIsFirst(trace, i);
    }
  }

  lemma NewestIsFirst(trace: seq<Hit>, i: nat)
    requires trace != [] && LastSeen(trace, Recency(trace)[0], i)
    ensures i == |trace| - 1
  {
    assert trace[|trace| - 1].Key() == Recency(trace)[0];
  }

  function OldIndex(a: nat, at: nat): nat {
    if a < at then a else a + 1
  }

  function Take(ks: seq<string>, n: nat): seq<string> {
    if |ks| <= n then ks else ks[..n]
  }

  /** What one `record` does to the keys. */
  function KeysStep(ks: seq<string>, max: int, key: string): seq<string> {
    var i := IndexOf(ks, key);
    if i < |ks| then [key] + RemoveAt(ks, i)
    else [key] + if |ks| >= max && |ks| > 0 then ks[..|ks| - 1] else ks
  }

  lemma KeysOfStep(l: seq<Unmatched>, max: int, domain: string, path: string, now: int)
    ensures Keys(RecordStep(l, max, domain, path, now)) == KeysStep(Keys(l), max, KeyOf(domain, path))
  {
    if KeyOf(domain, path) in Keys(l) {
      KnownKey(l, max, domain, path, now);
      var i := IndexOf(Keys(l), KeyOf(domain, path));
      KeysOfMoved(l, i, l[i].(count := l[i].count + 1, last := now));
    } else {
      NewKey(l, max, domain, path, now);
      KeysOfEntered(l, Unmatched(domain, path, 1, now), |l| >= max && |l| > 0);
    }
  }

  lemma KeysOfEntered(l: seq<Unmatched>, e: Unmatched, drop: bool)
    requires drop ==> |l| > 0
    ensures Keys([e] + if drop then l[..|l| - 1] else l) == [EntryKey(e)] + if drop then Keys(l)[..|l| - 1] else Keys(l)
  {
  }

  lemma KeysOfMoved(l: seq<Unmatched>, i: nat, e: Unmatched)
    requires i < |l| && EntryKey(e) == EntryKey(l[i])
    ensures Keys([e] + RemoveAt(l, i)) == [Keys(l)[i]] + RemoveAt(Keys(l), i)
  {
  }

  lemma TakeKnown(r: seq<string>, cap: nat, k: string)
    requires Distinct(r) && k in Take(r, cap)
    ensures KeysStep(Take(r, cap), cap, k) == Take([k] + Without(r, k), cap)
  {
    var l, i := Take(r, cap), IndexOf(Take(r, cap), k);
    assert r[i] == k;
    assert IndexOf(r, k) == i;
    if |r| > cap {
      assert ([k] + RemoveAt(r, i))[..cap] == [k] + RemoveAt(l, i);
    }
  }

  lemma TakeNew(r: seq<string>, cap: nat, k: string)
    requires Distinct(r) && cap >= 1 && k !in Take(r, cap)
    ensures KeysStep(Take(r, cap), cap, k) == Take([k] + Without(r, k), cap)
  {
    var i := IndexOf(r, k);
    assert forall j | 0 <= j < cap && j < |r| :: r[j] == Take(r, cap)[j];
    if |r| >= cap {
      assert Without(r, k)[..cap - 1] == r[..cap - 1];
    } else {
      assert i == |r|;
    }
  }

  /** Over every trace, the list holds exactly the `max` most recently seen distinct keys, in order. */
  lemma {:induction false} ListIsMostRecent(trace: seq<Hit>, max: nat)
    requires max >= 1
    ensures Keys(After(trace, max)) == Take(Recency(trace), max)
  {
    if trace != [] {
      var front, h := trace[..|trace| - 1], trace[|trace| - 1];
      ListIsMostRecent(front, max);
      RecencyListsKeys(front);
      KeysOfStep(After(front, max), max, h.domain, h.path, h.time);
      if h.Key() in Take(Recency(front), max) {
        TakeKnown(Recency(front), max, h.Key());
      } else {
        TakeNew(Recency(front), max, h.Key());
      }
    }
  }

  /** The hits of `key` since it last entered the `max` most recent, counted on the trace alone. */
  function HitsSinceEntry(trace: seq<Hit>, max: nat, key: string): nat {
    if trace == [] then 0
    else
      var front := trace[..|trace| - 1];
      if trace[|trace| - 1].Key() != key then HitsSinceEntry(front, max, key)
      else if key in Take(Recency(front), max) then HitsSinceEntry(front, max, key) + 1
      else 1
  }

  /** After one `record`, every entry but the first is an old entry of another key. */
  lemma OtherEntry(l: seq<Unmatched>, max: int, domain: string, path: string, now: int, i: nat) returns (p: nat)
    requires Distinct(Keys(l)) && 0 < i < |RecordStep(l, max, domain, path, now)|
    ensures p < |l| && RecordStep(l, max, domain, path, now)[i] == l[p] && EntryKey(l[p]) != KeyOf(domain, path)
  {
    if KeyOf(domain, path) in Keys(l) {
      KnownKey(l, max, domain, path, now);
      var at := IndexOf(Keys(l), KeyOf(domain, path));
      MovedAt(l, at);
      p := Source(at, i);
      assert Keys(l)[p] != Keys(l)[at];
    } else {
      NewKey(l, max, domain, path, now);
      p := i - 1;
      assert Keys(l)[p] in Keys(l);
    }
  }

  /** The first entry is the one hit: one hit more than before, or the first. */
  lemma HitEntry(l: seq<Unmatched>, max: int, domain: string, path: string, now: int)
    ensures
      var e := RecordStep(l, max, domain, path, now)[0];
      var i := IndexOf(Keys(l), KeyOf(domain, path));
      EntryKey(e) == KeyOf(domain, path) && e.count == if i < |l| then l[i].count + 1 else 1
  {
  }

  /** Over every trace, each count is the number of hits since its key last entered. */
  lemma {:induction false} CountsAreHits(trace: seq<Hit>, max: nat, i: nat)
    requires max >= 1 && i < |After(trace, max)|
    ensures After(trace, max)[i].count == HitsSinceEntry(trace, max, EntryKey(After(trace, max)[i]))
    decreases |trace|
  {
    hide Recency, Occurs;
    var front, h := trace[..|trace| - 1], trace[|trace| - 1];
    var l := After(front, max);
    ListIsMostRecent(front, max);
    RecencyListsKeys(front);
    if i > 0 {
      var p := OtherEntry(l, max, h.domain, h.path, h.time, i);
      CountsAreHits(front, max, p);
    } else {
      HitEntry(l, max, h.domain, h.path, h.time);
      if h.Key() in Keys(l) {
        CountsAreHits(front, max, IndexOf(Keys(l), h.Key()));
      }
    }
  }

  // ----- keys stand for pairs -----

  /** Domains without spaces: then a key stands for one domain and path. */
  lemma {:induction false} KeyIsPair(d1: string, p1: string, d2: string, p2: string)
    requires ' ' !in d1 && ' ' !in d2
    ensures KeyOf(d1, p1) == KeyOf(d2, p2) <==> d1 == d2 && p1 == p2
  {
    var k1, k2 := KeyOf(d1, p1), KeyOf(d2, p2);
    if d1 == "" || d2 == "" {
      assert d1 == "" ==> k1[0] == ' ' && k1[1..] == p1;
      assert d2 == "" ==> k2[0] == ' ' && k2[1..] == p2;
    } else {
      assert k1[0] == d1[0] && k2[0] == d2[0];
      assert k1[1..] == KeyOf(d1[1..], p1) && k2[1..] == KeyOf(d2[1..], p2);
      KeyIsPair(d1[1..], p1, d2[1..], p2);
      assert d1 == [d1[0]] + d1[1..] && d2 == [d2[0]] + d2[1..];
    }
  }

  /** With a space in a domain two pairs can share a key, and their hits one entry. */
  lemma SpacedDomainsShareAKey(max: nat)
    requires max >= 1
    ensures
      var l := After([Hit("a b", "c", 1), Hit("a", "b c", 2)], max);
      |l| == 1 && l[0].count == 2 && l[0].domain == "a b"
  {
    var first, second := Hit("a b", "c", 1), Hit("a", "b c", 2);
    var trace := [first, second];
    assert trace[..1] == [first] && [first][..0] == [];
    assert KeyOf("a b", "c") == KeyOf("a", "b c");
    assert After([first], max) == [Unmatched("a b", "c", 1, 1)];
    assert Keys(After([first], max))[0] == KeyOf("a b", "c");
  }

  predicate PlainDomains(trace: seq<Hit>) {
    forall i | 0 <= i < |trace| :: ' ' !in trace[i].domain
  }

  /** `h` is the last hit of the pair. */
  ghost predicate LastHit(trace: seq<Hit>, domain: string, path: string, h: nat) {
    && h < |trace| && trace[h].domain == domain && trace[h].path == path
    && forall j | h < j < |trace| :: !(trace[j].domain == domain && trace[j].path == path)
  }

  /** Over every trace of domains without spaces, each entry is of a pair that was hit, and shows when that
      was last. */
  lemma {:induction false} EntryShowsLastHit(trace: seq<Hit>, max: nat, i: nat) returns (h: nat)
    requires PlainDomains(trace) && max >= 1 && i < |After(trace, max)|
    ensures
      var e := After(trace, max)[i];
      LastHit(trace, e.domain, e.path, h) && e.last == trace[h].time
    decreases |trace|
  {
    var n := |trace| - 1;
    var front, hit := trace[..n], trace[n];
    var l := After(front, max);
    hide Recency, Occurs, LastHit, RecordStep, KeyOf, After;
    assert After(trace, max) == RecordStep(l, max, hit.domain, hit.path, hit.time) by { AfterLast(trace, max); }
    ListIsMostRecent(front, max);
    RecencyListsKeys(front);
    if i > 0 {
      var p := OtherEntry(l, max, hit.domain, hit.path, hit.time, i);
      h := EntryShowsLastHit(front, max, p);
      LastHitPersists(trace, l[p].domain, l[p].path, h);
    } else {
      h := n;
      FirstEntry(l, max, hit.domain, hit.path, hit.time);
      NewestIsLastHit(trace);
      if hit.Key() in Keys(l) {
        var at := IndexOf(Keys(l), hit.Key());
        var g := EntryShowsLastHit(front, max, at);
        SamePair(trace, g, l[at]);
      }
    }
  }

  lemma AfterLast(trace: seq<Hit>, max: int)
    requires trace != []
    ensures
      var h := trace[|trace| - 1];
      After(trace, max) == RecordStep(After(trace[..|trace| - 1], max), max, h.domain, h.path, h.time)
  {
    hide RecordStep;
  }

  lemma LastHitPersists(trace: seq<Hit>, domain: string, path: string, h: nat)
    requires PlainDomains(trace) && trace != [] && LastHit(trace[..|trace| - 1], domain, path, h)
    requires KeyOf(domain, path) != trace[|trace| - 1].Key()
    ensures LastHit(trace, domain, path, h)
  {
    var n := |trace| - 1;
    forall j | h < j < |trace| ensures !(trace[j].domain == domain && trace[j].path == path) {
      assert j < n ==> trace[..n][j] == trace[j];
    }
  }

  lemma NewestIsLastHit(trace: seq<Hit>)
    requires trace != []
    ensures var hit := trace[|trace| - 1]; LastHit(trace, hit.domain, hit.path, |trace| - 1)
  {
  }

  lemma SamePair(trace: seq<Hit>, g: nat, e: Unmatched)
    requires PlainDomains(trace) && trace != [] && LastHit(trace[..|trace| - 1], e.domain, e.path, g)
    requires KeyOf(e.domain, e.path) == trace[|trace| - 1].Key()
    ensures e.domain == trace[|trace| - 1].domain && e.path == trace[|trace| - 1].path
  {
    hide KeyOf;
    assert trace[..|trace| - 1][g] == trace[g];
    KeyIsPair(e.domain, e.path, trace[|trace| - 1].domain, trace[|trace| - 1].path);
  }

  lemma FirstEntry(l: seq<Unmatched>, max: int, domain: string, path: string, now: int)
    ensures
      var e := RecordStep(l, max, domain, path, now)[0];
      var i := IndexOf(Keys(l), KeyOf(domain, path));
      e.last == now && if i < |l| then e.domain == l[i].domain && e.path == l[i].path
                       else e.domain == domain && e.path == path
  {
  }

  /** And different entries are of different pairs. */
  lemma EntriesAreOfDifferentPairs(trace: seq<Hit>, max: nat, i: nat, j: nat)
    requires max >= 1 && i < j < |After(trace, max)|
    ensures After(trace, max)[i].domain != After(trace, max)[j].domain
            || After(trace, max)[i].path != After(trace, max)[j].path
  {
    hide Recency, Occurs, After;
    ListIsMostRecent(trace, max);
    RecencyListsKeys(trace);
    assert Keys(After(trace, max))[i] != Keys(After(trace, max))[j];
  }
}
