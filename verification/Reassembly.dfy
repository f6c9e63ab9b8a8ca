/** `joinCryptoChunks` (`internal/quic/initial.go`): out-of-order, duplicated and overlapping
    chunks become the longest gap-free prefix of the handshake stream. */
module Reassembly {
  import opened Wire
  import opened CryptoFrames

  // ----- stable insertion sort by offset -----

  predicate SortedByOffset(cs: seq<Chunk>) {
    forall i, j | 0 <= i < j < |cs| :: cs[i].off <= cs[j].off
  }

  /** Inserts `c` after every chunk whose offset is not larger. */
  function Insert(cs: seq<Chunk>, c: Chunk): seq<Chunk> {
    if cs == [] || cs[|cs| - 1].off <= c.off then cs + [c]
    else Insert(cs[..|cs| - 1], c) + [cs[|cs| - 1]]
  }

  function Sort(cs: seq<Chunk>): seq<Chunk> {
    if cs == [] then [] else Insert(Sort(cs[..|cs| - 1]), cs[|cs| - 1])
  }

  /** Where an insertion lands. */
  lemma {:induction false} InsertAt(cs: seq<Chunk>, c: Chunk, b: nat)
    requires b <= |cs|
    requires b > 0 ==> cs[b - 1].off <= c.off
    requires forall i | b <= i < |cs| :: cs[i].off > c.off
    ensures Insert(cs, c) == cs[..b] + [c] + cs[b..]
  {
    if b < |cs| {
      var front := cs[..|cs| - 1];
      InsertAt(front, c, b);
      assert front[..b] == cs[..b];
      assert cs[b..] == front[b..] + [cs[|cs| - 1]];
    } else {
      assert cs[..b] == cs && cs[b..] == [];
    }
  }

  lemma {:induction false} InsertSorted(cs: seq<Chunk>, c: Chunk)
    requires SortedByOffset(cs)
    ensures SortedByOffset(Insert(cs, c))
    ensures multiset(Insert(cs, c)) == multiset(cs) + multiset{c}
  {
    if cs == [] || cs[|cs| - 1].off <= c.off {
    } else {
      var front, last := cs[..|cs| - 1], cs[|cs| - 1];
      InsertSorted(front, c);
      assert cs == front + [last];
      var r := Insert(front, c);
      forall i | 0 <= i < |r| ensures r[i].off <= last.off {
        assert r[i] in multiset(r);
      }
    }
  }

  /** Sorting orders the chunks and keeps each exactly as often as it came. */
  lemma {:induction false} SortSorts(cs: seq<Chunk>)
    ensures SortedByOffset(Sort(cs))
    ensures multiset(Sort(cs)) == multiset(cs)
  {
    if cs != [] {
      SortSorts(cs[..|cs| - 1]);
      InsertSorted(Sort(cs[..|cs| - 1]), cs[|cs| - 1]);
      assert cs == cs[..|cs| - 1] + [cs[|cs| - 1]];
    }
  }

  lemma SortLength(cs: seq<Chunk>)
    ensures |Sort(cs)| == |cs|
  {
    SortSorts(cs);
    assert |multiset(Sort(cs))| == |multiset(cs)|;
  }

  /** The inner loop: adjacent swaps walk `a[k]` down to its place. */
  method SinkInPlace(a: array<Chunk>, k: nat)
    requires k < a.Length
    modifies a
    ensures a[..k + 1] == Insert(old(a[..k]), old(a[k]))
    ensures a[k + 1..] == old(a[k + 1..])
  {
    ghost var p, c := a[..k], a[k];
    var b := k;
    while b > 0 && a[b - 1].off > a[b].off
      invariant 0 <= b <= k
      invariant a[b] == c
      invariant forall i | 0 <= i < b :: a[i] == p[i]
      invariant forall i | b < i <= k :: a[i] == p[i - 1]
      invariant forall i | b <= i < k :: p[i].off > c.off
      invariant forall i | k < i < a.Length :: a[i] == old(a[i])
    {
      a[b - 1], a[b] := a[b], a[b - 1];
      b := b - 1;
    }
    InsertAt(p, c, b);
    assert a[..k + 1] == p[..b] + [c] + p[b..];
  }

  /** The program's in-place insertion sort. */
  method SortInPlace(a: array<Chunk>)
    modifies a
    ensures a[..] == Sort(old(a[..]))
  {
    ghost var was := a[..];
    if a.Length == 0 {
      return;
    }
    assert Sort(was[..1]) == Insert(Sort(was[..1][..0]), was[0]) == [was[0]];
    var k := 1;
    while k < a.Length
      invariant 1 <= k <= a.Length
      invariant a[..k] == Sort(was[..k]) && a[k..] == was[k..]
    {
      assert was[..k + 1][..k] == was[..k] && a[k] == was[k..][0] == was[k];
      ghost var rest := a[k..];
      SinkInPlace(a, k);
      assert rest[1..] == was[k + 1..] && a[k + 1..] == rest[1..];
      k := k + 1;
    }
    assert a[..] == a[..k] && was == was[..k];
  }

  // ----- joining -----

  /** Appends what each chunk adds, and stops at the first gap. */
  function Fill(cs: seq<Chunk>, out: bytes): bytes {
    if cs == [] || cs[0].off > |out| then out
    else if cs[0].End() <= |out| then Fill(cs[1..], out)
    else Fill(cs[1..], out + cs[0].data[|out| - cs[0].off..])
  }

  function Join(chunks: seq<Chunk>): bytes {
    Fill(Sort(chunks), [])
  }

  /** `joinCryptoChunks` with its sorted copy and its running `next`. */
  method JoinChunks(chunks: seq<Chunk>) returns (out: bytes)
    ensures out == Join(chunks)
  {
    hide Insert;
    if |chunks| == 0 {
      return [];
    }
    var sorted := new Chunk[|chunks|](i requires 0 <= i < |chunks| => chunks[i]);
    assert sorted[..] == chunks;
    SortInPlace(sorted);
    SortLength(chunks);
    out := [];
    var next := 0;
    var i := 0;
    while i < sorted.Length
      invariant 0 <= i <= sorted.Length
      invariant sorted[..] == Sort(chunks)
      invariant next == |out|
      invariant Fill(sorted[i..], out) == Join(chunks)
    {
      var c := sorted[i];
      assert sorted[i..][1..] == sorted[i + 1..];
      var end := c.off + |c.data|;
      if c.off > next {
        break;
      }
      i := i + 1;
      if end <= next {
        continue;
      }
      out := out + c.data[next - c.off..];
      next := end;
    }
  }

  // ----- what the join is -----

  ghost predicate Covers(c: Chunk, p: nat) {
    c.off <= p < c.End()
  }

  /** `c` has the byte `v` at stream offset `p`. */
  ghost predicate Supplies(c: Chunk, p: nat, v: byte) {
    Covers(c, p) && c.data[p - c.off] == v
  }

  ghost predicate SuppliedAt(cs: seq<Chunk>, p: nat, v: byte) {
    exists c :: c in cs && Supplies(c, p, v)
  }

  ghost predicate Supplied(cs: seq<Chunk>, out: bytes) {
    forall p: nat | p < |out| :: SuppliedAt(cs, p, out[p])
  }

  ghost predicate Covered(cs: seq<Chunk>, p: nat) {
    exists c :: c in cs && Covers(c, p)
  }

  /** `out` is gap-free, ends at the first offset no chunk covers, and takes each byte from a
      chunk that covers it. */
  ghost predicate LongestPrefix(cs: seq<Chunk>, out: bytes) {
    && Supplied(cs, out)
    && !Covered(cs, |out|)
  }

  lemma {:induction false} FillIsLongest(all: seq<Chunk>, k: nat, out: bytes)
    requires SortedByOffset(all) && k <= |all|
    requires Supplied(all, out)
    requires forall i | 0 <= i < k :: all[i].End() <= |out|
    ensures LongestPrefix(all, Fill(all[k..], out))
    decreases |all| - k
  {
    if k < |all| && all[k].off <= |out| {
      var c := all[k];
      assert all[k..][1..] == all[k + 1..];
      if c.End() <= |out| {
        FillIsLongest(all, k + 1, out);
      } else {
        var more := out + c.data[|out| - c.off..];
        forall p: nat | p < |more|
          ensures SuppliedAt(all, p, more[p])
        {
          if p < |out| {
            assert SuppliedAt(all, p, out[p]) && more[p] == out[p];
          } else {
            assert c in all && Supplies(c, p, more[p]);
          }
        }
        FillIsLongest(all, k + 1, more);
      }
    }
  }

  /** Reassembly returns the longest gap-free prefix of what the chunks cover. */
  lemma JoinIsLongest(cs: seq<Chunk>)
    ensures LongestPrefix(cs, Join(cs))
  {
    SortSorts(cs);
    var s := Sort(cs);
    FillIsLongest(s, 0, []);
    assert s[0..] == s;
    SameElements(cs, s);
    var out := Join(cs);
    forall p: nat | p < |out| ensures SuppliedAt(cs, p, out[p]) {
      assert SuppliedAt(s, p, out[p]);
    }
    assert !Covered(s, |out|);
  }

  lemma SameElements(cs: seq<Chunk>, s: seq<Chunk>)
    requires multiset(cs) == multiset(s)
    ensures forall c :: c in cs <==> c in s
  {
    forall c ensures c in cs <==> c in s {
      assert c in cs <==> c in multiset(cs);
      assert c in s <==> c in multiset(s);
    }
  }

  /** The length of the join is the only gap-free length that cannot grow: the largest `n`
      such that every offset below `n` is covered. */
  lemma JoinLengthIsLargest(cs: seq<Chunk>, n: nat)
    ensures n <= |Join(cs)| <==> forall p: nat | p < n :: Covered(cs, p)
  {
    JoinIsLongest(cs);
    var out := Join(cs);
    forall p: nat | p < |out| ensures Covered(cs, p) {
      assert SuppliedAt(cs, p, out[p]);
      var c :| c in cs && Supplies(c, p, out[p]);
      assert Covers(c, p);
    }
  }

  /** `c` was cut out of the stream `s`. */
  ghost predicate PieceOf(c: Chunk, s: bytes) {
    c.End() <= |s| && c.data == s[c.off..c.End()]
  }

  /** For chunks of one stream the join is a prefix of that stream. */
  lemma JoinOfPieces(cs: seq<Chunk>, s: bytes)
    requires forall c | c in cs :: PieceOf(c, s)
    ensures Join(cs) <= s
  {
    JoinIsLongest(cs);
    var out := Join(cs);
    forall p: nat | p < |out| ensures p < |s| && out[p] == s[p] {
      assert SuppliedAt(cs, p, out[p]);
      var c :| c in cs && Supplies(c, p, out[p]);
      assert PieceOf(c, s);
    }
    if |out| > 0 {
      var last: nat := |out| - 1;
      assert SuppliedAt(cs, last, out[last]);
      var c :| c in cs && Supplies(c, last, out[last]);
      assert PieceOf(c, s);
    }
  }

  /** Arrival order, duplication and the way the stream was cut do not matter: only the set of
      covered offsets does. */
  lemma JoinIgnoresOrder(cs: seq<Chunk>, ds: seq<Chunk>, s: bytes)
    requires forall c | c in cs :: PieceOf(c, s)
    requires forall d | d in ds :: PieceOf(d, s)
    requires forall p: nat :: Covered(cs, p) <==> Covered(ds, p)
    ensures Join(cs) == Join(ds)
  {
    JoinOfPieces(cs, s);
    JoinOfPieces(ds, s);
    JoinLengthIsLargest(cs, |Join(ds)|);
    JoinLengthIsLargest(ds, |Join(cs)|);
    JoinLengthIsLargest(cs, |Join(cs)|);
    JoinLengthIsLargest(ds, |Join(ds)|);
  }

  /** More chunks never shorten the join. */
  lemma JoinGrows(cs: seq<Chunk>, more: seq<Chunk>, s: bytes)
    requires forall c | c in cs + more :: PieceOf(c, s)
    ensures Join(cs) <= Join(cs + more) <= s
  {
    assert forall c | c in cs :: c in cs + more;
    JoinOfPieces(cs, s);
    JoinOfPieces(cs + more, s);
    JoinLengthIsLargest(cs, |Join(cs)|);
    forall p: nat | p < |Join(cs)| ensures Covered(cs + more, p) {
      assert Covered(cs, p);
      var c :| c in cs && Covers(c, p);
      assert c in cs + more;
    }
    JoinLengthIsLargest(cs + more, |Join(cs)|);
  }

  /** Chunks that cover the whole stream reassemble to it. */
  lemma JoinOfCoveringPieces(cs: seq<Chunk>, s: bytes)
    requires forall c | c in cs :: PieceOf(c, s)
    requires forall p: nat | p < |s| :: Covered(cs, p)
    ensures Join(cs) == s
  {
    JoinOfPieces(cs, s);
    JoinLengthIsLargest(cs, |s|);
  }
}
