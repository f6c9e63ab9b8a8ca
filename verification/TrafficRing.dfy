/** The record ring and its streaming cursor (`Recorder` in `internal/observability/record.go`).
    Counters and log lines are left out. Redaction is a map on records: `store` when one is logged
    and `view` when they are read. */
module TrafficRing {

  /** The records still in a ring of `size` slots after all of `log` went through it. */
  function Retained<T>(log: seq<T>, size: nat): seq<T> {
    if |log| <= size then log else log[|log| - size..]
  }

  function MapSeq<T, U>(f: T -> U, s: seq<T>): (r: seq<U>)
    ensures |r| == |s| && forall i | 0 <= i < |s| :: r[i] == f(s[i])
  {
    seq(|s|, i requires 0 <= i < |s| => f(s[i]))
  }

  /** What a poll from position `since` returns of the log, before `view`. */
  function Since<T>(log: seq<T>, size: nat, since: int): seq<T> {
    var kept := Retained(log, size);
    var unseen := |log| - since;
    if unseen <= 0 then []
    else if |kept| > unseen then kept[|kept| - unseen..] else kept
  }

  class Recorder<T(0)> {
    const ring: array<T>
    var next: nat
    var full: bool
    var total: nat
    /** Everything ever stored. */
    ghost var log: seq<T>

    ghost predicate Valid()
      reads this, ring
    {
      && ring.Length > 0 && total == |log|
      && next == total % ring.Length && full == (total >= ring.Length)
      && forall k | 0 <= k < |log| && |log| - ring.Length <= k :: ring[k % ring.Length] == log[k]
    }

    constructor (ringSize: int)
      ensures Valid() && log == [] && fresh(ring)
      ensures ring.Length == if ringSize <= 0 then 1024 else ringSize
    {
      var size := if ringSize <= 0 then 1024 else ringSize;
      ring := new T[size];
      next, full, total, log := 0, false, 0, [];
    }

    method Log(rec: T, store: T -> T)
      requires Valid()
      modifies this, ring
      ensures Valid() && log == old(log) + [store(rec)]
    {
      var size := ring.Length;
      WrapStep(total, size);
      forall k | 0 <= k < total && total + 1 - size <= k ensures k % size != next {
        DistinctSlots(k, total, size);
      }
      ring[next] := store(rec);
      next := (next + 1) % ring.Length;
      if next == 0 {
        full := true;
      }
      total := total + 1;
      log := log + [store(rec)];
    }

    /** The records still held, oldest first: the ring from `next` round to `next`, once it is full. */
    method Buffered() returns (out: seq<T>)
      requires Valid()
      ensures out == Retained(log, ring.Length)
    {
      var size := ring.Length;
      if full {
        out := ring[next..] + ring[..next];
        forall i | 0 <= i < size ensures out[i] == log[total - size + i] {
          SlotOf(total, size, i);
        }
        assert out == log[total - size..];
      } else {
        out := ring[..next];
        SmallModulo(total, size);
        forall i | 0 <= i < next ensures out[i] == log[i] {
          SmallModulo(i, size);
        }
        assert out == log;
      }
    }

    method SnapshotSince(sinceSeq: int, view: T -> T) returns (recs: seq<T>, seqNo: nat)
      requires Valid()
      ensures seqNo == |log| && recs == MapSeq(view, Since(log, ring.Length, sinceSeq))
    {
      seqNo := total;
      var newCount := seqNo - sinceSeq;
      if newCount <= 0 {
        return [], seqNo;
      }
      var buffered := Buffered();
      if |buffered| > newCount {
        buffered := buffered[|buffered| - newCount..];
      }
      recs := MapSeq(view, buffered);
    }

    /** The cursor a new client of the live stream starts from. */
    method Seq() returns (seqNo: nat)
      requires Valid()
      ensures seqNo == |log|
    {
      seqNo := total;
    }

    /** Up to `n` most recent records, newest last; all of them when `n` is not positive. */
    method Snapshot(n: int, view: T -> T) returns (recs: seq<T>)
      requires Valid()
      ensures
        var kept := Retained(log, ring.Length);
        recs == MapSeq(view, if 0 < n < |kept| then kept[|kept| - n..] else kept)
    {
      var out := Buffered();
      recs := MapSeq(view, out);
      if n > 0 && |recs| > n {
        recs := recs[|recs| - n..];
      }
    }
  }

  // ----- slots -----

  lemma SmallModulo(k: nat, size: nat)
    requires k < size
    ensures k % size == k
  {
  }

  lemma WrapStep(total: nat, size: nat)
    requires size > 0
    ensures (total % size + 1) % size == (total + 1) % size
    ensures (total + 1) % size == 0 ==> total + 1 >= size
    ensures total + 1 == size ==> (total + 1) % size == 0
  {
    var q, r := total / size, total % size;
    assert total == q * size + r;
    if r + 1 < size {
      ModuloOf(q, r + 1, size);
      SmallModulo(r + 1, size);
    } else {
      assert total + 1 == (q + 1) * size + 0;
      ModuloOf(q + 1, 0, size);
      assert size % size == 0 by { ModuloOf(1, 0, size); }
    }
  }

  lemma ModuloOf(q: nat, r: nat, size: nat)
    requires r < size
    ensures (q * size + r) % size == r
  {
    var x := q * size + r;
    var d := q - x / size;
    assert x == x / size * size + x % size;
    assert d * size == x % size - r;
    assert d >= 1 ==> d * size >= size;
    assert d <= -1 ==> d * size + size <= 0;
  }

  lemma DistinctSlots(k: nat, total: nat, size: nat)
    requires size > 0 && k < total && total - k < size
    ensures k % size != total % size
  {
    var d := total - k;
    var q, r := k / size, k % size;
    assert k == q * size + r;
    if r + d < size {
      ModuloOf(q, r + d, size);
    } else {
      assert total == (q + 1) * size + (r + d - size);
      ModuloOf(q + 1, r + d - size, size);
    }
  }

  /** Reading a full ring from its next slot, record `i` is the one logged `size - i` ago. */
  lemma SlotOf(total: nat, size: nat, i: nat)
    requires 0 < size <= total && i < size
    ensures (total - size + i) % size == if total % size + i < size then total % size + i else total % size + i - size
  {
    var q, r := total / size, total % size;
    assert total == q * size + r && q >= 1;
    if r + i < size {
      assert total - size + i == (q - 1) * size + (r + i);
      ModuloOf(q - 1, r + i, size);
    } else {
      assert total - size + i == q * size + (r + i - size);
      ModuloOf(q, r + i - size, size);
    }
  }

  // ----- streaming -----

  datatype Event<T> = Logged(rec: T) | Polled

  /** When a client joins: what has been logged by then, and the cursor it starts from. That is the
      current count for a client of the live stream (`Seq`), and zero for one that asks for all there is. */
  datatype Start<T> = Start(log: seq<T>, cursor: nat)

  predicate Proper<T>(at: Start<T>) {
    at.cursor <= |at.log|
  }

  /** Everything logged once a run has followed. */
  function LogOf<T>(at: Start<T>, run: seq<Event<T>>): seq<T> {
    if run == [] then at.log
    else
      var e := run[|run| - 1];
      LogOf(at, run[..|run| - 1]) + if e.Logged? then [e.rec] else []
  }

  /** The cursor a client holds after a run: the length of the log at its last poll. */
  function Cursor<T>(at: Start<T>, run: seq<Event<T>>): nat {
    if run == [] then at.cursor
    else if run[|run| - 1].Polled? then |LogOf(at, run)| else Cursor(at, run[..|run| - 1])
  }

  /** All that a client has received which passes back the cursor it was given. */
  function Delivered<T>(at: Start<T>, run: seq<Event<T>>, size: nat): seq<T> {
    if run == [] then []
    else
      var front := run[..|run| - 1];
      Delivered(at, front, size)
      + if run[|run| - 1].Polled? then Since(LogOf(at, front), size, Cursor(at, front)) else []
  }

  /** At every poll, at most `size` records have arrived since the cursor. */
  predicate KeepsUp<T>(at: Start<T>, run: seq<Event<T>>, size: nat) {
    run == [] ||
    (var front := run[..|run| - 1];
     KeepsUp(at, front, size) && (run[|run| - 1].Polled? ==> |LogOf(at, front)| - Cursor(at, front) <= size))
  }

  lemma {:induction false} CursorIsBehind<T>(at: Start<T>, run: seq<Event<T>>)
    requires Proper(at)
    ensures at.cursor <= Cursor(at, run) <= |LogOf(at, run)|
  {
    if run != [] {
      CursorIsBehind(at, run[..|run| - 1]);
    }
  }

  /** One poll returns exactly the records since the cursor that the ring still holds: all of them when
      no more than `size` have arrived, and otherwise the newest `size`. */
  lemma PollReturns<T>(log: seq<T>, size: nat, cursor: nat)
    requires cursor <= |log|
    ensures Since(log, size, cursor) == if |log| - cursor <= size then log[cursor..] else log[|log| - size..]
  {
  }

  /** What one more event means for the log, the cursor and the client. */
  lemma OneMoreEvent<T>(at: Start<T>, run: seq<Event<T>>, size: nat)
    requires Proper(at) && run != []
    ensures
      var front, e := run[..|run| - 1], run[|run| - 1];
      var log := LogOf(at, front);
      && at.cursor <= Cursor(at, front) <= |log| <= |LogOf(at, run)| && LogOf(at, run)[..|log|] == log
      && (e.Polled? ==> LogOf(at, run) == log && Cursor(at, run) == |log|)
      && (e.Logged? ==> Cursor(at, run) == Cursor(at, front) && Delivered(at, run, size) == Delivered(at, front, size))
  {
    CursorIsBehind(at, run[..|run| - 1]);
  }

  lemma SplitAt<T>(s: seq<T>, i: nat, j: nat)
    requires i <= j <= |s|
    ensures s[i..j] + s[j..] == s[i..]
  {
  }

  lemma SliceOfPrefix<T>(s: seq<T>, n: nat, i: nat, j: nat)
    requires i <= j <= n <= |s|
    ensures s[..n][i..j] == s[i..j]
  {
  }

  /** In every run after joining, a client that keeps up has received every record from the cursor it
      started with up to its last poll, exactly once and in order. */
  lemma {:induction false} StreamIsComplete<T>(at: Start<T>, run: seq<Event<T>>, size: nat)
    requires Proper(at) && KeepsUp(at, run, size)
    ensures at.cursor <= Cursor(at, run) <= |LogOf(at, run)|
    ensures Delivered(at, run, size) == LogOf(at, run)[at.cursor..Cursor(at, run)]
  {
    if run != [] {
      hide Since, LogOf, Cursor;
      var front := run[..|run| - 1];
      StreamIsComplete(at, front, size);
      OneMoreEvent(at, run, size);
      var log, cursor := LogOf(at, front), Cursor(at, front);
      if run[|run| - 1].Polled? {
        PollReturns(log, size, cursor);
        SplitAt(log, at.cursor, cursor);
        assert log[at.cursor..|log|] == log[at.cursor..];
      } else {
        SliceOfPrefix(LogOf(at, run), |log|, at.cursor, cursor);
      }
    }
  }

  /** In every run a client misses records exactly when it does not keep up, and it never receives more
      than was logged from the cursor it started with up to its last poll. */
  lemma {:induction false} MissingMeansFallingBehind<T>(at: Start<T>, run: seq<Event<T>>, size: nat)
    requires Proper(at)
    ensures at.cursor + |Delivered(at, run, size)| <= Cursor(at, run)
    ensures at.cursor + |Delivered(at, run, size)| == Cursor(at, run) <==> KeepsUp(at, run, size)
  {
    if run != [] {
      var front := run[..|run| - 1];
      MissingMeansFallingBehind(at, front, size);
      OneMoreEvent(at, run, size);
      if run[|run| - 1].Polled? {
        PollReturns(LogOf(at, front), size, Cursor(at, front));
      }
    }
  }

  /** A client of the live stream that polls often enough receives exactly what is logged after it
      joins, whatever the ring held before. */
  lemma LiveStreamIsComplete<T>(before: seq<T>, run: seq<Event<T>>, size: nat)
    requires KeepsUp(Start(before, |before|), run, size) && run != [] && run[|run| - 1].Polled?
    ensures before + Delivered(Start(before, |before|), run, size) == LogOf(Start(before, |before|), run)
  {
    var at := Start(before, |before|);
    StreamIsComplete(at, run, size);
    OneMoreEvent(at, run, size);
    LogGrows(at, run);
    var log := LogOf(at, run);
    assert log == log[..|before|] + log[|before|..|log|];
  }

  lemma {:induction false} LogGrows<T>(at: Start<T>, run: seq<Event<T>>)
    ensures at.log <= LogOf(at, run)
  {
    if run != [] {
      LogGrows(at, run[..|run| - 1]);
    }
  }
}
