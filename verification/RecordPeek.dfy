/** `PeekClientHello` and `prefixConn` (`internal/passthrough/sni.go`): the ClientHello is read
    across TLS records (section 5.1 of RFC 8446), and every byte read is replayed.

    A connection is the bytes it will deliver before a read fails; how a read cuts them up is left
    open. */
module RecordPeek {
  import opened Wire
  import opened ClientHello

  const MAX_RECORDS := 8
  const MAX_HANDSHAKE := 65536

  class Conn {
    var unread: bytes

    /** Delivers a non-empty piece of what is left, no longer than asked, or fails at the end. */
    method Read(n: nat) returns (got: bytes, failed: bool)
      requires n > 0
      modifies this
      ensures got + unread == old(unread) && |got| <= n
      ensures failed <==> old(unread) == []
      ensures !failed ==> got != []
    {
      if unread == [] {
        return [], true;
      }
      var k :| 1 <= k <= n && k <= |unread|;
      got, unread, failed := unread[..k], unread[k..], false;
    }
  }

  /** `readFull`: `n` bytes, or everything there was when the connection fails first. */
  method ReadFull(conn: Conn, n: nat) returns (p: bytes, failed: bool)
    modifies conn
    ensures failed <==> |old(conn.unread)| < n
    ensures !failed ==> p == old(conn.unread)[..n] && conn.unread == old(conn.unread)[n..]
    ensures failed ==> p == old(conn.unread) && conn.unread == []
  {
    p, failed := [], false;
    while |p| < n
      invariant |p| <= n && p + conn.unread == old(conn.unread)
      decreases |conn.unread|
    {
      ghost var before := conn.unread;
      var m, err := conn.Read(n - |p|);
      assert p + before == (p + m) + conn.unread;
      p := p + m;
      if err {
        assert conn.unread == [];
        return p, true;
      }
    }
  }

  datatype Outcome = Clean | NotHandshake | BadLength | ReadFailed

  /** What a peek gathers: the handshake bytes, the bytes kept for replay, what the connection
      still holds, and how it ended. */
  datatype Peeked = Peeked(hs: bytes, raw: bytes, rest: bytes, outcome: Outcome) {
    function Sni(): bytes { ParseSNI(hs) }
  }

  /** The ClientHello is complete, or too long to wait for. */
  predicate Enough(hs: bytes) {
    |hs| >= 4 && (|hs| >= MessageLength(hs) || |hs| >= MAX_HANDSHAKE)
  }

  /** Four header bytes plus the length they state. */
  function MessageLength(hs: bytes): nat
    requires |hs| >= 4
  {
    4 + (hs[1] as int) * 65536 + (hs[2] as int) * 256 + hs[3]
  }

  /** The front of a stream read as one record: the failing and foreign cases, or the bytes of a
      whole handshake record, its body, and what follows. */
  datatype Taken =
    | NoHeader
    | Foreign(hdr: bytes, after: bytes)
    | Empty(hdr: bytes, after: bytes)
    | NoBody(hdr: bytes, partial: bytes)
    | Record(bytes: bytes, body: bytes, after: bytes)

  function TakeRecord(stream: bytes): (t: Taken)
    ensures t.Foreign? || t.Empty? ==> t.hdr + t.after == stream
    ensures t.NoBody? ==> t.hdr + t.partial == stream
    ensures t.Record? ==> t.bytes + t.after == stream
  {
    if |stream| < 5 then NoHeader else
    var hdr, after := stream[..5], stream[5..];
    var recLen := U16(hdr[3..]);
    if hdr[0] != 0x16 then Foreign(hdr, after)
    else if recLen <= 0 then Empty(hdr, after)
    else if |after| < recLen then NoBody(hdr, after)
    else Record(hdr + after[..recLen], after[..recLen], after[recLen..])
  }

  /** The record loop as a function: `rec` records have been read, `hs` is their content. */
  function PeekFrom(stream: bytes, raw: bytes, hs: bytes, rec: nat): Peeked
    decreases MAX_RECORDS - rec
  {
    if rec >= MAX_RECORDS then Peeked(hs, raw, stream, Clean) else
    match TakeRecord(stream)
    case NoHeader => Peeked(hs, raw, [], ReadFailed)
    case Foreign(hdr, after) => Peeked(hs, raw + hdr, after, if rec == 0 then NotHandshake else Clean)
    case Empty(hdr, after) => Peeked(hs, raw + hdr, after, BadLength)
    case NoBody(hdr, _) => Peeked(hs, raw + hdr, [], ReadFailed)
    case Record(bytes, body, after) =>
      if Enough(hs + body) then Peeked(hs + body, raw + bytes, after, Clean)
      else PeekFrom(after, raw + bytes, hs + body, rec + 1)
  }

  function Peek(stream: bytes): Peeked {
    PeekFrom(stream, [], [], 0)
  }

  /** The replay side: buffered bytes first, then the connection. */
  class ReplayConn {
    var buf: bytes
    const conn: Conn

    constructor (conn: Conn, buf: bytes)
      ensures this.conn == conn && this.buf == buf
    {
      this.conn, this.buf := conn, buf;
    }

    ghost function Remaining(): bytes
      reads this, conn
    {
      buf + conn.unread
    }

    /** Each read takes a prefix of what remains, and makes progress whenever it can. */
    method Read(n: nat) returns (got: bytes, failed: bool)
      modifies this, conn
      ensures got + Remaining() == old(Remaining()) && |got| <= n
      ensures n > 0 ==> (failed <==> old(Remaining()) == []) && (!failed ==> got != [])
    {
      if |buf| > 0 {
        var k := if n < |buf| then n else |buf|;
        got, failed := buf[..k], false;
        ghost var whole := buf;
        buf := buf[k..];
        assert whole == got + buf;
        assert got + (buf + conn.unread) == (got + buf) + conn.unread;
        return;
      }
      if n == 0 {
        return [], false;
      }
      got, failed := conn.Read(n);
    }

    /** Reading with any buffer sizes yields the stream, in order, without loss or repetition. */
    method ReadWith(sizes: seq<nat>) returns (got: bytes)
      modifies this, conn
      ensures got + Remaining() == old(Remaining())
    {
      got := [];
      for i := 0 to |sizes|
        invariant got + Remaining() == old(Remaining())
      {
        ghost var before := Remaining();
        var piece, failed := Read(sizes[i]);
        assert (got + piece) + Remaining() == got + before;
        got := got + piece;
      }
    }
  }

  /** Reads one record off the connection: header, then body. */
  method ReadRecord(conn: Conn) returns (t: Taken)
    modifies conn
    ensures t == TakeRecord(old(conn.unread))
    ensures conn.unread == if t.NoHeader? || t.NoBody? then [] else t.after
  {
    var hdr, failed := ReadFull(conn, 5);
    if failed {
      return NoHeader;
    }
    if hdr[0] != 0x16 {
      return Foreign(hdr, conn.unread);
    }
    var recLen := U16(hdr[3..]);
    if recLen <= 0 {
      return Empty(hdr, conn.unread);
    }
    var body;
    body, failed := ReadFull(conn, recLen);
    if failed {
      return NoBody(hdr, body);
    }
    return Record(hdr + body, body, conn.unread);
  }

  /** `PeekClientHello`: the loop over records. */
  method PeekClientHello(conn: Conn) returns (sni: bytes, replay: ReplayConn, outcome: Outcome)
    modifies conn
    ensures fresh(replay) && replay.conn == conn
    ensures var p := Peek(old(conn.unread));
            sni == p.Sni() && replay.buf == p.raw && conn.unread == p.rest && outcome == p.outcome
  {
    hide TakeRecord, Enough, ParseSNI;
    var raw: bytes, hs: bytes := [], [];
    var rec := 0;
    outcome := Clean;
    while rec < MAX_RECORDS
      invariant rec <= MAX_RECORDS && outcome == Clean
      invariant PeekFrom(conn.unread, raw, hs, rec) == Peek(old(conn.unread))
    {
      var t := ReadRecord(conn);
      match t {
        case NoHeader =>
          outcome := ReadFailed;
          break;
        case Foreign(hdr, _) =>
          raw := raw + hdr;
          outcome := if rec == 0 then NotHandshake else Clean;
          break;
        case Empty(hdr, _) =>
          raw := raw + hdr;
          outcome := BadLength;
          break;
        case NoBody(hdr, _) =>
          raw := raw + hdr;
          outcome := ReadFailed;
          break;
        case Record(bytes, body, _) =>
          raw := raw + bytes;
          hs := hs + body;
          if Enough(hs) {
            break;
          }
      }
      rec := rec + 1;
    }
    assert Peek(old(conn.unread)) == Peeked(hs, raw, conn.unread, outcome);
    sni := Parse(hs);
    replay := new ReplayConn(conn, raw);
  }

  // ----- replay loses nothing, unless a read was cut short -----

  /** The stream ends after some but not all of the bytes of a read the peek waits for. */
  predicate CutInsideRead(stream: bytes, hs: bytes, rec: nat)
    decreases MAX_RECORDS - rec
  {
    rec < MAX_RECORDS &&
    match TakeRecord(stream)
    case NoHeader => stream != []
    case NoBody(_, partial) => partial != []
    case Record(_, body, after) => !Enough(hs + body) && CutInsideRead(after, hs + body, rec + 1)
    case _ => false
  }

  lemma {:induction false} ReplayFrom(stream: bytes, raw: bytes, hs: bytes, rec: nat)
    ensures var p := PeekFrom(stream, raw, hs, rec);
            if CutInsideRead(stream, hs, rec) then
              p.outcome == ReadFailed && |p.raw| + |p.rest| < |raw| + |stream|
            else p.raw + p.rest == raw + stream
    decreases MAX_RECORDS - rec
  {
    hide TakeRecord, Enough;
    if rec < MAX_RECORDS {
      match TakeRecord(stream)
      case NoHeader =>
      case Foreign(hdr, after) => assert (raw + hdr) + after == raw + (hdr + after);
      case Empty(hdr, after) => assert (raw + hdr) + after == raw + (hdr + after);
      case NoBody(hdr, partial) => assert (raw + hdr) + partial == raw + (hdr + partial);
      case Record(bytes, body, after) =>
        assert (raw + bytes) + after == raw + (bytes + after);
        if !Enough(hs + body) {
          ReplayFrom(after, raw + bytes, hs + body, rec + 1);
        }
    }
  }

  /** Replaying is exact precisely when no read was cut short: the bytes of a partial header or
      body are the only ones the program drops. In particular it is exact on every return where no
      read failed. */
  lemma ReplayIsExact(stream: bytes)
    ensures Peek(stream).raw + Peek(stream).rest == stream <==> !CutInsideRead(stream, [], 0)
    ensures Peek(stream).outcome != ReadFailed ==> Peek(stream).raw + Peek(stream).rest == stream
  {
    hide TakeRecord, PeekFrom, CutInsideRead;
    ReplayFrom(stream, [], [], 0);
    assert [] + stream == stream;
  }

  /** The loss is real: a lone record type byte vanishes. */
  lemma PartialHeaderIsDropped()
    ensures Peek([0x16]).raw + Peek([0x16]).rest == []
  {
  }

  // ----- fragmentation does not matter -----

  /** One handshake record. */
  datatype Fragment = Fragment(version: bytes, body: bytes)

  predicate ValidFragment(f: Fragment) {
    |f.version| == 2 && 0 < |f.body| < 65536
  }

  function EncodeRecord(f: Fragment): bytes
    requires ValidFragment(f)
  {
    [0x16] + f.version + PutU16(|f.body|) + f.body
  }

  function EncodeRecords(fs: seq<Fragment>): bytes
    requires forall f | f in fs :: ValidFragment(f)
  {
    if fs == [] then [] else EncodeRecord(fs[0]) + EncodeRecords(fs[1..])
  }

  function Content(fs: seq<Fragment>): bytes {
    if fs == [] then [] else fs[0].body + Content(fs[1..])
  }

  lemma TakeOneRecord(f: Fragment, stream: bytes)
    requires ValidFragment(f)
    ensures TakeRecord(EncodeRecord(f) + stream) == Record(EncodeRecord(f), f.body, stream)
  {
    var b := EncodeRecord(f) + stream;
    var hdr := [0x16] + f.version + PutU16(|f.body|);
    assert b[..5] == hdr && b[5..] == f.body + stream;
    assert hdr[3..] == PutU16(|f.body|);
    assert (f.body + stream)[..|f.body|] == f.body && (f.body + stream)[|f.body|..] == stream;
  }

  /** One record is consumed and its body added to the handshake bytes. */
  lemma PeekOneRecord(f: Fragment, stream: bytes, raw: bytes, hs: bytes, rec: nat)
    requires ValidFragment(f) && rec < MAX_RECORDS
    ensures PeekFrom(EncodeRecord(f) + stream, raw, hs, rec) ==
            if Enough(hs + f.body) then Peeked(hs + f.body, raw + EncodeRecord(f), stream, Clean)
            else PeekFrom(stream, raw + EncodeRecord(f), hs + f.body, rec + 1)
  {
    TakeOneRecord(f, stream);
  }

  /** A proper prefix of a message is not enough of it. */
  lemma NotEnoughYet(hs: bytes, rest: bytes)
    requires rest != [] && 4 <= |hs + rest| <= MAX_HANDSHAKE
    requires MessageLength(hs + rest) == |hs + rest|
    ensures !Enough(hs)
  {
    assert |hs| >= 4 ==> MessageLength(hs) == MessageLength(hs + rest);
  }

  lemma {:induction false} PeekReassembles(p: Peeked, fs: seq<Fragment>, tail: bytes, raw: bytes, hs: bytes, rec: nat)
    requires fs != [] && (forall f | f in fs :: ValidFragment(f)) && rec + |fs| <= MAX_RECORDS
    requires 4 <= |hs + Content(fs)| <= MAX_HANDSHAKE
    requires MessageLength(hs + Content(fs)) == |hs + Content(fs)|
    requires p == PeekFrom(EncodeRecords(fs) + tail, raw, hs, rec)
    ensures p == Peeked(hs + Content(fs), raw + EncodeRecords(fs), tail, Clean)
    decreases |fs|
  {
    hide PeekFrom, EncodeRecord, PutU16;
    var f, more := fs[0], fs[1..];
    var stream := EncodeRecords(more) + tail;
    var raw', hs' := raw + EncodeRecord(f), hs + f.body;
    ConcatAssoc(EncodeRecord(f), EncodeRecords(more), tail);
    ConcatAssoc(hs, f.body, Content(more));
    ConcatAssoc(raw, EncodeRecord(f), EncodeRecords(more));
    PeekOneRecord(f, stream, raw, hs, rec);
    if more == [] {
      assert stream == tail && hs' + Content(more) == hs' && raw' + EncodeRecords(more) == raw';
      assert Enough(hs');
    } else {
      assert ValidFragment(more[0]) by { assert more[0] in fs; }
      NotEnoughYet(hs', Content(more));
      PeekReassembles(p, more, tail, raw', hs', rec + 1);
    }
  }

  lemma NothingInNoRecords(fs: seq<Fragment>)
    ensures fs == [] ==> Content(fs) == []
  {
  }

  lemma PeekOfFragments(hello: bytes, fs: seq<Fragment>, tail: bytes)
    requires (forall f | f in fs :: ValidFragment(f)) && |fs| <= MAX_RECORDS && Content(fs) == hello
    requires 4 <= |hello| <= MAX_HANDSHAKE && MessageLength(hello) == |hello|
    ensures Peek(EncodeRecords(fs) + tail) == Peeked(hello, EncodeRecords(fs), tail, Clean)
  {
    hide PeekFrom, EncodeRecords, ParseSNI, MessageLength, ValidFragment, Content, TakeRecord, Enough, U16;
    NothingInNoRecords(fs);
    assert [] + Content(fs) == hello;
    PeekReassembles(Peek(EncodeRecords(fs) + tail), fs, tail, [], [], 0);
    assert [] + EncodeRecords(fs) == EncodeRecords(fs);
  }

  /** Bytes 1 to 3 of a message are the length of what follows them. */
  lemma LengthIsStated(hs: bytes)
    requires |hs| >= 4
    ensures MessageLength(hs) == 4 + BigEndian(hs[1..4])
  {
    var b := hs[1..4];
    assert b[..2][..1] == b[..1] && b[..1][..0] == [];
    assert BigEndian(b[..1]) == b[0] && BigEndian(b[..2]) == BigEndian(b[..1]) * 256 + b[1];
  }

  /** However a ClientHello of at most 65536 bytes that states its length is cut into at most eight
      non-empty records, the peek reads exactly those records, reports the name in the whole message, and
      leaves the rest of the stream for later. */
  lemma FragmentationDoesNotMatter(hello: bytes, fs: seq<Fragment>, tail: bytes)
    requires (forall f | f in fs :: ValidFragment(f)) && |fs| <= 8 && Content(fs) == hello
    requires 4 <= |hello| <= 65536 && hello[1..4] == PutBigEndian(|hello| - 4, 3)
    ensures Peek(EncodeRecords(fs) + tail) == Peeked(hello, EncodeRecords(fs), tail, Clean)
    ensures Peek(EncodeRecords(fs) + tail).Sni() == ParseSNI(hello)
  {
    hide PeekFrom, EncodeRecords, ParseSNI, MessageLength, ValidFragment, Content, BigEndian, PutBigEndian;
    LengthIsStated(hello);
    assert |hello| - 4 < Pow256(3) by { assert Pow256(2) == 65536; }
    BigEndianInverts(|hello| - 4, 3);
    PeekOfFragments(hello, fs, tail);
  }

  /** End to end: a well-formed ClientHello that states its length, so cut, is read in full, its host name
      is reported, and nothing of what follows is touched. */
  lemma HelloIsPeeked(h: Hello, fs: seq<Fragment>, tail: bytes)
    requires ValidHello(h) && |EncodeHello(h)| <= 65536
    requires h.lengthField == PutBigEndian(|EncodeHello(h)| - 4, 3)
    requires (forall f | f in fs :: ValidFragment(f)) && |fs| <= 8 && Content(fs) == EncodeHello(h)
    ensures
      var p := Peek(EncodeRecords(fs) + tail);
      p.outcome == Clean && p.raw == EncodeRecords(fs) && p.rest == tail && p.Sni() == HostNameOf(h.extensions)
  {
    hide Peek, EncodeRecords, ParseSNI, Content, ValidFragment, EncodeAfterRandom, EncodeExtensions,
      PutBigEndian, HostNameOf;
    var hello := EncodeHello(h);
    assert |hello| >= 38 by { EncodedFront(h); }
    assert hello[1..4] == h.lengthField by { LengthFieldAt(h); }
    FragmentationDoesNotMatter(hello, fs, tail);
    ParsesWhatWasWritten(h, []);
    assert hello + [] == hello;
  }

  lemma LengthFieldAt(h: Hello)
    requires ValidHello(h)
    ensures |EncodeHello(h)| >= 4 && EncodeHello(h)[1..4] == h.lengthField
  {
    hide EncodeAfterRandom, EncodeExtensions, ValidExtension;
    var rest := h.versionAndRandom + EncodeAfterRandom(h);
    assert EncodeHello(h) == [0x01] + h.lengthField + rest;
  }

  // ----- what every peek reads -----

  /** The message so far is as long as it states, or too long to go on. */
  predicate Complete(hs: bytes) {
    |hs| >= 4 && (|hs| >= 4 + BigEndian(hs[1..4]) || |hs| >= 65536)
  }

  lemma CompleteIsEnough(hs: bytes)
    ensures Complete(hs) <==> Enough(hs)
  {
    hide BigEndian, MessageLength;
    if |hs| >= 4 {
      LengthIsStated(hs);
    }
  }

  /** How a peek ends on what follows the records it read, when their content is not complete: at a read
      that fails, a record of another type, or an empty record. */
  predicate StopsAt(after: bytes, first: bool, raw: bytes, p: Peeked) {
    if |after| < 5 then p.outcome == ReadFailed && p.raw == raw && p.rest == []
    else if after[0] != 22 then
      p.outcome == (if first then NotHandshake else Clean) && p.raw == raw + after[..5] && p.rest == after[5..]
    else if after[3..5] == [0, 0] then
      p.outcome == BadLength && p.raw == raw + after[..5] && p.rest == after[5..]
    else
      && |after| - 5 < (after[3] as int) * 256 + after[4]
      && p.outcome == ReadFailed && p.raw == raw + after[..5] && p.rest == []
  }

  /** The records `fs`, read after `rec` others with content `hs`, are all that `p` has read of `stream`:
      none before them completed the message, and at most eight are read in all. */
  ghost predicate ReadsExactly(stream: bytes, raw: bytes, hs: bytes, rec: nat, fs: seq<Fragment>, p: Peeked) {
    && (forall f | f in fs :: ValidFragment(f)) && rec + |fs| <= 8
    && EncodeRecords(fs) <= stream && p.hs == hs + Content(fs)
    && (forall k | 0 < k < |fs| :: !Complete(hs + Content(fs[..k])))
    && var after := stream[|EncodeRecords(fs)|..];
       if (fs != [] && Complete(p.hs)) || rec + |fs| == 8
       then p.outcome == Clean && p.raw == raw + EncodeRecords(fs) && p.rest == after
       else StopsAt(after, rec == 0 && fs == [], raw + EncodeRecords(fs), p)
  }

  lemma {:induction false} RecordsFrom(stream: bytes, raw: bytes, hs: bytes, rec: nat) returns (fs: seq<Fragment>)
    requires rec <= 8
    ensures ReadsExactly(stream, raw, hs, rec, fs, PeekFrom(stream, raw, hs, rec))
    decreases 8 - rec
  {
    var p := PeekFrom(stream, raw, hs, rec);
    if rec < 8 && TakeRecord(stream).Record? {
      var t := TakeRecord(stream);
      var f := Fragment(stream[1..3], t.body);
      TakenIsRecord(stream);
      CompleteIsEnough(hs + t.body);
      if Enough(hs + t.body) {
        fs := [f];
        OneRecord(stream, raw, hs, rec, f, t.after, p);
      } else {
        var more := RecordsFrom(t.after, raw + t.bytes, hs + t.body, rec + 1);
        fs := [f] + more;
        OneMoreRecord(stream, raw, hs, rec, f, t.after, more, p);
      }
    } else {
      fs := [];
      NoRecord(stream, raw, hs, rec, p);
    }
  }

  lemma TakenIsRecord(stream: bytes)
    requires TakeRecord(stream).Record?
    ensures
      var t := TakeRecord(stream);
      var f := Fragment(stream[1..3], t.body);
      ValidFragment(f) && t.bytes == EncodeRecord(f) && stream == EncodeRecord(f) + t.after
  {
    var n := U16(stream[3..5]);
    assert stream[..5][3..] == stream[3..5];
    assert PutU16(n) == stream[3..5];
    assert stream[..5] == [stream[0]] + stream[1..3] + stream[3..5];
  }

  lemma NoRecord(stream: bytes, raw: bytes, hs: bytes, rec: nat, p: Peeked)
    requires rec <= 8 && (rec < 8 ==> !TakeRecord(stream).Record?) && p == PeekFrom(stream, raw, hs, rec)
    ensures ReadsExactly(stream, raw, hs, rec, [], p)
  {
    hide Enough, Complete;
    assert hs + [] == hs && raw + [] == raw && stream[0..] == stream;
    if |stream| >= 5 {
      assert stream[..5][3..] == stream[3..5];
    }
  }

  lemma OneRecord(stream: bytes, raw: bytes, hs: bytes, rec: nat, f: Fragment, after: bytes, p: Peeked)
    requires rec < 8 && ValidFragment(f) && stream == EncodeRecord(f) + after && Complete(hs + f.body)
    requires p == Peeked(hs + f.body, raw + EncodeRecord(f), after, Clean)
    ensures ReadsExactly(stream, raw, hs, rec, [f], p)
  {
    hide Complete, EncodeRecord, ValidFragment;
    SingleRecord(f);
    assert stream[|EncodeRecord(f)|..] == after;
  }

  lemma SingleRecord(f: Fragment)
    requires ValidFragment(f)
    ensures EncodeRecords([f]) == EncodeRecord(f) && Content([f]) == f.body
  {
    hide EncodeRecord;
    assert [f][1..] == [] && EncodeRecords([]) == [] && Content([]) == [];
    assert EncodeRecord(f) + [] == EncodeRecord(f) && f.body + [] == f.body;
  }

  lemma OneMoreRecord(stream: bytes, raw: bytes, hs: bytes, rec: nat, f: Fragment, after: bytes,
                      more: seq<Fragment>, p: Peeked)
    requires rec < 8 && ValidFragment(f) && stream == EncodeRecord(f) + after && !Complete(hs + f.body)
    requires ReadsExactly(after, raw + EncodeRecord(f), hs + f.body, rec + 1, more, p)
    ensures ReadsExactly(stream, raw, hs, rec, [f] + more, p)
  {
    hide Complete, EncodeRecord, ValidFragment, StopsAt;
    var fs := [f] + more;
    assert fs[1..] == more;
    assert forall x | x in fs :: ValidFragment(x);
    assert EncodeRecords(fs) == EncodeRecord(f) + EncodeRecords(more);
    assert Content(fs) == f.body + Content(more);
    ConcatAssoc(raw, EncodeRecord(f), EncodeRecords(more));
    ConcatAssoc(hs, f.body, Content(more));
    PrefixAfter(EncodeRecord(f), EncodeRecords(more), after);
    forall k | 0 < k < |fs| ensures !Complete(hs + Content(fs[..k])) {
      assert fs[..k][1..] == more[..k - 1];
      ConcatAssoc(hs, f.body, Content(more[..k - 1]));
      if k == 1 {
        assert Content(more[..0]) == [] && hs + f.body + [] == hs + f.body;
      }
    }
    if more == [] {
      assert Content(more) == [] && hs + f.body + [] == hs + f.body;
    }
  }

  lemma PrefixAfter(a: bytes, b: bytes, rest: bytes)
    requires b <= rest
    ensures a + b <= a + rest && (a + rest)[|a + b|..] == rest[|b|..]
  {
  }

  /** On every stream, the peek reads the handshake records at its front until their content is complete
      or eight are read, and otherwise stops at what follows them; it keeps for replay what it read, except
      the bytes of a failed read. */
  lemma PeekReadsRecords(stream: bytes) returns (fs: seq<Fragment>)
    ensures ReadsExactly(stream, [], [], 0, fs, Peek(stream))
  {
    hide PeekFrom, ReadsExactly;
    fs := RecordsFrom(stream, [], [], 0);
  }
}
