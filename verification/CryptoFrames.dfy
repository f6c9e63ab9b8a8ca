/** CRYPTO frames, section 19.6 of RFC 9000 (`cryptoFrames` in `internal/quic/initial.go`). */
module CryptoFrames {
  import opened Wire
  import opened Varint

  /** A run of handshake bytes and its offset in the handshake stream. */
  datatype Chunk = Chunk(off: nat, data: bytes) {
    function End(): nat { off + |data| }
  }

  /** The CRYPTO frame whose type byte has just been consumed: the chunk and what follows it. */
  function TakeCrypto(b: bytes): Option<(Chunk, bytes)> {
    var off := ReadVarint(b);
    if off.n == 0 then None else
    var len := ReadVarint(b[off.n..]);
    if len.n == 0 then None else
    var body := b[off.n..][len.n..];
    if len.value > |body| then None
    else Some((Chunk(off.value, body[..len.value]), body[len.value..]))
  }

  /** What the frame at the front of a payload yields: nothing more, or some chunks and a rest. */
  datatype Step = Stop | Go(found: seq<Chunk>, rest: bytes)

  function HeadFrame(frames: bytes): (r: Step)
    requires frames != []
    ensures r.Go? ==> |r.rest| < |frames|
  {
    if frames[0] == 0x06 then
      match TakeCrypto(frames[1..])
      case None => Stop
      case Some(t) => Go([t.0], t.1)
    else if frames[0] == 0x00 || frames[0] == 0x01 then Go([], frames[1..])
    else Stop
  }

  /** The chunks of a decrypted payload, up to the first frame that is neither PADDING, PING
      nor a complete CRYPTO frame. */
  function Chunks(frames: bytes): (cs: seq<Chunk>)
    decreases |frames|
  {
    if frames == [] then [] else
    match HeadFrame(frames)
    case Stop => []
    case Go(found, rest) => found + Chunks(rest)
  }

  /** Reads the CRYPTO frame whose fields start at `start`; `next` is the position after it. */
  method ReadCrypto(frames: bytes, start: nat) returns (c: Option<Chunk>, next: nat)
    requires start <= |frames|
    ensures next <= |frames|
    ensures c.Some? ==> TakeCrypto(frames[start..]) == Some((c.value, frames[next..])) && start < next
    ensures c.None? ==> TakeCrypto(frames[start..]).None?
  {
    var i := start;
    var off := Decode(frames[i..]);
    if off.n == 0 {
      return None, i;
    }
    i := i + off.n;
    assert frames[start..][off.n..] == frames[i..];
    var len := Decode(frames[i..]);
    if len.n == 0 {
      return None, i;
    }
    i := i + len.n;
    assert frames[start..][off.n..][len.n..] == frames[i..];
    if i + len.value > |frames| {
      return None, i;
    }
    next := i + len.value;
    assert frames[i..][..len.value] == frames[i..next] && frames[i..][len.value..] == frames[next..];
    c := Some(Chunk(off.value, frames[i..next]));
  }

  /** One turn of the scan: the chunk of the frame at `i` if it has one, the position after the
      frame, and whether the scan ends here. */
  method ReadFrame(frames: bytes, i: nat) returns (found: seq<Chunk>, next: nat, stop: bool)
    requires i < |frames|
    ensures !stop ==> i < next <= |frames|
    ensures HeadFrame(frames[i..]) == if stop then Stop else Go(found, frames[next..])
  {
    var ft := frames[i];
    found, next, stop := [], i + 1, false;
    assert frames[i..][1..] == frames[i + 1..];
    if ft == 0x06 {
      var c, after := ReadCrypto(frames, i + 1);
      if c.None? {
        stop := true;
      } else {
        found, next := [c.value], after;
      }
    } else if ft != 0x00 && ft != 0x01 {
      stop := true;
    }
  }

  /** The scan with a moving position. */
  method Extract(frames: bytes) returns (chunks: seq<Chunk>)
    ensures chunks == Chunks(frames)
  {
    hide HeadFrame;
    chunks := [];
    var i := 0;
    assert frames[0..] == frames;
    while i < |frames|
      invariant i <= |frames|
      invariant chunks + Chunks(frames[i..]) == Chunks(frames)
    {
      var found, next, stop := ReadFrame(frames, i);
      if stop {
        return;
      }
      assert (chunks + found) + Chunks(frames[next..]) == chunks + (found + Chunks(frames[next..]));
      chunks, i := chunks + found, next;
    }
  }

  // ----- the frames a client writes -----

  datatype Frame =
    | Padding
    | Ping
    | Crypto(chunk: Chunk, offWidth: nat, lenWidth: nat)

  predicate ValidFrame(f: Frame) {
    f.Crypto? ==> Fits(f.chunk.off, f.offWidth) && Fits(|f.chunk.data|, f.lenWidth)
  }

  function EncodeFrame(f: Frame): bytes
    requires ValidFrame(f)
  {
    match f
    case Padding => [0x00]
    case Ping => [0x01]
    case Crypto(c, ow, lw) => [0x06] + (EncodeVarint(c.off, ow) + (EncodeVarint(|c.data|, lw) + c.data))
  }

  function EncodeFrames(fs: seq<Frame>): bytes
    requires forall f | f in fs :: ValidFrame(f)
  {
    if fs == [] then [] else EncodeFrame(fs[0]) + EncodeFrames(fs[1..])
  }

  /** The chunks that the CRYPTO frames among `fs` carry, in order. */
  function ChunksOf(fs: seq<Frame>): seq<Chunk> {
    if fs == [] then []
    else (if fs[0].Crypto? then [fs[0].chunk] else []) + ChunksOf(fs[1..])
  }

  lemma TakeCryptoReadsBack(f: Frame, rest: bytes)
    requires f.Crypto? && ValidFrame(f)
    ensures TakeCrypto((EncodeFrame(f) + rest)[1..]) == Some((f.chunk, rest))
  {
    var c := f.chunk;
    var off, len := EncodeVarint(c.off, f.offWidth), EncodeVarint(|c.data|, f.lenWidth);
    DecodeInvertsEncode(c.off, f.offWidth, len + (c.data + rest));
    DecodeInvertsEncode(|c.data|, f.lenWidth, c.data + rest);
    Regroup(0x06, off, len, c.data, rest);
    CryptoPartsReadBack(off, c.off, len, c.data, rest);
  }

  lemma Regroup(t: byte, a: bytes, b: bytes, c: bytes, d: bytes)
    ensures ([t] + (a + (b + c)) + d)[1..] == a + (b + (c + d))
  {
  }

  lemma CryptoPartsReadBack(off: bytes, offset: nat, len: bytes, data: bytes, rest: bytes)
    requires off != [] && len != []
    requires ReadVarint(off + (len + (data + rest))) == Read(offset, |off|)
    requires ReadVarint(len + (data + rest)) == Read(|data|, |len|)
    ensures TakeCrypto(off + (len + (data + rest))) == Some((Chunk(offset, data), rest))
  {
    var body := data + rest;
    assert (off + (len + body))[|off|..] == len + body;
    assert (len + body)[|len|..] == body;
    assert body[..|data|] == data && body[|data|..] == rest;
  }

  lemma FrameReadsBack(f: Frame, rest: bytes)
    requires ValidFrame(f)
    ensures Chunks(EncodeFrame(f) + rest) == ChunksOf([f]) + Chunks(rest)
  {
    var b := EncodeFrame(f) + rest;
    if f.Crypto? {
      TakeCryptoReadsBack(f, rest);
      assert ChunksOf([f]) == [f.chunk];
    } else {
      assert b[1..] == rest;
      assert ChunksOf([f]) == [];
    }
  }

  /** Extracting undoes writing, frame after frame, whatever follows. */
  lemma {:induction false} ExtractInvertsEncode(fs: seq<Frame>, rest: bytes)
    requires forall f | f in fs :: ValidFrame(f)
    ensures Chunks(EncodeFrames(fs) + rest) == ChunksOf(fs) + Chunks(rest)
  {
    if fs == [] {
      assert EncodeFrames(fs) + rest == rest;
    } else {
      var tail := EncodeFrames(fs[1..]) + rest;
      FrameReadsBack(fs[0], tail);
      ExtractInvertsEncode(fs[1..], rest);
      assert EncodeFrames(fs) + rest == EncodeFrame(fs[0]) + tail;
      ChunksOfSplit(fs, Chunks(rest));
    }
  }

  lemma ChunksOfSplit(fs: seq<Frame>, more: seq<Chunk>)
    requires fs != []
    ensures ChunksOf(fs) + more == ChunksOf([fs[0]]) + (ChunksOf(fs[1..]) + more)
  {
    assert ChunksOf([fs[0]][1..]) == [];
  }

  /** No extracted offset or end reaches 2^63: the program's uint64 sums are exact. */
  lemma {:induction false} ExtractedOffsetsFit(frames: bytes)
    ensures forall c | c in Chunks(frames) :: c.off < 0x4000_0000_0000_0000 && |c.data| <= |frames|
    decreases |frames|
  {
    if frames == [] {
    } else if frames[0] == 0x00 || frames[0] == 0x01 {
      ExtractedOffsetsFit(frames[1..]);
    } else if frames[0] == 0x06 && TakeCrypto(frames[1..]).Some? {
      DecodedFits(frames[1..]);
      ExtractedOffsetsFit(TakeCrypto(frames[1..]).value.1);
    }
  }

  // ----- extraction reads nothing else -----

  /** `b` begins with a CRYPTO frame, at whatever widths. */
  ghost predicate BeginsWithCrypto(b: bytes) {
    exists f, more :: IsFrontFrame(b, f, more)
  }

  ghost predicate IsFrontFrame(b: bytes, f: Frame, more: bytes) {
    f.Crypto? && ValidFrame(f) && b == EncodeFrame(f) + more
  }

  /** No frame is read here: an unknown type, or a CRYPTO frame that is cut short. */
  ghost predicate Unreadable(b: bytes) {
    b != [] && b[0] != 0 && b[0] != 1 && !BeginsWithCrypto(b)
  }

  lemma TakenIsEncoded(b: bytes) returns (f: Frame)
    requires b != [] && b[0] == 0x06 && TakeCrypto(b[1..]).Some?
    ensures f.Crypto? && ValidFrame(f) && f.chunk == TakeCrypto(b[1..]).value.0
    ensures b == EncodeFrame(f) + TakeCrypto(b[1..]).value.1
  {
    hide EncodeVarint, ReadVarint, Fits;
    var t := b[1..];
    var off := ReadVarint(t);
    var t1 := t[off.n..];
    var len := ReadVarint(t1);
    var body := t1[len.n..];
    var data, rest := body[..len.value], body[len.value..];
    VarintFront(t);
    VarintFront(t1);
    f := Crypto(Chunk(off.value, data), off.n, len.n);
    assert body == data + rest;
    Assemble(b, EncodeVarint(off.value, off.n), EncodeVarint(len.value, len.n), data, rest);
  }

  lemma VarintFront(b: bytes)
    requires ReadVarint(b).n > 0
    ensures
      var v := ReadVarint(b);
      Fits(v.value, v.n) && b == EncodeVarint(v.value, v.n) + b[v.n..]
  {
    hide EncodeVarint, ReadVarint, Fits;
    EncodeInvertsDecode(b);
    assert b == b[..ReadVarint(b).n] + b[ReadVarint(b).n..];
  }

  lemma Assemble(b: bytes, off: bytes, len: bytes, data: bytes, rest: bytes)
    requires b != [] && b[1..] == off + (len + (data + rest))
    ensures b == [b[0]] + (off + (len + data)) + rest
  {
    assert b == [b[0]] + b[1..];
  }

  lemma StopIsUnreadable(b: bytes)
    requires b != [] && HeadFrame(b).Stop?
    ensures Unreadable(b)
  {
    hide TakeCrypto;
    forall f, more ensures !IsFrontFrame(b, f, more) {
      if IsFrontFrame(b, f, more) {
        TakeCryptoReadsBack(f, more);
      }
    }
  }

  /** Every payload is a sequence of PADDING, PING and CRYPTO frames followed by nothing or by what is not
      such a frame, and exactly the chunks of those frames are extracted. */
  lemma {:induction false} ExtractIsDecoding(b: bytes) returns (fs: seq<Frame>, rest: bytes)
    ensures (forall f | f in fs :: ValidFrame(f)) && b == EncodeFrames(fs) + rest
    ensures Chunks(b) == ChunksOf(fs) && (rest == [] || Unreadable(rest))
    decreases |b|
  {
    hide TakeCrypto, Unreadable;
    if b == [] {
      fs, rest := [], [];
    } else if HeadFrame(b).Stop? {
      fs, rest := [], b;
      StopIsUnreadable(b);
    } else {
      var f := if b[0] == 0x00 then Padding else Ping;
      if b[0] == 0x06 {
        f := TakenIsEncoded(b);
      }
      var more := HeadFrame(b).rest;
      assert b == EncodeFrame(f) + more;
      fs, rest := ExtractIsDecoding(more);
      ChunksOfCons(f, fs);
      ConcatAssoc(EncodeFrame(f), EncodeFrames(fs), rest);
      fs := [f] + fs;
    }
  }

  lemma ChunksOfCons(f: Frame, fs: seq<Frame>)
    ensures ChunksOf([f] + fs) == (if f.Crypto? then [f.chunk] else []) + ChunksOf(fs)
    ensures (forall x | x in [f] + fs :: ValidFrame(x)) ==>
              EncodeFrames([f] + fs) == EncodeFrame(f) + EncodeFrames(fs)
  {
    hide EncodeFrame;
    assert ([f] + fs)[1..] == fs;
    assert (forall x | x in [f] + fs :: ValidFrame(x)) ==> forall x | x in fs :: ValidFrame(x) by {
      assert forall x | x in fs :: x in [f] + fs;
    }
  }
}
