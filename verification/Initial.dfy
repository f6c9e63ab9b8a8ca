/** QUIC v1 Initial packets (`extractInitialCrypto` in `internal/quic/initial.go`): the header of
    section 17.2.2 of RFC 9000, and the header and packet protection of sections 5.3 and 5.4 of
    RFC 9001. The ciphers are parameters; all that is asked of them is `Lawful`. */
module Initial {
  import opened Wire
  import opened Varint
  import opened CryptoFrames

  // ----- the ciphers -----

  datatype Keys = Keys(key: bytes, iv: bytes, hp: bytes)

  /** Key derivation from the DCID, one AES block, and AES-GCM. */
  datatype Ciphers = Ciphers(
    derive: bytes -> Keys,
    block: (bytes, bytes) -> bytes,
    seal: (bytes, bytes, bytes, bytes) -> bytes,
    open: (bytes, bytes, bytes, bytes) -> Option<bytes>)

  /** Fixed output lengths, and opening undoes sealing. */
  ghost predicate Lawful(c: Ciphers) {
    && (forall dcid :: |c.derive(dcid).iv| == 12)
    && (forall key, sample :: |c.block(key, sample)| == 16)
    && (forall key, nonce, plain, ad :: |c.seal(key, nonce, plain, ad)| == |plain| + 16)
    && (forall key, nonce, plain, ad :: c.open(key, nonce, c.seal(key, nonce, plain, ad), ad) == Some(plain))
  }

  // ----- extraction as a function -----

  datatype Error =
    | NotLongHeader | NotInitial | UnsupportedVersion | TruncatedDcid | TruncatedScidLength
    | TruncatedAfterScid | BadTokenLength | TruncatedAfterToken | BadPayloadLength
    | TooShortForSample | CiphertextOutOfRange | DecryptFailed

  datatype Result<+T> = Ok(value: T) | Err(error: Error)

  /** The header fields extraction needs, and the bytes from the packet number on. */
  datatype Header = Header(dcid: bytes, payloadLen: nat, rest: bytes)

  /** The header after the version field. */
  function ParseIds(b: bytes): (r: Result<Header>)
    requires b != []
    ensures r.Ok? ==> |r.value.rest| < |b|
  {
    if |b| - 1 < b[0] then Err(TruncatedDcid) else
    var dcid, b1 := b[1..1 + b[0]], b[1 + b[0]..];
    if b1 == [] then Err(TruncatedScidLength) else
    if |b1| - 1 <= b1[0] then Err(TruncatedAfterScid) else
    ParseToken(dcid, b1[1 + b1[0]..])
  }

  /** The token and the payload length. */
  function ParseToken(dcid: bytes, b: bytes): (r: Result<Header>)
    ensures r.Ok? ==> |r.value.rest| < |b|
  {
    var token := ReadVarint(b);
    if token.n == 0 then Err(BadTokenLength) else
    if |b| <= token.n + token.value then Err(TruncatedAfterToken) else
    var b1 := b[token.n + token.value..];
    var len := ReadVarint(b1);
    if len.n == 0 then Err(BadPayloadLength)
    else Ok(Header(dcid, len.value, b1[len.n..]))
  }

  function ParseHeader(data: bytes): (r: Result<Header>)
    ensures r.Ok? ==> |data| >= 7 && |r.value.rest| < |data| - 5
  {
    if |data| < 7 || data[0] < 0x80 then Err(NotLongHeader)
    else if data[0] / 16 % 4 != 0 then Err(NotInitial)
    else if BigEndian(data[1..5]) != 0x00000001 then Err(UnsupportedVersion)
    else ParseIds(data[5..])
  }

  function XorWith(b: bytes, mask: bytes): (r: bytes)
    requires |b| <= |mask|
    ensures |r| == |b|
  {
    seq(|b|, i requires 0 <= i < |b| => Xor(b[i], mask[i]))
  }

  /** The IV with its last eight bytes masked by the packet number. */
  function Nonce(iv: bytes, pn: nat): (r: bytes)
    requires |iv| >= 8
    ensures |r| == |iv|
  {
    iv[..|iv| - 8] + XorWith(iv[|iv| - 8..], PutBigEndian(pn, 8))
  }

  /** A header with its mask removed: what precedes the packet number, and the number. */
  datatype Unmasked = Unmasked(hdr: bytes, pnBytes: bytes)

  /** Removes header protection from `hdr + rest`, `hdr` ending where the packet number starts,
      with a mask from a sample taken four bytes further on. */
  function Unmask(c: Ciphers, hp: bytes, hdr: bytes, rest: bytes): (u: Unmasked)
    requires Lawful(c) && hdr != [] && |rest| >= 20
    ensures 1 <= |u.pnBytes| <= 4
  {
    var mask := c.block(hp, rest[4..20]);
    var first := Xor(hdr[0], mask[0] % 16);
    Unmasked([first] + hdr[1..], XorWith(rest[..first % 4 + 1], mask[1..]))
  }

  /** Removes both protections. */
  function Unprotect(c: Ciphers, hdr: bytes, h: Header): Result<seq<Chunk>>
    requires Lawful(c) && hdr != []
  {
    if |h.rest| < 4 + 16 then Err(TooShortForSample) else
    var keys := c.derive(h.dcid);
    var u := Unmask(c, keys.hp, hdr, h.rest);
    if h.payloadLen > |h.rest| || |u.pnBytes| > h.payloadLen then Err(CiphertextOutOfRange)
    else OpenPayload(c, keys, u.hdr, u.pnBytes, h.rest[|u.pnBytes|..h.payloadLen])
  }

  /** The chunks of a payload sealed under an unmasked header and packet number. */
  function OpenPayload(c: Ciphers, keys: Keys, hdr: bytes, pnBytes: bytes, ciphertext: bytes): Result<seq<Chunk>>
    requires |keys.iv| >= 8
  {
    match c.open(keys.key, Nonce(keys.iv, BigEndian(pnBytes)), ciphertext, hdr + pnBytes)
    case None => Err(DecryptFailed)
    case Some(plain) => Ok(Chunks(plain))
  }

  function ExtractInitial(c: Ciphers, data: bytes): Result<seq<Chunk>>
    requires Lawful(c)
  {
    match ParseHeader(data)
    case Err(e) => Err(e)
    case Ok(h) => Unprotect(c, data[..|data| - |h.rest|], h)
  }

  // ----- extraction as it runs -----

  /** Walks `pos` over the header. */
  method ReadHeader(data: bytes) returns (r: Result<(bytes, nat, nat)>)
    ensures r.Err? ==> ParseHeader(data) == Err(r.error)
    ensures r.Ok? ==> 0 < r.value.1 <= |data|
                      && ParseHeader(data) == Ok(Header(r.value.0, r.value.2, data[r.value.1..]))
  {
    if |data| < 7 || data[0] < 0x80 {
      return Err(NotLongHeader);
    }
    if data[0] / 16 % 4 != 0 {
      return Err(NotInitial);
    }
    var version := BigEndian(data[1..5]);
    if version != 0x00000001 {
      return Err(UnsupportedVersion);
    }
    r := ReadIds(data, 5);
  }

  method ReadIds(data: bytes, start: nat) returns (r: Result<(bytes, nat, nat)>)
    requires start < |data|
    ensures r.Err? ==> ParseIds(data[start..]) == Err(r.error)
    ensures r.Ok? ==> start <= r.value.1 <= |data|
                      && ParseIds(data[start..]) == Ok(Header(r.value.0, r.value.2, data[r.value.1..]))
  {
    hide ParseToken, ReadVarint;
    var pos := start;
    var dcidLen: nat := data[pos];
    pos := pos + 1;
    if pos + dcidLen > |data| {
      return Err(TruncatedDcid);
    }
    var dcid := data[pos..pos + dcidLen];
    SliceOfDrop(data, start, 1, 1 + dcidLen);
    pos := pos + dcidLen;
    DropOfDrop(data, start, 1 + dcidLen);
    ghost var b1 := data[pos..];
    if pos >= |data| {
      return Err(TruncatedScidLength);
    }
    ghost var scidStart := pos;
    var scidLen: nat := data[pos];
    pos := pos + 1;
    pos := pos + scidLen;
    if pos >= |data| {
      return Err(TruncatedAfterScid);
    }
    DropOfDrop(data, scidStart, 1 + scidLen);
    r := ReadToken(data, pos, dcid);
  }

  method ReadToken(data: bytes, start: nat, dcid: bytes) returns (r: Result<(bytes, nat, nat)>)
    requires start < |data|
    ensures r.Err? ==> ParseToken(dcid, data[start..]) == Err(r.error)
    ensures r.Ok? ==> r.value.0 == dcid && start <= r.value.1 <= |data|
                      && ParseToken(dcid, data[start..]) == Ok(Header(dcid, r.value.2, data[r.value.1..]))
  {
    var pos := start;
    var token := Decode(data[pos..]);
    if token.n == 0 {
      return Err(BadTokenLength);
    }
    pos := pos + token.n + token.value;
    if pos >= |data| {
      return Err(TruncatedAfterToken);
    }
    DropOfDrop(data, start, token.n + token.value);
    var len := Decode(data[pos..]);
    if len.n == 0 {
      return Err(BadPayloadLength);
    }
    DropOfDrop(data, pos, len.n);
    return Ok((dcid, pos + len.n, len.value));
  }

  /** The two loops that unmask the packet number and read it. */
  method ReadPacketNumber(data: bytes, pnOffset: nat, pnLen: nat, mask: bytes)
    returns (pnBytes: bytes, pn: nat)
    requires pnOffset + pnLen <= |data| && pnLen + 1 <= |mask|
    ensures pnBytes == XorWith(data[pnOffset..][..pnLen], mask[1..])
    ensures pn == BigEndian(pnBytes)
  {
    hide Xor;
    pnBytes := [];
    for i := 0 to pnLen
      invariant |pnBytes| == i
      invariant forall k | 0 <= k < i :: pnBytes[k] == Xor(data[pnOffset + k], mask[1 + k])
    {
      pnBytes := pnBytes + [Xor(data[pnOffset + i], mask[1 + i])];
    }
    pn := 0;
    for i := 0 to |pnBytes|
      invariant pn == BigEndian(pnBytes[..i])
    {
      assert pnBytes[..i + 1][..i] == pnBytes[..i];
      pn := pn * 256 + pnBytes[i];
    }
    assert pnBytes[..|pnBytes|] == pnBytes;
  }

  /** The loop that masks the IV. */
  method BuildNonce(iv: bytes, pn: nat) returns (nonce: bytes)
    requires |iv| >= 8
    ensures nonce == Nonce(iv, pn)
  {
    nonce := iv;
    var pnFull := PutBigEndian(pn, 8);
    for i := 0 to 8
      invariant |nonce| == |iv|
      invariant forall j | 0 <= j < |iv| ::
        nonce[j] == (if |iv| - 8 <= j < |iv| - 8 + i then Xor(iv[j], pnFull[j - (|iv| - 8)]) else iv[j])
    {
      var at := |nonce| - 8 + i;
      nonce := nonce[at := Xor(nonce[at], pnFull[i])];
    }
  }

  /** The first half: the mask, the first byte and the packet number. */
  method UnmaskPacket(c: Ciphers, hp: bytes, data: bytes, pnOffset: nat)
    returns (hdr: bytes, pnBytes: bytes, pn: nat)
    requires Lawful(c) && 0 < pnOffset && pnOffset + 20 <= |data|
    ensures Unmasked(hdr, pnBytes) == Unmask(c, hp, data[..pnOffset], data[pnOffset..])
    ensures pn == BigEndian(pnBytes)
  {
    hide XorWith, Xor;
    var sample := data[pnOffset + 4..pnOffset + 4 + 16];
    SliceOfDrop(data, pnOffset, 4, 20);
    var mask := c.block(hp, sample);
    hdr := data[..pnOffset];
    hdr := hdr[0 := Xor(hdr[0], mask[0] % 16)];
    var pnLen := hdr[0] % 4 + 1;
    assert hdr == [hdr[0]] + data[..pnOffset][1..];
    pnBytes, pn := ReadPacketNumber(data, pnOffset, pnLen, mask);
  }

  /** The second half: the nonce, the ciphertext and its frames. */
  method UnprotectPacket(c: Ciphers, data: bytes, pnOffset: nat, dcid: bytes, payloadLen: nat)
    returns (r: Result<seq<Chunk>>)
    requires Lawful(c) && 0 < pnOffset <= |data|
    ensures r == Unprotect(c, data[..pnOffset], Header(dcid, payloadLen, data[pnOffset..]))
  {
    hide Unmask, Chunks, Nonce;
    if pnOffset + 4 + 16 > |data| {
      return Err(TooShortForSample);
    }
    var keys := c.derive(dcid);
    var hdr, pnBytes, pn := UnmaskPacket(c, keys.hp, data, pnOffset);
    var ctStart, ctEnd := pnOffset + |pnBytes|, pnOffset + payloadLen;
    if ctEnd > |data| || ctStart > ctEnd {
      return Err(CiphertextOutOfRange);
    }
    var ciphertext := data[ctStart..ctEnd];
    SliceOfDrop(data, pnOffset, |pnBytes|, payloadLen);
    var nonce := BuildNonce(keys.iv, pn);
    var plain := c.open(keys.key, nonce, ciphertext, hdr + pnBytes);
    if plain.None? {
      return Err(DecryptFailed);
    }
    var chunks := Extract(plain.value);
    return Ok(chunks);
  }

  method ExtractInitialCrypto(c: Ciphers, data: bytes) returns (r: Result<seq<Chunk>>)
    requires Lawful(c)
    ensures r == ExtractInitial(c, data)
  {
    var parsed := ReadHeader(data);
    if parsed.Err? {
      return Err(parsed.error);
    }
    var (dcid, pnOffset, payloadLen) := parsed.value;
    r := UnprotectPacket(c, data, pnOffset, dcid, payloadLen);
  }

  // ----- protection, and extraction as its inverse -----

  /** The fields of a client Initial. Connection IDs may have any length their length byte can
      state, varints any width that fits, and the packet number is sent in full. */
  datatype Packet = Packet(
    reserved: nat, dcid: bytes, scid: bytes, token: bytes, tokenWidth: nat,
    lengthWidth: nat, pn: bytes, payload: bytes)

  predicate ValidPacket(p: Packet) {
    && p.reserved < 4 && |p.dcid| < 256 && |p.scid| < 256
    && Fits(|p.token|, p.tokenWidth)
    && 1 <= |p.pn| <= 4
    && Fits(|p.pn| + |p.payload| + 16, p.lengthWidth)
    && |p.pn| + |p.payload| >= 4  // room for the header protection sample
  }

  function FirstByte(p: Packet): (b: byte)
    requires ValidPacket(p)
    ensures b / 16 == 12 && b % 4 + 1 == |p.pn|
  {
    0xC0 + 4 * p.reserved + (|p.pn| - 1)
  }

  /** The header between the version and the packet number. */
  function EncodeIds(p: Packet): bytes
    requires ValidPacket(p)
  {
    [|p.dcid|] + p.dcid + ([|p.scid|] + p.scid + EncodeToken(p))
  }

  function EncodeToken(p: Packet): bytes
    requires ValidPacket(p)
  {
    EncodeVarint(|p.token|, p.tokenWidth) + p.token
    + EncodeVarint(|p.pn| + |p.payload| + 16, p.lengthWidth)
  }

  /** Version 1 and everything up to the packet number. */
  function HeaderTail(p: Packet): bytes
    requires ValidPacket(p)
  {
    [0, 0, 0, 1] + EncodeIds(p)
  }

  function SealedPayload(c: Ciphers, p: Packet): (b: bytes)
    requires Lawful(c) && ValidPacket(p)
    ensures |b| == |p.payload| + 16
  {
    var keys := c.derive(p.dcid);
    c.seal(keys.key, Nonce(keys.iv, BigEndian(p.pn)), p.payload, [FirstByte(p)] + HeaderTail(p) + p.pn)
  }

  /** Five mask bytes from a sample taken four bytes past the packet number's offset. */
  function ProtectionMask(c: Ciphers, p: Packet): (mask: bytes)
    requires Lawful(c) && ValidPacket(p)
    ensures |mask| == 16
  {
    c.block(c.derive(p.dcid).hp, (p.pn + SealedPayload(c, p))[4..20])
  }

  function Protect(c: Ciphers, p: Packet): bytes
    requires Lawful(c) && ValidPacket(p)
  {
    var mask := ProtectionMask(c, p);
    [Xor(FirstByte(p), mask[0] % 16)] + HeaderTail(p)
    + XorWith(p.pn, mask[1..]) + SealedPayload(c, p)
  }

  lemma XorWithTwice(b: bytes, mask: bytes)
    requires |b| <= |mask|
    ensures XorWith(XorWith(b, mask), mask) == b
  {
    forall i | 0 <= i < |b| ensures Xor(Xor(b[i], mask[i]), mask[i]) == b[i] {
      XorTwice(b[i], mask[i]);
    }
  }

  lemma TokenReadsBack(p: Packet, rest: bytes)
    requires ValidPacket(p) && rest != []
    ensures ParseToken(p.dcid, EncodeToken(p) + rest) == Ok(Header(p.dcid, |p.pn| + |p.payload| + 16, rest))
  {
    hide ReadVarint, EncodeVarint, ParseToken;
    var tok := EncodeVarint(|p.token|, p.tokenWidth);
    var len := EncodeVarint(|p.pn| + |p.payload| + 16, p.lengthWidth);
    DecodeInvertsEncode(|p.token|, p.tokenWidth, p.token + len + rest);
    DecodeInvertsEncode(|p.pn| + |p.payload| + 16, p.lengthWidth, rest);
    TokenPartsReadBack(p.dcid, EncodeToken(p) + rest, tok, p.token, len, |p.pn| + |p.payload| + 16, rest);
  }

  lemma TokenPartsReadBack(dcid: bytes, b: bytes, tok: bytes, token: bytes, len: bytes, payloadLen: nat, rest: bytes)
    requires b == tok + token + len + rest
    requires tok != [] && len != []
    requires ReadVarint(tok + (token + len + rest)) == Read(|token|, |tok|)
    requires ReadVarint(len + rest) == Read(payloadLen, |len|)
    ensures ParseToken(dcid, b) == Ok(Header(dcid, payloadLen, rest))
  {
    hide ReadVarint;
    assert b == tok + (token + len + rest);
    assert b[|tok| + |token|..] == len + rest;
    assert (len + rest)[|len|..] == rest;
  }

  lemma IdsReadBack(p: Packet, rest: bytes)
    requires ValidPacket(p) && rest != []
    ensures ParseIds(EncodeIds(p) + rest) == Ok(Header(p.dcid, |p.pn| + |p.payload| + 16, rest))
  {
    var tail := EncodeToken(p) + rest;
    var b1 := [|p.scid|] + p.scid + tail;
    var b := EncodeIds(p) + rest;
    assert b == [|p.dcid|] + p.dcid + b1;
    assert b[1..1 + |p.dcid|] == p.dcid && b[1 + |p.dcid|..] == b1;
    assert b1[1 + |p.scid|..] == tail;
    TokenReadsBack(p, rest);
  }

  lemma VersionOne()
    ensures BigEndian([0, 0, 0, 1]) == 0x00000001
  {
    assert [0, 0, 0, 1][..3] == [0, 0, 0];
    assert [0, 0, 0][..2] == [0, 0];
    assert [0, 0][..1] == [0];
  }

  lemma HeaderReadsBack(first: byte, ids: bytes, rest: bytes)
    requires |ids| >= 2 && first / 16 == 12
    ensures ParseHeader([first] + ([0, 0, 0, 1] + ids) + rest) == ParseIds(ids + rest)
  {
    var data := [first] + ([0, 0, 0, 1] + ids) + rest;
    assert data[5..] == ids + rest;
    assert data[1..5] == [0, 0, 0, 1];
    VersionOne();
  }

  /** The sample lies past the longest packet number, so masking the number leaves it alone. */
  lemma SampleIsUnmasked(pn: bytes, masked: bytes, sealed: bytes, trailing: bytes)
    requires |pn| == |masked| <= 4 && |pn| + |sealed| >= 20
    ensures (masked + sealed + trailing)[4..20] == (pn + sealed)[4..20]
    ensures (masked + sealed + trailing)[..|pn|] == masked
    ensures (masked + sealed + trailing)[|pn|..|pn| + |sealed|] == sealed
  {
  }

  /** Removing both protections from the bytes after the header recovers the plaintext. */
  lemma UnprotectInverts(c: Ciphers, first: byte, tail: bytes, dcid: bytes, pn: bytes, plain: bytes, trailing: bytes)
    requires Lawful(c) && 1 <= |pn| <= 4 && |pn| + |plain| >= 4 && first % 4 + 1 == |pn|
    ensures
      var keys := c.derive(dcid);
      var sealed := c.seal(keys.key, Nonce(keys.iv, BigEndian(pn)), plain, [first] + tail + pn);
      var mask := c.block(keys.hp, (pn + sealed)[4..20]);
      var rest := XorWith(pn, mask[1..]) + sealed + trailing;
      Unprotect(c, [Xor(first, mask[0] % 16)] + tail, Header(dcid, |pn| + |plain| + 16, rest)) == Ok(Chunks(plain))
  {
    hide Xor, Nonce, XorWith, Chunks;
    var keys := c.derive(dcid);
    var sealed := c.seal(keys.key, Nonce(keys.iv, BigEndian(pn)), plain, [first] + tail + pn);
    var mask := c.block(keys.hp, (pn + sealed)[4..20]);
    var masked := XorWith(pn, mask[1..]);
    var rest := masked + sealed + trailing;
    var hdr := [Xor(first, mask[0] % 16)] + tail;
    SampleIsUnmasked(pn, masked, sealed, trailing);
    XorTwice(first, mask[0] % 16);
    XorWithTwice(pn, mask[1..]);
    assert hdr[1..] == tail;
  }

  /** Extraction inverts protection: every well-formed Initial, whatever datagram bytes are
      coalesced after it, yields exactly the chunks of its payload. */
  lemma ExtractInvertsProtect(c: Ciphers, p: Packet, trailing: bytes)
    requires Lawful(c) && ValidPacket(p)
    ensures ExtractInitial(c, Protect(c, p) + trailing) == Ok(Chunks(p.payload))
  {
    hide ParseHeader, ParseIds, Unprotect, EncodeToken, Chunks, Nonce, Lawful;
    var mask := ProtectionMask(c, p);
    var first := Xor(FirstByte(p), mask[0] % 16);
    var hdr := [first] + HeaderTail(p);
    var rest := XorWith(p.pn, mask[1..]) + SealedPayload(c, p) + trailing;
    var data := Protect(c, p) + trailing;
    assert data == hdr + rest && data[..|data| - |rest|] == hdr;
    XorKeepsHighNibble(FirstByte(p), mask[0] % 16);
    HeaderReadsBack(first, EncodeIds(p), rest);
    IdsReadBack(p, rest);
    UnprotectInverts(c, FirstByte(p), HeaderTail(p), p.dcid, p.pn, p.payload, trailing);
  }

  /** The same, from the frames the client put in: exactly their CRYPTO chunks come out. */
  lemma ExtractRecoversFrames(c: Ciphers, p: Packet, frames: seq<Frame>, trailing: bytes)
    requires Lawful(c) && ValidPacket(p)
    requires forall f | f in frames :: ValidFrame(f)
    requires p.payload == EncodeFrames(frames)
    ensures ExtractInitial(c, Protect(c, p) + trailing) == Ok(ChunksOf(frames))
  {
    hide ExtractInitial, Protect, ValidPacket, ValidFrame;
    ExtractInvertsProtect(c, p, trailing);
    ExtractInvertsEncode(frames, []);
    assert EncodeFrames(frames) + [] == EncodeFrames(frames);
    assert Chunks([]) == [] && ChunksOf(frames) + [] == ChunksOf(frames);
  }
}
