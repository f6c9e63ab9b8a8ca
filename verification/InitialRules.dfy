/** Which datagrams are taken for QUIC v1 Initials, and how their nonce is made (`extractInitialCrypto` in
    `internal/quic/initial.go`; section 17.2.2 of RFC 9000, section 5.3 of RFC 9001). */
module InitialRules {
  import opened Wire
  import opened Varint
  import opened CryptoFrames
  import opened Initial

  // ----- the header -----

  /** The parts of a datagram up to the packet number, and the rest of it. */
  datatype Parts = Parts(
    first: byte, dcid: bytes, scid: bytes, token: bytes, tokenWidth: nat, length: nat, lengthWidth: nat, rest: bytes)

  /** A long header of type Initial; each length fits its field. */
  predicate ValidParts(q: Parts) {
    && (q.first / 16 == 8 || q.first / 16 == 12)  // the fixed bit is not looked at
    && |q.dcid| < 256 && |q.scid| < 256
    && Fits(|q.token|, q.tokenWidth) && Fits(q.length, q.lengthWidth)
  }

  function TokenAndRest(q: Parts): bytes
    requires ValidParts(q)
  {
    EncodeVarint(|q.token|, q.tokenWidth) + q.token + EncodeVarint(q.length, q.lengthWidth) + q.rest
  }

  function IdsAndRest(q: Parts): bytes
    requires ValidParts(q)
  {
    [|q.dcid|] + q.dcid + ([|q.scid|] + q.scid + TokenAndRest(q))
  }

  /** The datagram is made of these parts, and states version 1. */
  predicate IsMadeOf(data: bytes, q: Parts) {
    ValidParts(q) && data == [q.first] + [0, 0, 0, 1] + IdsAndRest(q)
  }

  lemma TokenIsRead(q: Parts)
    requires ValidParts(q)
    ensures ParseToken(q.dcid, TokenAndRest(q)) == Ok(Header(q.dcid, q.length, q.rest))
  {
    hide ReadVarint, EncodeVarint, ParseToken, Fits;
    var tok, len := EncodeVarint(|q.token|, q.tokenWidth), EncodeVarint(q.length, q.lengthWidth);
    assert tok != [] && len != [] by { Widths(|q.token|, q.tokenWidth); Widths(q.length, q.lengthWidth); }
    DecodeInvertsEncode(|q.token|, q.tokenWidth, q.token + len + q.rest);
    DecodeInvertsEncode(q.length, q.lengthWidth, q.rest);
    assert q.token + len + q.rest == q.token + (len + q.rest);
    TokenPartsReadBack(q.dcid, TokenAndRest(q), tok, q.token, len, q.length, q.rest);
  }

  lemma Widths(v: nat, width: nat)
    requires Fits(v, width)
    ensures width > 0
  {
  }

  lemma IdsAreRead(q: Parts)
    requires ValidParts(q)
    ensures ParseIds(IdsAndRest(q)) == Ok(Header(q.dcid, q.length, q.rest))
  {
    hide ParseToken, TokenAndRest, Fits;
    var tail := TokenAndRest(q);
    var b1 := [|q.scid|] + q.scid + tail;
    var b := IdsAndRest(q);
    TokenIsRead(q);
    assert tail != [] by { TokenIsThere(q); }
    assert b[1..1 + |q.dcid|] == q.dcid && b[1 + |q.dcid|..] == b1;
    assert b1[1 + |q.scid|..] == tail;
  }

  lemma TokenIsThere(q: Parts)
    requires ValidParts(q)
    ensures TokenAndRest(q) != []
  {
    hide EncodeVarint;
  }

  lemma HeaderIsRead(data: bytes, q: Parts)
    requires IsMadeOf(data, q)
    ensures ParseHeader(data) == Ok(Header(q.dcid, q.length, q.rest))
  {
    hide ParseIds, IdsAndRest, BigEndian, Fits;
    assert data[5..] == IdsAndRest(q) && data[1..5] == [0, 0, 0, 1];
    VersionOne();
    IdsAreRead(q);
    assert |IdsAndRest(q)| >= 2 by { IdsAreThere(q); }
  }

  lemma IdsAreThere(q: Parts)
    requires ValidParts(q)
    ensures |IdsAndRest(q)| >= 2
  {
    hide TokenAndRest;
  }

  lemma VersionIsOne(b: bytes)
    requires |b| == 4 && BigEndian(b) == 1
    ensures b == [0, 0, 0, 1]
  {
    hide BigEndian, PutBigEndian;
    PutBigEndianInverts(b);
    PutBigEndianInverts([0, 0, 0, 1]);
    VersionOne();
  }

  lemma TokenWasRead(dcid: bytes, b: bytes) returns (token: bytes, tokenWidth: nat, lengthWidth: nat)
    requires ParseToken(dcid, b).Ok?
    ensures
      var h := ParseToken(dcid, b).value;
      && h.dcid == dcid && Fits(|token|, tokenWidth) && Fits(h.payloadLen, lengthWidth)
      && b == EncodeVarint(|token|, tokenWidth) + token + EncodeVarint(h.payloadLen, lengthWidth) + h.rest
  {
    hide ReadVarint, EncodeVarint, Fits;
    var tok := ReadVarint(b);
    var b1 := b[tok.n + tok.value..];
    var len := ReadVarint(b1);
    VarintFront(b);
    VarintFront(b1);
    token, tokenWidth, lengthWidth := b[tok.n..tok.n + tok.value], tok.n, len.n;
    assert b[tok.n..] == token + b1;
    ConcatAssoc(EncodeVarint(|token|, tokenWidth), token, b1);
    ConcatAssoc(EncodeVarint(|token|, tokenWidth) + token, EncodeVarint(len.value, lengthWidth), b1[len.n..]);
  }

  lemma HeaderWasRead(data: bytes) returns (q: Parts)
    requires ParseHeader(data).Ok?
    ensures IsMadeOf(data, q)
  {
    hide ParseToken, BigEndian, Fits, EncodeVarint;
    VersionIsOne(data[1..5]);
    var b := data[5..];
    var dcid, b1 := b[1..1 + b[0]], b[1 + b[0]..];
    var scid, b2 := b1[1..1 + b1[0]], b1[1 + b1[0]..];
    var h := ParseToken(dcid, b2).value;
    var token, tokenWidth, lengthWidth := TokenWasRead(dcid, b2);
    q := Parts(data[0], dcid, scid, token, tokenWidth, h.payloadLen, lengthWidth, h.rest);
    assert b2 == TokenAndRest(q);
    assert b1 == [|scid|] + scid + b2;
    assert b == [|dcid|] + dcid + b1;
    assert data == [data[0]] + data[1..5] + b;
    NibbleIs(data[0]);
  }

  lemma NibbleIs(first: byte)
    requires first >= 0x80 && first / 16 % 4 == 0
    ensures first / 16 == 8 || first / 16 == 12
  {
  }

  /** A datagram passes for an Initial exactly when it is made of such parts, which are then its header. */
  lemma HeaderMeans(data: bytes)
    ensures ParseHeader(data).Ok? <==> exists q :: IsMadeOf(data, q)
    ensures forall q | IsMadeOf(data, q) :: ParseHeader(data) == Ok(Header(q.dcid, q.length, q.rest))
  {
    hide ParseHeader, IsMadeOf;
    forall q | IsMadeOf(data, q) ensures ParseHeader(data) == Ok(Header(q.dcid, q.length, q.rest)) {
      HeaderIsRead(data, q);
    }
    if ParseHeader(data).Ok? {
      var q := HeaderWasRead(data);
    }
  }

  /** Where the connection IDs of a datagram end, and which error is reported when they do not. */
  lemma IdErrors(data: bytes)
    requires |data| >= 7 && data[0] >= 0x80 && data[0] / 16 % 4 == 0 && data[1..5] == [0, 0, 0, 1]
    ensures
      var dcidEnd := 6 + (data[5] as int);
      if dcidEnd > |data| then ParseHeader(data) == Err(TruncatedDcid)
      else if dcidEnd == |data| then ParseHeader(data) == Err(TruncatedScidLength)
      else
        var scidEnd := dcidEnd + 1 + (data[dcidEnd] as int);
        if scidEnd >= |data| then ParseHeader(data) == Err(TruncatedAfterScid)
        else ParseHeader(data) == ParseToken(data[6..dcidEnd], data[scidEnd..])
  {
    hide ParseToken, BigEndian;
    VersionOne();
    var b := data[5..];
    assert b[0] == data[5];
    var dcidEnd := 6 + (data[5] as int);
    if dcidEnd <= |data| {
      SliceOfDrop(data, 5, 1, 1 + (data[5] as int));
      DropOfDrop(data, 5, 1 + (data[5] as int));
      if dcidEnd < |data| {
        assert data[dcidEnd..][0] == data[dcidEnd];
        if dcidEnd + 1 + (data[dcidEnd] as int) <= |data| {
          DropOfDrop(data, dcidEnd, 1 + (data[dcidEnd] as int));
        }
      }
    }
  }

  /** Which error is reported for the front of a datagram. */
  lemma FrontErrors(data: bytes)
    ensures ParseHeader(data) == Err(NotLongHeader) <==> |data| < 7 || data[0] < 128
    ensures ParseHeader(data) == Err(NotInitial) <==> |data| >= 7 && data[0] >= 128 && data[0] / 16 % 4 != 0
    ensures ParseHeader(data) == Err(UnsupportedVersion) <==>
            |data| >= 7 && data[0] >= 128 && data[0] / 16 % 4 == 0 && data[1..5] != [0, 0, 0, 1]
  {
    hide BigEndian, ReadVarint;
    if |data| >= 7 && BigEndian(data[1..5]) == 1 {
      VersionIsOne(data[1..5]);
    }
    VersionOne();
  }

  /** Which error is reported for the token and the length: the bytes after the connection IDs begin with
      no varint, with a token that leaves nothing behind it, or with a token and no varint behind it. */
  lemma TokenErrors(dcid: bytes, b: bytes)
    ensures
      var token := ReadVarint(b);
      var tokenEnd := token.n + token.value;
      && (ParseToken(dcid, b) == Err(BadTokenLength) <==> token.n == 0)
      && (ParseToken(dcid, b) == Err(TruncatedAfterToken) <==> token.n > 0 && tokenEnd >= |b|)
      && (ParseToken(dcid, b) == Err(BadPayloadLength) <==>
            token.n > 0 && tokenEnd < |b| && ReadVarint(b[tokenEnd..]).n == 0)
  {
    hide ReadVarint;
  }

  /** Which error is reported for the protected part. */
  lemma ProtectionErrors(c: Ciphers, data: bytes, q: Parts)
    requires Lawful(c) && IsMadeOf(data, q)
    ensures ExtractInitial(c, data) == Err(TooShortForSample) <==> |q.rest| < 20
    ensures |q.rest| >= 20 ==>
              var keys := c.derive(q.dcid);
              var first := Xor(q.first, c.block(keys.hp, q.rest[4..20])[0] % 16);
              ExtractInitial(c, data) == Err(CiphertextOutOfRange) <==>
                q.length > |q.rest| || q.length < first % 4 + 1
  {
    hide ParseHeader, IsMadeOf, Nonce, Chunks, Xor;
    HeaderIsRead(data, q);
    assert data[0] == q.first && |data| - |q.rest| > 0 by { FirstIs(data, q); }
  }

  lemma FirstIs(data: bytes, q: Parts)
    requires IsMadeOf(data, q)
    ensures data != [] && data[0] == q.first && |q.rest| < |data|
  {
    hide EncodeVarint, Fits;
  }

  /** Whatever is extracted from a datagram was opened under the keys of its own DCID, from the bytes its
      length covers: nothing comes out of a datagram that does not authenticate, is too short for a sample,
      or states a length beyond its end. */
  lemma ExtractedWasOpened(c: Ciphers, data: bytes) returns (q: Parts, nonce: bytes, skip: nat, ad: bytes, plain: bytes)
    requires Lawful(c) && ExtractInitial(c, data).Ok?
    ensures IsMadeOf(data, q) && 20 <= |q.rest| && 1 <= skip <= 4 && skip <= q.length <= |q.rest|
    ensures c.open(c.derive(q.dcid).key, nonce, q.rest[skip..q.length], ad) == Some(plain)
    ensures ExtractInitial(c, data) == Ok(Chunks(plain))
  {
    hide ParseHeader, IsMadeOf, Unmask, Nonce, Chunks;
    q := HeaderWasRead(data);
    HeaderIsRead(data, q);
    var hdr := data[..|data| - |q.rest|];
    var keys := c.derive(q.dcid);
    var u := Unmask(c, keys.hp, hdr, q.rest);
    skip, nonce, ad := |u.pnBytes|, Nonce(keys.iv, BigEndian(u.pnBytes)), u.hdr + u.pnBytes;
    plain := c.open(keys.key, nonce, q.rest[skip..q.length], ad).value;
  }

  // ----- the nonce -----

  /** The nonce is the IV with its last eight bytes masked by the packet number, most significant byte
      first; the rest of the IV is left alone. */
  lemma NonceAt(iv: bytes, pn: nat, i: nat)
    requires |iv| >= 8 && i < |iv|
    ensures Nonce(iv, pn)[i] == if i < |iv| - 8 then iv[i] else Xor(iv[i], PutBigEndian(pn, 8)[i - (|iv| - 8)])
  {
  }

  /** Packet number 2 under the IV of section A.1 of RFC 9001. */
  lemma StandardNonce()
    ensures
      var iv := [0xfa, 0x04, 0x4b, 0x2f, 0x42, 0xa3, 0xfd, 0x3b, 0x46, 0xfb, 0x25, 0x5c];
      var nonce := Nonce(iv, 2);
      nonce[..11] == iv[..11] && nonce[11] == 0x5e
  {
    hide Nonce, Xor, PutBigEndian;
    var iv := [0xfa, 0x04, 0x4b, 0x2f, 0x42, 0xa3, 0xfd, 0x3b, 0x46, 0xfb, 0x25, 0x5c];
    SmallNumber(2);
    forall i | 0 <= i < 11 ensures Nonce(iv, 2)[i] == iv[i] {
      NonceAt(iv, 2, i);
      XorZero(iv[i]);
    }
    NonceAt(iv, 2, 11);
    XorTwo();
  }

  lemma SmallNumber(n: nat)
    requires n < 256
    ensures forall i | 0 <= i < 7 :: PutBigEndian(n, 8)[i] == 0
    ensures PutBigEndian(n, 8)[7] == n
  {
    Zeros(7);
  }

  lemma {:induction false} Zeros(k: nat)
    ensures forall i | 0 <= i < k :: PutBigEndian(0, k)[i] == 0
  {
    if k > 0 {
      Zeros(k - 1);
    }
  }

  lemma XorZero(a: byte)
    ensures Xor(a, 0) == a
  {
    assert Pow2(8) == 256 by { assert Pow2(4) == 16; }
    XorBitsZero(a, 8);
  }

  lemma XorTwo()
    ensures Xor(0x5c, 2) == 0x5e
  {
    assert XorBits(0x17, 0, 6) == 0x17 by { assert Pow2(6) == 64; XorBitsZero(0x17, 6); }
    assert XorBits(0x2e, 1, 7) == 0x2f;
  }
}
