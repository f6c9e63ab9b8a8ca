/** QUIC variable-length integers, section 16 of RFC 9000 (`internal/quic/varint.go`). */
module Varint {
  import opened Wire

  /** A decoded value and the bytes it took; `n == 0` reports insufficient input. */
  datatype Read = Read(value: nat, n: nat)

  /** `1 << (first >> 6)`. */
  function Width(first: byte): (w: nat)
    ensures w == 1 || w == 2 || w == 4 || w == 8
  {
    if first < 64 then 1 else if first < 128 then 2 else if first < 192 then 4 else 8
  }

  function ReadVarint(b: bytes): (r: Read)
    ensures r.n <= |b|
  {
    if |b| == 0 || |b| < Width(b[0]) then Read(0, 0)
    else Read(BigEndian([b[0] % 64] + b[1..Width(b[0])]), Width(b[0]))
  }

  /** The loop that shifts the remaining bytes into `value`. */
  method Decode(b: bytes) returns (r: Read)
    ensures r == ReadVarint(b)
  {
    if |b| == 0 {
      return Read(0, 0);
    }
    var length := Width(b[0]);
    if |b| < length {
      return Read(0, 0);
    }
    var value: nat := b[0] % 64;
    for i := 1 to length
      invariant value == BigEndian([b[0] % 64] + b[1..i])
    {
      var before, after := [b[0] % 64] + b[1..i], [b[0] % 64] + b[1..i + 1];
      assert after[..|after| - 1] == before && after[|after| - 1] == b[i];
      value := value * 256 + b[i];
    }
    return Read(value, length);
  }

  // ----- the encoding -----

  /** `256 ^ (width - 1)`: the weight of the first byte. */
  function Weight(width: nat): nat {
    if width == 1 then 1 else if width == 2 then 0x100
    else if width == 4 then 0x100_0000 else 0x100_0000_0000_0000
  }

  lemma WeightIsPower(width: nat)
    requires width == 1 || width == 2 || width == 4 || width == 8
    ensures Weight(width) == Pow256(width - 1)
  {
    assert Pow256(1) == 0x100;
    assert Pow256(3) == 0x100_0000;
    assert Pow256(5) == 0x100_0000_0000;
    assert Pow256(7) == 0x100_0000_0000_0000;
  }

  /** How many values a width can hold: 2^6, 2^14, 2^30 and 2^62. */
  function Capacity(width: nat): nat {
    64 * Weight(width)
  }

  predicate Fits(v: nat, width: nat) {
    (width == 1 || width == 2 || width == 4 || width == 8) && v < Capacity(width)
  }

  /** The two-bit length prefix, in place. */
  function Prefix(width: nat): nat {
    if width == 1 then 0 else if width == 2 then 0x4000
    else if width == 4 then 0x8000_0000 else 0xC000_0000_0000_0000
  }

  /** `v` in `width` bytes; the format does not insist on the shortest one. */
  function EncodeVarint(v: nat, width: nat): (b: bytes)
    requires Fits(v, width)
    ensures |b| == width
  {
    PutBigEndian(Prefix(width) + v, width)
  }

  lemma {:induction false} BigEndianFront(h: byte, t: bytes)
    ensures BigEndian([h] + t) == h * Pow256(|t|) + BigEndian(t)
  {
    if t != [] {
      var front := t[..|t| - 1];
      BigEndianFront(h, front);
      assert ([h] + t)[..|t|] == [h] + front;
    }
  }

  lemma ScaleFirst(first: byte, low: nat)
    requires low < Weight(Width(first))
    ensures first * Weight(Width(first)) == Prefix(Width(first)) + (first % 64) * Weight(Width(first))
    ensures Fits((first % 64) * Weight(Width(first)) + low, Width(first))
  {
    if first < 64 {
    } else if first < 128 {
      assert first == 64 + first % 64;
    } else if first < 192 {
      assert first == 128 + first % 64;
    } else {
      assert first == 192 + first % 64;
    }
  }

  /** A string as long as its first byte announces spells its value plus the prefix. */
  lemma SpelledValue(b: bytes)
    requires b != [] && |b| == Width(b[0])
    ensures BigEndian(b) == Prefix(|b|) + BigEndian([b[0] % 64] + b[1..])
    ensures Fits(BigEndian([b[0] % 64] + b[1..]), |b|)
  {
    var t := b[1..];
    assert b == [b[0]] + t;
    BigEndianFront(b[0], t);
    BigEndianFront(b[0] % 64, t);
    BigEndianBound(t);
    WeightIsPower(|b|);
    ScaleFirst(b[0], BigEndian(t));
  }

  /** The prefix announces the width. */
  lemma EncodedWidth(v: nat, width: nat)
    requires Fits(v, width)
    ensures Width(EncodeVarint(v, width)[0]) == width
    ensures BigEndian(EncodeVarint(v, width)) == Prefix(width) + v
  {
    var b := EncodeVarint(v, width);
    WeightIsPower(width);
    assert Pow256(width) == 256 * Weight(width);
    BigEndianInverts(Prefix(width) + v, width);
    assert b == [b[0]] + b[1..];
    BigEndianFront(b[0], b[1..]);
    BigEndianBound(b[1..]);
  }

  /** Reading undoes writing, at every width that fits and whatever follows. */
  lemma DecodeInvertsEncode(v: nat, width: nat, rest: bytes)
    requires Fits(v, width)
    ensures ReadVarint(EncodeVarint(v, width) + rest) == Read(v, width)
  {
    var b := EncodeVarint(v, width);
    EncodedWidth(v, width);
    SpelledValue(b);
    assert (b + rest)[1..width] == b[1..];
  }

  /** Every decoded value is below 2^62, so the program's 64-bit sums cannot wrap. */
  lemma DecodedFits(b: bytes)
    requires ReadVarint(b).n > 0
    ensures Fits(ReadVarint(b).value, ReadVarint(b).n)
    ensures ReadVarint(b).value < 0x4000_0000_0000_0000
  {
    hide BigEndian, Prefix;
    var n := ReadVarint(b).n;
    assert b[..n][1..] == b[1..n];
    SpelledValue(b[..n]);
  }

  /** Writing undoes reading: a decoded value determines the bytes it was read from. */
  lemma EncodeInvertsDecode(b: bytes)
    requires ReadVarint(b).n > 0
    ensures Fits(ReadVarint(b).value, ReadVarint(b).n)
    ensures EncodeVarint(ReadVarint(b).value, ReadVarint(b).n) == b[..ReadVarint(b).n]
  {
    hide BigEndian, PutBigEndian, Prefix, Fits;
    var n := ReadVarint(b).n;
    assert b[..n][1..] == b[1..n];
    SpelledValue(b[..n]);
    PutBigEndianInverts(b[..n]);
  }

  /** The examples of section A.1 of RFC 9000. */
  lemma StandardExamples()
    ensures ReadVarint([0xc2, 0x19, 0x7c, 0x5e, 0xff, 0x14, 0xe8, 0x8c]) == Read(151288809941952652, 8)
    ensures ReadVarint([0x9d, 0x7f, 0x3e, 0x7d]) == Read(494878333, 4)
    ensures ReadVarint([0x7b, 0xbd]) == Read(15293, 2)
    ensures ReadVarint([0x25]) == Read(37, 1)
    ensures ReadVarint([0x40, 0x25]) == Read(37, 2)
  {
    EightBytes(0x02, 0x19, 0x7c, 0x5e, 0xff, 0x14, 0xe8, 0x8c);
    FourBytes(0x1d, 0x7f, 0x3e, 0x7d);
    TwoBytes(0x3b, 0xbd);
    TwoBytes(0x00, 0x25);
    OneByte(0x25);
    assert [0x02] + [0xc2, 0x19, 0x7c, 0x5e, 0xff, 0x14, 0xe8, 0x8c][1..8] ==
           [0x02, 0x19, 0x7c, 0x5e, 0xff, 0x14, 0xe8, 0x8c];
    assert [0x1d] + [0x9d, 0x7f, 0x3e, 0x7d][1..4] == [0x1d, 0x7f, 0x3e, 0x7d];
    assert [0x3b] + [0x7b, 0xbd][1..2] == [0x3b, 0xbd];
    assert [0x00] + [0x40, 0x25][1..2] == [0x00, 0x25];
    assert [0x25] + [0x25][1..1] == [0x25];
  }

  lemma OneByte(a: byte)
    ensures BigEndian([a]) == a
  {
    assert [a][..0] == [];
  }

  lemma TwoBytes(a: byte, b: byte)
    ensures BigEndian([a, b]) == a * 0x100 + b
  {
    OneByte(a);
    assert [a, b][..1] == [a];
  }

  lemma FourBytes(a: byte, b: byte, c: byte, d: byte)
    ensures BigEndian([a, b, c, d]) == (a * 0x100 + b) * 0x1_0000 + (c * 0x100 + d)
  {
    TwoBytes(a, b);
    assert [a, b, c][..2] == [a, b];
    assert [a, b, c, d][..3] == [a, b, c];
  }

  lemma EightBytes(a: byte, b: byte, c: byte, d: byte, e: byte, f: byte, g: byte, h: byte)
    ensures BigEndian([a, b, c, d, e, f, g, h]) ==
            ((a * 0x100 + b) * 0x1_0000 + (c * 0x100 + d)) * 0x1_0000_0000
            + ((e * 0x100 + f) * 0x1_0000 + (g * 0x100 + h))
  {
    FourBytes(a, b, c, d);
    assert [a, b, c, d, e][..4] == [a, b, c, d];
    assert [a, b, c, d, e, f][..5] == [a, b, c, d, e];
    assert [a, b, c, d, e, f, g][..6] == [a, b, c, d, e, f];
    assert [a, b, c, d, e, f, g, h][..7] == [a, b, c, d, e, f, g];
    var high := BigEndian([a, b, c, d]);
    assert BigEndian([a, b, c, d, e]) == high * 0x100 + e;
    assert BigEndian([a, b, c, d, e, f]) == high * 0x1_0000 + (e * 0x100 + f);
    assert BigEndian([a, b, c, d, e, f, g]) == high * 0x100_0000 + (e * 0x100 + f) * 0x100 + g;
  }
}
