/** Bytes, options and the big-endian and bitwise arithmetic that the packet parsers share.

    Go's shifts and masks on unsigned bytes are written as division and remainder:
    `b >> 6` is `b / 64`, `b & 0x3f` is `b % 64`, `v << 8 | b` is `v * 256 + b`.
    Only XOR needs its bits, and is defined on them. */
module Wire {
  type byte = x: int | 0 <= x < 256
  type bytes = seq<byte>

  datatype Option<+T> = None | Some(value: T)

  /** `binary.BigEndian.Uint16` at the front of `b`. */
  function U16(b: bytes): (r: nat)
    requires |b| >= 2
    ensures r < 65536
  {
    (b[0] as int) * 256 + b[1]
  }

  /** The two bytes that `U16` reads back as `n`. */
  function PutU16(n: nat): (r: bytes)
    requires n < 65536
    ensures |r| == 2 && U16(r) == n
  {
    [n / 256, n % 256]
  }

  /** The number whose big-endian digits in base 256 are `b`. */
  function BigEndian(b: bytes): nat {
    if b == [] then 0 else BigEndian(b[..|b| - 1]) * 256 + b[|b| - 1]
  }

  function Pow256(n: nat): (r: nat)
    ensures r >= 1
  {
    if n == 0 then 1 else Pow256(n - 1) * 256
  }

  /** The low `n` bytes of `v`, most significant first. */
  function PutBigEndian(v: nat, n: nat): (r: bytes)
    ensures |r| == n
  {
    if n == 0 then [] else PutBigEndian(v / 256, n - 1) + [v % 256]
  }

  /** Writing a number and reading it back loses nothing that fits. */
  lemma {:induction false} BigEndianInverts(v: nat, n: nat)
    requires v < Pow256(n)
    ensures BigEndian(PutBigEndian(v, n)) == v
  {
    if n > 0 {
      BigEndianInverts(v / 256, n - 1);
      var r := PutBigEndian(v, n);
      assert r[..|r| - 1] == PutBigEndian(v / 256, n - 1);
    }
  }

  lemma {:induction false} BigEndianBound(b: bytes)
    ensures BigEndian(b) < Pow256(|b|)
  {
    if b != [] {
      BigEndianBound(b[..|b| - 1]);
    }
  }

  /** Reading a string of bytes and writing it back at the same width gives the string. */
  lemma {:induction false} PutBigEndianInverts(b: bytes)
    ensures PutBigEndian(BigEndian(b), |b|) == b
  {
    if b != [] {
      var front, last := b[..|b| - 1], b[|b| - 1];
      PutBigEndianInverts(front);
      assert BigEndian(b) / 256 == BigEndian(front) && BigEndian(b) % 256 == last;
      assert b == front + [last];
    }
  }

  function Pow2(n: nat): (r: nat)
    ensures r >= 1
  {
    if n == 0 then 1 else 2 * Pow2(n - 1)
  }

  /** Exclusive or of the low `n` bits of `a` and `b`. */
  function XorBits(a: nat, b: nat, n: nat): (r: nat)
    ensures r < Pow2(n)
    decreases n
  {
    if n == 0 then 0 else (a % 2 + b % 2) % 2 + 2 * XorBits(a / 2, b / 2, n - 1)
  }

  /** Go's `a ^ b` on bytes. */
  function Xor(a: byte, b: byte): (r: byte) {
    assert Pow2(8) == 256 by { assert Pow2(4) == 16; }
    XorBits(a, b, 8)
  }

  lemma {:induction false} XorBitsTwice(a: nat, b: nat, n: nat)
    requires a < Pow2(n)
    ensures XorBits(XorBits(a, b, n), b, n) == a
    decreases n
  {
    if n > 0 {
      hide XorBits;
      var x := XorBits(a, b, n);
      XorBitsTwice(a / 2, b / 2, n - 1);
      XorBitsHalf(a, b, n);
      XorBitsHalf(x, b, n);
      XorBitsParity(a, b, n);
      XorBitsParity(x, b, n);
      SameBits(XorBits(x, b, n), a, x, b);
    }
  }

  /** Masking twice with the same byte is the identity: the heart of header protection. */
  lemma XorTwice(a: byte, b: byte)
    ensures Xor(Xor(a, b), b) == a
  {
    assert Pow2(8) == 256 by { assert Pow2(4) == 16; }
    XorBitsTwice(a, b, 8);
  }

  lemma {:induction false} XorBitsZero(a: nat, n: nat)
    requires a < Pow2(n)
    ensures XorBits(a, 0, n) == a
  {
    if n > 0 {
      XorBitsZero(a / 2, n - 1);
    }
  }

  lemma XorBitsHalf(a: nat, b: nat, n: nat)
    requires n > 0
    ensures XorBits(a, b, n) / 2 == XorBits(a / 2, b / 2, n - 1)
  {
    var half := XorBits(a / 2, b / 2, n - 1);
    assert XorBits(a, b, n) == (a % 2 + b % 2) % 2 + 2 * half;
  }

  lemma XorBitsParity(a: nat, b: nat, n: nat)
    requires n > 0
    ensures XorBits(a, b, n) % 2 == (a % 2 + b % 2) % 2
  {
    var half := XorBits(a / 2, b / 2, n - 1);
    assert XorBits(a, b, n) == (a % 2 + b % 2) % 2 + 2 * half;
  }

  lemma SameBits(y: nat, a: nat, x: nat, b: nat)
    requires y / 2 == a / 2 && y % 2 == (x % 2 + b % 2) % 2 && x % 2 == (a % 2 + b % 2) % 2
    ensures y == a
  {
  }

  lemma XorBitsQuarter(a: nat, b: nat, n: nat)
    requires n >= 2
    ensures XorBits(a, b, n) / 4 == XorBits(a / 4, b / 4, n - 2)
  {
    XorBitsHalf(a, b, n);
    XorBitsHalf(a / 2, b / 2, n - 1);
    assert a / 2 / 2 == a / 4 && b / 2 / 2 == b / 4;
  }

  lemma XorBitsSixteenth(a: nat, b: nat, n: nat)
    requires n >= 4
    ensures XorBits(a, b, n) / 16 == XorBits(a / 16, b / 16, n - 4)
  {
    XorBitsQuarter(a, b, n);
    XorBitsQuarter(a / 4, b / 4, n - 2);
    assert a / 4 / 4 == a / 16 && b / 4 / 4 == b / 16;
  }

  /** A mask confined to the low nibble leaves the high nibble alone. */
  lemma XorKeepsHighNibble(a: byte, m: byte)
    requires m < 16
    ensures Xor(a, m) / 16 == a / 16
  {
    XorBitsSixteenth(a, m, 8);
    assert Pow2(4) == 16;
    XorBitsZero(a / 16, 4);
  }

  /** Slicing a suffix is slicing the whole, shifted. */
  lemma SliceOfDrop(s: bytes, k: nat, i: nat, j: nat)
    requires i <= j && k + j <= |s|
    ensures s[k..][i..j] == s[k + i..k + j]
  {
  }

  lemma DropOfDrop(s: bytes, k: nat, i: nat)
    requires k + i <= |s|
    ensures s[k..][i..] == s[k + i..]
  {
  }

  lemma ConcatAssoc(a: bytes, b: bytes, c: bytes)
    ensures a + (b + c) == (a + b) + c
  {
  }
}
