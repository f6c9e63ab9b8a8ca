/** What decoy bodies consist of, byte by byte (`internal/mimic/generator.go`; the alphabet is that of
    section 5 of RFC 4648). */
module DecoyBodies {
  import opened Wire
  import opened Decoy

  // ----- the keystream -----

  lemma {:induction false} BlockAt(h: bytes -> bytes, base: bytes, k: nat, i: nat, j: nat)
    requires Sized(h) && i < k && j < 32
    ensures 32 * i + j < |Blocks(h, base, k)| && Blocks(h, base, k)[32 * i + j] == h(base + PutBigEndian(i, 8))[j]
  {
    BlocksLength(h, base, k);
    BlocksLength(h, base, k - 1);
    if i < k - 1 {
      BlockAt(h, base, k - 1, i, j);
    }
  }

  /** Byte 32 * i + j of the keystream of a seed is byte j of the hash of the seed's hash followed by i in
      eight bytes, most significant first. */
  lemma KeystreamAt(h: bytes -> bytes, seed: bytes, n: int, i: nat, j: nat)
    requires Sized(h) && j < 32 && 32 * i + j < n
    ensures |Keystream(h, seed, n)| == n
    ensures Keystream(h, seed, n)[32 * i + j] == h(h(seed) + PutBigEndian(i, 8))[j]
  {
    BlockAt(h, h(seed), (n + 31) / 32, i, j);
    BlocksLength(h, h(seed), (n + 31) / 32);
  }

  // ----- base64url -----

  /** The value of a character of the alphabet. */
  function FromSymbol(b: byte): Option<nat> {
    if 'A' as int <= b <= 'Z' as int then Some(b - 'A' as int)
    else if 'a' as int <= b <= 'z' as int then Some(26 + (b - 'a' as int))
    else if '0' as int <= b <= '9' as int then Some(52 + (b - '0' as int))
    else if b == '-' as int then Some(62)
    else if b == '_' as int then Some(63)
    else None
  }

  lemma SymbolReadsBack(i: nat)
    requires i < 64
    ensures FromSymbol(Symbol(i)) == Some(i)
  {
  }

  /** Reads four characters as three bytes. */
  function Decode4(b: bytes): Option<bytes>
    requires |b| == 4
  {
    match (FromSymbol(b[0]), FromSymbol(b[1]), FromSymbol(b[2]), FromSymbol(b[3]))
    case (Some(p), Some(q), Some(r), Some(s)) =>
      Some([(p * 4 + q / 16) % 256, (q * 16 + r / 4) % 256, (r * 64 + s) % 256])
    case _ => None
  }

  function DecodeBase64(b: bytes): Option<bytes>
    requires |b| % 4 == 0
    decreases |b|
  {
    if b == [] then Some([]) else
    match (Decode4(b[..4]), DecodeBase64(b[4..]))
    case (Some(head), Some(rest)) => Some(head + rest)
    case _ => None
  }

  lemma GroupReadsBack(a: byte, b: byte, c: byte)
    ensures Decode4([Symbol(a / 4), Symbol(a % 4 * 16 + b / 16), Symbol(b % 16 * 4 + c / 64), Symbol(c % 64)]) ==
            Some([a, b, c])
  {
    hide Symbol, FromSymbol;
    SymbolReadsBack(a / 4);
    SymbolReadsBack(a % 4 * 16 + b / 16);
    SymbolReadsBack(b % 16 * 4 + c / 64);
    SymbolReadsBack(c % 64);
    FirstByte(a, b);
    SecondByte(a, b, c);
    ThirdByte(b, c);
  }

  lemma FirstByte(a: byte, b: byte)
    ensures (a / 4 * 4 + (a % 4 * 16 + b / 16) / 16) % 256 == a
  {
    assert (a % 4 * 16 + b / 16) / 16 == a % 4;
  }

  lemma SecondByte(a: byte, b: byte, c: byte)
    ensures ((a % 4 * 16 + b / 16) * 16 + (b % 16 * 4 + c / 64) / 4) % 256 == b
  {
    assert (b % 16 * 4 + c / 64) / 4 == b % 16;
    Overflow(a % 4, b);
    assert (a % 4 * 16 + b / 16) * 16 + b % 16 == 256 * (a % 4) + b;
  }

  lemma ThirdByte(b: byte, c: byte)
    ensures ((b % 16 * 4 + c / 64) * 64 + c % 64) % 256 == c
  {
    Overflow(b % 16, c);
    assert (b % 16 * 4 + c / 64) * 64 + c % 64 == 256 * (b % 16) + c;
  }

  lemma Overflow(k: nat, b: byte)
    requires k < 16
    ensures (256 * k + b) % 256 == b
  {
  }

  /** Decoding inverts encoding. */
  lemma {:induction false} Base64ReadsBack(raw: bytes)
    requires |raw| % 3 == 0
    ensures DecodeBase64(Base64(raw)) == Some(raw)
    decreases |raw|
  {
    hide Symbol, Decode4;
    if raw != [] {
      var b := Base64(raw);
      GroupReadsBack(raw[0], raw[1], raw[2]);
      Base64ReadsBack(raw[3..]);
      assert b[..4] == [Symbol(raw[0] / 4), Symbol(raw[0] % 4 * 16 + raw[1] / 16),
                        Symbol(raw[1] % 16 * 4 + raw[2] / 64), Symbol(raw[2] % 64)];
      assert b[4..] == Base64(raw[3..]);
      assert raw == [raw[0], raw[1], raw[2]] + raw[3..];
    }
  }

  // ----- bodies -----

  function Ascii(s: string): bytes
    requires forall i | 0 <= i < |s| :: s[i] < 128 as char
  {
    seq(|s|, i requires 0 <= i < |s| => s[i] as int)
  }

  /** `text` is the first characters of the encoded keystream of the seed. */
  predicate IsPadding(h: bytes -> bytes, seed: bytes, text: bytes)
    requires Sized(h)
  {
    text <= Base64(Keystream(h, seed, (|text| + 3) / 4 * 3))
  }

  /** A script is a statement that does nothing, behind a comment of padding when there is room. */
  lemma ScriptIs(h: bytes -> bytes, seed: bytes, shape: Shape)
    requires Sized(h) && shape.media == "js" && shape.length >= 0
    ensures
      var body := Generate(h, seed, shape).value;
      if shape.length <= 18 then body == Ascii("var __mc=0;\n")
      else
        && |body| == shape.length
        && body[..3] == Ascii("/* ") && body[shape.length - 15..] == Ascii("*/\nvar __mc=0;\n")
        && IsPadding(h, seed, body[3..shape.length - 15])
  {
    hide Base64, Keystream;
    assert JS_NOOP == Ascii("var __mc=0;\n");
    assert JS_PREFIX == Ascii("/* ");
    assert JS_SUFFIX == Ascii("*/\nvar __mc=0;\n");
    if shape.length > 18 {
      var pad := PadText(h, seed, shape.length - 18);
      var body := Generate(h, seed, shape).value;
      assert body == JS_PREFIX + pad + JS_SUFFIX;
      assert body[3..shape.length - 15] == pad;
    }
  }

  /** An image is a one-pixel image of the asked kind, followed by the keystream of the seed. */
  lemma ImageIs(h: bytes -> bytes, seed: bytes, shape: Shape)
    requires Sized(h) && shape.media == "image" && shape.length >= 0
    ensures
      var body := Generate(h, seed, shape).value;
      var base := if shape.png then PNG else GIF;
      && base <= body && body[|base|..] == Keystream(h, seed, shape.length - |base|)
      && body[..6] == (if shape.png then [137, 80, 78, 71, 13, 10] else [71, 73, 70, 56, 57, 97])
  {
    hide Keystream;
    assert PNG[..6] == PNG_SIGNATURE[..6] == [137, 80, 78, 71, 13, 10];
    assert GIF[0] == 71 && GIF[1] == 73 && GIF[2] == 70 && GIF[3] == 56 && GIF[4] == 57 && GIF[5] == 97;
  }

  /** Everything else is the keystream itself; only a negative length is refused. */
  lemma OtherIs(h: bytes -> bytes, seed: bytes, shape: Shape)
    requires Sized(h)
    ensures Generate(h, seed, shape).None? <==> shape.length < 0
    ensures shape.length >= 0 && shape.media !in {"js", "image"} ==>
              Generate(h, seed, shape) == Some(Keystream(h, seed, shape.length))
  {
  }
}
