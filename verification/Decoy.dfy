/** Decoy bodies (`internal/mimic/generator.go`): deterministic bytes of a requested shape. The hash is
    a parameter with 32-byte results; whether a content type mentions PNG is an input. */
module Decoy {
  import opened Wire

  const HASH_SIZE := 32

  ghost predicate Sized(h: bytes -> bytes) {
    forall b :: |h(b)| == HASH_SIZE
  }

  // ----- the keystream -----

  /** The first `k` blocks of counter mode over `base`. */
  function Blocks(h: bytes -> bytes, base: bytes, k: nat): bytes {
    if k == 0 then [] else Blocks(h, base, k - 1) + h(base + PutBigEndian(k - 1, 8))
  }

  function Keystream(h: bytes -> bytes, seed: bytes, n: int): (r: bytes)
    requires Sized(h)
    ensures |r| == if n <= 0 then 0 else n
  {
    if n <= 0 then []
    else
      BlocksLength(h, h(seed), (n + 31) / 32);
      Blocks(h, h(seed), (n + 31) / 32)[..n]
  }

  lemma {:induction false} BlocksLength(h: bytes -> bytes, base: bytes, k: nat)
    requires Sized(h)
    ensures |Blocks(h, base, k)| == HASH_SIZE * k
  {
    if k > 0 {
      BlocksLength(h, base, k - 1);
    }
  }

  /** The counter loop. */
  method MakeKeystream(h: bytes -> bytes, seed: bytes, n: int) returns (out: bytes)
    requires Sized(h)
    ensures out == Keystream(h, seed, n)
  {
    if n <= 0 {
      return [];
    }
    out := [];
    var base := h(seed);
    var counter := 0;
    while |out| < n
      invariant out == Blocks(h, base, counter) && |out| == HASH_SIZE * counter
      invariant counter <= (n + 31) / 32
    {
      out := out + h(base + PutBigEndian(counter, 8));
      counter := counter + 1;
    }
    out := out[..n];
  }

  lemma {:induction false} BlocksPrefix(h: bytes -> bytes, base: bytes, j: nat, k: nat)
    requires Sized(h) && j <= k
    ensures Blocks(h, base, j) <= Blocks(h, base, k)
  {
    if j < k {
      BlocksPrefix(h, base, j, k - 1);
      assert Blocks(h, base, k - 1) <= Blocks(h, base, k);
    }
  }

  /** A shorter keystream is a prefix of a longer one. */
  lemma KeystreamPrefix(h: bytes -> bytes, seed: bytes, m: int, n: int)
    requires Sized(h) && m <= n
    ensures Keystream(h, seed, m) <= Keystream(h, seed, n)
  {
    if m > 0 {
      var j, k := (m + 31) / 32, (n + 31) / 32;
      BlocksLength(h, h(seed), j);
      BlocksLength(h, h(seed), k);
      BlocksPrefix(h, h(seed), j, k);
      assert Blocks(h, h(seed), j)[..m] == Blocks(h, h(seed), k)[..m];
    }
  }

  // ----- comment-safe text -----

  /** The base64url alphabet. */
  function Symbol(i: nat): (b: byte)
    requires i < 64
    ensures b != 0x2a && b != 0x2f
  {
    if i < 26 then 65 + i else if i < 52 then 97 + (i - 26) else if i < 62 then 48 + (i - 52)
    else if i == 62 then 0x2d else 0x5f
  }

  /** Unpadded base64url of whole groups of three bytes. */
  function Base64(raw: bytes): (r: bytes)
    requires |raw| % 3 == 0
    ensures |r| == |raw| / 3 * 4 && forall i | 0 <= i < |r| :: r[i] != 0x2a && r[i] != 0x2f
    decreases |raw|
  {
    if raw == [] then []
    else
      [Symbol(raw[0] / 4), Symbol(raw[0] % 4 * 16 + raw[1] / 16),
       Symbol(raw[1] % 16 * 4 + raw[2] / 64), Symbol(raw[2] % 64)] + Base64(raw[3..])
  }

  /** `padText`. The encoding is always long enough, so the program's fallback padding is never used. */
  function PadText(h: bytes -> bytes, seed: bytes, n: nat): (r: bytes)
    requires Sized(h)
    ensures |r| == n && forall i | 0 <= i < n :: r[i] != 0x2a && r[i] != 0x2f
  {
    Base64(Keystream(h, seed, (n + 3) / 4 * 3))[..n]
  }

  // ----- bodies -----

  /** The opening of a comment, and its end followed by the no-op statement. */
  const JS_PREFIX: bytes := [0x2f, 0x2a, 0x20]
  const JS_NOOP: bytes := [0x76, 0x61, 0x72, 0x20, 0x5f, 0x5f, 0x6d, 0x63, 0x3d, 0x30, 0x3b, 0x0a]
  const JS_SUFFIX: bytes := [0x2a, 0x2f, 0x0a] + JS_NOOP

  const GIF: bytes := [
    0x47, 0x49, 0x46, 0x38, 0x39, 0x61, 0x01, 0x00, 0x01, 0x00, 0x80, 0x00, 0x00,
    0xff, 0xff, 0xff, 0x00, 0x00, 0x00, 0x21, 0xf9, 0x04, 0x01, 0x00, 0x00, 0x00,
    0x00, 0x2c, 0x00, 0x00, 0x00, 0x00, 0x01, 0x00, 0x01, 0x00, 0x00, 0x02, 0x01,
    0x44, 0x00, 0x3b]

  const PNG_SIGNATURE: bytes := [0x89, 0x50, 0x4e, 0x47, 0x0d, 0x0a, 0x1a, 0x0a]

  const PNG: bytes := PNG_SIGNATURE + [
    0x00, 0x00, 0x00, 0x0d, 0x49,
    0x48, 0x44, 0x52, 0x00, 0x00, 0x00, 0x01, 0x00, 0x00, 0x00, 0x01, 0x08, 0x06,
    0x00, 0x00, 0x00, 0x1f, 0x15, 0xc4, 0x89, 0x00, 0x00, 0x00, 0x0d, 0x49, 0x44,
    0x41, 0x54, 0x78, 0x9c, 0x62, 0x00, 0x01, 0x00, 0x00, 0x05, 0x00, 0x01, 0x0d,
    0x0a, 0x2d, 0xb4, 0x00, 0x00, 0x00, 0x00, 0x49, 0x45, 0x4e, 0x44, 0xae, 0x42,
    0x60, 0x82]

  datatype Shape = Shape(contentType: string, png: bool, length: int, media: string)

  function GenJS(h: bytes -> bytes, seed: bytes, length: int): bytes
    requires Sized(h)
  {
    var overhead := |JS_PREFIX| + |JS_SUFFIX|;
    if length <= overhead then JS_NOOP
    else JS_PREFIX + PadText(h, seed, length - overhead) + JS_SUFFIX
  }

  function ImageBase(shape: Shape): bytes {
    if shape.png then PNG else GIF
  }

  function GenImage(h: bytes -> bytes, seed: bytes, shape: Shape): bytes
    requires Sized(h)
  {
    var base := ImageBase(shape);
    if shape.length <= |base| then base
    else base + Keystream(h, seed, shape.length - |base|)
  }

  /** `Generate`; a negative length is refused. */
  function Generate(h: bytes -> bytes, seed: bytes, shape: Shape): Option<bytes>
    requires Sized(h)
  {
    if shape.length < 0 then None
    else if shape.media == "js" then Some(GenJS(h, seed, shape.length))
    else if shape.media == "image" then Some(GenImage(h, seed, shape))
    else Some(Keystream(h, seed, shape.length))
  }

  /** The longest length that is too short for the media. */
  function Minimum(shape: Shape): int {
    if shape.media == "js" then 18
    else if shape.media == "image" then |ImageBase(shape)|
    else -1
  }

  /** Above the media's minimum a body has exactly the requested length; below it, it is the media's
      smallest valid body. */
  lemma LengthIsExact(h: bytes -> bytes, seed: bytes, shape: Shape)
    requires Sized(h) && shape.length >= 0
    ensures
      var body := Generate(h, seed, shape);
      && body.Some?
      && (shape.length > Minimum(shape) ==> |body.value| == shape.length)
      && (shape.length <= Minimum(shape) ==> body.value == if shape.media == "js" then JS_NOOP else ImageBase(shape))
  {
    assert |JS_PREFIX| + |JS_SUFFIX| == 18;
  }

  /** A padded script opens its comment at the start and closes it only where its suffix begins: no
      byte pair of the padding ends a comment. */
  lemma CommentClosesOnce(h: bytes -> bytes, seed: bytes, length: int, i: nat)
    requires Sized(h) && length > 18 && 2 <= i < length - 1
    ensures
      var body := GenJS(h, seed, length);
      && |body| == length && body[0] == 0x2f && body[1] == 0x2a
      && body[length - 15] == 0x2a && body[length - 14] == 0x2f
      && (i < length - 15 ==> !(body[i] == 0x2a && body[i + 1] == 0x2f))
  {
    var pad := PadText(h, seed, length - 18);
    var body := GenJS(h, seed, length);
    assert |JS_PREFIX| + |JS_SUFFIX| == 18;
    assert body == JS_PREFIX + pad + JS_SUFFIX;
    assert body[length - 15] == JS_SUFFIX[0] && body[length - 14] == JS_SUFFIX[1];
    if 3 <= i < length - 15 {
      assert body[i] == pad[i - 3];
    }
  }

  // ----- ranges of a body -----

  /** How `GenerateRange` ends: with an error, with a slice panic, or with bytes. */
  datatype Ranged = Failed | Panics | Part(value: bytes)

  /** `GenerateRange`: bytes `start` to `end` inclusive of the regenerated body. */
  function GenerateRange(h: bytes -> bytes, seed: bytes, shape: Shape, start: int, end: int): Ranged
    requires Sized(h)
  {
    match Generate(h, seed, shape)
    case None => Failed
    case Some(full) =>
      if start < 0 || start >= |full| then Failed else
      var last := if end >= |full| then |full| - 1 else end;
      if last + 1 < start then Panics else Part(full[start..last + 1])
  }

  /** A range that starts inside the body, and does not end before it starts, holds the bytes of the one
      full body from there to its end or the body's, whichever comes first. Every other start is an
      error, and the program panics exactly on an end more than one before a start inside. */
  lemma RangeOfBody(h: bytes -> bytes, seed: bytes, shape: Shape, full: bytes, start: int, end: int)
    requires Sized(h) && Generate(h, seed, shape) == Some(full)
    ensures
      var part := GenerateRange(h, seed, shape, start, end);
      && (part.Failed? <==> !(0 <= start < |full|))
      && (part.Panics? <==> end + 1 < start && 0 <= start < |full|)
      && (part.Part? ==>
            && |part.value| == (if end < |full| then end + 1 else |full|) - start
            && forall i | 0 <= i < |part.value| :: part.value[i] == full[start + i])
  {
  }

  /** The ranges between successive cuts, one after the other. */
  function Tiled(h: bytes -> bytes, seed: bytes, shape: Shape, cuts: seq<nat>): Option<bytes>
    requires Sized(h) && forall i | 0 < i < |cuts| :: cuts[i - 1] < cuts[i]
  {
    if |cuts| < 2 then Some([]) else
    var n := |cuts| - 1;
    match (Tiled(h, seed, shape, cuts[..n]), GenerateRange(h, seed, shape, cuts[n - 1], cuts[n] - 1))
    case (Some(front), Part(last)) => Some(front + last)
    case _ => None
  }

  lemma {:induction false} TiledIsPrefix(h: bytes -> bytes, seed: bytes, shape: Shape, full: bytes, cuts: seq<nat>)
    requires Sized(h) && Generate(h, seed, shape) == Some(full)
    requires forall i | 0 < i < |cuts| :: cuts[i - 1] < cuts[i]
    requires cuts != [] && cuts[0] == 0 && (|cuts| >= 2 ==> cuts[|cuts| - 2] < |full|)
    ensures
      var end := cuts[|cuts| - 1];
      Tiled(h, seed, shape, cuts) == Some(full[..if end < |full| then end else |full|])
    decreases |cuts|
  {
    hide Generate;
    if |cuts| >= 2 {
      var n := |cuts| - 1;
      TiledIsPrefix(h, seed, shape, full, cuts[..n]);
      var stop := if cuts[n] < |full| then cuts[n] else |full|;
      assert full[..cuts[n - 1]] + full[cuts[n - 1]..stop] == full[..stop];
    }
  }

  /** However a body is cut into ranges, the last of which may ask for more than there is, regenerating
      them one by one and joining them gives the full body. */
  lemma RangesTile(h: bytes -> bytes, seed: bytes, shape: Shape, full: bytes, cuts: seq<nat>)
    requires Sized(h) && Generate(h, seed, shape) == Some(full)
    requires |cuts| >= 2 && cuts[0] == 0 && forall i | 0 < i < |cuts| :: cuts[i - 1] < cuts[i]
    requires cuts[|cuts| - 2] < |full| <= cuts[|cuts| - 1]
    ensures Tiled(h, seed, shape, cuts) == Some(full)
  {
    TiledIsPrefix(h, seed, shape, full, cuts);
    assert full[..|full|] == full;
  }
}
