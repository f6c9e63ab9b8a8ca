/** `passthrough.parseSNI`: the host name in a TLS ClientHello (section 4.1.2 of RFC 8446,
    server_name in section 3 of RFC 6066), over arbitrary bytes. An empty result stands for
    "no name", as the empty string does in the program. */
module ClientHello {
  import opened Wire

  // ----- the parser as a function of its input -----

  /** Drops a vector with a one-byte length prefix. */
  function SkipVector8(b: bytes): Option<bytes> {
    if |b| < 1 || |b| - 1 < b[0] then None else Some(b[1 + b[0]..])
  }

  /** Drops a vector with a two-byte length prefix. */
  function SkipVector16(b: bytes): Option<bytes> {
    if |b| < 2 || |b| - 2 < U16(b) then None else Some(b[2 + U16(b)..])
  }

  /** The contents of a vector with a two-byte length prefix, which must be complete. */
  function TakeVector16(b: bytes): Option<bytes> {
    if |b| < 2 || |b| - 2 < U16(b) then None else Some(b[2..2 + U16(b)])
  }

  /** What follows session_id, cipher_suites and compression_methods. */
  function SkipThroughCompression(b: bytes): Option<bytes> {
    match SkipVector8(b)
    case None => None
    case Some(afterSession) =>
      match SkipVector16(afterSession)
      case None => None
      case Some(afterSuites) => SkipVector8(afterSuites)
  }

  /** The extensions block of a handshake message of type 1, when all of it is present. */
  function ExtensionsBlock(b: bytes): Option<bytes> {
    if |b| < 4 || b[0] != 0x01 || |b| - 4 < 34 then None else
    match SkipThroughCompression(b[38..])
    case None => None
    case Some(rest) => TakeVector16(rest)
  }

  datatype NameScan = Found(name: bytes) | Malformed | Exhausted

  /** The first host_name of a ServerNameList. */
  function ScanNames(list: bytes): NameScan {
    if |list| < 3 then Exhausted else
    match TakeVector16(list[1..])
    case None => Malformed
    case Some(name) =>
      if list[0] == 0 then Found(name) else ScanNames(SkipVector16(list[1..]).value)
  }

  /** The host name found in an extensions block. */
  function ScanExtensions(b: bytes): bytes {
    if |b| < 4 then [] else
    match TakeVector16(b[2..])
    case None => []
    case Some(ext) =>
      var rest := SkipVector16(b[2..]).value;
      if U16(b) != 0 then ScanExtensions(rest) else
      match TakeVector16(ext)
      case None => []
      case Some(list) =>
        match ScanNames(list)
        case Found(name) => name
        case Malformed => []
        case Exhausted => ScanExtensions(rest)
  }

  function ParseSNI(b: bytes): bytes {
    match ExtensionsBlock(b)
    case None => []
    case Some(block) => ScanExtensions(block)
  }

  // ----- the parser as it runs -----

  /** The loop over ServerNameList entries. */
  method ParseNames(list: bytes) returns (r: NameScan)
    ensures r == ScanNames(list)
  {
    var ext := list;
    while |ext| >= 3
      invariant ScanNames(ext) == ScanNames(list)
      decreases |ext|
    {
      ghost var entry := ext[1..];
      var nameType, nameLen := ext[0], U16(ext[1..]);
      ext := ext[3..];
      assert ext == entry[2..];
      if |ext| < nameLen {
        return Malformed;
      }
      var name := ext[..nameLen];
      ext := ext[nameLen..];
      assert name == entry[2..2 + nameLen] && ext == entry[2 + nameLen..];
      if nameType == 0 {
        return Found(name);
      }
    }
    return Exhausted;
  }

  /** The loop over extensions. */
  method ParseExtensions(block: bytes) returns (r: bytes)
    ensures r == ScanExtensions(block)
  {
    var b := block;
    while |b| >= 4
      invariant ScanExtensions(b) == ScanExtensions(block)
      decreases |b|
    {
      ghost var vector := b[2..];
      var extType, extLen := U16(b), U16(b[2..]);
      b := b[4..];
      assert b == vector[2..];
      if |b| < extLen {
        return [];
      }
      var ext := b[..extLen];
      b := b[extLen..];
      assert TakeVector16(vector) == Some(ext) by { assert ext == vector[2..2 + extLen]; }
      assert SkipVector16(vector) == Some(b) by { assert b == vector[2 + extLen..]; }
      if extType != 0x0000 {
        continue;
      }
      if |ext| < 2 {
        return [];
      }
      ghost var body := ext;
      var listLen := U16(ext);
      ext := ext[2..];
      if |ext| < listLen {
        return [];
      }
      assert TakeVector16(body) == Some(ext[..listLen]) by { assert body[2..2 + listLen] == ext[..listLen]; }
      var scan := ParseNames(ext[..listLen]);
      match scan {
        case Found(name) => return name;
        case Malformed => return [];
        case Exhausted =>
      }
    }
    return [];
  }

  /** The whole parser: it consumes `b` field by field, as the program does. */
  method Parse(handshake: bytes) returns (name: bytes)
    ensures name == ParseSNI(handshake)
  {
    var b := handshake;
    if |b| < 4 || b[0] != 0x01 {
      return [];
    }
    b := b[4..];
    if |b| < 34 {
      return [];
    }
    b := b[34..];
    assert b == handshake[38..];
    ghost var whole := b;
    if |b| < 1 {
      return [];
    }
    var sidLen := b[0];
    b := b[1..];
    if |b| < sidLen {
      return [];
    }
    b := b[sidLen..];
    assert SkipVector8(whole) == Some(b) by { assert b == whole[1 + sidLen..]; }
    ghost var afterSession := b;
    if |b| < 2 {
      return [];
    }
    var csLen := U16(b);
    b := b[2..];
    if |b| < csLen {
      return [];
    }
    b := b[csLen..];
    assert SkipVector16(afterSession) == Some(b) by { assert b == afterSession[2 + csLen..]; }
    ghost var afterSuites := b;
    if |b| < 1 {
      return [];
    }
    var cmLen := b[0];
    b := b[1..];
    if |b| < cmLen {
      return [];
    }
    b := b[cmLen..];
    assert SkipVector8(afterSuites) == Some(b) by { assert b == afterSuites[1 + cmLen..]; }
    assert SkipThroughCompression(whole) == Some(b);
    ghost var afterCompression := b;
    if |b| < 2 {
      return [];
    }
    var extTotal := U16(b);
    b := b[2..];
    if |b| < extTotal {
      return [];
    }
    b := b[..extTotal];
    assert TakeVector16(afterCompression) == Some(b) by { assert b == afterCompression[2..2 + extTotal]; }
    name := ParseExtensions(b);
  }

  // ----- stability under extension -----

  lemma SkipThroughCompressionExtends(p: bytes, q: bytes)
    requires SkipThroughCompression(p).Some?
    ensures SkipThroughCompression(p + q) == Some(SkipThroughCompression(p).value + q)
  {
    var s := SkipVector8(p).value;
    assert SkipVector8(p + q).value == s + q;
    var c := SkipVector16(s).value;
    assert SkipVector16(s + q).value == c + q;
    assert SkipVector8(c + q).value == SkipVector8(c).value + q;
  }

  lemma ExtensionsBlockExtends(p: bytes, q: bytes)
    requires ExtensionsBlock(p).Some?
    ensures ExtensionsBlock(p + q) == ExtensionsBlock(p)
  {
    assert (p + q)[38..] == p[38..] + q;
    SkipThroughCompressionExtends(p[38..], q);
    var rest := SkipThroughCompression(p[38..]).value;
    assert U16(rest + q) == U16(rest);
    assert (rest + q)[2..2 + U16(rest)] == rest[2..2 + U16(rest)];
  }

  /** Once the parser has an answer, no further bytes can change it. */
  lemma AnswerIsStable(p: bytes, q: bytes)
    requires ParseSNI(p) != []
    ensures ParseSNI(p + q) == ParseSNI(p)
  {
    ExtensionsBlockExtends(p, q);
  }

  /** The same, said of a prefix of a stream. */
  lemma PrefixAnswersForStream(p: bytes, s: bytes)
    requires p <= s && ParseSNI(p) != []
    ensures ParseSNI(s) == ParseSNI(p)
  {
    assert s == p + s[|p|..];
    AnswerIsStable(p, s[|p|..]);
  }

  // ----- the message format, and parsing as the inverse of writing it -----

  datatype ServerName = ServerName(nameType: byte, name: bytes)

  datatype Extension =
    | ServerNames(names: seq<ServerName>)
    | Other(extType: nat, body: bytes)

  datatype Hello = Hello(
    lengthField: bytes, versionAndRandom: bytes, sessionId: bytes,
    cipherSuites: bytes, compression: bytes, extensions: seq<Extension>)

  function Vector8(v: bytes): bytes
    requires |v| < 256
  {
    [|v|] + v
  }

  function Vector16(v: bytes): bytes
    requires |v| < 65536
  {
    PutU16(|v|) + v
  }

  function EncodeNames(names: seq<ServerName>): bytes
    requires forall n | n in names :: |n.name| < 65536
  {
    if names == [] then []
    else [names[0].nameType] + (Vector16(names[0].name) + EncodeNames(names[1..]))
  }

  predicate ValidExtension(e: Extension) {
    match e
    case ServerNames(names) =>
      (forall n | n in names :: |n.name| < 65536) && |EncodeNames(names)| + 2 < 65536
    case Other(extType, body) => 0 < extType < 65536 && |body| < 65536
  }

  function ExtensionType(e: Extension): (t: nat)
    requires ValidExtension(e)
    ensures t < 65536
  {
    match e
    case ServerNames(_) => 0
    case Other(extType, _) => extType
  }

  function ExtensionBody(e: Extension): (b: bytes)
    requires ValidExtension(e)
    ensures |b| < 65536
  {
    match e
    case ServerNames(names) => Vector16(EncodeNames(names))
    case Other(_, body) => body
  }

  function EncodeExtensions(es: seq<Extension>): bytes
    requires forall e | e in es :: ValidExtension(e)
  {
    if es == [] then []
    else PutU16(ExtensionType(es[0])) + (Vector16(ExtensionBody(es[0])) + EncodeExtensions(es[1..]))
  }

  predicate ValidHello(h: Hello) {
    && |h.lengthField| == 3 && |h.versionAndRandom| == 34
    && |h.sessionId| < 256 && |h.cipherSuites| < 65536 && |h.compression| < 256
    && (forall e | e in h.extensions :: ValidExtension(e))
    && |EncodeExtensions(h.extensions)| < 65536
  }

  function EncodeHello(h: Hello): bytes
    requires ValidHello(h)
  {
    [0x01] + h.lengthField + h.versionAndRandom + EncodeAfterRandom(h)
  }

  function EncodeAfterRandom(h: Hello): bytes
    requires ValidHello(h)
  {
    Vector8(h.sessionId) + (Vector16(h.cipherSuites)
    + (Vector8(h.compression) + Vector16(EncodeExtensions(h.extensions))))
  }

  /** The first entry of type host_name, if any. */
  function FirstHostName(names: seq<ServerName>): Option<bytes> {
    if names == [] then None
    else if names[0].nameType == 0 then Some(names[0].name)
    else FirstHostName(names[1..])
  }

  /** The host name a reader of the message would report: that of the first server_name
      extension that lists one. */
  function HostNameOf(es: seq<Extension>): bytes {
    if es == [] then []
    else if es[0].ServerNames? && FirstHostName(es[0].names).Some? then FirstHostName(es[0].names).value
    else HostNameOf(es[1..])
  }

  lemma Vector8ReadsBack(v: bytes, rest: bytes)
    requires |v| < 256
    ensures SkipVector8(Vector8(v) + rest) == Some(rest)
  {
    assert (Vector8(v) + rest)[1 + |v|..] == rest;
  }

  lemma Vector16ReadsBack(v: bytes, rest: bytes)
    requires |v| < 65536
    ensures TakeVector16(Vector16(v) + rest) == Some(v)
    ensures SkipVector16(Vector16(v) + rest) == Some(rest)
  {
    var b := Vector16(v) + rest;
    assert U16(b) == |v|;
    assert b[2..2 + |v|] == v && b[2 + |v|..] == rest;
  }

  lemma {:induction false} ScanNamesReadsBack(names: seq<ServerName>)
    requires forall n | n in names :: |n.name| < 65536
    ensures ScanNames(EncodeNames(names)) ==
            match FirstHostName(names) case Some(n) => Found(n) case None => Exhausted
  {
    if names != [] {
      var tail := Vector16(names[0].name) + EncodeNames(names[1..]);
      assert EncodeNames(names)[1..] == tail;
      Vector16ReadsBack(names[0].name, EncodeNames(names[1..]));
      ScanNamesReadsBack(names[1..]);
    }
  }

  lemma {:induction false} ScanExtensionsReadsBack(es: seq<Extension>)
    requires forall e | e in es :: ValidExtension(e)
    ensures ScanExtensions(EncodeExtensions(es)) == HostNameOf(es)
  {
    if es != [] {
      var e, b := es[0], EncodeExtensions(es);
      var tail := Vector16(ExtensionBody(e)) + EncodeExtensions(es[1..]);
      assert b[2..] == tail;
      assert U16(b) == U16(PutU16(ExtensionType(e)));
      Vector16ReadsBack(ExtensionBody(e), EncodeExtensions(es[1..]));
      ScanExtensionsReadsBack(es[1..]);
      if e.ServerNames? {
        Vector16ReadsBack(EncodeNames(e.names), []);
        assert ExtensionBody(e) + [] == ExtensionBody(e);
        ScanNamesReadsBack(e.names);
      }
    }
  }

  lemma AfterRandomReadsBack(h: Hello)
    requires ValidHello(h)
    ensures SkipThroughCompression(EncodeAfterRandom(h)) == Some(Vector16(EncodeExtensions(h.extensions)))
  {
    hide Vector8, Vector16, EncodeExtensions, ValidExtension, SkipVector8, SkipVector16;
    var r3 := Vector16(EncodeExtensions(h.extensions));
    var r2 := Vector8(h.compression) + r3;
    Vector8ReadsBack(h.sessionId, Vector16(h.cipherSuites) + r2);
    Vector16ReadsBack(h.cipherSuites, r2);
    Vector8ReadsBack(h.compression, r3);
  }

  /** What precedes the session id. */
  lemma EncodedFront(h: Hello)
    requires ValidHello(h)
    ensures
      var b := EncodeHello(h);
      |b| >= 38 && b[0] == 0x01 && b[38..] == EncodeAfterRandom(h)
  {
    hide EncodeAfterRandom, EncodeExtensions, ValidExtension;
    var front := [0x01] + h.lengthField + h.versionAndRandom;
    assert |front| == 38;
    assert EncodeHello(h) == front + EncodeAfterRandom(h);
  }

  lemma EncodedBlockReadsBack(h: Hello)
    requires ValidHello(h)
    ensures ExtensionsBlock(EncodeHello(h)) == Some(EncodeExtensions(h.extensions))
  {
    hide EncodeHello, EncodeAfterRandom, Vector16, EncodeExtensions, ValidExtension, SkipThroughCompression,
      TakeVector16;
    var block := EncodeExtensions(h.extensions);
    EncodedFront(h);
    AfterRandomReadsBack(h);
    Vector16ReadsBack(block, []);
    assert Vector16(block) + [] == Vector16(block);
  }

  /** Parsing inverts writing: for every well-formed ClientHello, followed by anything, the
      parser reports the first host_name of the first server_name extension that has one. */
  lemma ParsesWhatWasWritten(h: Hello, trailing: bytes)
    requires ValidHello(h)
    ensures ParseSNI(EncodeHello(h) + trailing) == HostNameOf(h.extensions)
  {
    EncodedBlockReadsBack(h);
    ExtensionsBlockExtends(EncodeHello(h), trailing);
    ScanExtensionsReadsBack(h.extensions);
  }
}
