/** Exactly which byte strings the ClientHello parser finds a name in (`internal/passthrough/sni.go`;
    section 4.1.2 of RFC 8446, section 3 of RFC 6066): it reads more than well-formed messages, and these
    are all it reads. */
module HelloRules {
  import opened Wire
  import opened ClientHello

  /** An extension the parser passes over: of another type, or a server_name list without a host_name,
      with up to two bytes left in the list and anything behind it. */
  datatype Passed =
    | OtherType(extType: nat, body: bytes)
    | NoHostName(names: seq<ServerName>, left: bytes, behind: bytes)

  /** A message in which a name is found: what is passed over, the names before the host_name, the name,
      and what follows in the list, in the extension, among the extensions and behind the message. */
  datatype Message = Message(
    lengthField: bytes, versionAndRandom: bytes, sessionId: bytes, cipherSuites: bytes, compression: bytes,
    passed: seq<Passed>, others: seq<ServerName>, name: bytes,
    moreNames: bytes, behindList: bytes, moreExtensions: bytes, trailing: bytes)

  /** Entries of other types. */
  predicate NoHost(names: seq<ServerName>) {
    forall n | n in names :: n.nameType != 0 && |n.name| < 65536
  }

  predicate ValidPassed(x: Passed) {
    match x
    case OtherType(t, body) => 0 < t < 65536 && |body| < 65536
    case NoHostName(names, left, behind) =>
      NoHost(names) && |left| < 3 && |EncodeNames(names) + left| < 65536
      && 2 + |EncodeNames(names) + left| + |behind| < 65536
  }

  function EncodePassed(x: Passed): bytes
    requires ValidPassed(x)
  {
    match x
    case OtherType(t, body) => PutU16(t) + Vector16(body)
    case NoHostName(names, left, behind) => PutU16(0) + Vector16(Vector16(EncodeNames(names) + left) + behind)
  }

  function EncodeAllPassed(xs: seq<Passed>): bytes
    requires forall x | x in xs :: ValidPassed(x)
  {
    if xs == [] then [] else EncodePassed(xs[0]) + EncodeAllPassed(xs[1..])
  }

  /** The server_name list with the host_name. */
  function NameList(m: Message): bytes
    requires NoHost(m.others) && |m.name| < 65536
  {
    EncodeNames(m.others) + ([0] + (Vector16(m.name) + m.moreNames))
  }

  function NameBody(m: Message): bytes
    requires NoHost(m.others) && |m.name| < 65536 && |NameList(m)| < 65536
  {
    Vector16(NameList(m)) + m.behindList
  }

  function Block(m: Message): bytes
    requires (forall x | x in m.passed :: ValidPassed(x)) && NoHost(m.others) && |m.name| < 65536
    requires |NameList(m)| < 65536 && |NameBody(m)| < 65536
  {
    EncodeAllPassed(m.passed) + (PutU16(0) + (Vector16(NameBody(m)) + m.moreExtensions))
  }

  predicate ValidMessage(m: Message) {
    && |m.lengthField| == 3 && |m.versionAndRandom| == 34
    && |m.sessionId| < 256 && |m.cipherSuites| < 65536 && |m.compression| < 256
    && (forall x | x in m.passed :: ValidPassed(x)) && NoHost(m.others) && |m.name| < 65536
    && |NameList(m)| < 65536 && |NameBody(m)| < 65536 && |Block(m)| < 65536
  }

  function EncodeMessage(m: Message): bytes
    requires ValidMessage(m)
  {
    [0x01] + m.lengthField + m.versionAndRandom
    + (Vector8(m.sessionId)
       + (Vector16(m.cipherSuites) + (Vector8(m.compression) + (Vector16(Block(m)) + m.trailing))))
  }

  // ----- such a message is read -----

  lemma {:induction false} NamesArePassed(names: seq<ServerName>, rest: bytes)
    requires NoHost(names)
    ensures ScanNames(EncodeNames(names) + rest) == ScanNames(rest)
  {
    if names == [] {
      assert EncodeNames(names) + rest == rest;
    } else {
      hide Vector16, SkipVector16, TakeVector16;
      var more := EncodeNames(names[1..]) + rest;
      var b := EncodeNames(names) + rest;
      var first := names[0];
      assert b == [first.nameType] + (Vector16(first.name) + more);
      assert b[1..] == Vector16(first.name) + more;
      Vector16ReadsBack(first.name, more);
      assert |Vector16(first.name)| >= 2 by { VectorLength(first.name); }
      NamesArePassed(names[1..], rest);
    }
  }

  lemma VectorLength(v: bytes)
    requires |v| < 65536
    ensures |Vector16(v)| == 2 + |v|
  {
  }

  lemma HostIsFound(name: bytes, more: bytes)
    requires |name| < 65536
    ensures ScanNames([0] + (Vector16(name) + more)) == Found(name)
  {
    hide Vector16, TakeVector16, SkipVector16;
    VectorLength(name);
    Vector16ReadsBack(name, more);
    assert ([0] + (Vector16(name) + more))[1..] == Vector16(name) + more;
  }

  lemma TypeAndBody(t: nat, body: bytes, rest: bytes)
    requires t < 65536 && |body| < 65536
    ensures
      var b := PutU16(t) + Vector16(body) + rest;
      |b| >= 4 && U16(b) == t && TakeVector16(b[2..]) == Some(body) && SkipVector16(b[2..]) == Some(rest)
  {
    hide Vector16, TakeVector16, SkipVector16;
    var b := PutU16(t) + Vector16(body) + rest;
    VectorLength(body);
    Vector16ReadsBack(body, rest);
    assert b[2..] == Vector16(body) + rest;
    assert b[0] == PutU16(t)[0] && b[1] == PutU16(t)[1];
  }

  lemma OneIsPassed(x: Passed, rest: bytes)
    requires ValidPassed(x)
    ensures ScanExtensions(EncodePassed(x) + rest) == ScanExtensions(rest)
  {
    hide Vector16, TakeVector16, SkipVector16, ScanNames, U16, PutU16, EncodeNames;
    match x
    case OtherType(t, body) => TypeAndBody(t, body, rest);
    case NoHostName(names, left, behind) =>
      var list := EncodeNames(names) + left;
      VectorLength(list);
      TypeAndBody(0, Vector16(list) + behind, rest);
      Vector16ReadsBack(list, behind);
      NamesArePassed(names, left);
      LeftIsExhausted(left);
  }

  lemma LeftIsExhausted(left: bytes)
    requires |left| < 3
    ensures ScanNames(left) == Exhausted
  {
  }

  lemma {:induction false} AllArePassed(xs: seq<Passed>, rest: bytes)
    requires forall x | x in xs :: ValidPassed(x)
    ensures ScanExtensions(EncodeAllPassed(xs) + rest) == ScanExtensions(rest)
  {
    hide EncodePassed, ScanExtensions, ValidPassed;
    if xs == [] {
      assert EncodeAllPassed(xs) + rest == rest;
    } else {
      ConcatAssoc(EncodePassed(xs[0]), EncodeAllPassed(xs[1..]), rest);
      OneIsPassed(xs[0], EncodeAllPassed(xs[1..]) + rest);
      AllArePassed(xs[1..], rest);
    }
  }

  lemma BlockIsRead(m: Message)
    requires ValidMessage(m)
    ensures ScanExtensions(Block(m)) == m.name
  {
    hide Vector16, TakeVector16, SkipVector16, ScanNames, U16, PutU16, EncodeNames, EncodeAllPassed,
      ValidPassed, NoHost;
    var list, body := NameList(m), NameBody(m);
    var last := PutU16(0) + Vector16(body) + m.moreExtensions;
    ConcatAssoc(PutU16(0), Vector16(body), m.moreExtensions);
    AllArePassed(m.passed, last);
    TypeAndBody(0, body, m.moreExtensions);
    Vector16ReadsBack(list, m.behindList);
    NamesArePassed(m.others, [0] + (Vector16(m.name) + m.moreNames));
    HostIsFound(m.name, m.moreNames);
  }

  /** In every such message the parser finds its name. */
  lemma MessageIsRead(m: Message)
    requires ValidMessage(m)
    ensures ParseSNI(EncodeMessage(m)) == m.name
  {
    hide Vector8, Vector16, SkipVector8, SkipVector16, TakeVector16, ScanExtensions, Block, NameList, NameBody,
      ValidPassed, NoHost;
    var b := EncodeMessage(m);
    var r3 := Vector16(Block(m)) + m.trailing;
    var r2 := Vector8(m.compression) + r3;
    var r1 := Vector16(m.cipherSuites) + r2;
    var front := [0x01] + m.lengthField + m.versionAndRandom;
    assert |front| == 38 && b == front + (Vector8(m.sessionId) + r1);
    assert b[38..] == Vector8(m.sessionId) + r1 && b[0] == 0x01;
    Vector8ReadsBack(m.sessionId, r1);
    Vector16ReadsBack(m.cipherSuites, r2);
    Vector8ReadsBack(m.compression, r3);
    Vector16ReadsBack(Block(m), m.trailing);
    BlockIsRead(m);
  }

  // ----- nothing else is read -----

  lemma VectorWas(b: bytes)
    requires TakeVector16(b).Some?
    ensures |TakeVector16(b).value| < 65536 && SkipVector16(b).Some?
    ensures b == Vector16(TakeVector16(b).value) + SkipVector16(b).value
  {
    var n := U16(b);
    assert b == b[..2] + b[2..2 + n] + b[2 + n..];
    assert b[..2] == PutU16(n);
  }

  lemma SkippedVector16(b: bytes) returns (v: bytes)
    requires SkipVector16(b).Some?
    ensures |v| < 65536 && b == Vector16(v) + SkipVector16(b).value
  {
    hide Vector16;
    v := TakeVector16(b).value;
    VectorWas(b);
  }

  lemma SkippedVector8(b: bytes) returns (v: bytes)
    requires SkipVector8(b).Some?
    ensures |v| < 256 && b == Vector8(v) + SkipVector8(b).value
  {
    v := b[1..1 + b[0]];
    assert b == [b[0]] + v + b[1 + b[0]..];
  }

  /** What a server_name list begins with: entries of other types, and then a host_name, or an entry that
      is cut short, or fewer bytes than an entry has. */
  lemma {:induction false} NamesWere(list: bytes) returns (names: seq<ServerName>, rest: bytes)
    ensures NoHost(names) && list == EncodeNames(names) + rest && ScanNames(list) == ScanNames(rest)
    ensures |rest| < 3 || TakeVector16(rest[1..]).None? || rest[0] == 0
    decreases |list|
  {
    hide Vector16, TakeVector16, SkipVector16;
    if |list| < 3 || TakeVector16(list[1..]).None? || list[0] == 0 {
      names, rest := [], list;
    } else {
      VectorWas(list[1..]);
      var name := TakeVector16(list[1..]).value;
      var more := SkipVector16(list[1..]).value;
      VectorLength(name);
      assert |list[1..]| == |list| - 1;
      var others;
      others, rest := NamesWere(more);
      var first := ServerName(list[0], name);
      names := [first] + others;
      assert names[1..] == others;
      assert list == [list[0]] + list[1..];
      ConcatAssoc([list[0]], Vector16(name), more);
      assert EncodeNames(names) == [list[0]] + (Vector16(name) + EncodeNames(others));
      assert list == [list[0]] + (Vector16(name) + (EncodeNames(others) + rest));
      assert EncodeNames(names) + rest == [list[0]] + (Vector16(name) + (EncodeNames(others) + rest));
    }
  }

  /** A list in which a host_name is found. */
  lemma FoundWas(list: bytes) returns (others: seq<ServerName>, more: bytes)
    requires ScanNames(list).Found?
    ensures
      var name := ScanNames(list).name;
      NoHost(others) && |name| < 65536 && list == EncodeNames(others) + ([0] + (Vector16(name) + more))
  {
    hide Vector16, TakeVector16, SkipVector16, EncodeNames;
    var rest;
    others, rest := NamesWere(list);
    VectorWas(rest[1..]);
    more := SkipVector16(rest[1..]).value;
    assert rest == [rest[0]] + rest[1..];
  }

  /** A list in which none is, and nothing is cut short. */
  lemma ExhaustedWas(list: bytes) returns (names: seq<ServerName>, left: bytes)
    requires ScanNames(list).Exhausted?
    ensures NoHost(names) && |left| < 3 && list == EncodeNames(names) + left
  {
    hide Vector16, TakeVector16, SkipVector16, EncodeNames;
    names, left := NamesWere(list);
  }

  /** The front of an extensions block the parser goes on after. */
  lemma PassedWas(b: bytes) returns (x: Passed)
    requires |b| >= 4 && TakeVector16(b[2..]).Some?
    requires U16(b) == 0 ==>
               var body := TakeVector16(b[2..]).value;
               TakeVector16(body).Some? && ScanNames(TakeVector16(body).value).Exhausted?
    ensures ValidPassed(x) && b == EncodePassed(x) + SkipVector16(b[2..]).value
  {
    hide Vector16, TakeVector16, SkipVector16, ScanNames, EncodeNames;
    VectorWas(b[2..]);
    var body, rest := TakeVector16(b[2..]).value, SkipVector16(b[2..]).value;
    assert b == PutU16(U16(b)) + b[2..];
    ConcatAssoc(PutU16(U16(b)), Vector16(body), rest);
    if U16(b) != 0 {
      x := OtherType(U16(b), body);
    } else {
      VectorWas(body);
      var list, behind := TakeVector16(body).value, SkipVector16(body).value;
      VectorLength(list);
      var names, left := ExhaustedWas(list);
      x := NoHostName(names, left, behind);
    }
  }

  /** Whatever has a name found in it is such a block. */
  lemma {:induction false} BlockWas(b: bytes)
    returns (passed: seq<Passed>, others: seq<ServerName>, moreNames: bytes, behind: bytes, more: bytes)
    requires ScanExtensions(b) != [] && |b| < 65536
    ensures
      var m := Message([], [], [], [], [], passed, others, ScanExtensions(b), moreNames, behind, more, []);
      && (forall x | x in passed :: ValidPassed(x)) && NoHost(others) && |m.name| < 65536
      && |NameList(m)| < 65536 && |NameBody(m)| < 65536 && b == Block(m)
    decreases |b|
  {
    hide Vector16, TakeVector16, SkipVector16, ScanNames, EncodeNames, ValidPassed, NoHost, PutU16, EncodePassed;
    VectorWas(b[2..]);
    var ext, rest := TakeVector16(b[2..]).value, SkipVector16(b[2..]).value;
    VectorLength(ext);
    if U16(b) == 0 && ScanNames(TakeVector16(ext).value).Found? {
      var list := TakeVector16(ext).value;
      VectorWas(ext);
      others, moreNames := FoundWas(list);
      passed, behind, more := [], SkipVector16(ext).value, rest;
      TypeIsPut(b);
      var m := Message([], [], [], [], [], passed, others, ScanExtensions(b), moreNames, behind, more, []);
      assert NameList(m) == list && NameBody(m) == ext;
      assert EncodeAllPassed([]) == [];
      assert Block(m) == [] + (PutU16(0) + (Vector16(ext) + more));
    } else {
      var x := PassedWas(b);
      assert ScanExtensions(b) == ScanExtensions(rest);
      passed, others, moreNames, behind, more := BlockWas(rest);
      var m := Message([], [], [], [], [], passed, others, ScanExtensions(b), moreNames, behind, more, []);
      PassedCons(x, passed);
      ConcatAssoc(EncodePassed(x), EncodeAllPassed(passed), PutU16(0) + (Vector16(NameBody(m)) + more));
      passed := [x] + passed;
    }
  }

  lemma TypeIsPut(b: bytes)
    requires |b| >= 2
    ensures b == PutU16(U16(b)) + b[2..]
  {
  }

  lemma PassedCons(x: Passed, xs: seq<Passed>)
    requires ValidPassed(x) && forall y | y in xs :: ValidPassed(y)
    ensures (forall y | y in [x] + xs :: ValidPassed(y))
            && EncodeAllPassed([x] + xs) == EncodePassed(x) + EncodeAllPassed(xs)
  {
    hide ValidPassed, EncodePassed;
    assert ([x] + xs)[1..] == xs;
  }

  /** Every byte string in which the parser finds a name is such a message, and the name is its. */
  lemma MessageWas(b: bytes) returns (m: Message)
    requires ParseSNI(b) != []
    ensures ValidMessage(m) && b == EncodeMessage(m) && m.name == ParseSNI(b)
  {
    hide Vector8, Vector16, SkipVector8, SkipVector16, TakeVector16, ScanExtensions, NameList, NameBody, ValidPassed,
      NoHost, EncodeAllPassed;
    var a1 := b[38..];
    var a2 := SkipVector8(a1).value;
    var a3 := SkipVector16(a2).value;
    var a4 := SkipVector8(a3).value;
    var block := TakeVector16(a4).value;
    var sessionId := SkippedVector8(a1);
    var cipherSuites := SkippedVector16(a2);
    var compression := SkippedVector8(a3);
    VectorWas(a4);
    var passed, others, moreNames, behind, more := BlockWas(block);
    m := Message(b[1..4], b[4..38], sessionId, cipherSuites, compression, passed, others, ParseSNI(b), moreNames,
                 behind, more, SkipVector16(a4).value);
    SameBlock(m, block);
    assert b == [b[0]] + b[1..4] + b[4..38] + b[38..];
  }

  lemma SameBlock(m: Message, block: bytes)
    requires (forall x | x in m.passed :: ValidPassed(x)) && NoHost(m.others) && |m.name| < 65536
    requires
      var bare := Message([], [], [], [], [], m.passed, m.others, m.name, m.moreNames, m.behindList,
                          m.moreExtensions, []);
      |NameList(bare)| < 65536 && |NameBody(bare)| < 65536 && Block(bare) == block
    ensures |NameList(m)| < 65536 && |NameBody(m)| < 65536 && Block(m) == block
  {
    hide ValidPassed, NoHost, EncodeNames, Vector16, EncodeAllPassed;
  }

  /** The parser answers a name on exactly the messages that have it. */
  lemma AnswersExactly(b: bytes, name: bytes)
    requires name != []
    ensures ParseSNI(b) == name <==> exists m :: ValidMessage(m) && m.name == name && b == EncodeMessage(m)
  {
    hide ParseSNI, ValidMessage, EncodeMessage;
    if ParseSNI(b) == name {
      var m := MessageWas(b);
    }
    if m :| ValidMessage(m) && m.name == name && b == EncodeMessage(m) {
      MessageIsRead(m);
    }
  }
}
