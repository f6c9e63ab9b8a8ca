/** `SNIExtractor` (`internal/quic/initial.go`): the server name of a ClientHello whose CRYPTO
    chunks are spread over several client datagrams. */
module SniExtractor {
  import opened Wire
  import opened CryptoFrames
  import opened Reassembly
  import opened ClientHello
  import opened Initial

  const GIVE_UP_AFTER := 8

  datatype Extractor = Extractor(chunks: seq<Chunk>, packets: nat)
  datatype Answer = Answer(sni: bytes, done: bool)

  const Fresh := Extractor([], 0)

  /** One `Feed`: the extractor afterwards and what it returned. */
  function FeedStep(c: Ciphers, e: Extractor, data: bytes): (Extractor, Answer)
    requires Lawful(c)
  {
    Absorb(e, ExtractInitial(c, data))
  }

  function Absorb(e: Extractor, extracted: Result<seq<Chunk>>): (Extractor, Answer) {
    var packets := e.packets + 1;
    match extracted
    case Err(_) => (Extractor(e.chunks, packets), Answer([], packets >= GIVE_UP_AFTER))
    case Ok(found) =>
      var chunks := e.chunks + found;
      var sni := ParseSNI(Join(chunks));
      (Extractor(chunks, packets), Answer(sni, sni != [] || packets >= GIVE_UP_AFTER))
  }

  class SNIExtractor {
    var chunks: seq<Chunk>
    var packets: nat

    ghost function State(): Extractor
      reads this
    {
      Extractor(chunks, packets)
    }

    constructor ()
      ensures State() == Fresh
    {
      chunks, packets := [], 0;
    }

    method Feed(c: Ciphers, data: bytes) returns (sni: bytes, done: bool)
      requires Lawful(c)
      modifies this
      ensures (State(), Answer(sni, done)) == FeedStep(c, old(State()), data)
    {
      var extracted := ExtractInitialCrypto(c, data);
      sni, done := Take(extracted);
    }

    /** The part of `Feed` that changes the extractor. */
    method Take(extracted: Result<seq<Chunk>>) returns (sni: bytes, done: bool)
      modifies this
      ensures (State(), Answer(sni, done)) == Absorb(old(State()), extracted)
    {
      packets := packets + 1;
      if extracted.Ok? {
        chunks := chunks + extracted.value;
        var s := NameIn(chunks);
        if s != [] {
          return s, true;
        }
      }
      return [], packets >= GIVE_UP_AFTER;
    }
  }

  method NameIn(chunks: seq<Chunk>) returns (s: bytes)
    ensures s == ParseSNI(Join(chunks))
  {
    var joined := JoinChunks(chunks);
    s := Parse(joined);
  }

  // ----- runs -----

  /** The chunks one datagram contributes; none when extraction fails. */
  function Contribution(c: Ciphers, data: bytes): seq<Chunk>
    requires Lawful(c)
  {
    match ExtractInitial(c, data)
    case Err(_) => []
    case Ok(found) => found
  }

  function Contributions(c: Ciphers, ds: seq<bytes>): seq<Chunk>
    requires Lawful(c)
  {
    if ds == [] then [] else Contributions(c, ds[..|ds| - 1]) + Contribution(c, ds[|ds| - 1])
  }

  /** The extractor after being fed `ds`. */
  function FedWith(c: Ciphers, ds: seq<bytes>): (e: Extractor)
    requires Lawful(c)
    ensures e.packets == |ds| && e.chunks == Contributions(c, ds)
  {
    if ds == [] then Fresh else FeedStep(c, FedWith(c, ds[..|ds| - 1]), ds[|ds| - 1]).0
  }

  /** What the last of a run of `Feed` calls returned. */
  function LastAnswer(c: Ciphers, ds: seq<bytes>): Answer
    requires Lawful(c) && ds != []
  {
    FeedStep(c, FedWith(c, ds[..|ds| - 1]), ds[|ds| - 1]).1
  }

  /** Every chunk of every datagram was cut out of the handshake stream `s`. */
  ghost predicate CarriesStream(c: Ciphers, ds: seq<bytes>, s: bytes)
    requires Lawful(c)
  {
    forall ch | ch in Contributions(c, ds) :: PieceOf(ch, s)
  }

  ghost predicate CompletesStream(c: Ciphers, ds: seq<bytes>, s: bytes)
    requires Lawful(c)
  {
    forall p: nat | p < |s| :: Covered(Contributions(c, ds), p)
  }

  /** Each answer is exactly the parse of the longest prefix of the stream received so far. */
  lemma AnswerIsParseOfPrefix(c: Ciphers, ds: seq<bytes>, s: bytes)
    requires Lawful(c) && ds != [] && CarriesStream(c, ds, s)
    ensures Join(Contributions(c, ds)) <= s
    ensures LastAnswer(c, ds).sni ==
            if ExtractInitial(c, ds[|ds| - 1]).Ok? then ParseSNI(Join(Contributions(c, ds))) else []
    ensures LastAnswer(c, ds).done <==> LastAnswer(c, ds).sni != [] || |ds| >= GIVE_UP_AFTER
  {
    JoinOfPieces(Contributions(c, ds), s);
  }

  /** Soundness: no run ever reports a name other than the one in the stream. */
  lemma EveryAnswerIsRight(c: Ciphers, ds: seq<bytes>, s: bytes)
    requires Lawful(c) && ds != [] && CarriesStream(c, ds, s)
    ensures LastAnswer(c, ds).sni == [] || LastAnswer(c, ds).sni == ParseSNI(s)
  {
    AnswerIsParseOfPrefix(c, ds, s);
    if LastAnswer(c, ds).sni != [] {
      PrefixAnswersForStream(Join(Contributions(c, ds)), s);
    }
  }

  lemma ContributionsGrow(c: Ciphers, ds: seq<bytes>, k: nat)
    requires Lawful(c) && k <= |ds|
    ensures forall ch | ch in Contributions(c, ds[..k]) :: ch in Contributions(c, ds)
    decreases |ds| - k
  {
    if k < |ds| {
      assert ds[..k + 1][..k] == ds[..k];
      ContributionsGrow(c, ds, k + 1);
    } else {
      assert ds[..k] == ds;
    }
  }

  /** Completeness at one datagram: when a datagram that extracts completes the stream, its
      answer is the stream's name. */
  lemma CompletingDatagramAnswers(c: Ciphers, ds: seq<bytes>, s: bytes)
    requires Lawful(c) && ds != [] && CarriesStream(c, ds, s) && CompletesStream(c, ds, s)
    requires ExtractInitial(c, ds[|ds| - 1]).Ok?
    ensures LastAnswer(c, ds).sni == ParseSNI(s)
  {
    AnswerIsParseOfPrefix(c, ds, s);
    JoinOfCoveringPieces(Contributions(c, ds), s);
  }

  /** Completeness of a run: once the datagrams cover the stream, one of them has already been
      answered with its name. In a run of at most eight, nothing before it was given up. */
  lemma {:induction false} NameIsFoundByCompletion(c: Ciphers, ds: seq<bytes>, s: bytes) returns (k: nat)
    requires Lawful(c) && CarriesStream(c, ds, s) && CompletesStream(c, ds, s)
    requires ParseSNI(s) != []
    ensures 0 < k <= |ds| && LastAnswer(c, ds[..k]) == Answer(ParseSNI(s), true)
    ensures |ds| <= GIVE_UP_AFTER ==>
              forall j | 0 < j < k :: LastAnswer(c, ds[..j]).done ==> LastAnswer(c, ds[..j]).sni == ParseSNI(s)
    decreases |ds|
  {
    hide Lawful, LastAnswer, ExtractInitial, PieceOf;
    assert |s| > 0 && Covered(Contributions(c, ds), 0);
    assert ds != [];
    var front := ds[..|ds| - 1];
    if ExtractInitial(c, ds[|ds| - 1]).Ok? {
      CompletingDatagramAnswers(c, ds, s);
      AnswerIsParseOfPrefix(c, ds, s);
      k := |ds|;
      assert ds[..k] == ds;
    } else {
      assert Contributions(c, ds) == Contributions(c, front);
      k := NameIsFoundByCompletion(c, front, s);
      assert front[..k] == ds[..k];
    }
    forall j | 0 < j < k && LastAnswer(c, ds[..j]).done && |ds| <= GIVE_UP_AFTER
      ensures LastAnswer(c, ds[..j]).sni == ParseSNI(s)
    {
      ContributionsGrow(c, ds, j);
      AnswerIsParseOfPrefix(c, ds[..j], s);
      EveryAnswerIsRight(c, ds[..j], s);
    }
  }

  // ----- from the client's ClientHello to the relay's answer -----

  /** One client datagram: an Initial carrying `frames`, and whatever is coalesced after it. */
  datatype Sent = Sent(packet: Packet, frames: seq<Frame>, trailing: bytes)

  predicate ValidSent(d: Sent) {
    && ValidPacket(d.packet)
    && (forall f | f in d.frames :: ValidFrame(f))
    && d.packet.payload == EncodeFrames(d.frames)
  }

  function Datagram(c: Ciphers, d: Sent): bytes
    requires Lawful(c) && ValidSent(d)
  {
    Protect(c, d.packet) + d.trailing
  }

  function OnTheWire(c: Ciphers, sent: seq<Sent>): (ds: seq<bytes>)
    requires Lawful(c) && forall d | d in sent :: ValidSent(d)
    ensures |ds| == |sent|
  {
    if sent == [] then [] else OnTheWire(c, sent[..|sent| - 1]) + [Datagram(c, sent[|sent| - 1])]
  }

  function AllChunks(sent: seq<Sent>): seq<Chunk> {
    if sent == [] then [] else AllChunks(sent[..|sent| - 1]) + ChunksOf(sent[|sent| - 1].frames)
  }

  lemma {:induction false} WireCarriesChunks(c: Ciphers, sent: seq<Sent>)
    requires Lawful(c) && forall d | d in sent :: ValidSent(d)
    ensures Contributions(c, OnTheWire(c, sent)) == AllChunks(sent)
  {
    if sent != [] {
      var front, last := sent[..|sent| - 1], sent[|sent| - 1];
      var ds := OnTheWire(c, sent);
      assert ds[..|ds| - 1] == OnTheWire(c, front);
      WireCarriesChunks(c, front);
      DatagramContributes(c, last);
    }
  }

  lemma DatagramContributes(c: Ciphers, d: Sent)
    requires Lawful(c) && ValidSent(d)
    ensures Contribution(c, Datagram(c, d)) == ChunksOf(d.frames)
  {
    ExtractRecoversFrames(c, d.packet, d.frames, d.trailing);
  }

  /** End to end: however a client cuts its ClientHello into CRYPTO frames, and in whatever order
      and with whatever repetition it sends them, in protected Initials, the extractor has
      reported the message's host name by the time the message is complete. */
  lemma ClientHelloIsRecovered(c: Ciphers, h: Hello, tail: bytes, sent: seq<Sent>) returns (k: nat)
    requires Lawful(c) && ValidHello(h) && HostNameOf(h.extensions) != []
    requires forall d | d in sent :: ValidSent(d)
    requires forall ch | ch in AllChunks(sent) :: PieceOf(ch, EncodeHello(h) + tail)
    requires forall p: nat | p < |EncodeHello(h) + tail| :: Covered(AllChunks(sent), p)
    ensures 0 < k <= |sent|
    ensures LastAnswer(c, OnTheWire(c, sent)[..k]) == Answer(HostNameOf(h.extensions), true)
  {
    var s := EncodeHello(h) + tail;
    ParsesWhatWasWritten(h, tail);
    WireCarriesChunks(c, sent);
    k := NameIsFoundByCompletion(c, OnTheWire(c, sent), s);
  }
}
