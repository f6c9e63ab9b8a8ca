/** Serving decoys with byte ranges (`internal/mimic/handler.go`; section 14.1.2 of RFC 9110). What
    probing and classifying a request gives, the clock and the per-request nonce are inputs. */
module DecoyServer {
  import opened Collections
  import opened Wire
  import opened Decoy

  // ----- decimal numbers -----

  const INT64_MAX := 0x7fff_ffff_ffff_ffff

  predicate IsDigit(c: char) {
    '0' <= c <= '9'
  }

  function DigitValue(c: char): (d: nat)
    requires IsDigit(c)
    ensures d < 10
  {
    (c as int) - ('0' as int)
  }

  function DigitChar(d: nat): (c: char)
    requires d < 10
    ensures IsDigit(c) && DigitValue(c) == d
  {
    ('0' as int + d) as char
  }

  predicate AllDigits(s: string) {
    forall i | 0 <= i < |s| :: IsDigit(s[i])
  }

  function DigitsValue(s: string): nat
    requires AllDigits(s)
  {
    if s == "" then 0 else DigitsValue(s[..|s| - 1]) * 10 + DigitValue(s[|s| - 1])
  }

  /** `strconv.ParseInt` in base 10: an optional sign, at least one digit, and a value that fits. */
  function ParseInt(s: string): Option<int> {
    if s == "" then None else
    var digits := if s[0] == '+' || s[0] == '-' then s[1..] else s;
    if digits == "" || !AllDigits(digits) then None else
    var v: int := if s[0] == '-' then 0 - DigitsValue(digits) else DigitsValue(digits);
    if -INT64_MAX - 1 <= v <= INT64_MAX then Some(v) else None
  }

  function Format(n: nat): (s: string)
    ensures s != "" && AllDigits(s)
  {
    if n < 10 then [DigitChar(n)] else Format(n / 10) + [DigitChar(n % 10)]
  }

  lemma {:induction false} FormatValue(n: nat)
    ensures DigitsValue(Format(n)) == n
  {
    var s := Format(n);
    if n < 10 {
      assert s[..0] == "";
    } else {
      FormatValue(n / 10);
      assert s[..|s| - 1] == Format(n / 10);
    }
  }

  lemma ParseInvertsFormat(n: nat)
    requires n <= INT64_MAX
    ensures ParseInt(Format(n)) == Some(n)
  {
    FormatValue(n);
    assert IsDigit(Format(n)[0]);
  }

  // ----- the Range header -----

  /** Where `c` first is, or the length. */
  function FirstIndex(s: string, c: char): (i: nat)
    ensures i <= |s| && (i < |s| ==> s[i] == c) && forall j | 0 <= j < i :: s[j] != c
  {
    if s == "" then 0 else if s[0] == c then 0 else 1 + FirstIndex(s[1..], c)
  }

  const PREFIX := "bytes="

  /** `parseRange`: first and last position of a single range of a body of `size` bytes. */
  function ParseRange(header: string, size: int): Option<(int, int)> {
    if !(PREFIX <= header) then None else
    var spec := header[|PREFIX|..];
    if ',' in spec then None else
    var dash := FirstIndex(spec, '-');
    if dash == |spec| then None
    else RangeOf(spec[..dash], spec[dash + 1..], size)
  }

  function RangeOf(startS: string, endS: string, size: int): Option<(int, int)> {
    if startS == "" then
      if endS == "" then None else
      match ParseInt(endS)
      case None => None
      case Some(n) => if n <= 0 then None else Some((size - (if n > size then size else n), size - 1))
    else
      match ParseInt(startS)
      case None => None
      case Some(s) =>
        if s < 0 || s >= size then None
        else if endS == "" then Some((s, size - 1))
        else
          match ParseInt(endS)
          case None => None
          case Some(e) => if e < s then None else Some((s, if e >= size then size - 1 else e))
  }

  /** A parsed range of a body lies inside it exactly when the body is not empty: of an empty body only
      a suffix is granted, as the empty range from 0 to -1. */
  lemma RangeIsInside(header: string, size: nat)
    requires ParseRange(header, size).Some?
    ensures var (first, last) := ParseRange(header, size).value;
            0 <= first <= last + 1 <= size && (first <= last <==> size > 0)
  {
  }

  /** The header a client writes for the bytes from `a` to `b`. */
  function RangeHeader(a: nat, b: nat): string {
    PREFIX + (Format(a) + "-" + Format(b))
  }

  /** Parsing inverts writing, up to the end of the body. */
  lemma ParseInvertsHeader(a: nat, b: nat, size: nat)
    requires a <= b <= INT64_MAX && a < size
    ensures ParseRange(RangeHeader(a, b), size) == Some((a, if b >= size then size - 1 else b))
  {
    hide ParseInt, Format, AllDigits, FirstIndex;
    HeaderParts(a, b);
    ParseInvertsFormat(a);
    ParseInvertsFormat(b);
  }

  /** A range that starts at or after the end of the body is not granted. */
  lemma StartPastTheEnd(a: nat, b: nat, size: nat)
    requires size <= a <= b <= INT64_MAX
    ensures ParseRange(RangeHeader(a, b), size) == None
  {
    hide ParseInt, Format, AllDigits, FirstIndex;
    HeaderParts(a, b);
    ParseInvertsFormat(a);
  }

  /** How the parser splits a header. */
  lemma HeaderParts(a: nat, b: nat)
    ensures
      var header := RangeHeader(a, b);
      && PREFIX <= header && ',' !in header[|PREFIX|..]
      && var dash := FirstIndex(header[|PREFIX|..], '-');
      && dash < |header[|PREFIX|..]|
      && header[|PREFIX|..][..dash] == Format(a) && header[|PREFIX|..][dash + 1..] == Format(b)
  {
    hide ParseInt, Format, AllDigits, FirstIndex;
    var fa, fb := Format(a), Format(b);
    var spec := fa + "-" + fb;
    var header := RangeHeader(a, b);
    assert header[..|PREFIX|] == PREFIX && header[|PREFIX|..] == spec;
    NoComma(fa, fb);
    DashIsBetween(fa, fb);
    assert spec[..|fa|] == fa && spec[|fa| + 1..] == fb;
  }

  lemma NoComma(fa: string, fb: string)
    requires AllDigits(fa) && AllDigits(fb)
    ensures ',' !in fa + "-" + fb
  {
    var spec := fa + "-" + fb;
    forall i | 0 <= i < |spec| ensures spec[i] != ',' {
      if i < |fa| {
        assert spec[i] == fa[i] && IsDigit(fa[i]);
      } else if i > |fa| {
        assert spec[i] == fb[i - |fa| - 1] && IsDigit(fb[i - |fa| - 1]);
      }
    }
  }

  lemma DashIsBetween(fa: string, fb: string)
    requires AllDigits(fa)
    ensures FirstIndex(fa + "-" + fb, '-') == |fa|
  {
    var spec := fa + "-" + fb;
    assert spec[|fa|] == '-';
    forall j | 0 <= j < |fa| ensures spec[j] != '-' {
      assert spec[j] == fa[j] && IsDigit(fa[j]);
    }
  }

  // ----- the response -----

  /** What `write` sends: status, content type, the range it states, the length it states, and the body. */
  datatype Response = Response(
    status: int, contentType: string, contentRange: Option<(int, int)>, contentLength: int, body: bytes)

  /** `range` is empty when there is no such header; a HEAD request gets no body. */
  function Respond(contentType: string, full: bytes, range: string, head: bool): Response {
    var whole := Response(200, contentType, None, |full|, if head then [] else full);
    if range == "" then whole else
    match ParseRange(range, |full|)
    case None => whole
    case Some((first, last)) =>
      RangeIsInside(range, |full|);
      Response(206, contentType, Some((first, last)), last - first + 1, if head then [] else full[first..last + 1])
  }

  /** A request for bytes `a` to `b` of a body is answered with exactly those. */
  lemma PieceOfBody(contentType: string, full: bytes, a: nat, b: nat)
    requires a <= b < |full| && b <= INT64_MAX
    ensures Respond(contentType, full, RangeHeader(a, b), false) ==
            Response(206, contentType, Some((a, b)), b + 1 - a, full[a..b + 1])
  {
    hide ParseRange, RangeHeader;
    ParseInvertsHeader(a, b, |full|);
    HeaderIsNotEmpty(a, b);
  }

  lemma HeaderIsNotEmpty(a: nat, b: nat)
    ensures RangeHeader(a, b) != ""
  {
    assert RangeHeader(a, b)[0] == 'b';
  }

  /** The answer is bytes `a` to `b` of `full`. */
  predicate IsPiece(r: Option<Response>, full: bytes, a: nat, b: nat)
    requires a <= b < |full|
  {
    r.Some? && r.value.status == 206 && r.value.body == full[a..b + 1]
  }

  /** What is served from one body is a piece of another exactly when the two agree there. */
  lemma PieceOfOther(contentType: string, body: bytes, full: bytes, a: nat, b: nat)
    requires a <= b < |full| && b <= INT64_MAX
    ensures IsPiece(Some(Respond(contentType, body, RangeHeader(a, b), false)), full, a, b) <==>
            b < |body| && body[a..b + 1] == full[a..b + 1]
  {
    hide ParseRange, RangeHeader;
    HeaderIsNotEmpty(a, b);
    if a < |body| {
      ParseInvertsHeader(a, b, |body|);
    } else {
      StartPastTheEnd(a, b, |body|);
    }
  }

  // ----- the cache of shapes -----

  datatype CachedDecoy = CachedDecoy(shape: Shape, seed: bytes, hash: bytes)
  datatype CacheEntry = CacheEntry(decoy: CachedDecoy, used: int)

  type Cache = map<bytes, CacheEntry>

  /** `after` is `before` with least recently used entries dropped, as many as exceed `max`: none that
      was dropped was used later than one that stayed. */
  ghost predicate Trimmed(before: Cache, after: Cache, max: nat) {
    && (forall k | k in after :: k in before && after[k] == before[k])
    && (forall k, d | k in after && d in before && d !in after :: before[d].used <= before[k].used)
    && (if |before| <= max then after == before else |after| == max)
  }

  method Oldest(cache: Cache) returns (key: bytes)
    requires cache != map[]
    ensures key in cache && forall k | k in cache :: cache[key].used <= cache[k].used
  {
    var todo := cache.Keys;
    assert todo != {};
    key :| key in todo;
    todo := todo - {key};
    while todo != {}
      invariant key in cache && todo <= cache.Keys
      invariant forall k | k in cache && k !in todo :: cache[key].used <= cache[k].used
      decreases |todo|
    {
      var k :| k in todo;
      todo := todo - {k};
      if cache[k].used < cache[key].used {
        key := k;
      }
    }
  }

  /** The eviction loop of `storeDecoy`. */
  method Evict(cache: Cache, max: nat) returns (out: Cache)
    requires max >= 1
    ensures Trimmed(cache, out, max)
  {
    out := cache;
    while |out| > max
      invariant forall k | k in out :: k in cache && out[k] == cache[k]
      invariant forall k, d | k in out && d in cache && d !in out :: cache[d].used <= cache[k].used
      invariant |cache| <= max ==> out == cache
      invariant |cache| > max ==> |out| >= max
      decreases |out|
    {
      var oldest := Oldest(out);
      assert (out - {oldest}).Keys == out.Keys - {oldest};
      out := out - {oldest};
    }
  }

  /** The cached shape of a URL, or else what probing gives. */
  function ShapeFor(cache: Cache, url: bytes, probed: Shape): Shape {
    if url in cache then cache[url].decoy.shape else probed
  }

  // ----- one request -----

  datatype Settings = Settings(h: bytes -> bytes, deterministic: bool, maxBytes: int, allowVideo: bool, cacheMax: nat)

  ghost predicate Proper(k: Settings) {
    Sized(k.h) && k.cacheMax >= 1
  }

  /** `probed` is the shape that probing would give; it is used only when no shape is cached. */
  datatype Request = Request(url: bytes, probed: Shape, nonce: bytes, range: string, head: bool, now: int)

  function SeedFor(k: Settings, q: Request): bytes {
    if k.deterministic then q.url else q.url + [0x23] + q.nonce
  }

  /** Nothing is served for video without leave, for what is too large, or for a shape that cannot be
      generated. */
  function BodyFor(k: Settings, seed: bytes, shape: Shape): Option<bytes>
    requires Sized(k.h)
  {
    if (shape.media == "video" && !k.allowVideo) || shape.length > k.maxBytes then None
    else Generate(k.h, seed, shape)
  }

  /** `Lookup` marks the entry as used. */
  function Touched(cache: Cache, url: bytes, now: int): Cache {
    if url in cache then cache[url := cache[url].(used := now)] else cache
  }

  function Stored(k: Settings, cache: Cache, q: Request, shape: Shape, body: bytes): Cache {
    cache[q.url := CacheEntry(CachedDecoy(shape, SeedFor(k, q), k.h(body)), q.now)]
  }

  /** `Serve`: the cache afterwards, up to the order in which entries used at the same time are dropped,
      and what was sent, if anything. */
  ghost predicate ServeStep(k: Settings, cache: Cache, q: Request, cache': Cache, r: Option<Response>)
    requires Proper(k)
  {
    var shape := ShapeFor(cache, q.url, q.probed);
    match BodyFor(k, SeedFor(k, q), shape)
    case None => r == None && cache' == Touched(cache, q.url, q.now)
    case Some(body) =>
      && r == Some(Respond(shape.contentType, body, q.range, q.head))
      && Trimmed(Stored(k, cache, q, shape, body), cache', k.cacheMax)
  }

  class Handler {
    const settings: Settings
    var cache: Cache

    ghost predicate Valid()
      reads this
    {
      Proper(settings) && |cache| <= settings.cacheMax
    }

    constructor (h: bytes -> bytes, deterministic: bool, maxBytes: int, allowVideo: bool, cacheMax: int)
      requires Sized(h)
      ensures Valid() && cache == map[]
      ensures settings == Settings(h, deterministic, if maxBytes <= 0 then 0x80_0000 else maxBytes, allowVideo,
                                   if cacheMax <= 0 then 512 else cacheMax)
    {
      settings := Settings(h, deterministic, if maxBytes <= 0 then 0x80_0000 else maxBytes, allowVideo,
                           if cacheMax <= 0 then 512 else cacheMax);
      cache := map[];
    }

    /** Stores what was served, then evicts. */
    method StoreDecoy(url: bytes, d: CachedDecoy, now: int)
      requires Valid()
      modifies this`cache
      ensures Valid() && Trimmed(old(cache)[url := CacheEntry(d, now)], cache, settings.cacheMax)
    {
      cache := cache[url := CacheEntry(d, now)];
      cache := Evict(cache, settings.cacheMax);
    }

    /** Finds the cached decoy of a URL and marks it as used. */
    method Lookup(url: bytes, now: int) returns (found: Option<CachedDecoy>)
      requires Valid()
      modifies this`cache
      ensures Valid() && cache == Touched(old(cache), url, now)
      ensures found == if url in old(cache) then Some(old(cache)[url].decoy) else None
    {
      if url !in cache {
        return None;
      }
      found := Some(cache[url].decoy);
      cache := cache[url := cache[url].(used := now)];
      assert cache.Keys == old(cache).Keys;
      assert |cache| == |cache.Keys| == |old(cache)|;
    }

    method Serve(q: Request) returns (r: Option<Response>)
      requires Valid()
      modifies this`cache
      ensures Valid() && ServeStep(settings, old(cache), q, cache, r)
    {
      hide Generate, Respond, Trimmed;
      var shape := q.probed;
      var cached := Lookup(q.url, q.now);
      if cached.Some? {
        shape := cached.value.shape;
      }
      if (shape.media == "video" && !settings.allowVideo) || shape.length > settings.maxBytes {
        return None;
      }
      var seed := q.url;
      if !settings.deterministic {
        seed := seed + [0x23] + q.nonce;
      }
      var full := Generate(settings.h, seed, shape);
      if full.None? {
        return None;
      }
      var d := CachedDecoy(shape, seed, settings.h(full.value));
      var entry := CacheEntry(d, q.now);
      assert Touched(old(cache), q.url, q.now)[q.url := entry] == old(cache)[q.url := entry];
      StoreDecoy(q.url, d, q.now);
      return Some(Respond(shape.contentType, full.value, q.range, q.head));
    }
  }

  // ----- runs: any requests, in any order, at any times -----

  ghost predicate IsRun(k: Settings, caches: seq<Cache>, qs: seq<Request>, rs: seq<Option<Response>>)
    requires Proper(k)
  {
    && |caches| == |qs| + 1 && |rs| == |qs|
    && forall i | 0 <= i < |qs| :: ServeStep(k, caches[i], qs[i], caches[i + 1], rs[i])
  }

  /** A handler that serves some requests goes through such a run. */
  method ServeAll(server: Handler, qs: seq<Request>) returns (rs: seq<Option<Response>>, ghost caches: seq<Cache>)
    requires server.Valid()
    modifies server`cache
    ensures server.Valid() && IsRun(server.settings, caches, qs, rs)
    ensures caches[0] == old(server.cache) && caches[|qs|] == server.cache
  {
    hide ServeStep;
    rs, caches := [], [server.cache];
    for i := 0 to |qs|
      invariant server.Valid() && IsRun(server.settings, caches, qs[..i], rs)
      invariant caches[0] == old(server.cache) && caches[i] == server.cache
    {
      var r := server.Serve(qs[i]);
      rs, caches := rs + [r], caches + [server.cache];
    }
    assert qs[..|qs|] == qs;
  }

  /** A request for `url` that finds nothing cached. */
  predicate Misses(caches: seq<Cache>, qs: seq<Request>, url: bytes, i: nat)
    requires i < |qs| < |caches|
  {
    qs[i].url == url && url !in caches[i]
  }

  /** The shape that requests for `url` were last given before request `i`: what the latest miss was
      probed as, or what was cached at the start. */
  function LatestShape(caches: seq<Cache>, qs: seq<Request>, url: bytes, i: nat): Option<Shape>
    requires i <= |qs| < |caches|
    decreases i
  {
    if i == 0 then if url in caches[0] then Some(caches[0][url].decoy.shape) else None
    else if Misses(caches, qs, url, i - 1) then Some(qs[i - 1].probed)
    else LatestShape(caches, qs, url, i - 1)
  }

  /** One request leaves every cached shape as it is, and caches the shape it saw for its own URL. */
  lemma StepKeepsShapes(k: Settings, cache: Cache, q: Request, cache': Cache, r: Option<Response>, url: bytes)
    requires Proper(k) && ServeStep(k, cache, q, cache', r) && url in cache'
    ensures cache'[url].decoy.shape == ShapeFor(cache, url, q.probed)
    ensures url in cache || url == q.url
  {
    hide Generate, Respond;
  }

  lemma {:induction false} CachedIsLatest(k: Settings, caches: seq<Cache>, qs: seq<Request>,
                                          rs: seq<Option<Response>>, url: bytes, i: nat)
    requires Proper(k) && IsRun(k, caches, qs, rs) && i <= |qs| && url in caches[i]
    ensures LatestShape(caches, qs, url, i) == Some(caches[i][url].decoy.shape)
    decreases i
  {
    hide ServeStep;
    if i > 0 {
      StepKeepsShapes(k, caches[i - 1], qs[i - 1], caches[i], rs[i - 1], url);
      if url in caches[i - 1] {
        CachedIsLatest(k, caches, qs, rs, url, i - 1);
      }
    }
  }

  /** The shape a request sees: its own probe when it misses, and otherwise the latest one before it. */
  lemma SeenIsLatest(k: Settings, caches: seq<Cache>, qs: seq<Request>, rs: seq<Option<Response>>, i: nat)
    requires Proper(k) && IsRun(k, caches, qs, rs) && i < |qs|
    ensures LatestShape(caches, qs, qs[i].url, i + 1) == Some(ShapeFor(caches[i], qs[i].url, qs[i].probed))
  {
    hide ServeStep;
    if qs[i].url in caches[i] {
      CachedIsLatest(k, caches, qs, rs, qs[i].url, i);
    }
  }

  /** In every run of a deterministic handler, whatever is requested in between and whatever the clock
      says, a range of a URL is answered with that piece of `full` exactly when the body of the latest
      shape has the piece: always, when that shape's body is `full`. And what is then cached for the URL
      is that shape and the hash of its body. */
  lemma PieceFollowsShape(k: Settings, caches: seq<Cache>, qs: seq<Request>, rs: seq<Option<Response>>, i: nat,
                          full: bytes, a: nat, b: nat)
    requires Proper(k) && k.deterministic && IsRun(k, caches, qs, rs) && i < |qs|
    requires a <= b < |full| && b <= INT64_MAX && qs[i].range == RangeHeader(a, b) && !qs[i].head
    ensures
      var url := qs[i].url;
      var latest := LatestShape(caches, qs, url, i + 1);
      && latest.Some?
      && var body := BodyFor(k, url, latest.value);
      && (IsPiece(rs[i], full, a, b) <==> body.Some? && b < |body.value| && body.value[a..b + 1] == full[a..b + 1])
      && (body == Some(full) ==> IsPiece(rs[i], full, a, b))
      && (body.Some? && url in caches[i + 1] ==>
            caches[i + 1][url].decoy == CachedDecoy(latest.value, url, k.h(body.value)))
  {
    hide Respond, RangeHeader, BodyFor;
    assert ServeStep(k, caches[i], qs[i], caches[i + 1], rs[i]);
    SeenIsLatest(k, caches, qs, rs, i);
    var shape := ShapeFor(caches[i], qs[i].url, qs[i].probed);
    var body := BodyFor(k, qs[i].url, shape);
    if body.Some? {
      PieceOfOther(shape.contentType, body.value, full, a, b);
    }
  }

  // ----- tiling -----

  /** A client's request `at` asks for bytes `first` to `last`. */
  datatype Ask = Ask(at: nat, first: nat, last: nat)

  predicate IsAsk(qs: seq<Request>, url: bytes, ask: Ask) {
    && ask.at < |qs| && ask.first <= ask.last <= INT64_MAX
    && qs[ask.at].url == url && qs[ask.at].range == RangeHeader(ask.first, ask.last) && !qs[ask.at].head
  }

  /** The ranges asked for follow each other from 0 to `end`. */
  predicate Tiles(asks: seq<Ask>, end: int) {
    if asks == [] then end == 0 else
    var ask := asks[|asks| - 1];
    ask.first <= ask.last && ask.last + 1 == end && Tiles(asks[..|asks| - 1], ask.first)
  }

  /** The bodies of the answers, joined. */
  function Joined(rs: seq<Option<Response>>, asks: seq<Ask>): bytes
    requires forall ask | ask in asks :: ask.at < |rs|
  {
    if asks == [] then [] else
    var r := rs[asks[|asks| - 1].at];
    Joined(rs, asks[..|asks| - 1]) + if r.Some? then r.value.body else []
  }

  lemma {:induction false} TilesAreInside(asks: seq<Ask>, end: int, ask: Ask)
    requires Tiles(asks, end) && ask in asks
    ensures ask.first <= ask.last < end
  {
    var n := |asks| - 1;
    if ask != asks[n] {
      TilesAreInside(asks[..n], asks[n].first, ask);
    }
  }

  lemma JoinPieces(full: bytes, a: nat, b: nat)
    requires a <= b <= |full|
    ensures full[..a] + full[a..b] == full[..b]
  {
  }

  lemma {:induction false} PiecesJoin(rs: seq<Option<Response>>, full: bytes, asks: seq<Ask>, end: nat)
    requires Tiles(asks, end) && end <= |full|
    requires forall ask | ask in asks ::
      ask.at < |rs| && ask.first <= ask.last < |full| && IsPiece(rs[ask.at], full, ask.first, ask.last)
    ensures Joined(rs, asks) == full[..end]
    decreases |asks|
  {
    if asks != [] {
      var ask := asks[|asks| - 1];
      PiecesJoin(rs, full, asks[..|asks| - 1], ask.first);
      JoinPieces(full, ask.first, end);
    }
  }

  /** In every run of a deterministic handler, a client that asks for the pieces of one body, over any
      cuts, in any order, among any other requests, receives exactly that body whenever each of its
      requests sees the body's shape; and whatever is then cached for the URL has the body's hash. */
  lemma PiecesTile(k: Settings, caches: seq<Cache>, qs: seq<Request>, rs: seq<Option<Response>>,
                   url: bytes, shape: Shape, full: bytes, asks: seq<Ask>)
    requires Proper(k) && k.deterministic && IsRun(k, caches, qs, rs)
    requires BodyFor(k, url, shape) == Some(full) && Tiles(asks, |full|)
    requires forall ask | ask in asks ::
      && IsAsk(qs, url, ask) && ask.at < |rs|
      && LatestShape(caches, qs, url, ask.at + 1) == Some(shape)
    ensures Joined(rs, asks) == full
    ensures forall ask | ask in asks && url in caches[ask.at + 1] ::
      caches[ask.at + 1][url].decoy.hash == k.h(full)
  {
    hide IsRun, BodyFor, LatestShape, IsPiece, RangeHeader, Tiles, Joined;
    RunLengths(k, caches, qs, rs);
    forall ask | ask in asks
      ensures ask.first <= ask.last < |full| && IsPiece(rs[ask.at], full, ask.first, ask.last)
      ensures url in caches[ask.at + 1] ==> caches[ask.at + 1][url].decoy.hash == k.h(full)
    {
      TilesAreInside(asks, |full|, ask);
      PieceFollowsShape(k, caches, qs, rs, ask.at, full, ask.first, ask.last);
    }
    PiecesJoin(rs, full, asks, |full|);
    assert full[..|full|] == full;
  }

  lemma RunLengths(k: Settings, caches: seq<Cache>, qs: seq<Request>, rs: seq<Option<Response>>)
    requires Proper(k) && IsRun(k, caches, qs, rs)
    ensures |rs| == |qs| && |caches| == |qs| + 1
  {
  }

  /** Probing always gives `shape` when it is asked, and so did whatever is cached. */
  ghost predicate StableProbe(caches: seq<Cache>, qs: seq<Request>, url: bytes, shape: Shape)
    requires |qs| < |caches|
  {
    && (url in caches[0] ==> caches[0][url].decoy.shape == shape)
    && forall i | 0 <= i < |qs| && Misses(caches, qs, url, i) :: qs[i].probed == shape
  }

  /** Then every request for the URL sees that shape. */
  lemma StableProbeIsSeen(k: Settings, caches: seq<Cache>, qs: seq<Request>, rs: seq<Option<Response>>,
                          url: bytes, shape: Shape, i: nat)
    requires Proper(k) && IsRun(k, caches, qs, rs) && StableProbe(caches, qs, url, shape)
    requires i < |qs| && qs[i].url == url
    ensures LatestShape(caches, qs, url, i + 1) == Some(shape)
  {
    hide IsRun;
    RunLengths(k, caches, qs, rs);
    StableLatest(caches, qs, url, shape, i + 1);
    SeenIsLatest(k, caches, qs, rs, i);
  }

  lemma {:induction false} StableLatest(caches: seq<Cache>, qs: seq<Request>, url: bytes, shape: Shape, i: nat)
    requires |qs| < |caches| && StableProbe(caches, qs, url, shape) && i <= |qs|
    ensures LatestShape(caches, qs, url, i) in {None, Some(shape)}
    decreases i
  {
    if i > 0 {
      StableLatest(caches, qs, url, shape, i - 1);
    }
  }

  // ----- how long an entry stays -----

  /** The clock advances with every request, and is past everything cached at the start. */
  ghost predicate Advancing(caches: seq<Cache>, qs: seq<Request>)
    requires |qs| < |caches|
  {
    && (forall i, j | 0 <= i < j < |qs| :: qs[i].now < qs[j].now)
    && (forall u | qs != [] && u in caches[0] :: caches[0][u].used < qs[0].now)
  }

  /** The other URLs requested after `f` and before `i`. */
  function Others(qs: seq<Request>, url: bytes, f: nat, i: nat): set<bytes>
    requires i <= |qs|
  {
    set j | f < j < i && qs[j].url != url :: qs[j].url
  }

  ghost predicate AllBefore(cache: Cache, now: int) {
    forall u | u in cache :: cache[u].used < now
  }

  /** `url` is cached, and only the URLs `others` have been used since `then`. */
  ghost predicate Recent(cache: Cache, url: bytes, since: int, others: set<bytes>) {
    && url in cache && cache[url].used >= since
    && forall u | u in cache && u != url && cache[u].used >= since :: u in others
  }

  lemma StepIsUsed(k: Settings, cache: Cache, q: Request, cache': Cache, r: Option<Response>)
    requires Proper(k) && ServeStep(k, cache, q, cache', r)
    ensures forall u | u in cache' :: if u == q.url then cache'[u].used == q.now
                                      else u in cache && cache'[u].used == cache[u].used
  {
    hide BodyFor, Respond;
  }

  /** What was just served is cached when nothing else was used as late. */
  lemma ServedIsRecent(k: Settings, cache: Cache, q: Request, cache': Cache, r: Option<Response>)
    requires Proper(k) && ServeStep(k, cache, q, cache', r) && r.Some? && AllBefore(cache, q.now)
    ensures Recent(cache', q.url, q.now, {})
  {
    hide BodyFor, Respond;
    StepIsUsed(k, cache, q, cache', r);
    var shape := ShapeFor(cache, q.url, q.probed);
    var all := Stored(k, cache, q, shape, BodyFor(k, SeedFor(k, q), shape).value);
    NewestIsKept(all, cache', k.cacheMax, q.url);
  }

  /** Trimming keeps an entry that was used later than all others. */
  lemma NewestIsKept(before: Cache, after: Cache, max: nat, url: bytes)
    requires Trimmed(before, after, max) && max >= 1 && url in before
    requires forall u | u in before && u != url :: before[u].used < before[url].used
    ensures url in after
  {
    if |before| > max {
      assert after.Keys != {};
      var u :| u in after.Keys;
    }
  }

  /** An entry survives a request as long as fewer than `cacheMax` other URLs have been used since. */
  lemma RecentStays(k: Settings, cache: Cache, q: Request, cache': Cache, r: Option<Response>,
                    url: bytes, since: int, others: set<bytes>)
    requires Proper(k) && ServeStep(k, cache, q, cache', r) && Recent(cache, url, since, others) && since <= q.now
    requires |others + {q.url} - {url}| < k.cacheMax
    ensures Recent(cache', url, since, others + {q.url} - {url})
  {
    hide BodyFor, Respond;
    StepIsUsed(k, cache, q, cache', r);
    if url !in cache' {
      var shape := ShapeFor(cache, q.url, q.probed);
      var all := Stored(k, cache, q, shape, BodyFor(k, SeedFor(k, q), shape).value);
      forall u | u in cache' ensures u in others + {q.url} - {url} {
        assert all[url].used <= all[u].used;
      }
      SubsetIsSmaller(cache'.Keys, others + {q.url} - {url});
    }
  }

  lemma OthersGrow(qs: seq<Request>, url: bytes, f: nat, i: nat)
    requires f < i <= |qs|
    ensures i == f + 1 ==> Others(qs, url, f, i) == {}
    ensures i > f + 1 ==> Others(qs, url, f, i - 1) <= Others(qs, url, f, i)
                          && Others(qs, url, f, i) == Others(qs, url, f, i - 1) + {qs[i - 1].url} - {url}
  {
  }

  lemma {:induction false} ClockIsAhead(k: Settings, caches: seq<Cache>, qs: seq<Request>,
                                        rs: seq<Option<Response>>, i: nat)
    requires Proper(k) && IsRun(k, caches, qs, rs) && Advancing(caches, qs) && i < |qs|
    ensures AllBefore(caches[i], qs[i].now)
  {
    hide ServeStep;
    if i > 0 {
      ClockIsAhead(k, caches, qs, rs, i - 1);
      StepIsUsed(k, caches[i - 1], qs[i - 1], caches[i], rs[i - 1]);
      assert qs[i - 1].now < qs[i].now;
    }
  }

  /** The cache is least recently used: in every run with an advancing clock, a URL that was served
      stays cached while fewer than `cacheMax` other URLs are requested. */
  lemma {:induction false} ServedStaysCached(k: Settings, caches: seq<Cache>, qs: seq<Request>,
                                             rs: seq<Option<Response>>, f: nat, i: nat)
    requires Proper(k) && IsRun(k, caches, qs, rs) && Advancing(caches, qs)
    requires f < i <= |qs| && rs[f].Some? && |Others(qs, qs[f].url, f, i)| < k.cacheMax
    ensures Recent(caches[i], qs[f].url, qs[f].now, Others(qs, qs[f].url, f, i))
    decreases i
  {
    hide ServeStep, Recent, Others;
    var url := qs[f].url;
    OthersGrow(qs, url, f, i);
    if i == f + 1 {
      ClockIsAhead(k, caches, qs, rs, f);
      ServedIsRecent(k, caches[f], qs[f], caches[i], rs[f]);
    } else {
      var others := Others(qs, url, f, i - 1);
      SubsetIsSmaller(others, Others(qs, url, f, i));
      ServedStaysCached(k, caches, qs, rs, f, i - 1);
      assert qs[f].now < qs[i - 1].now;
      RecentStays(k, caches[i - 1], qs[i - 1], caches[i], rs[i - 1], url, qs[f].now, others);
    }
  }

  /** So while fewer than `cacheMax` other URLs are requested, a request for a URL sees the shape it was
      served with before, whatever probing would say by then. */
  lemma {:induction false} ShapeStays(k: Settings, caches: seq<Cache>, qs: seq<Request>, rs: seq<Option<Response>>,
                                      f: nat, i: nat)
    requires Proper(k) && IsRun(k, caches, qs, rs) && Advancing(caches, qs)
    requires f < i <= |qs| && rs[f].Some? && |Others(qs, qs[f].url, f, i)| < k.cacheMax
    ensures LatestShape(caches, qs, qs[f].url, i) == LatestShape(caches, qs, qs[f].url, f + 1)
    decreases i
  {
    hide ServeStep;
    var url := qs[f].url;
    if i > f + 1 {
      SubsetIsSmaller(Others(qs, url, f, i - 1), Others(qs, url, f, i));
      ShapeStays(k, caches, qs, rs, f, i - 1);
      ServedStaysCached(k, caches, qs, rs, f, i - 1);
    }
  }

  lemma ServedWhenBodied(k: Settings, cache: Cache, q: Request, cache': Cache, r: Option<Response>)
    requires Proper(k) && k.deterministic && ServeStep(k, cache, q, cache', r)
    ensures r.Some? <==> BodyFor(k, q.url, ShapeFor(cache, q.url, q.probed)).Some?
  {
    hide BodyFor, Respond, Trimmed;
  }

  /** A client that fetches a body piece by piece from a server whose clock advances receives that body,
      as long as fewer than `cacheMax` other URLs are requested meanwhile, even if probing changes. */
  lemma PiecesTileWhileCached(k: Settings, caches: seq<Cache>, qs: seq<Request>, rs: seq<Option<Response>>,
                              f: nat, shape: Shape, full: bytes, asks: seq<Ask>)
    requires Proper(k) && k.deterministic && IsRun(k, caches, qs, rs) && Advancing(caches, qs) && f < |qs|
    requires ShapeFor(caches[f], qs[f].url, qs[f].probed) == shape && BodyFor(k, qs[f].url, shape) == Some(full)
    requires Tiles(asks, |full|) && |Others(qs, qs[f].url, f, |qs|)| < k.cacheMax
    requires forall ask | ask in asks :: IsAsk(qs, qs[f].url, ask) && f <= ask.at < |rs|
    ensures Joined(rs, asks) == full
  {
    hide BodyFor, LatestShape, Tiles, RangeHeader, ServeStep, Joined;
    var url := qs[f].url;
    ServedWhenBodied(k, caches[f], qs[f], caches[f + 1], rs[f]);
    SeenIsLatest(k, caches, qs, rs, f);
    forall ask | ask in asks ensures LatestShape(caches, qs, url, ask.at + 1) == Some(shape) {
      if f < ask.at {
        SubsetIsSmaller(Others(qs, url, f, ask.at + 1), Others(qs, url, f, |qs|));
        ShapeStays(k, caches, qs, rs, f, ask.at + 1);
      }
    }
    PiecesTile(k, caches, qs, rs, url, shape, full, asks);
  }

  /** The bound is needed: a cache of one, a request for another URL between two pieces, and a probe that
      changes, and the second answer is not the second piece of the body the first piece is from. */
  lemma EvictionCanChangeBody(h: bytes -> bytes, url: bytes, other: bytes)
    returns (k: Settings, caches: seq<Cache>, qs: seq<Request>, rs: seq<Option<Response>>, full: bytes)
    requires Sized(h) && url != other
    ensures Proper(k) && k.deterministic && k.cacheMax == 1 && IsRun(k, caches, qs, rs) && |qs| == 3
    ensures Advancing(caches, qs) && BodyFor(k, url, qs[0].probed) == Some(full) && |full| == 20
    ensures IsAsk(qs, url, Ask(0, 0, 9)) && IsAsk(qs, url, Ask(2, 10, 19)) && qs[1].url == other
    ensures IsPiece(rs[0], full, 0, 9) && !IsPiece(rs[2], full, 10, 19)
  {
    hide RangeHeader, Respond, IsPiece;
    k := Settings(h, true, 100, false, 1);
    var long, short := Shape("", false, 20, ""), Shape("", false, 10, "");
    full := Keystream(h, url, 20);
    var cut := Keystream(h, url, 10);
    qs := [Request(url, long, [], RangeHeader(0, 9), false, 1), Request(other, long, [], "", false, 2),
           Request(url, short, [], RangeHeader(10, 19), false, 3)];
    var body := Keystream(h, other, 20);
    caches := [map[], map[url := CacheEntry(CachedDecoy(long, url, h(full)), 1)],
               map[other := CacheEntry(CachedDecoy(long, other, h(body)), 2)],
               map[url := CacheEntry(CachedDecoy(short, url, h(cut)), 3)]];
    rs := [Some(Respond("", full, RangeHeader(0, 9), false)), Some(Respond("", body, "", false)),
           Some(Respond("", cut, RangeHeader(10, 19), false))];
    ReplacedIn(caches[0], caches[1], url);
    ReplacedIn(caches[1], caches[2], other);
    ReplacedIn(caches[2], caches[3], url);
    PieceOfOther("", full, full, 0, 9);
    PieceOfOther("", cut, full, 10, 19);
  }

  /** A cache of one that stores another URL holds just that. */
  lemma ReplacedIn(cache: Cache, cache': Cache, url: bytes)
    requires url !in cache && |cache| <= 1 && cache'.Keys == {url}
    requires forall u | u in cache :: cache[u].used < cache'[url].used
    ensures Trimmed(cache[url := cache'[url]], cache', 1)
  {
  }
}
