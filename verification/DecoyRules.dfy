/** What a decoy server answers to each form of request, and what its cache holds (`parseRange`, `write`
    and `Serve` in `internal/mimic/handler.go`; section 14.1.2 of RFC 9110). */
module DecoyRules {
  import opened Wire
  import opened Decoy
  import opened DecoyServer

  // ----- the forms of a range -----

  /** All from `a` on. */
  function OpenHeader(a: nat): string {
    "bytes=" + (Format(a) + "-")
  }

  /** The last `n` bytes. */
  function SuffixHeader(n: nat): string {
    "bytes=" + ("-" + Format(n))
  }

  lemma NoCommaInDigits(s: string)
    requires AllDigits(s)
    ensures ',' !in s && '-' !in s
  {
    forall i | 0 <= i < |s| ensures s[i] != ',' && s[i] != '-' {
      assert IsDigit(s[i]);
    }
  }

  lemma OpenParts(a: nat)
    ensures
      var header := OpenHeader(a);
      var spec := header[|PREFIX|..];
      && PREFIX <= header && ',' !in spec && spec != "" && FirstIndex(spec, '-') == |spec| - 1
      && spec[..|spec| - 1] == Format(a) && spec[|spec|..] == ""
  {
    hide ParseInt, Format, AllDigits, FirstIndex;
    var fa := Format(a);
    var spec := fa + "-";
    assert OpenHeader(a)[|PREFIX|..] == spec;
    NoCommaInDigits(fa);
    assert spec[|fa|] == '-' && forall j | 0 <= j < |fa| :: spec[j] == fa[j];
  }

  lemma SuffixParts(n: nat)
    ensures
      var header := SuffixHeader(n);
      var spec := header[|PREFIX|..];
      && PREFIX <= header && ',' !in spec && spec != "" && FirstIndex(spec, '-') == 0
      && spec[..0] == "" && spec[1..] == Format(n)
  {
    hide ParseInt, Format, AllDigits, FirstIndex;
    var fn := Format(n);
    var spec := "-" + fn;
    assert SuffixHeader(n)[|PREFIX|..] == spec;
    NoCommaInDigits(fn);
    assert spec[0] == '-' && spec[1..] == fn;
  }

  /** An open range is granted exactly when it starts inside the body, up to its end. */
  lemma OpenRange(a: nat, size: nat)
    requires a <= INT64_MAX
    ensures ParseRange(OpenHeader(a), size) == if a < size then Some((a, size - 1)) else None
  {
    hide ParseInt, Format, AllDigits, FirstIndex, OpenHeader;
    OpenParts(a);
    ParseInvertsFormat(a);
  }

  /** A suffix is granted unless it is empty: that many bytes, or all there are. */
  lemma SuffixRange(n: nat, size: nat)
    requires n <= INT64_MAX
    ensures ParseRange(SuffixHeader(n), size) ==
            if n == 0 then None else Some((if n < size then size - n else 0, size - 1))
  {
    hide ParseInt, Format, AllDigits, FirstIndex, SuffixHeader;
    SuffixParts(n);
    ParseInvertsFormat(n);
  }

  /** A range that ends before it starts is not granted. */
  lemma BackwardRange(a: nat, b: nat, size: nat)
    requires b < a <= INT64_MAX
    ensures ParseRange(RangeHeader(a, b), size) == None
  {
    hide ParseInt, Format, AllDigits, FirstIndex;
    HeaderParts(a, b);
    ParseInvertsFormat(a);
    ParseInvertsFormat(b);
  }

  /** Another unit, several ranges, or no dash: not granted. */
  lemma OtherHeaders(header: string, size: int)
    requires !("bytes=" <= header) || ',' in header[6..] || '-' !in header[6..]
    ensures ParseRange(header, size) == None
  {
    if "bytes=" <= header && ',' !in header[6..] {
      assert FirstIndex(header[6..], '-') == |header[6..]|;
    }
  }

  // ----- the response -----

  /** Without a range, or with one that is not granted, the whole body is sent. */
  lemma WholeBody(contentType: string, full: bytes, range: string)
    requires range == "" || ParseRange(range, |full|) == None
    ensures Respond(contentType, full, range, false) == Response(200, contentType, None, |full|, full)
  {
  }

  /** A granted range is sent as such, with its positions. */
  lemma PartOfBody(contentType: string, full: bytes, range: string)
    requires range != "" && ParseRange(range, |full|).Some?
    ensures
      var (first, last) := ParseRange(range, |full|).value;
      && 0 <= first <= last + 1 <= |full|
      && Respond(contentType, full, range, false) ==
         Response(206, contentType, Some((first, last)), last + 1 - first, full[first..last + 1])
  {
    RangeIsInside(range, |full|);
  }

  /** A HEAD request gets what a GET request would, without the body. */
  lemma HeadIsGetWithoutBody(contentType: string, full: bytes, range: string)
    ensures Respond(contentType, full, range, true) == Respond(contentType, full, range, false).(body := [])
  {
  }

  /** The first and the last bytes of a body, asked for as an open range and as a suffix, are the body. */
  lemma SuffixCompletes(contentType: string, full: bytes, n: nat)
    requires 0 < n < |full| <= INT64_MAX
    ensures
      var k := |full| - n;
      && Respond(contentType, full, RangeHeader(0, k - 1), false).body
         + Respond(contentType, full, SuffixHeader(n), false).body == full
      && Respond(contentType, full, SuffixHeader(n), false) == Respond(contentType, full, OpenHeader(k), false)
  {
    hide ParseRange, RangeHeader, OpenHeader, SuffixHeader, Format;
    var k := |full| - n;
    PieceOfBody(contentType, full, 0, k - 1);
    SuffixRange(n, |full|);
    OpenRange(k, |full|);
    assert SuffixHeader(n) != "" && OpenHeader(k) != "" by { NotEmpty(n, k); }
    PartOfBody(contentType, full, SuffixHeader(n));
    PartOfBody(contentType, full, OpenHeader(k));
    assert full[..k] + full[k..] == full;
    assert full[0..k - 1 + 1] == full[..k] && full[k..|full| - 1 + 1] == full[k..];
  }

  lemma NotEmpty(n: nat, k: nat)
    ensures SuffixHeader(n) != "" && OpenHeader(k) != ""
  {
    hide Format;
    assert SuffixHeader(n)[0] == 'b' && OpenHeader(k)[0] == 'b';
  }

  // ----- one request -----

  /** A request is refused exactly for video without leave, for what is too large, and for a negative
      length; then nothing is cached. Otherwise what is sent is made from the body of the seen shape under
      the URL, with a `#` and the nonce after it unless the server is deterministic; and what is cached for
      the URL, if anything, says so. */
  lemma ServeMeans(k: Settings, cache: Cache, q: Request, cache': Cache, r: Option<Response>)
    requires Proper(k) && ServeStep(k, cache, q, cache', r)
    ensures
      var shape := if q.url in cache then cache[q.url].decoy.shape else q.probed;
      var seed := if k.deterministic then q.url else q.url + [35] + q.nonce;
      && (r.None? <==> (shape.media == "video" && !k.allowVideo) || shape.length > k.maxBytes || shape.length < 0)
      && (r.None? ==> cache'.Keys == cache.Keys && forall u | u in cache :: cache'[u].decoy == cache[u].decoy)
      && (r.Some? ==>
            && Generate(k.h, seed, shape).Some?
            && var full := Generate(k.h, seed, shape).value;
            && r.value == Respond(shape.contentType, full, q.range, q.head)
            && (q.url in cache' ==> cache'[q.url] == CacheEntry(CachedDecoy(shape, seed, k.h(full)), q.now)))
      && (|cache| <= k.cacheMax ==> |cache'| <= k.cacheMax)
  {
    hide Respond, GenJS, GenImage, Keystream;
    assert Touched(cache, q.url, q.now).Keys == cache.Keys;
    assert |cache.Keys| == |cache| && |Touched(cache, q.url, q.now).Keys| == |Touched(cache, q.url, q.now)|;
  }

  /** Every cached hash is that of the body its seed and shape make. */
  ghost predicate Regenerable(k: Settings, cache: Cache)
    requires Proper(k)
  {
    forall u | u in cache ::
      var d := cache[u].decoy;
      Generate(k.h, d.seed, d.shape).Some? && d.hash == k.h(Generate(k.h, d.seed, d.shape).value)
  }

  lemma ServeKeepsRegenerable(k: Settings, cache: Cache, q: Request, cache': Cache, r: Option<Response>)
    requires Proper(k) && ServeStep(k, cache, q, cache', r) && Regenerable(k, cache)
    ensures Regenerable(k, cache')
  {
    hide Respond, Generate;
    ServeMeans(k, cache, q, cache', r);
  }

  /** In every run from an empty cache, in either mode, every cached hash can be made again from the seed
      and shape cached with it. */
  lemma {:induction false} HashesAreRegenerable(k: Settings, caches: seq<Cache>, qs: seq<Request>,
                                                rs: seq<Option<Response>>, i: nat)
    requires Proper(k) && IsRun(k, caches, qs, rs) && caches[0] == map[] && i <= |qs|
    ensures Regenerable(k, caches[i])
  {
    hide ServeStep;
    if i > 0 {
      HashesAreRegenerable(k, caches, qs, rs, i - 1);
      ServeKeepsRegenerable(k, caches[i - 1], qs[i - 1], caches[i], rs[i - 1]);
    }
  }
}
