/**
 * The response-compression middleware: decide whether and how to compress a
 * response from its headers, its content type and the client's
 * `Accept-Encoding`, then rewrite the body and headers in place. The brotli
 * and gzip transforms themselves are abstract functions.
 */
module Compression {
  import opened Wrappers

  newtype byte = b: int | 0 <= b < 256

  /** A header map, keyed by the header names as the middleware spells them. */
  type Headers = map<string, string>

  type Compressor = seq<byte> -> seq<byte>

  datatype Encoding = Brotli | Gzip

  /** Content types the middleware compresses. */
  const COMPRESSIBLE_TYPES: seq<string> := ["text/html", "application/xml", "application/json"]

  /** The name of an encoding in `Content-Encoding`. */
  function Token(e: Encoding): (t: string)
    ensures t != ""
  {
    match e
    case Brotli => "br"
    case Gzip => "gzip"
  }

  function Header(h: Headers, name: string): Option<string> {
    if name in h then Some(h[name]) else None
  }

  // ---------------------------------------------------------------- text helpers

  function LowerChar(c: char): char {
    if 'A' <= c <= 'Z' then (c as int + 32) as char else c
  }

  /** Lower-casing, letter by letter (ASCII letters only). */
  function Lower(s: string): (r: string)
    ensures |r| == |s|
    ensures forall i :: 0 <= i < |s| ==> r[i] == LowerChar(s[i])
  {
    if s == [] then [] else [LowerChar(s[0])] + Lower(s[1..])
  }

  /** Whether `pat` occurs as a contiguous piece of `s` (Python's `pat in s`). */
  predicate Occurs(pat: string, s: string): (b: bool)
    ensures b ==> |pat| <= |s|
    ensures pat == [] ==> b
    ensures |pat| <= |s| && s[..|pat|] == pat ==> b
    decreases |s|
  {
    |pat| <= |s| && (s[..|pat|] == pat || Occurs(pat, s[1..]))
  }

  /** `pat` starts at position `i` of `s`. */
  predicate OccursAt(pat: string, s: string, i: int) {
    0 <= i && i + |pat| <= |s| && s[i..i + |pat|] == pat
  }

  /** `Occurs` agrees with "there is a position where `pat` starts", in both directions. */
  lemma {:induction false} OccursIffAt(pat: string, s: string)
    ensures Occurs(pat, s) <==> exists i :: OccursAt(pat, s, i)
    decreases |s|
  {
    if |pat| <= |s| {
      if s[..|pat|] == pat {
        assert OccursAt(pat, s, 0);
      } else {
        OccursIffAt(pat, s[1..]);
        if Occurs(pat, s[1..]) {
          var i :| OccursAt(pat, s[1..], i);
          assert s[i + 1..i + 1 + |pat|] == s[1..][i..i + |pat|];
          assert OccursAt(pat, s, i + 1);
        }
        if exists i :: OccursAt(pat, s, i) {
          var i :| OccursAt(pat, s, i);
          assert i != 0;
          assert s[1..][i - 1..i - 1 + |pat|] == s[i..i + |pat|];
          assert OccursAt(pat, s[1..], i - 1);
        }
      }
    }
  }

  // ---------------------------------------------------------------- Content-Length

  function DigitChar(d: nat): (c: char)
    requires d < 10
    ensures '0' <= c <= '9'
  {
    (48 + d) as char
  }

  predicate AllDigits(s: string) {
    forall i :: 0 <= i < |s| ==> '0' <= s[i] <= '9'
  }

  /** The decimal spelling of `n` (Python's `str` on a non-negative int). */
  function Decimal(n: nat): (s: string)
    ensures |s| >= 1 && AllDigits(s)
    ensures s[0] == '0' ==> n == 0
    decreases n
  {
    if n < 10 then [DigitChar(n)] else Decimal(n / 10) + [DigitChar(n % 10)]
  }

  /** The number a string of decimal digits denotes. */
  function ParseDecimal(s: string): nat
    requires AllDigits(s)
    decreases |s|
  {
    if s == [] then 0 else ParseDecimal(s[..|s| - 1]) * 10 + (s[|s| - 1] as int - 48)
  }

  /** Reading `Content-Length` back gives the length that was written. */
  lemma {:induction false} DecimalRoundTrip(n: nat)
    ensures ParseDecimal(Decimal(n)) == n
    decreases n
  {
    if n >= 10 {
      DecimalRoundTrip(n / 10);
      var s := Decimal(n);
      assert s[..|s| - 1] == Decimal(n / 10);
    }
  }

  // ---------------------------------------------------------------- the decision

  /** A `Content-Encoding` header with a non-empty value is there already. */
  predicate AlreadyEncoded(h: Headers) {
    "Content-Encoding" in h && h["Content-Encoding"] != ""
  }

  /** The client's `Accept-Encoding`, lower-cased, empty when absent. */
  function AcceptEncoding(request: Headers): string {
    Lower(Header(request, "Accept-Encoding").GetOr(""))
  }

  /** The encoding to apply, or None when the response is to be left alone. */
  function Negotiate(h: Headers, contentType: string, request: Headers): (e: Option<Encoding>)
    ensures e.Some? ==> !AlreadyEncoded(h) && contentType in COMPRESSIBLE_TYPES
    ensures e == Some(Brotli) ==> Occurs("br", AcceptEncoding(request))
    ensures e == Some(Gzip) ==> Occurs("gzip", AcceptEncoding(request))
  {
    if AlreadyEncoded(h) then None
    else if contentType !in COMPRESSIBLE_TYPES then None
    else if Occurs("br", AcceptEncoding(request)) then Some(Brotli)
    else if Occurs("gzip", AcceptEncoding(request)) then Some(Gzip)
    else None
  }

  /** The headers of a response once its body of `n` bytes has been compressed with `e`. */
  function EncodedHeaders(h: Headers, e: Encoding, n: nat): (r: Headers)
    ensures r.Keys == h.Keys + {"Content-Encoding", "Content-Length", "Vary"}
    ensures r["Content-Encoding"] == Token(e) && r["Vary"] == "Accept-Encoding"
    ensures AllDigits(r["Content-Length"]) && ParseDecimal(r["Content-Length"]) == n
    ensures forall k :: k in h && k !in {"Content-Encoding", "Content-Length", "Vary"} ==> r[k] == h[k]
  {
    DecimalRoundTrip(n);
    h["Content-Encoding" := Token(e)]["Content-Length" := Decimal(n)]["Vary" := "Accept-Encoding"]
  }

  function Compress(e: Encoding, brotli: Compressor, gzip: Compressor, body: seq<byte>): seq<byte> {
    match e
    case Brotli => brotli(body)
    case Gzip => gzip(body)
  }

  /** The middleware leaves the response alone exactly in the three cases it checks. */
  lemma SkipConditions(h: Headers, contentType: string, request: Headers)
    ensures Negotiate(h, contentType, request).None? <==>
              AlreadyEncoded(h)
              || contentType !in COMPRESSIBLE_TYPES
              || (!Occurs("br", AcceptEncoding(request)) && !Occurs("gzip", AcceptEncoding(request)))
  {
  }

  /** Brotli wins whenever the client's header mentions it, gzip is only a fallback. */
  lemma BrotliPreferred(h: Headers, contentType: string, request: Headers)
    requires Negotiate(h, contentType, request).Some?
    ensures Negotiate(h, contentType, request) == Some(Brotli) <==> Occurs("br", AcceptEncoding(request))
    ensures Negotiate(h, contentType, request) == Some(Gzip) ==>
              !Occurs("br", AcceptEncoding(request)) && Occurs("gzip", AcceptEncoding(request))
  {
  }

  /** The test is on substrings of the header, not on its listed codings: `br;q=0` still selects brotli. */
  lemma SubstringNotCodingList()
    ensures Negotiate(map[], "text/html", map["Accept-Encoding" := "gzip, br;q=0"]) == Some(Brotli)
  {
    var header := "gzip, br;q=0";
    assert header[6..8] == "br";
    assert OccursAt("br", header, 6);
    OccursIffAt("br", header);
    LowerKeepsLowerCase(header);
  }

  /** A string without upper-case ASCII letters is its own lower-case form. */
  lemma LowerKeepsLowerCase(s: string)
    requires forall i :: 0 <= i < |s| ==> !('A' <= s[i] <= 'Z')
    ensures Lower(s) == s
  {
  }

  /** A compressed response is marked as such, so a second pass never compresses it again. */
  lemma CompressedIsFinal(h: Headers, e: Encoding, n: nat, contentType: string, request: Headers)
    ensures Negotiate(EncodedHeaders(h, e, n), contentType, request).None?
  {
  }

  // ---------------------------------------------------------------- the response object

  class HttpResponse {
    var headers: Headers
    var contentType: string
    var body: seq<byte>

    constructor (headers: Headers, contentType: string, body: seq<byte>)
      ensures this.headers == headers && this.contentType == contentType && this.body == body
    {
      this.headers := headers;
      this.contentType := contentType;
      this.body := body;
    }
  }

  /**
   * The middleware applied to the handler's response `resp` for a request with
   * headers `request`. An empty body is left alone even when an encoding was chosen.
   */
  method CompressResponse(resp: HttpResponse, request: Headers, brotli: Compressor, gzip: Compressor)
    modifies resp
    ensures resp.contentType == old(resp.contentType)
    ensures Negotiate(old(resp.headers), old(resp.contentType), request).None? || old(resp.body) == [] ==>
              resp.headers == old(resp.headers) && resp.body == old(resp.body)
    ensures Negotiate(old(resp.headers), old(resp.contentType), request).Some? && old(resp.body) != [] ==>
              var e := Negotiate(old(resp.headers), old(resp.contentType), request).value;
              resp.body == Compress(e, brotli, gzip, old(resp.body)) &&
              resp.headers == EncodedHeaders(old(resp.headers), e, |resp.body|)
  {
    if AlreadyEncoded(resp.headers) {
      return;
    }
    if resp.contentType !in COMPRESSIBLE_TYPES {
      return;
    }
    var accept := AcceptEncoding(request);
    var encoding;
    if Occurs("br", accept) {
      encoding := Brotli;
    } else if Occurs("gzip", accept) {
      encoding := Gzip;
    } else {
      return;
    }
    var body := resp.body;
    if body != [] {
      var compressed;
      if encoding == Brotli {
        compressed := brotli(body);
        resp.headers := resp.headers["Content-Encoding" := "br"];
      } else {
        compressed := gzip(body);
        resp.headers := resp.headers["Content-Encoding" := "gzip"];
      }
      resp.body := compressed;
      resp.headers := resp.headers["Content-Length" := Decimal(|compressed|)];
      resp.headers := resp.headers["Vary" := "Accept-Encoding"];
    }
  }
}
