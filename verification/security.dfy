/** internal/middleware/security.go: the client address the rate limiter keys
    on, and the CORS layer that answers preflights and stamps the
    Access-Control headers on everything else.

    The CORS origin decision exists twice. `AllowOriginAsWritten` follows the
    code: a disallowed origin is answered with the literal header value
    "null". A browser sends `Origin: null` from opaque origins (sandboxed
    frames, `file:` and `data:` documents), and the CORS check of the Fetch
    standard compares the header with the request's origin byte for byte, so
    such a page passes the check, with credentials. `AllowOrigin` leaves the
    header out for a disallowed origin, which is what the code's own comment
    at that branch says it means to do; `Cors` uses it. */
module Security {
  import opened Wrappers
  import opened Strings
  import opened Http

  // ---------------------------------------------------------------------------
  // getRealIP
  // ---------------------------------------------------------------------------

  /** What `getRealIP` reads of a request: the X-Forwarded-For and X-Real-IP
      headers ("" when absent) and the connection's `RemoteAddr`. */
  datatype Peer = Peer(forwardedFor: string, realIp: string, remoteAddr: string)

  /** Trimming never brings in a character that was not there. */
  lemma TrimSpaceKeepsOut(s: string, c: char)
    requires c !in s
    ensures c !in TrimSpace(s)
  {
    var l := TrimLeftWhere(s, IsSpace);
    var r := TrimRightWhere(l, IsSpace);
    assert l == s[|s| - |l|..];
    assert forall k :: 0 <= k < |l| ==> l[k] == s[|s| - |l| + k];
    assert forall k :: 0 <= k < |r| ==> r[k] == l[k];
  }

  /** `getRealIP`: the first hop of X-Forwarded-For, trimmed; else X-Real-IP;
      else `RemoteAddr` cut before its last ':' (the port), when it has one. */
  function RealIp(p: Peer): (r: string)
    ensures p.forwardedFor != "" ==>
      && |r| <= |p.forwardedFor| && ',' !in r
      && (|r| > 0 ==> !IsSpace(r[0]) && !IsSpace(r[|r| - 1]))
    ensures p.forwardedFor == "" && p.realIp != "" ==> r == p.realIp
    ensures p.forwardedFor == "" && p.realIp == "" ==>
      && r <= p.remoteAddr
      && (':' !in p.remoteAddr ==> r == p.remoteAddr)
      && (':' in p.remoteAddr ==> |r| < |p.remoteAddr| && p.remoteAddr[|r|] == ':' && ':' !in p.remoteAddr[|r| + 1..])
  {
    if p.forwardedFor != "" then
      var first := Split(p.forwardedFor, ',')[0];
      SplitHead(p.forwardedFor, ',');
      TrimSpaceKeepsOut(first, ',');
      TrimSpace(first)
    else if p.realIp != "" then p.realIp
    else match LastIndexOf(p.remoteAddr, ':')
      case None => p.remoteAddr
      case Some(k) => p.remoteAddr[..k]
  }

  /** A proxy chain `client, proxy1, ...` is reported by its first entry,
      whatever follows it and whatever the other fields say. */
  lemma ForwardedFirstHop(client: string, rest: string, realIp: string, remoteAddr: string)
    requires ',' !in client
    ensures RealIp(Peer(client + "," + rest, realIp, remoteAddr)) == TrimSpace(client)
  {
    var ff := client + "," + rest;
    assert ff[|client|] == ',';
    assert ff[..|client|] == client;
    assert IndexOf(ff, ',') == Some(|client|);
    SplitHead(ff, ',');
  }

  /** An X-Forwarded-For with a single entry is reported trimmed. */
  lemma ForwardedSingle(client: string, realIp: string, remoteAddr: string)
    requires client != "" && ',' !in client
    ensures RealIp(Peer(client, realIp, remoteAddr)) == TrimSpace(client)
  {
    SplitHead(client, ',');
  }

  /** Without proxy headers, `host:port` gives back the host, the port being
      whatever follows the last ':' (so a bracketed IPv6 host survives). */
  lemma HostPortRoundTrip(host: string, port: string)
    requires ':' !in port
    ensures RealIp(Peer("", "", host + ":" + port)) == host
  {
    var a := host + ":" + port;
    assert a[|host|] == ':';
    assert a[|host| + 1..] == port;
    assert a[..|host|] == host;
  }

  // ---------------------------------------------------------------------------
  // CORSMiddleware
  // ---------------------------------------------------------------------------

  const AllowedMethods: string := "GET, POST, PUT, PATCH, DELETE, OPTIONS"
  const AllowedHeaders: string := "Content-Type, Authorization"
  const AllowCredentials: string := "true"
  /** 24 hours, in seconds. */
  const MaxAge: string := "86400"
  /** The value the code sends for a disallowed origin. */
  const NullOrigin: string := "null"

  /** The first loop of `CORSMiddleware`: is the request's Origin one of the
      configured origins, compared exactly? */
  method IsAllowed(allowed: seq<string>, origin: string) returns (b: bool)
    ensures b <==> origin in allowed
  {
    b := false;
    var k := 0;
    while k < |allowed|
      invariant k <= |allowed|
      invariant origin !in allowed[..k]
    {
      if origin == allowed[k] {
        return true;
      }
      assert allowed[..k + 1] == allowed[..k] + [allowed[k]];
      k := k + 1;
    }
    assert allowed[..k] == allowed;
  }

  /** Access-Control-Allow-Origin as the code sets it: the origin itself when
      listed, the text "null" otherwise. */
  function AllowOriginAsWritten(allowed: seq<string>, origin: string): (h: string)
    ensures origin in allowed ==> h == origin
    ensures origin !in allowed ==> h == NullOrigin
  {
    if origin in allowed then origin else NullOrigin
  }

  /** Access-Control-Allow-Origin with the disallowed case sending no header. */
  function AllowOrigin(allowed: seq<string>, origin: string): (h: Option<string>)
    ensures h.Some? <==> origin in allowed
    ensures h.Some? ==> h.value == origin
  {
    if origin in allowed then Some(origin) else None
  }

  /** The CORS check a browser runs on a credentialed response (the "CORS
      check" of the WHATWG Fetch standard): Access-Control-Allow-Origin must be
      present and equal the request's serialised origin, and
      Access-Control-Allow-Credentials must be "true". */
  predicate BrowserShares(allowOrigin: Option<string>, allowCredentials: string, origin: string) {
    allowOrigin == Some(origin) && allowCredentials == "true"
  }

  /** The headers `CORSMiddleware` sets on every response. */
  datatype CorsHeaders = CorsHeaders(
    allowOrigin: Option<string>, allowMethods: string, allowHeaders: string,
    allowCredentials: string, maxAge: string)

  /** What the layer does with a request: answer a preflight itself with 204,
      or hand the request on to the router. Either way the headers are set. */
  datatype Passage = Preflight(headers: CorsHeaders) | Forward(headers: CorsHeaders)

  function HeadersWith(allowOrigin: Option<string>): CorsHeaders {
    CorsHeaders(allowOrigin, AllowedMethods, AllowedHeaders, AllowCredentials, MaxAge)
  }

  /** `CORSMiddleware` as written. */
  function CorsAsWritten(allowed: seq<string>, origin: string, m: Method): (r: Passage)
    ensures r.Preflight? <==> m == OPTIONS
    ensures r.headers.allowOrigin.Some?
    ensures r.headers.allowCredentials == AllowCredentials
  {
    var h := HeadersWith(Some(AllowOriginAsWritten(allowed, origin)));
    if m == OPTIONS then Preflight(h) else Forward(h)
  }

  /** `CORSMiddleware` without the "null" value. An OPTIONS request, of any
      path, is answered here; every other method goes on. */
  function Cors(allowed: seq<string>, origin: string, m: Method): (r: Passage)
    ensures r.Preflight? <==> m == OPTIONS
    ensures BrowserShares(r.headers.allowOrigin, r.headers.allowCredentials, origin) <==> origin in allowed
    ensures r.headers.allowOrigin.Some? ==> r.headers.allowOrigin.value in allowed
    ensures r.headers.allowMethods == AllowedMethods && r.headers.allowHeaders == AllowedHeaders
    ensures r.headers.maxAge == MaxAge
  {
    var h := HeadersWith(AllowOrigin(allowed, origin));
    if m == OPTIONS then Preflight(h) else Forward(h)
  }

  /** The discrepancy of the code as written: with "null" not configured, a
      page whose origin is opaque is refused by the list and still passes the
      browser's check, with credentials, on every route. */
  lemma AsWrittenSharesWithNullOrigin(allowed: seq<string>, m: Method)
    requires NullOrigin !in allowed
    ensures BrowserShares(CorsAsWritten(allowed, NullOrigin, m).headers.allowOrigin,
                          CorsAsWritten(allowed, NullOrigin, m).headers.allowCredentials, NullOrigin)
  {
  }

  /** The as-written header differs from the corrected one exactly for the
      disallowed origins, which get "null" instead of nothing. */
  lemma AsWrittenDiffersOnlyWhenRefused(allowed: seq<string>, origin: string, m: Method)
    ensures CorsAsWritten(allowed, origin, m).headers.allowOrigin == Cors(allowed, origin, m).headers.allowOrigin
            <==> origin in allowed
    ensures origin !in allowed ==> CorsAsWritten(allowed, origin, m).headers.allowOrigin == Some(NullOrigin)
  {
  }
}
