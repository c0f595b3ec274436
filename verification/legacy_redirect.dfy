/** The older plaintext responder (`redirect.rs`): every request with a
    usable `Host` header is sent permanently to the HTTPS listener on port
    8443, everything else gets 404. It holds no state, so every connection
    is served by the same function. */
module LegacyRedirect {
  import opened Wrappers
  import opened Http

  /** The port of the TLS listener redirects point at. */
  const HTTPS_PORT := "8443"

  /** `format!("https://{}:{}{}", host, 8443, path_and_query)`. */
  function Location(host: string, pathAndQuery: string): (r: string)
    ensures |r| == 13 + |host| + |pathAndQuery|
    ensures r[..8] == "https://"
    ensures r[8..8 + |host|] == host
    ensures r[8 + |host|..13 + |host|] == ":" + HTTPS_PORT
    ensures r[|r| - |pathAndQuery|..] == pathAndQuery
  {
    "https://" + host + ":" + HTTPS_PORT + pathAndQuery
  }

  /** The location keeps the host and the whole path and query: both can be
      read back from it. */
  lemma LocationInjective(h1: string, p1: string, h2: string, p2: string)
    requires ':' !in h1 && ':' !in h2
    requires Location(h1, p1) == Location(h2, p2)
    ensures h1 == h2 && p1 == p2
  {
    var s1, s2 := h1 + [':'] + (HTTPS_PORT + p1), h2 + [':'] + (HTTPS_PORT + p2);
    LocationParts(h1, p1);
    LocationParts(h2, p2);
    PrefixCancel("https://", s1, s2);
    BeforeFirstSplit(h1, ':', HTTPS_PORT + p1);
    BeforeFirstSplit(h2, ':', HTTPS_PORT + p2);
    assert h1 == h2;
    PrefixCancel(h1 + [':'], HTTPS_PORT + p1, HTTPS_PORT + p2);
    PrefixCancel(HTTPS_PORT, p1, p2);
  }

  lemma LocationParts(host: string, pathAndQuery: string)
    ensures Location(host, pathAndQuery) == "https://" + (host + [':'] + (HTTPS_PORT + pathAndQuery))
  {
  }

  lemma PrefixCancel(a: string, x: string, y: string)
    requires a + x == a + y
    ensures x == y
  {
    assert x == (a + x)[|a|..];
    assert y == (a + y)[|a|..];
  }

  /** A 308 pointing at `Location(host, pathAndQuery)`, with an empty body. */
  function RedirectTo(host: string, pathAndQuery: string): (r: Response)
    ensures r.status == PERMANENT_REDIRECT && r.body == Empty
    ensures r.headers == [Field(LOCATION, Location(host, pathAndQuery))]
  {
    Response(PERMANENT_REDIRECT, [Field(LOCATION, Location(host, pathAndQuery))], Empty)
  }

  /** `Redirect::call`: 404 without a usable host, otherwise a redirect to
      the same path and query over HTTPS. */
  function Respond(req: Request, parseUri: string -> Option<Uri>): (r: Response)
    ensures r.body == Empty
    ensures r.status != OK
    ensures r.status == NOT_FOUND <==> RequestHost(req, parseUri).None?
    ensures r.status == NOT_FOUND ==> r.headers == []
    ensures RequestHost(req, parseUri).Some? ==>
      r == RedirectTo(RequestHost(req, parseUri).value, PathOr(req.uri))
  {
    match RequestHost(req, parseUri)
    case None => EmptyResponse(NOT_FOUND)
    case Some(host) => RedirectTo(host, PathOr(req.uri))
  }

  /** Each way a `Host` header can be unusable (absent, not visible ASCII,
      not a URI, or a URI without a host) ends in an empty 404. */
  lemma UnusableHostNotFound(req: Request, parseUri: string -> Option<Uri>)
    requires
      || GetHeader(req.headers, HOST).None?
      || ToStr(GetHeader(req.headers, HOST).value).None?
      || parseUri(ToStr(GetHeader(req.headers, HOST).value).value).None?
      || parseUri(ToStr(GetHeader(req.headers, HOST).value).value).value.authority.None?
    ensures Respond(req, parseUri) == EmptyResponse(NOT_FOUND)
  {
  }

  /** A request without a path and query is sent to `/`. */
  lemma MissingPathRedirectsToRoot(req: Request, parseUri: string -> Option<Uri>)
    requires req.uri.pathAndQuery.None? && RequestHost(req, parseUri).Some?
    ensures Respond(req, parseUri).headers == [Field(LOCATION, Location(RequestHost(req, parseUri).value, "/"))]
  {
  }

  /** A port in the `Host` header is dropped: the redirect goes to 8443
      whatever port the client used. */
  lemma RedirectDropsClientPort(req: Request, parseUri: string -> Option<Uri>, host: string, port: string)
    requires ':' !in host && '@' !in host && '@' !in port && (|host| == 0 || host[0] != '[')
    requires GetHeader(req.headers, HOST).Some?
    requires ToStr(GetHeader(req.headers, HOST).value).Some?
    requires parseUri(ToStr(GetHeader(req.headers, HOST).value).value).Some?
    requires parseUri(ToStr(GetHeader(req.headers, HOST).value).value).value.authority == Some(host + ":" + port)
    ensures Respond(req, parseUri) == RedirectTo(host, PathOr(req.uri))
  {
    HostDropsPort(host, port);
    assert RequestHost(req, parseUri) == Some(host);
  }
}
