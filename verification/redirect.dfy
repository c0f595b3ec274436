/** The plaintext responder (`services/redirect.rs`): an ACME HTTP-01 probe
    whose host and path match a published challenge is answered with the
    challenge's proof; any other request with a usable `Host` header is
    redirected to HTTPS on port 8443; the rest get 404. */
module RedirectService {
  import opened Wrappers
  import opened Http
  import opened AcmeManager
  import LegacyRedirect

  /** `Redirect::call` against the registry contents the read lock shows. */
  function Respond(registry: Registry, req: Request, parseUri: string -> Option<Uri>): (r: Response)
    ensures RequestHost(req, parseUri).None? ==> r == EmptyResponse(NOT_FOUND)
    ensures r.status == OK <==>
      && RequestHost(req, parseUri).Some?
      && RequestHost(req, parseUri).value in registry
      && registry[RequestHost(req, parseUri).value].path == PathOr(req.uri)
    ensures r.status == OK ==>
      r == Response(OK, [], Text(registry[RequestHost(req, parseUri).value].proof))
    ensures RequestHost(req, parseUri).Some? && r.status != OK ==>
      r == LegacyRedirect.RedirectTo(RequestHost(req, parseUri).value, PathOr(req.uri))
  {
    match RequestHost(req, parseUri)
    case None => EmptyResponse(NOT_FOUND)
    case Some(host) =>
      var pathAndQuery := PathOr(req.uri);
      if host in registry && registry[host].path == pathAndQuery then
        Response(OK, [], Text(registry[host].proof))
      else
        LegacyRedirect.RedirectTo(host, pathAndQuery)
  }

  /** The probe the ACME server sends for `Challenge::new(token, proof)`
      published under `domain` is answered 200 with the proof, verbatim. */
  lemma ProbeAnswered(registry: Registry, req: Request, parseUri: string -> Option<Uri>,
                      domain: string, token: string, proof: string)
    requires domain in registry && registry[domain] == NewChallenge(token, proof)
    requires RequestHost(req, parseUri) == Some(domain)
    requires req.uri.pathAndQuery == Some(CHALLENGE_PREFIX + token)
    ensures Respond(registry, req, parseUri) == Response(OK, [], Text(proof))
  {
  }

  /** A challenge for the host does not block the redirect when the path
      differs from the challenge's, even only by an appended query. */
  lemma QueryDefeatsProbe(registry: Registry, req: Request, parseUri: string -> Option<Uri>, query: string)
    requires RequestHost(req, parseUri).Some? && RequestHost(req, parseUri).value in registry
    requires |query| > 0
    requires req.uri.pathAndQuery == Some(registry[RequestHost(req, parseUri).value].path + query)
    ensures Respond(registry, req, parseUri).status == PERMANENT_REDIRECT
  {
  }

  /** A request without a path and query is never a probe: it is redirected
      to `/`, since every challenge path starts with the well-known
      prefix. */
  lemma MissingPathRedirectsToRoot(registry: Registry, req: Request, parseUri: string -> Option<Uri>)
    requires forall d :: d in registry ==> TokenOf(registry[d].path).Some?
    requires req.uri.pathAndQuery.None? && RequestHost(req, parseUri).Some?
    ensures Respond(registry, req, parseUri) == LegacyRedirect.RedirectTo(RequestHost(req, parseUri).value, "/")
  {
    var host := RequestHost(req, parseUri).value;
    assert PathOr(req.uri) == "/";
    if host in registry {
      assert |registry[host].path| >= |CHALLENGE_PREFIX| > 1;
      assert registry[host].path != "/";
    }
  }

  /** Only the host is used to look the challenge up: a port in the `Host`
      header does not hide a challenge published for the bare domain. */
  lemma ProbeIgnoresClientPort(registry: Registry, req: Request, parseUri: string -> Option<Uri>,
                               host: string, port: string)
    requires ':' !in host && '@' !in host && '@' !in port && (|host| == 0 || host[0] != '[')
    requires GetHeader(req.headers, HOST).Some?
    requires ToStr(GetHeader(req.headers, HOST).value).Some?
    requires parseUri(ToStr(GetHeader(req.headers, HOST).value).value).Some?
    requires parseUri(ToStr(GetHeader(req.headers, HOST).value).value).value.authority == Some(host + ":" + port)
    requires host in registry && req.uri.pathAndQuery == Some(registry[host].path)
    ensures Respond(registry, req, parseUri) == Response(OK, [], Text(registry[host].proof))
  {
    HostDropsPort(host, port);
  }

  /** Where no challenge matches, the responder answers as the older,
      challenge-free one does; with nothing published it always does. */
  lemma AgreesWithLegacyOffProbe(registry: Registry, req: Request, parseUri: string -> Option<Uri>)
    requires Respond(registry, req, parseUri).status != OK
    ensures Respond(registry, req, parseUri) == LegacyRedirect.Respond(req, parseUri)
  {
  }

  lemma AgreesWithLegacyWhenEmpty(req: Request, parseUri: string -> Option<Uri>)
    ensures Respond(map[], req, parseUri) == LegacyRedirect.Respond(req, parseUri)
  {
  }

  /** `Host: example.com` with target `/foo?x=1` and nothing published is
      redirected to `https://example.com:8443/foo?x=1`. */
  lemma RedirectExample(parseUri: string -> Option<Uri>)
    requires parseUri("example.com") == Some(Uri(None, Some("example.com"), None))
    ensures var req := Request("GET", Uri(None, None, Some("/foo?x=1")), 11,
                               [Header(HOST, AsciiBytes("example.com"))], []);
      Respond(map[], req, parseUri)
        == Response(PERMANENT_REDIRECT, [Field(LOCATION, "https://example.com:8443/foo?x=1")], Empty)
  {
    var host := "example.com";
    var req := Request("GET", Uri(None, None, Some("/foo?x=1")), 11, [Header(HOST, AsciiBytes(host))], []);
    ExampleHostIsPlain();
    HostDropsPort(host, "");
    assert GetHeader(req.headers, HOST) == Some(AsciiBytes(host));
    ToStrAsciiBytes(host);
    assert RequestHost(req, parseUri) == Some(host);
    ExampleLocation();
  }

  lemma ExampleHostIsPlain()
    ensures IsVisibleText("example.com") && ':' !in "example.com" && '@' !in "example.com"
  {
    var host := "example.com";
    assert forall i :: 0 <= i < |host| ==> 'a' <= host[i] <= 'z' || host[i] == '.';
  }

  lemma ExampleLocation()
    ensures LegacyRedirect.Location("example.com", "/foo?x=1") == "https://example.com:8443/foo?x=1"
  {
  }

  /** A per-connection responder: a clone of the shared registry handle. */
  datatype Redirect = Redirect(challenges: Storage)

  /** The factory, holding the handle `Acme::new` created. */
  datatype MakeRedirect = MakeRedirect(challenges: Storage)

  /** `MakeRedirect::call`: whatever the connection, the responder it makes
      shares the factory's registry. */
  function Connect<T>(m: MakeRedirect, conn: T): (r: Redirect)
    ensures r.challenges == m.challenges
  {
    Redirect(m.challenges)
  }

  /** `Redirect::call`: read the registry through the handle and respond. The
      handler returns only a response, so it never writes the registry. */
  function Serve(heap: Heap, r: Redirect, req: Request, parseUri: string -> Option<Uri>): (rsp: Response)
    ensures var reg, host := Read(heap, r.challenges), RequestHost(req, parseUri);
      && (host.None? ==> rsp == EmptyResponse(NOT_FOUND))
      && (rsp.status == OK <==> host.Some? && host.value in reg && reg[host.value].path == PathOr(req.uri))
      && (rsp.status == OK ==> rsp.body == Text(reg[host.value].proof))
      && (host.Some? && rsp.status != OK ==> rsp == LegacyRedirect.RedirectTo(host.value, PathOr(req.uri)))
  {
    Respond(Read(heap, r.challenges), req, parseUri)
  }

  /** Every connection sees exactly the registry behind the factory's handle,
      including anything written to it after the connection was accepted. */
  lemma ConnectionsShareRegistry<T>(heap: Heap, m: MakeRedirect, c1: T, c2: T, req: Request,
                                   parseUri: string -> Option<Uri>, reg: Registry)
    ensures Serve(heap, Connect(m, c1), req, parseUri) == Serve(heap, Connect(m, c2), req, parseUri)
    ensures Serve(heap[m.challenges := reg], Connect(m, c1), req, parseUri) == Respond(reg, req, parseUri)
  {
  }
}
