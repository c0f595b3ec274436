/** The older proxy service (`svc.rs`): every request, `CONNECT` included, is
    forwarded to `http://localhost:1111` with its path and query kept and
    nothing else changed. */
module LegacyProxy {
  import opened Wrappers
  import opened Http
  import SocketAddrs
  import ProxyService

  /** The target `Svc::call` installs: `http://localhost:1111{path}`, the
      path and query defaulting to `/`. */
  function RewriteUri(u: Uri): (r: Uri)
    ensures r.scheme == Some("http") && r.authority == Some(ProxyService.BACKEND)
    ensures PathOr(r) == PathOr(u)
  {
    Uri(Some("http"), Some(ProxyService.BACKEND), Some(PathOr(u)))
  }

  /** The rewritten target is the text the handler formats. */
  lemma RewriteRendersFormat(u: Uri)
    ensures Render(RewriteUri(u)) == "http://localhost:1111" + PathOr(u)
  {
  }

  /** The incoming scheme and authority play no part: two targets with the
      same path and query are rewritten alike. */
  lemma RewriteIgnoresScheme(u1: Uri, u2: Uri)
    requires PathOr(u1) == PathOr(u2)
    ensures RewriteUri(u1) == RewriteUri(u2)
  {
  }

  /** The two revisions agree whenever the client did not ask for a scheme
      other than `http`. */
  lemma RevisionsAgreeOnHttp(u: Uri)
    requires u.scheme.None? || u.scheme == Some("http")
    ensures RewriteUri(u) == ProxyService.RewriteUri(u)
  {
  }

  /** The per-connection proxy: the peer address and the shared client. */
  datatype Svc = Svc(remoteAddr: SocketAddrs.SocketAddr, client: ProxyService.Client)

  /** `Svc::call`: the request handed to `client.request`, which answers it. */
  function Call(s: Svc, req: Request): (r: Request)
    ensures r.verb == req.verb && r.version == req.version
    ensures r.headers == req.headers && r.body == req.body
    ensures r.uri.scheme.Some? && r.uri.authority.Some?
    ensures Render(r.uri) == "http://localhost:1111" + PathOr(req.uri)
  {
    req.(uri := RewriteUri(req.uri))
  }

  /** Only the target changes: a forwarded request with the target put back
      is the request the client sent. */
  lemma CallChangesOnlyUri(s: Svc, req: Request)
    ensures Call(s, req).(uri := req.uri) == req
  {
  }

  /** The response is the client's result for the forwarded request,
      unchanged. */
  function Respond(send: ProxyService.Send, s: Svc, req: Request): (r: Result<Response, ProxyService.HyperError>)
    ensures r == send(req.(uri := RewriteUri(req.uri)))
  {
    send(Call(s, req))
  }

  /** Off `CONNECT`, the newer service forwards exactly what this one does. */
  lemma RevisionsForwardAlike(s: Svc, req: Request)
    requires req.verb != ProxyService.CONNECT
    requires req.uri.scheme.None? || req.uri.scheme == Some("http")
    ensures ProxyService.Call(req) == ProxyService.Forward(Call(s, req))
  {
    RevisionsAgreeOnHttp(req.uri);
  }

  datatype MakeSvc = MakeSvc(client: ProxyService.Client)

  /** `MakeSvc::call`: a `Svc` bound to the connection's peer address,
      sharing the factory's client. */
  function MakeService(m: MakeSvc, conn: ProxyService.Conn): (s: Svc)
    ensures s.remoteAddr == conn.remoteAddr
    ensures s.client == m.client
  {
    Svc(conn.remoteAddr, m.client)
  }

  /** The peer address does not influence what is forwarded. */
  lemma ForwardingIgnoresPeer(m: MakeSvc, c1: ProxyService.Conn, c2: ProxyService.Conn, req: Request)
    ensures Call(MakeService(m, c1), req) == Call(MakeService(m, c2), req)
  {
  }
}
