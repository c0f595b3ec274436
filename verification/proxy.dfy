/** The TLS-side proxy service (`services/svc.rs`): every request's target is
    rewritten to the backend `localhost:1111`; `CONNECT` requests whose
    authority is a socket address open a tunnel, other `CONNECT`s are refused
    with 400, and everything else is forwarded through the HTTP client. */
module ProxyService {
  import opened Wrappers
  import opened Http
  import opened SocketAddrs

  const CONNECT := "CONNECT"
  /** The one backend every request is forwarded to. */
  const BACKEND := "localhost:1111"
  const DEFAULT_SCHEME := "http"

  /** An error reported by hyper's client or by the upgrade of a connection. */
  datatype HyperError = HyperError(reason: string)

  /** `Client::request`: what the backend answers to a forwarded request. */
  type Send = Request -> Result<Response, HyperError>

  /** A handle on the shared HTTP client; clones share one connection pool. */
  datatype Client = Client(pool: nat)

  /** A TLS connection as the listener yields it: the peer's address. */
  datatype Conn = Conn(remoteAddr: SocketAddr)

  /** The target `Svc::call` installs: `{scheme}://localhost:1111{path}`, the
      scheme defaulting to `http` and the path and query to `/`. */
  function RewriteUri(u: Uri): (r: Uri)
    ensures r.scheme.Some? && r.authority == Some(BACKEND)
    ensures u.scheme.Some? ==> r.scheme == u.scheme
    ensures u.scheme.None? ==> r.scheme == Some(DEFAULT_SCHEME)
    ensures PathOr(r) == PathOr(u)
  {
    Uri(Some(u.scheme.GetOr(DEFAULT_SCHEME)), Some(BACKEND), Some(PathOr(u)))
  }

  /** The rewritten target is the text the handler formats, so the whole path
      and query (the query string included) reaches the backend. */
  lemma RewriteRendersFormat(u: Uri)
    ensures Render(RewriteUri(u)) == u.scheme.GetOr("http") + "://localhost:1111" + PathOr(u)
  {
  }

  /** Rewriting twice is rewriting once. */
  lemma RewriteIdempotent(u: Uri)
    ensures RewriteUri(RewriteUri(u)) == RewriteUri(u)
  {
  }

  /** Whatever the client asked for, the rewritten target's host is the
      backend's. */
  lemma RewriteTargetsBackend(u: Uri)
    ensures Host(RewriteUri(u)) == Some("localhost")
  {
    var host, port := "localhost", "1111";
    assert ':' !in host && '@' !in host && '@' !in port && host[0] != '[' by {
      assert forall i :: 0 <= i < |host| ==> 'a' <= host[i] <= 'z';
      assert forall i :: 0 <= i < |port| ==> '0' <= port[i] <= '9';
    }
    HostDropsPort(host, port);
    BackendParts();
  }

  lemma BackendParts()
    ensures BACKEND == "localhost" + ":" + "1111"
  {
  }

  /** `host_addr`: the URI's authority read as a socket address. */
  function HostAddr(u: Uri): (r: Option<SocketAddr>)
    ensures u.authority.None? ==> r.None?
    ensures r.Some? ==> u.authority.Some? && Spells(u.authority.value, r.value)
  {
    match u.authority
    case None => None
    case Some(a) => ParseSocketAddr(a)
  }

  /** An authority that is an IPv4 socket address is read back as that
      address, whatever the rest of the URI holds. */
  lemma HostAddrOfFormat(a: SocketAddr, u: Uri)
    requires ValidV4(a) && u.authority == Some(Format(a))
    ensures HostAddr(u) == Some(a)
  {
    ParseFormat(a);
  }

  /** A host name is never a socket address. */
  lemma HostAddrOfBackend(u: Uri)
    requires u.authority == Some(BACKEND)
    ensures HostAddr(u).None?
  {
    BackendIsNotSocketAddr();
  }

  /** What `proxy` does with a request: forward it, spawn a tunnel task to a
      socket address, or refuse it. */
  datatype Dispatch = Forward(request: Request) | Spawn(addr: SocketAddr) | Reject

  /** `proxy`: `CONNECT` with a socket-address authority spawns a tunnel,
      `CONNECT` with anything else is refused, every other method is
      forwarded untouched. */
  function Proxy(req: Request): (d: Dispatch)
    ensures d.Forward? <==> req.verb != CONNECT
    ensures d.Forward? ==> d.request == req
    ensures d.Spawn? <==> req.verb == CONNECT && HostAddr(req.uri).Some?
    ensures d.Spawn? ==> HostAddr(req.uri) == Some(d.addr)
  {
    if req.verb == CONNECT then
      match HostAddr(req.uri)
      case Some(addr) => Spawn(addr)
      case None => Reject
    else
      Forward(req)
  }

  /** The response the client receives: the backend's result, verbatim, for a
      forwarded request; an immediate empty 200 for a spawned tunnel; an empty
      400 for a refused `CONNECT`. */
  function Respond(send: Send, d: Dispatch): (r: Result<Response, HyperError>)
    ensures d.Forward? ==> r == send(d.request)
    ensures !d.Forward? ==> r.Ok? && r.value.headers == [] && r.value.body == Empty
    ensures !d.Forward? ==> (r.value.status == OK <==> d.Spawn?)
    ensures !d.Forward? ==> (r.value.status == BAD_REQUEST <==> d.Reject?)
  {
    match d
    case Forward(request) => send(request)
    case Spawn(_) => Ok(EmptyResponse(OK))
    case Reject => Ok(EmptyResponse(BAD_REQUEST))
  }

  /** A `CONNECT` to any IPv4 socket address spawns a tunnel to exactly that
      address and is answered 200. */
  lemma ProxyTunnelsToSocketAddr(send: Send, req: Request, a: SocketAddr)
    requires req.verb == CONNECT && ValidV4(a) && req.uri.authority == Some(Format(a))
    ensures Proxy(req) == Spawn(a)
    ensures Respond(send, Proxy(req)) == Ok(EmptyResponse(OK))
  {
    HostAddrOfFormat(a, req.uri);
  }

  /** A `CONNECT` to a host name, `example.com:443` say, is refused: only IP
      literals are socket addresses. */
  lemma ProxyRefusesHostName(req: Request, i: nat)
    requires req.verb == CONNECT && req.uri.authority.Some?
    requires var a := req.uri.authority.value;
      i < |Http.BeforeFirst(a, ':')| && !IsDigit(a[i]) && a[i] != '.'
    ensures Proxy(req) == Reject
  {
    HostNameNotSocketAddr(req.uri.authority.value, i);
  }

  /** `Svc::call` as written: the target is rewritten before `proxy` looks at
      it, so `proxy` sees the backend's authority on every request. */
  function CallAsWritten(req: Request): (d: Dispatch)
    ensures d.Forward? <==> req.verb != CONNECT
    ensures d.Forward? ==> d.request == req.(uri := RewriteUri(req.uri))
  {
    Proxy(req.(uri := RewriteUri(req.uri)))
  }

  /** As written, no `CONNECT` ever opens a tunnel: `localhost:1111` is not a
      socket address, so every `CONNECT` is refused with 400. */
  lemma ConnectAlwaysRejected(send: Send, req: Request)
    requires req.verb == CONNECT
    ensures CallAsWritten(req) == Reject
    ensures Respond(send, CallAsWritten(req)) == Ok(EmptyResponse(BAD_REQUEST))
  {
    HostAddrOfBackend(RewriteUri(req.uri));
  }

  /** `CONNECT 127.0.0.1:443`: the tunnel `proxy` would open is never
      reached. */
  lemma ConnectCounterexample()
    ensures var req := Request(CONNECT, Uri(None, Some("127.0.0.1:443"), None), 11, [], []);
            && Proxy(req) == Spawn(V4([127, 0, 0, 1], 443))
            && CallAsWritten(req) == Reject
  {
    var a := V4([127, 0, 0, 1], 443);
    var req := Request(CONNECT, Uri(None, Some("127.0.0.1:443"), None), 11, [], []);
    LoopbackText();
    ProxyTunnelsToSocketAddr(_ => Err(HyperError("")), req, a);
    ConnectAlwaysRejected(_ => Err(HyperError("")), req);
  }

  lemma LoopbackText()
    ensures ValidV4(V4([127, 0, 0, 1], 443)) && Format(V4([127, 0, 0, 1], 443)) == "127.0.0.1:443"
  {
    LoopbackDecimals();
  }

  lemma LoopbackDecimals()
    ensures Decimal(127) == "127" && Decimal(0) == "0" && Decimal(1) == "1" && Decimal(443) == "443"
  {
  }

  /** `Svc::call` with the `CONNECT` decision taken on the target the client
      sent; every other request is rewritten and forwarded as before. */
  function Call(req: Request): (d: Dispatch)
    ensures req.verb != CONNECT ==> d == Forward(req.(uri := RewriteUri(req.uri)))
    ensures d.Spawn? <==> req.verb == CONNECT && HostAddr(req.uri).Some?
    ensures d.Spawn? ==> HostAddr(req.uri) == Some(d.addr)
    ensures req.verb == CONNECT && HostAddr(req.uri).None? ==> d == Reject
  {
    if req.verb == CONNECT then Proxy(req) else CallAsWritten(req)
  }

  /** The two differ only on `CONNECT`. */
  lemma CallAgreesOffConnect(req: Request)
    requires req.verb != CONNECT
    ensures Call(req) == CallAsWritten(req)
  {
  }

  /** An IO error from the operating system. */
  datatype IoError = IoError(reason: string)

  /** One log line of the tunnel path. */
  datatype Note =
    | Copied(fromClient: nat, fromServer: nat)   // both directions closed cleanly
    | TunnelError(error: IoError)                // one direction failed
    | ServerIoError(error: IoError)              // the upstream connection failed
    | UpgradeError(cause: HyperError)            // the client never upgraded

  /** Only a clean relay is logged at `info`. */
  predicate Warns(n: Note) {
    !n.Copied?
  }

  datatype TunnelExit = TunnelExit(result: Outcome<IoError>, log: seq<Note>)

  /** `tunnel`: connect upstream (`connect`), then relay both directions until
      one ends (`relay`, the joined byte counts or the first error). Only the
      connection attempt can fail the call; a relay error is logged. */
  function Tunnel(connect: Outcome<IoError>, relay: Result<(nat, nat), IoError>): (t: TunnelExit)
    ensures t.result.Fail? <==> connect.Fail?
    ensures connect.Fail? ==> t.result == connect && t.log == []
    ensures connect.Pass? ==> |t.log| == 1 && (Warns(t.log[0]) <==> relay.Err?)
    ensures connect.Pass? && relay.Ok? ==> t.log == [Copied(relay.value.0, relay.value.1)]
  {
    match connect
    case Fail(e) => TunnelExit(Fail(e), [])
    case Pass =>
      match relay
      case Ok((fromClient, fromServer)) => TunnelExit(Pass, [Copied(fromClient, fromServer)])
      case Err(e) => TunnelExit(Pass, [TunnelError(e)])
  }

  /** The spawned task: wait for the upgrade, then run the tunnel. It returns
      nothing; every outcome ends in exactly one log line, a warning exactly
      when some step failed. */
  function TunnelTask(upgrade: Outcome<HyperError>, connect: Outcome<IoError>,
                      relay: Result<(nat, nat), IoError>): (log: seq<Note>)
    ensures |log| == 1
    ensures Warns(log[0]) <==> upgrade.Fail? || connect.Fail? || relay.Err?
    ensures upgrade.Fail? ==> log == [UpgradeError(upgrade.error)]
    ensures upgrade.Pass? && connect.Fail? ==> log == [ServerIoError(connect.error)]
  {
    match upgrade
    case Fail(e) => [UpgradeError(e)]
    case Pass =>
      var t := Tunnel(connect, relay);
      match t.result
      case Fail(e) => [ServerIoError(e)]
      case Pass => t.log
  }

  /** The per-connection proxy: the shared client. */
  datatype Svc = Svc(client: Client)

  /** `Svc` wrapped by the access-log layer bound to the peer address. */
  datatype LogService = LogService(remoteAddr: SocketAddr, inner: Svc)

  /** The access-log record: the peer's IP address (its port is not
      printed), the request as the client sent it and the status answered. */
  datatype Access = Access(remoteIp: IpAddr, verb: string, pathAndQuery: string, version: nat, status: nat)

  /** One request on a connection: the handler's decision, the result its
      future resolves to, and the access-log line written, if any. */
  datatype Served = Served(dispatch: Dispatch, result: Result<Response, HyperError>, entry: Option<Access>)

  /** `ResponseFuture::poll`: the request is captured when the call is made,
      and the line is written only when the inner future resolves to a
      response; an error passes through unlogged. */
  function AccessLine(s: LogService, req: Request, result: Result<Response, HyperError>): (entry: Option<Access>)
    ensures entry.Some? <==> result.Ok?
    ensures entry.Some? ==>
      && entry.value.remoteIp == Ip(s.remoteAddr)
      && entry.value.verb == req.verb
      && entry.value.pathAndQuery == PathOr(req.uri)
      && entry.value.version == req.version
      && entry.value.status == result.value.status
  {
    match result
    case Ok(rsp) => Some(Access(Ip(s.remoteAddr), req.verb, PathOr(req.uri), req.version, rsp.status))
    case Err(_) => None
  }

  /** `LogService::call` around `Svc::call` as written: the target is
      rewritten before `proxy` decides, and the log records the request the
      client sent. */
  function Serve(send: Send, s: LogService, req: Request): (r: Served)
    ensures r.dispatch == CallAsWritten(req)
    ensures r.result == Respond(send, r.dispatch)
    ensures r.entry == AccessLine(s, req, r.result)
  {
    var d := CallAsWritten(req);
    var result := Respond(send, d);
    Served(d, result, AccessLine(s, req, result))
  }

  /** On a connection, as written, every `CONNECT` is refused with an empty
      400 and logged with that status; no tunnel is ever spawned. */
  lemma ServeRefusesConnect(send: Send, s: LogService, req: Request)
    requires req.verb == CONNECT
    ensures Serve(send, s, req).dispatch == Reject
    ensures Serve(send, s, req).result == Ok(EmptyResponse(BAD_REQUEST))
    ensures Serve(send, s, req).entry.Some? && Serve(send, s, req).entry.value.status == BAD_REQUEST
  {
    ConnectAlwaysRejected(send, req);
  }

  /** A request goes unlogged exactly when it is forwarded and the backend
      client fails. */
  lemma ServeLogsUnlessClientFails(send: Send, s: LogService, req: Request)
    ensures Serve(send, s, req).entry.None? <==>
      req.verb != CONNECT && send(req.(uri := RewriteUri(req.uri))).Err?
  {
    if req.verb == CONNECT {
      ConnectAlwaysRejected(send, req);
    }
  }

  /** The same composition around the corrected `Call`: a `CONNECT` to a
      socket address spawns its tunnel. */
  function ServeCorrected(send: Send, s: LogService, req: Request): (r: Served)
    ensures r.dispatch == Call(req)
    ensures r.result == Respond(send, r.dispatch)
    ensures r.entry == AccessLine(s, req, r.result)
  {
    var d := Call(req);
    var result := Respond(send, d);
    Served(d, result, AccessLine(s, req, result))
  }

  /** The written and corrected compositions part only on `CONNECT`, where
      the corrected one tunnels to a socket address and the written one
      refuses. */
  lemma ServeCorrectedTunnels(send: Send, s: LogService, req: Request, a: SocketAddr)
    ensures req.verb != CONNECT ==> ServeCorrected(send, s, req) == Serve(send, s, req)
    ensures req.verb == CONNECT && ValidV4(a) && req.uri.authority == Some(Format(a)) ==>
      && ServeCorrected(send, s, req).dispatch == Spawn(a)
      && ServeCorrected(send, s, req).result == Ok(EmptyResponse(OK))
      && Serve(send, s, req).result == Ok(EmptyResponse(BAD_REQUEST))
  {
    if req.verb == CONNECT {
      ConnectAlwaysRejected(send, req);
      if ValidV4(a) && req.uri.authority == Some(Format(a)) {
        HostAddrOfFormat(a, req.uri);
      }
    }
  }

  datatype MakeSvc = MakeSvc(client: Client)

  /** `MakeSvc::call`: a log-wrapped `Svc` sharing the factory's client. */
  function MakeService(m: MakeSvc, conn: Conn): (s: LogService)
    ensures s.remoteAddr == conn.remoteAddr
    ensures s.inner.client == m.client
  {
    LogService(conn.remoteAddr, Svc(m.client))
  }

  /** Two connections' services decide and answer every request alike and
      share one client; only the address in their access logs differs. */
  lemma ConnectionsShareBehaviour(send: Send, m: MakeSvc, c1: Conn, c2: Conn, req: Request)
    ensures MakeService(m, c1).inner == MakeService(m, c2).inner
    ensures var r1, r2 := Serve(send, MakeService(m, c1), req), Serve(send, MakeService(m, c2), req);
      && r1.dispatch == r2.dispatch
      && r1.result == r2.result
      && (r1.entry.Some? <==> r2.entry.Some?)
      && (r1.entry.Some? ==> r1.entry.value.remoteIp == Ip(c1.remoteAddr))
      && (r1.entry.Some? ==> r1.entry.value == r2.entry.value.(remoteIp := Ip(c1.remoteAddr)))
      && (Ip(c1.remoteAddr) == Ip(c2.remoteAddr) ==> r1.entry == r2.entry)
  {
  }
}
