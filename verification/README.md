# charon in Dafny

A model of the request-decision and bookkeeping logic of charon, a
TLS-terminating reverse proxy that obtains its own certificates over ACME.
The model covers:

- **ACME manager** (`src/acme.rs`, module `AcmeManager`):
  - `Challenge::new` and the HTTP-01 probe path from section 8.3 of RFC 8555;
  - `load_certs`;
  - the `request` state machine. It runs as an imperative loop over the shared
    `domain → Challenge` registry, against a scripted ACME server.
- **Certificate resolver** (`src/cert.rs`, module `CertResolver`):
  - the swappable SNI resolver, `load_certkey` and `load`;
  - PEM decoding and rustls's checks are oracles.
- **Plaintext responder** (`src/services/redirect.rs`, module `RedirectService`;
  the older `src/redirect.rs`, module `LegacyRedirect`). It answers ACME probes
  from the registry, redirects everything else to HTTPS on port 8443, and gives
  404 without a usable `Host`.
- **TLS-side proxy** (`src/services/svc.rs`, module `ProxyService`; the older
  `src/svc.rs`, module `LegacyProxy`):
  - the URI rewrite to the backend `localhost:1111`;
  - the `CONNECT` decision, tunnel outcome and logging;
  - the per-connection service factories.

Supporting modules:

- `Wrappers` holds `Option`/`Result`.
- `Http` covers header lookup, `HeaderValue::to_str`, the parts of a `Uri`, and
  `Uri::host`.
- `SocketAddrs` is a concrete IPv4 `SocketAddr` parser with its printer.
- `Charon` holds cross-component properties:
  - a probe during validation is answered with the proof;
  - renewal followed by a swap serves the new certificate.

Oracles stand in for code that is not modelled:

- The http crate's URI parser is the parameter `parseUri`.
- The backend client is `send`.
- Files are `files`.
- rustls/PEM services are the `Pki` record.
- The ACME server is a `Server` script: one `Round` per pass of the validation
  loop, saying how `confirm_validations`, `authorizations`, `validate` and
  `refresh` turn out.

Two behaviours of the code are modelled as written:

- A challenge is removed from the registry only after `validate` and `refresh`
  both succeed. An error returns early through `?` and leaves it published; a
  scoped guard would retract it on every exit.
- `host_addr` parses the `CONNECT` authority as a `SocketAddr`, which accepts
  only IP literals. A `CONNECT` to a host name such as `example.com:443` is
  refused with 400.

## Model

| member | source | states |
|---|---|---|
| Http.GetHeader | src/services/redirect.rs:38-40 | the value of the first header with the name, and `None` exactly when no header has it |
| Http.ToStr | src/services/redirect.rs:41 | a header value is text exactly when every byte is a tab or printable ASCII |
| Http.ToStrAsciiBytes | src/services/redirect.rs:41 | visible text sent as header bytes reads back as the same text |
| Http.ToStrInverse | src/services/redirect.rs:41 | whatever `to_str` accepts is visible text whose bytes are the header's |
| Http.RequestHost | src/services/redirect.rs:38-44 | no host exactly when the `Host` header is absent, not visible text, not a URI, or a URI without an authority; otherwise it is `Uri::host` of the parsed header text, which never holds `@`, nor `:` unless it is a bracketed literal |
| Http.Host | src/services/redirect.rs:44 | a URI has a host exactly when it has an authority |
| Http.HostDropsPort | src/services/redirect.rs:44 | `Uri::host` of `host:port` and of `host` is `host`: the port never reaches the lookup or the redirect |
| Http.HostDropsUserinfo | src/services/redirect.rs:44 | a `userinfo@` prefix never reaches the host |
| SocketAddrs.ParseSocketAddr | src/services/svc.rs:85-87 | whatever parses is spelled by its address: the text before the first `:` is the dotted decimal octets and the rest is the decimal port |
| SocketAddrs.ParseSpells | src/services/svc.rs:85-87 | text that spells an IPv4 socket address parses to exactly that address |
| SocketAddrs.HostNameNotSocketAddr | src/services/svc.rs:85-87 | a host part holding a character other than a digit or `.` never parses: host names are rejected |
| SocketAddrs.Ip | src/services/log.rs:118 | the IP address is the socket address's octets, or segments, with the port dropped |
| SocketAddrs.ParseFormat | src/services/svc.rs:85-87 | every IPv4 socket address parses back from its printed text |
| SocketAddrs.BackendIsNotSocketAddr | src/services/svc.rs:42 | the backend authority `localhost:1111` is not a socket address |
| AcmeManager.NewChallenge | src/acme.rs:16-20 | the path is the well-known prefix followed by the token, and the proof is kept verbatim |
| AcmeManager.ChallengePathInjective | src/acme.rs:16-20 | two challenges have the same probe path exactly when their tokens agree |
| AcmeManager.LoadCerts | src/acme.rs:56-67 | success exactly when no lookup errs; the keys are the domains with a stored certificate, each mapped to it; otherwise the first error |
| AcmeManager.Run | src/acme.rs:69-101 | `new_order` failing is exactly a failure before any pass, with the registry untouched; a run that does not finish has used every scripted round |
| AcmeManager.Iterate | src/acme.rs:72-93 | the loop from pass `i` never goes back nor beyond the script; a failure inside the loop is never at `new_order`; an unfinished loop has used every round |
| AcmeManager.Finish | src/acme.rs:95-100 | a certificate is issued exactly when `finalize` and the download succeed, and it is the downloaded one; a failure names `finalize` exactly when `finalize` failed; the registry is left as the loop left it |
| AcmeManager.RequestKeepsChallengePaths | src/acme.rs:83-92 | if every registry entry is a well-known probe path, it still is after `request` |
| AcmeManager.Request | src/acme.rs:69-101 | the imperative loop computes exactly the functional run of `request` |
| AcmeManager.RequestExitPaths | src/acme.rs:69-101 | for every exit: what the registry holds; the registry equals the replay of the writes made; and the order of calls (publish then validate, refresh then remove, confirm then finalize) |
| AcmeManager.RequestTouchesOnlyDomain | src/acme.rs:83-92 | entries of other domains are unchanged |
| AcmeManager.RequestChallengeLifecycle | src/acme.rs:83-92 | without a `validate` or `refresh` error the entry is back as found or removed; after one, the last pass's challenge stays published |
| AcmeManager.RequestPublishesBeforeValidation | src/acme.rs:83-88 | whenever `validate` is called, the registry holds the domain's challenge for that token |
| AcmeManager.RequestFinalizesOnlyAfterConfirm | src/acme.rs:72-98 | a certificate is issued only after `confirm_validations` yields a CSR, every earlier pass having completed; `finalize` follows that confirmation |
| AcmeManager.RequestMoreRounds | src/acme.rs:72-93 | the loop has no bound of its own: a run that ended ends the same way with more rounds scripted |
| AcmeManager.RequestRetracting | src/acme.rs:83-92 | with retraction on every exit: the same result, and the domain's entry is as found or removed, never left published |
| AcmeManager.ValidationErrorLeavesChallenge | src/acme.rs:88-92 | whatever error `validate` returns, `request` fails with it and leaves the challenge published; the retracting version removes it |
| CertResolver.LoadCertkey | src/cert.rs:60-70 | success exactly when the certificates and keys decode, there is a key, and the first key is supported; the result is the chain with the first key; a decode failure is an ordinary error (the certificate's first), while a missing or unsupported first key panics |
| CertResolver.LoadCertkeyFirstKeyOnly | src/cert.rs:64-67 | only the first PKCS8 key influences the result |
| CertResolver.Lookup | src/cert.rs:31-33 | a certified key is found exactly when the SNI name is in the table, and it is that entry |
| CertResolver.Resolve | src/cert.rs:31-33 | a key is served exactly when the hello names a server that is in the current table, and it is that entry |
| CertResolver.New | src/cert.rs:21-23 | right after `new(t)`, every handshake is answered as `t` answers it |
| CertResolver.Swap | src/cert.rs:25-27 | after `swap(t)`, every handshake is answered as `t` answers it |
| CertResolver.SwapForgetsPrevious | src/cert.rs:25-27 | what the resolver held before a swap has no influence after it |
| CertResolver.AnswersFollowLastSwap | src/cert.rs:18-33 | in any sequence of swaps and resolves, each resolve answers from the table of the last swap before it |
| CertResolver.AddAll | src/cert.rs:47-54 | success exactly when every ACME entry loads and is accepted; each domain is mapped to its loaded key; earlier entries keep their values |
| CertResolver.Load | src/cert.rs:36-57 | success exactly when the bootstrap and every ACME entry load; the keys are `localhost` plus the ACME domains, each with its loaded certificate |
| CertResolver.LoadOrderIrrelevant | src/cert.rs:47-54 | the map's iteration order does not change whether loading succeeds or the table it yields |
| ProxyService.RewriteUri | src/services/svc.rs:41-48 | the new target is the backend with the client's scheme (default `http`) and the whole path and query (default `/`) |
| ProxyService.RewriteRendersFormat | src/services/svc.rs:41-46 | the rewritten target is the text `{scheme}://localhost:1111{path}` |
| ProxyService.RewriteIdempotent | src/services/svc.rs:41-48 | rewriting twice is rewriting once |
| ProxyService.RewriteTargetsBackend | src/services/svc.rs:41-48 | the rewritten target's host is `localhost` whatever the client sent |
| ProxyService.HostAddr | src/services/svc.rs:85-87 | no authority means no address; an address read is one the authority spells out |
| ProxyService.HostAddrOfFormat | src/services/svc.rs:85-87 | an authority that is an IPv4 socket address is read back as that address |
| ProxyService.HostAddrOfBackend | src/services/svc.rs:85-87 | the backend authority yields no address |
| ProxyService.Proxy | src/services/svc.rs:54-83 | non-`CONNECT` requests are forwarded untouched; a `CONNECT` spawns a tunnel exactly when its authority is a socket address, to that address, and is refused otherwise |
| ProxyService.Respond | src/services/svc.rs:58-82 | forwarded requests get the client's result verbatim; a tunnel gets an empty 200; a refusal gets an empty 400 |
| ProxyService.ProxyRefusesHostName | src/services/svc.rs:58-79 | a `CONNECT` whose authority names a host rather than an IP literal is refused |
| ProxyService.ProxyTunnelsToSocketAddr | src/services/svc.rs:58-71 | a `CONNECT` to any IPv4 socket address tunnels to exactly it and is answered 200 |
| ProxyService.CallAsWritten | src/services/svc.rs:38-51 | as written, non-`CONNECT` requests are forwarded with only the target rewritten |
| ProxyService.ConnectAlwaysRejected | src/services/svc.rs:46-59 | as written, every `CONNECT` is refused with 400 |
| ProxyService.ConnectCounterexample | src/services/svc.rs:41-72 | `CONNECT 127.0.0.1:443` would tunnel under `proxy` but is refused by the handler as written |
| ProxyService.Call | src/services/svc.rs:38-51 | corrected handler: rewrite and forward off `CONNECT`; a `CONNECT` tunnels exactly when the client's authority is a socket address |
| ProxyService.CallAgreesOffConnect | src/services/svc.rs:38-51 | the corrected handler differs from the written one only on `CONNECT` |
| ProxyService.Tunnel | src/services/svc.rs:89-112 | the tunnel fails only when the upstream connection fails; a relay error is logged as a warning and the tunnel still succeeds |
| ProxyService.TunnelTask | src/services/svc.rs:60-69 | the spawned task ends in exactly one log line, a warning exactly when the upgrade, the connection or the relay failed |
| ProxyService.AccessLine | src/services/log.rs:136-153 | a log line is written exactly when the inner future yields a response; it carries the peer's IP address without its port, the request as the client sent it, and the response's status |
| ProxyService.Serve | src/services/log.rs:57-64 | the log layer around the handler as written: the decision rewrites and then proxies, the result is that decision's, and the line is written only for a response |
| ProxyService.ServeRefusesConnect | src/services/svc.rs:41-78 | on a connection every `CONNECT` is refused with 400, and that status is logged |
| ProxyService.ServeLogsUnlessClientFails | src/services/log.rs:144-150 | a request goes unlogged exactly when it is forwarded and the backend client errs |
| ProxyService.ServeCorrected | src/services/svc.rs:38-59 | the log layer around the corrected handler |
| ProxyService.ServeCorrectedTunnels | src/services/svc.rs:54-72 | the corrected composition agrees off `CONNECT` and tunnels a `CONNECT` to a socket address with 200 where the written one answers 400 |
| ProxyService.MakeService | src/services/svc.rs:133-141 | each connection's service logs its own peer address and shares the factory's client |
| ProxyService.ConnectionsShareBehaviour | src/services/svc.rs:133-141 | services made for two connections decide and answer alike and log alike; only the logged IP address differs, so two connections from one IP log identical lines whatever their ports |
| LegacyProxy.RewriteUri | src/svc.rs:65-69 | the new target is `http` at the backend with the whole path and query (default `/`) |
| LegacyProxy.RewriteRendersFormat | src/svc.rs:65-68 | the rewritten target is the text `http://localhost:1111{path}` |
| LegacyProxy.RewriteIgnoresScheme | src/svc.rs:65-68 | the incoming scheme and authority play no part in the rewrite |
| LegacyProxy.RevisionsAgreeOnHttp | src/svc.rs:65-69 | both revisions rewrite alike unless the client asked for a scheme other than `http` |
| LegacyProxy.Call | src/svc.rs:62-73 | the forwarded request keeps method, version, headers and body; its target is `http://localhost:1111{path}` |
| LegacyProxy.CallChangesOnlyUri | src/svc.rs:71-72 | with the target put back, the forwarded request is the one the client sent |
| LegacyProxy.Respond | src/svc.rs:72 | the response is the client's result for the rewritten request |
| LegacyProxy.RevisionsForwardAlike | src/svc.rs:62-73 | off `CONNECT`, for `http` targets, the newer service forwards exactly what this one does |
| LegacyProxy.MakeService | src/svc.rs:95-100 | the service is bound to the connection's peer address and shares the factory's client |
| LegacyProxy.ForwardingIgnoresPeer | src/svc.rs:62-73 | the peer address does not influence what is forwarded |
| LegacyRedirect.Location | src/redirect.rs:36-41 | the location is `https://`, the host, `:8443` and the path and query, in that order, each at its fixed place |
| LegacyRedirect.LocationInjective | src/redirect.rs:36-41 | host and path and query can be read back from a redirect location |
| LegacyRedirect.RedirectTo | src/redirect.rs:43-44 | a 308 whose only header is the location, with an empty body |
| LegacyRedirect.Respond | src/redirect.rs:26-50 | the body is always empty; no request ever gets 200; 404 exactly when the host is unusable; otherwise a redirect to the same path and query |
| LegacyRedirect.UnusableHostNotFound | src/redirect.rs:29-47 | an absent, non-ASCII or unparseable `Host`, or one without a host, gives an empty 404 |
| LegacyRedirect.MissingPathRedirectsToRoot | src/redirect.rs:40 | a missing path and query redirects to `/` |
| LegacyRedirect.RedirectDropsClientPort | src/redirect.rs:35-41 | a port in the `Host` header is replaced by 8443 |
| RedirectService.Respond | src/services/redirect.rs:35-67 | an unusable host gives an empty 404; 200 with the proof exactly when the host has a challenge whose path equals the path and query; otherwise a redirect |
| RedirectService.ProbeAnswered | src/services/redirect.rs:47-49 | the probe for a published `Challenge::new(token, proof)` is answered 200 with the proof |
| RedirectService.QueryDefeatsProbe | src/services/redirect.rs:48-61 | a path that differs from the challenge's, e.g. by an appended query, is redirected |
| RedirectService.MissingPathRedirectsToRoot | src/services/redirect.rs:45-57 | a missing path and query is never a probe and redirects to `/` |
| RedirectService.ProbeIgnoresClientPort | src/services/redirect.rs:44-49 | a port in the `Host` header does not hide the bare domain's challenge |
| RedirectService.AgreesWithLegacyOffProbe | src/services/redirect.rs:53-66 | where no challenge matches, the answer is the older responder's |
| RedirectService.AgreesWithLegacyWhenEmpty | src/services/redirect.rs:44-66 | with nothing published, the responder is the older one |
| RedirectService.RedirectExample | src/services/redirect.rs:53-61 | `Host: example.com` with `/foo?x=1` redirects to `https://example.com:8443/foo?x=1` |
| RedirectService.Serve | src/services/redirect.rs:44-49 | through the shared handle: 404 without a host; 200 with the proof exactly when the registry read holds a challenge for the host at the path and query; otherwise the redirect |
| RedirectService.Connect | src/services/redirect.rs:89-93 | every connection's responder holds the factory's registry handle |
| RedirectService.ConnectionsShareRegistry | src/services/redirect.rs:74-93 | all connections answer from the one registry, including writes made after they were accepted |
| Charon.ProbeAnsweredDuringValidation | src/acme.rs:83-88 | while `validate` is in flight, every plaintext connection answers the domain's probe with 200 and the published proof |
| Charon.RenewalServesStoredCertificates | src/cert.rs:25-57 | after loading and swapping, each ACME domain is served the certificate loaded from the store |
| Charon.StoredDomainsAreServed | src/cert.rs:36-57 | every domain with a stored certificate, and `localhost`, is served by the loaded resolver |

## Left out

- `src/services/log.rs` access-log formatting and `log_request` in `src/svc.rs`: the timestamp, elapsed time, `Authorization` user, `Referer`, `User-Agent` and content length are formatting around a clock and header decoding. The peer's IP address (`remote_addr.ip()`), method, path and query, version and status of the line are modelled, and so is when it is written.
- `src/main.rs` and `src/settings.rs`: process wiring, socket binding and TOML configuration.
- The tunnel's byte relay (`tokio::io::copy`, `try_join`) and `task::spawn`: concurrent I/O. Only its outcome (the joined byte counts or the first error) is a parameter.
- The atomicity of `ArcSwap`: the resolver is modelled sequentially, as the replacement of a reference to an immutable table.
- URI parsing by the http crate is the oracle `parseUri`. `Uri::host` on the resulting authority is modelled.
- ProxyService.RewriteUri: `parse().unwrap()` on the formatted text is assumed to yield the formatted parts. A target that makes that text unparseable, such as the asterisk-form `OPTIONS *`, panics in the source and is not modelled.
- SocketAddrs.ParseSocketAddr: parses only the IPv4 form `a.b.c.d:port`. A bracketed IPv6 `[addr]:port`, which Rust accepts, yields `None` here.
- AcmeManager.Request: an authorization is assumed to carry an HTTP-01 challenge. `acme_lib`'s `http_challenge()` panics otherwise.
- AcmeManager.Request: the loop has no bound in the source. A script with too few rounds ends as `Unfinished`, and `RequestMoreRounds` shows that this stands only for a run still looping.
- `Acme::new` (directory and account set-up) and `create_p384_key`: network, filesystem and randomness.
- PEM decoding, key-type detection and rustls's acceptance checks are the `Pki` oracles. Certificates and keys are opaque identifiers.
- CertResolver.Lookup: compares the SNI name as exact text. rustls's DNS-name normalisation is not modelled.
- `Response::builder().body(..).unwrap()` in the responders: a location built from a parsed host and path is assumed to be a valid header value.
- `MakeRedirect` of `src/redirect.rs`: a stateless unit struct. Every connection is served by the same `LegacyRedirect.Respond`.
- `poll_ready` and the futures: every service is always ready, and each call is modelled by the value its future resolves to.
- The text of error messages: errors are kept as variants with their cause.

## Findings

| source | as written | input that shows it | evidently intended | confidence | as-written member | corrected member |
|---|---|---|---|---|---|---|
| src/services/svc.rs:41-59 | `Svc::call` rewrites the target to `localhost:1111` before `proxy` reads the `CONNECT` authority, and `localhost:1111` is no socket address | `CONNECT 127.0.0.1:443` is refused with 400 and no tunnel is opened | the `CONNECT` decision uses the authority the client sent, so a socket-address authority gets 200 and a tunnel | high (not executed) | ProxyService.ConnectCounterexample | ProxyService.Call |
| src/acme.rs:88-92 | the challenge is removed only after `validate` and `refresh` both succeed; an error returns early through `?` | a `validate` that fails leaves `example.com`'s challenge in the registry after `request` fails | the challenge is retracted on every way out of the pass | medium (not executed) | AcmeManager.ValidationErrorLeavesChallenge | AcmeManager.RequestRetracting |
