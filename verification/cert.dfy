/** Certificate management of `src/cert.rs`: the swappable SNI resolver and
    the construction of its table from the bootstrap files and the ACME
    certificates.

    PEM decoding, key-type detection and rustls's checks on a new entry are
    oracles collected in `Pki`; reading a file is the oracle `files`. */
module CertResolver {
  import opened Wrappers
  import AcmeManager

  /** One DER certificate of a chain. */
  datatype CertDer = CertDer(id: nat)

  /** One PKCS8 private key as decoded from PEM. */
  datatype KeyDer = KeyDer(id: nat)

  /** A key rustls can sign with. */
  datatype SigningKey = SigningKey(id: nat)

  /** rustls's `CertifiedKey`: a certificate chain and its signing key. */
  datatype CertifiedKey = CertifiedKey(chain: seq<CertDer>, key: SigningKey)

  /** The rustls services `cert.rs` calls. */
  datatype Pki = Pki(
    // `pemfile::certs`
    certs: string -> Option<seq<CertDer>>,
    // `pemfile::pkcs8_private_keys`
    pkcs8Keys: string -> Option<seq<KeyDer>>,
    // `sign::any_supported_type`
    signingKey: KeyDer -> Option<SigningKey>,
    // the DNS-name and end-entity checks of `ResolvesServerCertUsingSNI::add`
    accepts: (string, CertifiedKey) -> bool)

  /** Why `load` fails; `Panic` marks the two places `load_certkey` panics
      (an empty key list is indexed, an unsupported key is unwrapped). */
  datatype LoadError =
    | CannotOpen(path: string)
    | InvalidCertificate
    | InvalidKey
    | Rejected(name: string)
    | Panic(reason: string)

  /** `load_certkey`: the whole chain, and a signing key made from the first
      PKCS8 key only. */
  function LoadCertkey(cert: string, key: string, pki: Pki): (r: Result<CertifiedKey, LoadError>)
    ensures r.Ok? <==>
      && pki.certs(cert).Some?
      && pki.pkcs8Keys(key).Some?
      && |pki.pkcs8Keys(key).value| > 0
      && pki.signingKey(pki.pkcs8Keys(key).value[0]).Some?
    ensures r.Ok? ==>
      && r.value.chain == pki.certs(cert).value
      && r.value.key == pki.signingKey(pki.pkcs8Keys(key).value[0]).value
    ensures r.Err? ==> (r.error.Panic? <==> pki.certs(cert).Some? && pki.pkcs8Keys(key).Some?)
    ensures r.Err? && !r.error.Panic? ==>
      r.error == (if pki.certs(cert).None? then InvalidCertificate else InvalidKey)
  {
    match pki.certs(cert)
    case None => Err(InvalidCertificate)
    case Some(chain) =>
      match pki.pkcs8Keys(key)
      case None => Err(InvalidKey)
      case Some(keys) =>
        if |keys| == 0 then Err(Panic("index out of bounds"))
        else
          match pki.signingKey(keys[0])
          case None => Err(Panic("unsupported key type"))
          case Some(k) => Ok(CertifiedKey(chain, k))
  }

  /** Only the first key counts: two key files whose first PKCS8 keys agree
      load the same certified key. */
  lemma LoadCertkeyFirstKeyOnly(cert: string, key1: string, key2: string, pki: Pki)
    requires pki.pkcs8Keys(key1).Some? && pki.pkcs8Keys(key2).Some?
    requires |pki.pkcs8Keys(key1).value| > 0 && |pki.pkcs8Keys(key2).value| > 0
    requires pki.pkcs8Keys(key1).value[0] == pki.pkcs8Keys(key2).value[0]
    ensures LoadCertkey(cert, key1, pki) == LoadCertkey(cert, key2, pki)
  {
  }

  /** A resolver table: server name to certified key. */
  type Table = map<string, CertifiedKey>

  /** The part of a TLS ClientHello a resolver looks at: the SNI name. */
  datatype ClientHello = ClientHello(serverName: Option<string>)

  /** `ResolvesServerCertUsingSNI::resolve`: the entry for the SNI name; no
      SNI, no certificate. */
  function Lookup(t: Table, hello: ClientHello): (r: Option<CertifiedKey>)
    ensures r.Some? <==> hello.serverName.Some? && hello.serverName.value in t
    ensures r.Some? ==> r.value == t[hello.serverName.value]
  {
    match hello.serverName
    case None => None
    case Some(name) => if name in t then Some(t[name]) else None
  }

  /** `Resolver`: a reference to the table currently in effect. */
  datatype Resolver = Resolver(current: Table)

  /** `Resolver::new`. */
  function New(t: Table): (r: Resolver)
    ensures forall hello :: Resolve(r, hello) == Lookup(t, hello)
  {
    Resolver(t)
  }

  /** `Resolver::swap`: replaces the table; nothing of the old one survives. */
  function Swap(r: Resolver, t: Table): (r': Resolver)
    ensures forall hello :: Resolve(r', hello) == Lookup(t, hello)
  {
    Resolver(t)
  }

  /** `Resolver::resolve`: delegates to the table currently in effect. */
  function Resolve(r: Resolver, hello: ClientHello): (k: Option<CertifiedKey>)
    ensures k.Some? <==> hello.serverName.Some? && hello.serverName.value in r.current
    ensures k.Some? ==> k.value == r.current[hello.serverName.value]
  {
    Lookup(r.current, hello)
  }

  /** Nothing is merged: after a swap, what the resolver held before is
      invisible. */
  lemma SwapForgetsPrevious(r1: Resolver, r2: Resolver, t: Table, hello: ClientHello)
    ensures Resolve(Swap(r1, t), hello) == Resolve(Swap(r2, t), hello)
  {
  }

  /** One operation on a shared resolver. */
  datatype Op = SwapOp(table: Table) | ResolveOp(hello: ClientHello)

  /** The answers a resolver gives to a sequence of operations, one entry
      per operation (`None` for a swap). */
  function Answers(r: Resolver, ops: seq<Op>): (a: seq<Option<Option<CertifiedKey>>>)
    ensures |a| == |ops|
    decreases |ops|
  {
    if |ops| == 0 then []
    else
      match ops[0]
      case SwapOp(t) => [None] + Answers(Swap(r, t), ops[1..])
      case ResolveOp(hello) => [Some(Resolve(r, hello))] + Answers(r, ops[1..])
  }

  /** The table of the last swap in `ops`, or `init` when there is none. */
  function LastTable(init: Table, ops: seq<Op>): Table
    decreases |ops|
  {
    if |ops| == 0 then init
    else if ops[|ops| - 1].SwapOp? then ops[|ops| - 1].table
    else LastTable(init, ops[..|ops| - 1])
  }

  lemma {:induction false} LastTableCons(init: Table, op: Op, rest: seq<Op>)
    ensures LastTable(init, [op] + rest) == LastTable(if op.SwapOp? then op.table else init, rest)
    decreases |rest|
  {
    var ops := [op] + rest;
    if |rest| > 0 {
      assert ops[..|ops| - 1] == [op] + rest[..|rest| - 1];
      LastTableCons(init, op, rest[..|rest| - 1]);
    }
  }

  /** A table is never seen half-replaced: every resolve answers exactly as
      the table of the last swap before it (or the first table) does. */
  lemma {:induction false} AnswersFollowLastSwap(r: Resolver, ops: seq<Op>)
    ensures forall k :: 0 <= k < |ops| && ops[k].ResolveOp? ==>
      Answers(r, ops)[k] == Some(Lookup(LastTable(r.current, ops[..k]), ops[k].hello))
    decreases |ops|
  {
    if |ops| > 0 {
      var next := if ops[0].SwapOp? then Swap(r, ops[0].table) else r;
      AnswersFollowLastSwap(next, ops[1..]);
      forall k | 1 <= k < |ops| && ops[k].ResolveOp?
        ensures Answers(r, ops)[k] == Some(Lookup(LastTable(r.current, ops[..k]), ops[k].hello))
      {
        assert ops[..k] == [ops[0]] + ops[1..][..k - 1];
        LastTableCons(r.current, ops[0], ops[1..][..k - 1]);
        assert ops[1..][k - 1] == ops[k];
      }
      assert ops[..0] == [];
    }
  }

  // ---------------------------------------------------------------------
  // load

  /** The fallback identity registered from the bootstrap files. */
  const LOCALHOST := "localhost"
  const CERT_FILE := "localhost.pem"
  const KEY_FILE := "localhost-key.pem"

  /** `File::open`: the file's contents, or why it could not be opened. */
  function Open(files: string -> Option<string>, path: string): Result<string, LoadError> {
    match files(path)
    case None => Err(CannotOpen(path))
    case Some(text) => Ok(text)
  }

  /** `ResolvesServerCertUsingSNI::add`. */
  function Add(t: Table, name: string, ck: CertifiedKey, pki: Pki): Result<Table, LoadError> {
    if pki.accepts(name, ck) then Ok(t[name := ck]) else Err(Rejected(name))
  }

  /** An ACME certificate loads and rustls accepts it for its domain. */
  predicate EntryLoads(domain: string, cert: AcmeManager.Certificate, pki: Pki) {
    var ck := LoadCertkey(cert.certificate, cert.privateKey, pki);
    ck.Ok? && pki.accepts(domain, ck.value)
  }

  /** The bootstrap files open, load and are accepted for `localhost`. */
  predicate BootstrapLoads(files: string -> Option<string>, pki: Pki) {
    && files(CERT_FILE).Some?
    && files(KEY_FILE).Some?
    && var ck := LoadCertkey(files(CERT_FILE).value, files(KEY_FILE).value, pki);
    && ck.Ok?
    && pki.accepts(LOCALHOST, ck.value)
  }

  /** The loop of `load` over the ACME certificates, in iteration order. */
  function AddAll(t: Table, certs: map<string, AcmeManager.Certificate>, order: seq<string>, pki: Pki): (r: Result<Table, LoadError>)
    requires forall i :: 0 <= i < |order| ==> order[i] in certs
    ensures r.Ok? <==> forall i :: 0 <= i < |order| ==> EntryLoads(order[i], certs[order[i]], pki)
    ensures r.Ok? ==> forall d :: d in r.value <==> d in t || d in order
    ensures r.Ok? ==> forall i :: 0 <= i < |order| ==>
      Ok(r.value[order[i]]) == LoadCertkey(certs[order[i]].certificate, certs[order[i]].privateKey, pki)
    ensures r.Ok? ==> forall d :: d in t && d !in order ==> r.value[d] == t[d]
    decreases |order|
  {
    if |order| == 0 then Ok(t)
    else
      var domain := order[0];
      var cert := certs[domain];
      var ck :- LoadCertkey(cert.certificate, cert.privateKey, pki);
      var t' :- Add(t, domain, ck, pki);
      var r := AddAll(t', certs, order[1..], pki);
      assert forall i :: 1 <= i < |order| ==> order[i] == order[1..][i - 1];
      assert forall d :: d in order <==> d == domain || d in order[1..];
      r
  }

  /** `load`: `localhost` from the bootstrap files, then one entry per ACME
      certificate (visited in `order`, the map's iteration order); any
      failure fails the whole table. */
  function Load(acmeCerts: map<string, AcmeManager.Certificate>, order: seq<string>,
                files: string -> Option<string>, pki: Pki): (r: Result<Table, LoadError>)
    requires forall d :: d in acmeCerts <==> d in order
    ensures r.Ok? <==>
      BootstrapLoads(files, pki) && forall d :: d in acmeCerts ==> EntryLoads(d, acmeCerts[d], pki)
    ensures r.Ok? ==> r.value.Keys == {LOCALHOST} + acmeCerts.Keys
    ensures r.Ok? ==> forall d :: d in acmeCerts ==>
      Ok(r.value[d]) == LoadCertkey(acmeCerts[d].certificate, acmeCerts[d].privateKey, pki)
    ensures r.Ok? && LOCALHOST !in acmeCerts ==>
      Ok(r.value[LOCALHOST]) == LoadCertkey(files(CERT_FILE).value, files(KEY_FILE).value, pki)
  {
    var certPem :- Open(files, CERT_FILE);
    var keyPem :- Open(files, KEY_FILE);
    var ck :- LoadCertkey(certPem, keyPem, pki);
    var t :- Add(map[], LOCALHOST, ck, pki);
    assert forall i :: 0 <= i < |order| ==> order[i] in acmeCerts;
    var r := AddAll(t, acmeCerts, order, pki);
    assert forall d :: d in acmeCerts ==> exists i :: 0 <= i < |order| && order[i] == d;
    r
  }

  /** The iteration order of the ACME map decides at most which error is
      reported: a table that loads is the same in every order. */
  lemma LoadOrderIrrelevant(acmeCerts: map<string, AcmeManager.Certificate>, order1: seq<string>, order2: seq<string>,
                            files: string -> Option<string>, pki: Pki)
    requires forall d :: d in acmeCerts <==> d in order1
    requires forall d :: d in acmeCerts <==> d in order2
    ensures Load(acmeCerts, order1, files, pki).Ok? <==> Load(acmeCerts, order2, files, pki).Ok?
    ensures Load(acmeCerts, order1, files, pki).Ok? ==> Load(acmeCerts, order1, files, pki) == Load(acmeCerts, order2, files, pki)
  {
    var r1 := Load(acmeCerts, order1, files, pki);
    var r2 := Load(acmeCerts, order2, files, pki);
    if r1.Ok? {
      forall d | d in r1.value ensures d in r2.value && r1.value[d] == r2.value[d] {
        if d in acmeCerts {
          assert r1.value[d] == LoadCertkey(acmeCerts[d].certificate, acmeCerts[d].privateKey, pki).value;
        } else {
          assert r1.value[d] == LoadCertkey(files(CERT_FILE).value, files(KEY_FILE).value, pki).value;
        }
      }
      assert r1.value == r2.value;
    }
  }
}
