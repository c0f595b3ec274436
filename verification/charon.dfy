/** Properties that span components: the ACME client and the plaintext
    responder share the challenge registry, and the certificates the ACME
    store holds become the table the TLS resolver answers from. */
module Charon {
  import opened Wrappers
  import opened Http
  import opened AcmeManager
  import RedirectService
  import CertResolver

  /** While `validate` is in flight for a domain, every plaintext connection
      answers the ACME server's probe for that domain with 200 and the proof
      `request` published. */
  lemma ProbeAnsweredDuringValidation<T>(domain: string, s: Server, reg: Registry, k: nat,
                                         heap: Heap, m: RedirectService.MakeRedirect, conn: T,
                                         req: Request, parseUri: string -> Option<Uri>)
    requires var e := Run(domain, s, reg);
      && k < |e.trace| && e.trace[k].ValidateCall?
      && Read(heap, m.challenges) == Replay(reg, e.trace[..k])
    requires RequestHost(req, parseUri) == Some(domain)
    requires req.uri.pathAndQuery == Some(CHALLENGE_PREFIX + Run(domain, s, reg).trace[k].token)
    ensures var published := Replay(reg, Run(domain, s, reg).trace[..k]);
      && domain in published
      && RedirectService.Serve(heap, RedirectService.Connect(m, conn), req, parseUri)
           == Response(OK, [], Text(published[domain].proof))
  {
    RequestPublishesBeforeValidation(domain, s, reg);
  }

  /** After a successful load the resolver swapped to the new table serves
      each ACME domain the certificate stored for it, whatever it served
      before. */
  lemma RenewalServesStoredCertificates(r: CertResolver.Resolver, acmeCerts: map<string, Certificate>,
                                        order: seq<string>, files: string -> Option<string>,
                                        pki: CertResolver.Pki, domain: string)
    requires forall d :: d in acmeCerts <==> d in order
    requires CertResolver.Load(acmeCerts, order, files, pki).Ok?
    requires domain in acmeCerts
    ensures var t := CertResolver.Load(acmeCerts, order, files, pki).value;
      var served := CertResolver.Resolve(CertResolver.Swap(r, t), CertResolver.ClientHello(Some(domain)));
      && served.Some?
      && Ok(served.value) == CertResolver.LoadCertkey(acmeCerts[domain].certificate, acmeCerts[domain].privateKey, pki)
  {
    var t := CertResolver.Load(acmeCerts, order, files, pki).value;
    assert CertResolver.Resolve(CertResolver.Swap(r, t), CertResolver.ClientHello(Some(domain))) == Some(t[domain]);
  }

  /** Every domain the ACME store holds a certificate for is served by the
      resolver built from `load_certs` and `load`; `localhost` is always
      served. */
  lemma StoredDomainsAreServed(domains: seq<string>, lookup: string -> Lookup, order: seq<string>,
                               files: string -> Option<string>, pki: CertResolver.Pki, domain: string)
    requires LoadCerts(domains, lookup).Ok?
    requires forall d :: d in LoadCerts(domains, lookup).value <==> d in order
    requires CertResolver.Load(LoadCerts(domains, lookup).value, order, files, pki).Ok?
    ensures var t := CertResolver.Load(LoadCerts(domains, lookup).value, order, files, pki).value;
      && (domain in domains && lookup(domain).Found? ==>
            CertResolver.Resolve(CertResolver.New(t), CertResolver.ClientHello(Some(domain))).Some?)
      && CertResolver.Resolve(CertResolver.New(t), CertResolver.ClientHello(Some(CertResolver.LOCALHOST))).Some?
  {
  }
}
