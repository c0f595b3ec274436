/** The ACME manager of `src/acme.rs`: HTTP-01 challenges, the shared
    challenge registry, `load_certs` and the `request` state machine.

    The ACME server (`acme_lib`'s `new_order`, `confirm_validations`,
    `authorizations`, `validate`, `refresh`, `finalize_pkey`,
    `download_and_save_cert`) is a scripted oracle: a `Server` says how each of
    those calls turns out, one `Round` per pass of the validation loop. */
module AcmeManager {
  import opened Wrappers

  /** The HTTP-01 probe path prefix (section 8.3 of RFC 8555). */
  const CHALLENGE_PREFIX := "/.well-known/acme-challenge/"

  /** A published HTTP-01 challenge: the path the ACME server will request
      and the key authorization to answer it with. */
  datatype Challenge = Challenge(path: string, proof: string)

  /** The token a challenge path carries, if it is a challenge path. */
  function TokenOf(path: string): (t: Option<string>)
    ensures t.Some? <==> |path| >= |CHALLENGE_PREFIX| && path[..|CHALLENGE_PREFIX|] == CHALLENGE_PREFIX
    ensures t.Some? ==> path == CHALLENGE_PREFIX + t.value
  {
    if |path| >= |CHALLENGE_PREFIX| && path[..|CHALLENGE_PREFIX|] == CHALLENGE_PREFIX
    then Some(path[|CHALLENGE_PREFIX|..])
    else None
  }

  /** `Challenge::new`: the probe path names the token, the proof is kept
      verbatim. */
  function NewChallenge(token: string, proof: string): (c: Challenge)
    ensures c.proof == proof
    ensures TokenOf(c.path) == Some(token)
  {
    var path := CHALLENGE_PREFIX + token;
    assert path[..|CHALLENGE_PREFIX|] == CHALLENGE_PREFIX;
    assert path[|CHALLENGE_PREFIX|..] == token;
    Challenge(path, proof)
  }

  /** Distinct tokens give distinct probe paths, so a probe identifies its token. */
  lemma ChallengePathInjective(t1: string, p1: string, t2: string, p2: string)
    ensures NewChallenge(t1, p1).path == NewChallenge(t2, p2).path <==> t1 == t2
  {
    if NewChallenge(t1, p1).path == NewChallenge(t2, p2).path {
      assert Some(t1) == TokenOf(NewChallenge(t1, p1).path) == Some(t2);
    }
  }

  /** The contents of the shared `ChallengeStorage`: each domain's active
      challenge. */
  type Registry = map<string, Challenge>

  /** The identity of one `ChallengeStorage` handle; clones of the `Arc` share
      it, and so share the registry behind it. */
  datatype Storage = Storage(id: nat)

  /** The registry contents behind every handle. */
  type Heap = map<Storage, Registry>

  /** What `RwLock::read` sees through a handle (an empty map for a handle
      never written). */
  function Read(heap: Heap, handle: Storage): Registry {
    if handle in heap then heap[handle] else map[]
  }

  // ---------------------------------------------------------------------
  // load_certs

  /** An issued certificate as `acme_lib` stores it: PEM chain and PEM key. */
  datatype Certificate = Certificate(certificate: string, privateKey: string)

  datatype StoreError = StoreError(reason: string)

  /** What `Account::certificate` reports for one domain. */
  datatype Lookup = Absent | Found(cert: Certificate) | Unreadable(error: StoreError)

  /** `Acme::load_certs`: the stored certificate of every domain that has one,
      keyed by domain; the first unreadable entry fails the whole call. */
  function LoadCerts(domains: seq<string>, lookup: string -> Lookup): (r: Result<map<string, Certificate>, StoreError>)
    ensures r.Ok? <==> forall i :: 0 <= i < |domains| ==> !lookup(domains[i]).Unreadable?
    ensures r.Ok? ==> forall d :: d in r.value <==> d in domains && lookup(d).Found?
    ensures r.Ok? ==> forall d :: d in r.value ==> r.value[d] == lookup(d).cert
    ensures r.Err? ==>
      exists i :: && 0 <= i < |domains|
                  && lookup(domains[i]) == Unreadable(r.error)
                  && forall j :: 0 <= j < i ==> !lookup(domains[j]).Unreadable?
    decreases |domains|
  {
    if |domains| == 0 then Ok(map[])
    else
      var rest := LoadCerts(domains[1..], lookup);
      assert forall i :: 1 <= i < |domains| ==> domains[i] == domains[1..][i - 1];
      assert forall d :: d in domains <==> d == domains[0] || d in domains[1..];
      match lookup(domains[0])
      case Unreadable(e) => Err(e)
      case Absent => rest
      case Found(cert) =>
        match rest
        case Err(e) =>
          var k :| && 0 <= k < |domains[1..]|
                   && lookup(domains[1..][k]) == Unreadable(e)
                   && forall j :: 0 <= j < k ==> !lookup(domains[1..][j]).Unreadable?;
          assert lookup(domains[k + 1]) == Unreadable(e);
          Err(e)
        case Ok(m) => Ok(m[domains[0] := cert])
  }

  // ---------------------------------------------------------------------
  // request

  datatype AcmeError = AcmeError(reason: string)

  /** The error `request` raises for an order without authorizations. */
  const NO_AUTHORIZATIONS := AcmeError("no authorizations in cert order")

  /** The call whose error ended a `request`. */
  datatype Step = AtNewOrder | AtAuthorizations | AtValidate | AtRefresh | AtFinalize | AtDownload

  /** An authorization's HTTP-01 challenge: its token and key authorization. */
  datatype HttpChallenge = HttpChallenge(token: string, proof: string)

  datatype Authorization = Authorization(http: HttpChallenge)

  /** The CSR handle `confirm_validations` yields once the order is valid. */
  datatype Csr = Csr(id: nat)

  /** How the server answers the calls of one pass of the validation loop. */
  datatype Round = Round(
    confirmed: Option<Csr>,
    authorizations: Result<seq<Authorization>, AcmeError>,
    validate: Outcome<AcmeError>,
    refresh: Outcome<AcmeError>)

  /** The scripted ACME server for one `request`. */
  datatype Server = Server(
    newOrder: Outcome<AcmeError>,
    rounds: seq<Round>,
    finalize: Outcome<AcmeError>,
    download: Result<Certificate, AcmeError>)

  /** The calls `request` makes, in order, and its registry writes. */
  datatype Event =
    | NewOrderCall
    | ConfirmCall(csr: Option<Csr>)
    | AuthorizationsCall
    | Insert(domain: string, challenge: Challenge)
    | ValidateCall(token: string)
    | RefreshCall
    | Remove(domain: string)
    | FinalizeCall(signingRequest: Csr)
    | DownloadCall

  /** How `request` ended: a certificate, an error from one step, or (when the
      script runs out of rounds) still looping. */
  datatype Issue = Issued(cert: Certificate) | Failed(step: Step, error: AcmeError) | Unfinished

  /** The end of one `request`: its result, the registry it leaves, the calls
      it made and the number of loop passes it entered. */
  datatype Exit = Exit(result: Issue, registry: Registry, trace: seq<Event>, passes: nat)

  /** The challenge a pass publishes: the first authorization's HTTP-01 one. */
  function FirstChallenge(round: Round): Challenge
    requires round.authorizations.Ok? && |round.authorizations.value| > 0
  {
    var http := round.authorizations.value[0].http;
    NewChallenge(http.token, http.proof)
  }

  /** A pass that runs to its end and loops again. */
  predicate Completes(round: Round) {
    && round.confirmed.None?
    && round.authorizations.Ok?
    && |round.authorizations.value| > 0
    && round.validate.Pass?
    && round.refresh.Pass?
  }

  /** `finalize_pkey` then `download_and_save_cert`. */
  function Finish(s: Server, csr: Csr, reg: Registry, trace: seq<Event>, passes: nat): (e: Exit)
    ensures e.registry == reg && e.passes == passes
    ensures e.result.Issued? <==> s.finalize.Pass? && s.download.Ok?
    ensures e.result.Issued? ==> e.result.cert == s.download.value
    ensures e.result.Failed? ==> (e.result.step == AtFinalize <==> s.finalize.Fail?)
    ensures !e.result.Unfinished?
  {
    var finalized := trace + [FinalizeCall(csr)];
    match s.finalize
    case Fail(e) => Exit(Failed(AtFinalize, e), reg, finalized, passes)
    case Pass =>
      match s.download
      case Err(e) => Exit(Failed(AtDownload, e), reg, finalized + [DownloadCall], passes)
      case Ok(cert) => Exit(Issued(cert), reg, finalized + [DownloadCall], passes)
  }

  /** The validation loop from pass `i` on. */
  function Iterate(domain: string, s: Server, i: nat, reg: Registry, trace: seq<Event>): (e: Exit)
    requires i <= |s.rounds|
    ensures i <= e.passes <= |s.rounds|
    ensures e.result.Unfinished? ==> e.passes == |s.rounds|
    ensures e.result.Failed? ==> e.result.step != AtNewOrder
    decreases |s.rounds| - i
  {
    if i == |s.rounds| then Exit(Unfinished, reg, trace, i)
    else
      var round := s.rounds[i];
      match round.confirmed
      case Some(csr) => Finish(s, csr, reg, trace + [ConfirmCall(Some(csr))], i + 1)
      case None =>
        var listed := trace + [ConfirmCall(None), AuthorizationsCall];
        match round.authorizations
        case Err(e) => Exit(Failed(AtAuthorizations, e), reg, listed, i + 1)
        case Ok(auths) =>
          if |auths| == 0 then Exit(Failed(AtAuthorizations, NO_AUTHORIZATIONS), reg, listed, i + 1)
          else
            var c := NewChallenge(auths[0].http.token, auths[0].http.proof);
            var published := reg[domain := c];
            var validating := listed + [Insert(domain, c), ValidateCall(auths[0].http.token)];
            match round.validate
            case Fail(e) => Exit(Failed(AtValidate, e), published, validating, i + 1)
            case Pass =>
              var refreshed := validating + [RefreshCall];
              match round.refresh
              case Fail(e) => Exit(Failed(AtRefresh, e), published, refreshed, i + 1)
              case Pass => Iterate(domain, s, i + 1, published - {domain}, refreshed + [Remove(domain)])
  }

  /** `Acme::request` as a function of the server's answers. */
  function Run(domain: string, s: Server, reg: Registry): (e: Exit)
    ensures e.passes <= |s.rounds|
    ensures e.result.Failed? && e.result.step == AtNewOrder <==> s.newOrder.Fail?
    ensures s.newOrder.Fail? ==> e.registry == reg && e.passes == 0
    ensures e.result.Unfinished? ==> e.passes == |s.rounds|
  {
    match s.newOrder
    case Fail(e) => Exit(Failed(AtNewOrder, e), reg, [NewOrderCall], 0)
    case Pass => Iterate(domain, s, 0, reg, [NewOrderCall])
  }

  /** `Acme::request`: the imperative loop, computing exactly `Run`. */
  method Request(domain: string, server: Server, challenges: Registry) returns (e: Exit)
    ensures e == Run(domain, server, challenges)
  {
    var trace := [NewOrderCall];
    if server.newOrder.Fail? {
      return Exit(Failed(AtNewOrder, server.newOrder.error), challenges, trace, 0);
    }
    var registry := challenges;
    var i := 0;
    while i < |server.rounds|
      invariant i <= |server.rounds|
      invariant Iterate(domain, server, i, registry, trace) == Run(domain, server, challenges)
      decreases |server.rounds| - i
    {
      var round := server.rounds[i];
      if round.confirmed.Some? {
        trace := trace + [ConfirmCall(round.confirmed)];
        e := Finish(server, round.confirmed.value, registry, trace, i + 1);
        return;
      }
      trace := trace + [ConfirmCall(None), AuthorizationsCall];
      if round.authorizations.Err? {
        return Exit(Failed(AtAuthorizations, round.authorizations.error), registry, trace, i + 1);
      }
      var auths := round.authorizations.value;
      if |auths| == 0 {
        return Exit(Failed(AtAuthorizations, NO_AUTHORIZATIONS), registry, trace, i + 1);
      }
      var chall := auths[0].http;
      var c := NewChallenge(chall.token, chall.proof);
      registry := registry[domain := c];
      trace := trace + [Insert(domain, c), ValidateCall(chall.token)];
      if round.validate.Fail? {
        return Exit(Failed(AtValidate, round.validate.error), registry, trace, i + 1);
      }
      trace := trace + [RefreshCall];
      if round.refresh.Fail? {
        return Exit(Failed(AtRefresh, round.refresh.error), registry, trace, i + 1);
      }
      registry := registry - {domain};
      trace := trace + [Remove(domain)];
      i := i + 1;
    }
    return Exit(Unfinished, registry, trace, i);
  }

  // ---------------------------------------------------------------------
  // Properties of request

  /** The registry after `n` completed passes: each pass inserts the domain's
      challenge and removes it again. */
  function Clean(reg0: Registry, domain: string, n: nat): Registry {
    if n == 0 then reg0 else reg0 - {domain}
  }

  /** Whether an exit left the challenge of its last pass published: a
      `validate` or `refresh` error returns early through `?`. */
  predicate LeftPublished(e: Exit) {
    e.result.Failed? && (e.result.step == AtValidate || e.result.step == AtRefresh)
  }

  /** What each way out of `request` leaves in the registry. */
  ghost predicate ExitShape(domain: string, s: Server, reg0: Registry, e: Exit) {
    if e.result.Failed? && e.result.step == AtNewOrder then
      && s.newOrder.Fail?
      && e.passes == 0
      && e.registry == reg0
    else if e.result.Unfinished? then
      && e.passes == |s.rounds|
      && (forall j :: 0 <= j < e.passes ==> Completes(s.rounds[j]))
      && e.registry == Clean(reg0, domain, e.passes)
    else
      && s.newOrder.Pass?
      && 0 < e.passes <= |s.rounds|
      && (forall j :: 0 <= j < e.passes - 1 ==> Completes(s.rounds[j]))
      && var round := s.rounds[e.passes - 1];
      && var before := Clean(reg0, domain, e.passes - 1);
      && (round.confirmed.Some? <==>
            (e.result.Issued? || e.result.step == AtFinalize || e.result.step == AtDownload))
      && (e.result.Failed? && e.result.step == AtAuthorizations ==>
            round.authorizations.Err? || round.authorizations.value == [])
      && if LeftPublished(e) then
           && round.authorizations.Ok?
           && |round.authorizations.value| > 0
           && e.registry == before[domain := FirstChallenge(round)]
         else
           e.registry == before
  }

  /** The registry effect of one event. */
  function Apply(reg: Registry, event: Event): Registry {
    match event
    case Insert(d, c) => reg[d := c]
    case Remove(d) => reg - {d}
    case _ => reg
  }

  /** The registry after replaying a trace's writes. */
  function Replay(reg: Registry, trace: seq<Event>): Registry
    decreases |trace|
  {
    if |trace| == 0 then reg
    else Apply(Replay(reg, trace[..|trace| - 1]), trace[|trace| - 1])
  }

  /** The ordering discipline of `request`'s calls: every write is to
      `domain`; `validate` comes right after publishing that token's
      challenge; the entry is removed right after `refresh`; `finalize` comes
      right after `confirm_validations` yielded its CSR. */
  ghost predicate Disciplined(domain: string, trace: seq<Event>) {
    forall k: nat :: k < |trace| ==> FitsAt(domain, trace, k)
  }

  /** The condition `Disciplined` puts on the call at index `k`. */
  ghost predicate FitsAt(domain: string, trace: seq<Event>, k: nat)
    requires k < |trace|
  {
    match trace[k]
    case Insert(d, _) => d == domain
    case Remove(d) => d == domain && 2 <= k && trace[k - 1] == RefreshCall && trace[k - 2].ValidateCall?
    case ValidateCall(token) =>
      && 1 <= k
      && trace[k - 1].Insert?
      && trace[k - 1].domain == domain
      && trace[k - 1].challenge.path == CHALLENGE_PREFIX + token
    case FinalizeCall(csr) => 1 <= k && trace[k - 1] == ConfirmCall(Some(csr))
    case _ => true
  }

  lemma ReplayStep(reg: Registry, trace: seq<Event>, event: Event)
    ensures Replay(reg, trace + [event]) == Apply(Replay(reg, trace), event)
  {
    assert (trace + [event])[..|trace|] == trace;
  }

  /** The condition `Disciplined` puts on an event given the calls before it. */
  ghost predicate Fits(domain: string, trace: seq<Event>, event: Event) {
    match event
    case Insert(d, _) => d == domain
    case Remove(d) =>
      && d == domain
      && 2 <= |trace|
      && trace[|trace| - 1] == RefreshCall
      && trace[|trace| - 2].ValidateCall?
    case ValidateCall(token) =>
      && 1 <= |trace|
      && trace[|trace| - 1].Insert?
      && trace[|trace| - 1].domain == domain
      && trace[|trace| - 1].challenge.path == CHALLENGE_PREFIX + token
    case FinalizeCall(csr) =>
      1 <= |trace| && trace[|trace| - 1] == ConfirmCall(Some(csr))
    case _ => true
  }

  lemma DisciplinedAppend(domain: string, trace: seq<Event>, event: Event)
    requires Disciplined(domain, trace) && Fits(domain, trace, event)
    ensures Disciplined(domain, trace + [event])
  {
    var t := trace + [event];
    var n := |trace|;
    forall k: nat | k < |t| ensures FitsAt(domain, t, k) {
      if k < n {
        assert FitsAt(domain, trace, k);
        assert t[k] == trace[k];
        if 1 <= k { assert t[k - 1] == trace[k - 1]; }
        if 2 <= k { assert t[k - 2] == trace[k - 2]; }
      } else {
        assert t[k] == event;
        if 1 <= k { assert t[k - 1] == trace[n - 1]; }
        if 2 <= k { assert t[k - 2] == trace[n - 2]; }
      }
    }
  }

  /** Appends an event that leaves the registry alone and needs no predecessor. */
  lemma AppendPlain(domain: string, reg0: Registry, trace: seq<Event>, event: Event)
    requires Disciplined(domain, trace)
    requires event.ConfirmCall? || event.AuthorizationsCall? || event.RefreshCall? || event.DownloadCall?
    ensures Disciplined(domain, trace + [event])
    ensures Replay(reg0, trace + [event]) == Replay(reg0, trace)
  {
    DisciplinedAppend(domain, trace, event);
    ReplayStep(reg0, trace, event);
  }

  lemma {:induction false} FinishShape(domain: string, s: Server, reg0: Registry, csr: Csr, trace: seq<Event>, passes: nat)
    requires s.newOrder.Pass?
    requires 0 < passes <= |s.rounds| && s.rounds[passes - 1].confirmed == Some(csr)
    requires forall j :: 0 <= j < passes - 1 ==> Completes(s.rounds[j])
    requires |trace| > 0 && trace[|trace| - 1] == ConfirmCall(Some(csr))
    requires Disciplined(domain, trace)
    requires Replay(reg0, trace) == Clean(reg0, domain, passes - 1)
    ensures var e := Finish(s, csr, Clean(reg0, domain, passes - 1), trace, passes);
      && ExitShape(domain, s, reg0, e)
      && Replay(reg0, e.trace) == e.registry
      && Disciplined(domain, e.trace)
  {
    var before := Clean(reg0, domain, passes - 1);
    var finalized := trace + [FinalizeCall(csr)];
    DisciplinedAppend(domain, trace, FinalizeCall(csr));
    ReplayStep(reg0, trace, FinalizeCall(csr));
    var e := Finish(s, csr, before, trace, passes);
    if s.finalize.Fail? {
      assert e == Exit(Failed(AtFinalize, s.finalize.error), before, finalized, passes);
    } else {
      AppendPlain(domain, reg0, finalized, DownloadCall);
      assert e.registry == before && e.trace == finalized + [DownloadCall] && e.passes == passes;
      assert e.result.Issued? || e.result.step == AtDownload;
    }
    assert !LeftPublished(e) && !e.result.Unfinished?;
  }

  /** The calls of a pass up to and including `validate`, and its registry
      effect. */
  lemma ValidatingPass(domain: string, reg0: Registry, trace: seq<Event>, c: Challenge, token: string)
    requires Disciplined(domain, trace)
    requires c.path == CHALLENGE_PREFIX + token
    ensures var listed := trace + [ConfirmCall(None), AuthorizationsCall];
      && Disciplined(domain, listed)
      && Replay(reg0, listed) == Replay(reg0, trace)
      && var validating := listed + [Insert(domain, c), ValidateCall(token)];
      && Disciplined(domain, validating)
      && Replay(reg0, validating) == Replay(reg0, trace)[domain := c]
  {
    var confirming := trace + [ConfirmCall(None)];
    AppendPlain(domain, reg0, trace, ConfirmCall(None));
    AppendPlain(domain, reg0, confirming, AuthorizationsCall);
    var listed := trace + [ConfirmCall(None), AuthorizationsCall];
    assert listed == confirming + [AuthorizationsCall];
    var inserted := listed + [Insert(domain, c)];
    DisciplinedAppend(domain, listed, Insert(domain, c));
    ReplayStep(reg0, listed, Insert(domain, c));
    DisciplinedAppend(domain, inserted, ValidateCall(token));
    ReplayStep(reg0, inserted, ValidateCall(token));
    assert listed + [Insert(domain, c), ValidateCall(token)] == inserted + [ValidateCall(token)];
  }

  /** A pass that ends at `authorizations`: nothing was published in it. */
  lemma UnauthorizedPass(domain: string, s: Server, reg0: Registry, i: nat, trace: seq<Event>)
    requires s.newOrder.Pass?
    requires i < |s.rounds| && s.rounds[i].confirmed.None?
    requires s.rounds[i].authorizations.Err? || |s.rounds[i].authorizations.value| == 0
    requires forall j :: 0 <= j < i ==> Completes(s.rounds[j])
    requires Disciplined(domain, trace)
    requires Replay(reg0, trace) == Clean(reg0, domain, i)
    ensures var e := Iterate(domain, s, i, Clean(reg0, domain, i), trace);
      && ExitShape(domain, s, reg0, e)
      && Replay(reg0, e.trace) == e.registry
      && Disciplined(domain, e.trace)
  {
    var confirming := trace + [ConfirmCall(None)];
    AppendPlain(domain, reg0, trace, ConfirmCall(None));
    AppendPlain(domain, reg0, confirming, AuthorizationsCall);
    var e := UnauthorizedExit(domain, s, i, Clean(reg0, domain, i), trace);
    assert e.trace == confirming + [AuthorizationsCall];
  }

  /** The exit of a pass that ends at `authorizations`. */
  lemma UnauthorizedExit(domain: string, s: Server, i: nat, reg: Registry, trace: seq<Event>) returns (e: Exit)
    requires i < |s.rounds| && s.rounds[i].confirmed.None?
    requires s.rounds[i].authorizations.Err? || |s.rounds[i].authorizations.value| == 0
    ensures e == Iterate(domain, s, i, reg, trace)
    ensures e.result.Failed? && e.result.step == AtAuthorizations
    ensures e.registry == reg && e.passes == i + 1
    ensures e.trace == trace + [ConfirmCall(None), AuthorizationsCall]
  {
    var round := s.rounds[i];
    var error := if round.authorizations.Err? then round.authorizations.error else NO_AUTHORIZATIONS;
    e := Exit(Failed(AtAuthorizations, error), reg, trace + [ConfirmCall(None), AuthorizationsCall], i + 1);
  }

  /** A pass that ends at `validate` or `refresh`: its challenge stays
      published. */
  lemma AbandonedPass(domain: string, s: Server, reg0: Registry, i: nat, trace: seq<Event>)
    requires s.newOrder.Pass?
    requires i < |s.rounds| && s.rounds[i].confirmed.None?
    requires s.rounds[i].authorizations.Ok? && |s.rounds[i].authorizations.value| > 0
    requires s.rounds[i].validate.Fail? || s.rounds[i].refresh.Fail?
    requires forall j :: 0 <= j < i ==> Completes(s.rounds[j])
    requires Disciplined(domain, trace)
    requires Replay(reg0, trace) == Clean(reg0, domain, i)
    ensures var e := Iterate(domain, s, i, Clean(reg0, domain, i), trace);
      && ExitShape(domain, s, reg0, e)
      && Replay(reg0, e.trace) == e.registry
      && Disciplined(domain, e.trace)
  {
    var round := s.rounds[i];
    var http := round.authorizations.value[0].http;
    var c := NewChallenge(http.token, http.proof);
    assert c == FirstChallenge(round);
    assert c.path == CHALLENGE_PREFIX + http.token;
    ValidatingPass(domain, reg0, trace, c, http.token);
    var validating := trace + [ConfirmCall(None), AuthorizationsCall] + [Insert(domain, c), ValidateCall(http.token)];
    if round.validate.Pass? {
      AppendPlain(domain, reg0, validating, RefreshCall);
    }
    var e := Iterate(domain, s, i, Clean(reg0, domain, i), trace);
    assert LeftPublished(e) && e.passes == i + 1;
    assert e.registry == Clean(reg0, domain, i)[domain := c];
  }

  /** A pass that completes: publishes, validates, refreshes and removes. */
  lemma CompletedPass(domain: string, s: Server, reg0: Registry, i: nat, trace: seq<Event>)
    returns (next: seq<Event>)
    requires i < |s.rounds| && Completes(s.rounds[i])
    requires Disciplined(domain, trace)
    requires Replay(reg0, trace) == Clean(reg0, domain, i)
    ensures var http := s.rounds[i].authorizations.value[0].http;
      var c := NewChallenge(http.token, http.proof);
      next == trace + [ConfirmCall(None), AuthorizationsCall] + [Insert(domain, c), ValidateCall(http.token)]
                    + [RefreshCall] + [Remove(domain)]
    ensures Iterate(domain, s, i, Clean(reg0, domain, i), trace) == Iterate(domain, s, i + 1, Clean(reg0, domain, i + 1), next)
    ensures Disciplined(domain, next)
    ensures Replay(reg0, next) == Clean(reg0, domain, i + 1)
  {
    var http := s.rounds[i].authorizations.value[0].http;
    var c := NewChallenge(http.token, http.proof);
    next := trace + [ConfirmCall(None), AuthorizationsCall] + [Insert(domain, c), ValidateCall(http.token)]
                  + [RefreshCall] + [Remove(domain)];
    assert c.path == CHALLENGE_PREFIX + http.token;
    ValidatingPass(domain, reg0, trace, c, http.token);
    var validating := trace + [ConfirmCall(None), AuthorizationsCall] + [Insert(domain, c), ValidateCall(http.token)];
    var refreshed := validating + [RefreshCall];
    AppendPlain(domain, reg0, validating, RefreshCall);
    DisciplinedAppend(domain, refreshed, Remove(domain));
    ReplayStep(reg0, refreshed, Remove(domain));
    assert Clean(reg0, domain, i)[domain := c] - {domain} == Clean(reg0, domain, i + 1);
  }

  lemma {:induction false} IterateShape(domain: string, s: Server, reg0: Registry, i: nat, trace: seq<Event>)
    requires s.newOrder.Pass?
    requires i <= |s.rounds|
    requires forall j :: 0 <= j < i ==> Completes(s.rounds[j])
    requires Disciplined(domain, trace)
    requires Replay(reg0, trace) == Clean(reg0, domain, i)
    ensures var e := Iterate(domain, s, i, Clean(reg0, domain, i), trace);
      && ExitShape(domain, s, reg0, e)
      && Replay(reg0, e.trace) == e.registry
      && Disciplined(domain, e.trace)
    decreases |s.rounds| - i, 1
  {
    if i == |s.rounds| {
      return;
    }
    var round := s.rounds[i];
    if round.confirmed.Some? {
      ConfirmedPass(domain, s, reg0, i, trace);
    } else if round.authorizations.Err? || |round.authorizations.value| == 0 {
      UnauthorizedPass(domain, s, reg0, i, trace);
    } else if round.validate.Fail? || round.refresh.Fail? {
      AbandonedPass(domain, s, reg0, i, trace);
    } else {
      ContinuedPass(domain, s, reg0, i, trace);
    }
  }

  /** A pass whose `confirm_validations` yields a CSR goes on to finalize. */
  lemma ConfirmedPass(domain: string, s: Server, reg0: Registry, i: nat, trace: seq<Event>)
    requires s.newOrder.Pass?
    requires i < |s.rounds| && s.rounds[i].confirmed.Some?
    requires forall j :: 0 <= j < i ==> Completes(s.rounds[j])
    requires Disciplined(domain, trace)
    requires Replay(reg0, trace) == Clean(reg0, domain, i)
    ensures var e := Iterate(domain, s, i, Clean(reg0, domain, i), trace);
      && ExitShape(domain, s, reg0, e)
      && Replay(reg0, e.trace) == e.registry
      && Disciplined(domain, e.trace)
  {
    var csr := s.rounds[i].confirmed.value;
    var confirmed := trace + [ConfirmCall(Some(csr))];
    assert Iterate(domain, s, i, Clean(reg0, domain, i), trace) == Finish(s, csr, Clean(reg0, domain, i), confirmed, i + 1);
    AppendPlain(domain, reg0, trace, ConfirmCall(Some(csr)));
    FinishShape(domain, s, reg0, csr, confirmed, i + 1);
  }

  /** A pass that completes and loops again: the rest of the run keeps the
      shape. */
  lemma {:induction false} ContinuedPass(domain: string, s: Server, reg0: Registry, i: nat, trace: seq<Event>)
    requires s.newOrder.Pass?
    requires i < |s.rounds| && Completes(s.rounds[i])
    requires forall j :: 0 <= j < i ==> Completes(s.rounds[j])
    requires Disciplined(domain, trace)
    requires Replay(reg0, trace) == Clean(reg0, domain, i)
    ensures var e := Iterate(domain, s, i, Clean(reg0, domain, i), trace);
      && ExitShape(domain, s, reg0, e)
      && Replay(reg0, e.trace) == e.registry
      && Disciplined(domain, e.trace)
    decreases |s.rounds| - i, 0
  {
    var next := CompletedPass(domain, s, reg0, i, trace);
    IterateShape(domain, s, reg0, i + 1, next);
  }

  /** Every way out of `request`: the registry each exit leaves (in
      particular the challenge stays published after a `validate` or
      `refresh` error), the registry equals the replay of the calls made, and
      the calls keep their order. */
  lemma RequestExitPaths(domain: string, s: Server, reg: Registry)
    ensures var e := Run(domain, s, reg);
      && ExitShape(domain, s, reg, e)
      && Replay(reg, e.trace) == e.registry
      && Disciplined(domain, e.trace)
  {
    if s.newOrder.Pass? {
      assert Replay(reg, [NewOrderCall]) == Apply(Replay(reg, []), NewOrderCall);
      IterateShape(domain, s, reg, 0, [NewOrderCall]);
    }
  }

  /** `request` writes only its own domain's entry. */
  lemma RequestTouchesOnlyDomain(domain: string, s: Server, reg: Registry)
    ensures Run(domain, s, reg).registry - {domain} == reg - {domain}
  {
    RequestExitPaths(domain, s, reg);
    var e := Run(domain, s, reg);
    if LeftPublished(e) {
      var round := s.rounds[e.passes - 1];
      assert e.registry - {domain} == Clean(reg, domain, e.passes - 1) - {domain};
    }
  }

  /** The challenge lifecycle as written: unless `validate` or `refresh`
      failed, `request` leaves the domain's entry as it found it or removed;
      after such a failure the entry holds the challenge of the last pass. */
  lemma RequestChallengeLifecycle(domain: string, s: Server, reg: Registry)
    ensures var e := Run(domain, s, reg);
      && (!LeftPublished(e) ==> e.registry == reg || e.registry == reg - {domain})
      && (!LeftPublished(e) && domain !in reg ==> domain !in e.registry)
      && (LeftPublished(e) ==>
            && 0 < e.passes <= |s.rounds|
            && s.rounds[e.passes - 1].authorizations.Ok?
            && |s.rounds[e.passes - 1].authorizations.value| > 0
            && domain in e.registry
            && e.registry[domain] == FirstChallenge(s.rounds[e.passes - 1]))
  {
    RequestExitPaths(domain, s, reg);
  }

  /** Every entry `request` writes is a challenge path, so a registry of
      challenge paths stays one. */
  lemma RequestKeepsChallengePaths(domain: string, s: Server, reg: Registry)
    requires forall d :: d in reg ==> TokenOf(reg[d].path).Some?
    ensures var after := Run(domain, s, reg).registry;
      forall d :: d in after ==> TokenOf(after[d].path).Some?
  {
    RequestChallengeLifecycle(domain, s, reg);
    RequestTouchesOnlyDomain(domain, s, reg);
    var e := Run(domain, s, reg);
    forall d | d in e.registry ensures TokenOf(e.registry[d].path).Some? {
      if d != domain {
        assert d in e.registry - {domain};
      } else if LeftPublished(e) {
        var http := s.rounds[e.passes - 1].authorizations.value[0].http;
        assert e.registry[d] == NewChallenge(http.token, http.proof);
      }
    }
  }

  /** While `validate` is in flight the registry holds, for the domain, a
      challenge whose path names the token being validated. */
  lemma RequestPublishesBeforeValidation(domain: string, s: Server, reg: Registry)
    ensures var e := Run(domain, s, reg);
      forall k :: 0 <= k < |e.trace| && e.trace[k].ValidateCall? ==>
        && domain in Replay(reg, e.trace[..k])
        && Replay(reg, e.trace[..k])[domain].path == CHALLENGE_PREFIX + e.trace[k].token
  {
    var e := Run(domain, s, reg);
    RequestExitPaths(domain, s, reg);
    forall k | 0 <= k < |e.trace| && e.trace[k].ValidateCall?
      ensures && domain in Replay(reg, e.trace[..k])
              && Replay(reg, e.trace[..k])[domain].path == CHALLENGE_PREFIX + e.trace[k].token
    {
      assert FitsAt(domain, e.trace, k);
      assert e.trace[..k] == e.trace[..k - 1] + [e.trace[k - 1]];
      ReplayStep(reg, e.trace[..k - 1], e.trace[k - 1]);
    }
  }

  /** A certificate is issued only for an order `confirm_validations`
      accepted, after every earlier pass validated and refreshed; `finalize`
      is always called with the CSR just confirmed. */
  lemma RequestFinalizesOnlyAfterConfirm(domain: string, s: Server, reg: Registry)
    ensures var e := Run(domain, s, reg);
      && (e.result.Issued? ==>
            && 0 < e.passes <= |s.rounds|
            && s.rounds[e.passes - 1].confirmed.Some?
            && forall j :: 0 <= j < e.passes - 1 ==> Completes(s.rounds[j]))
      && forall k :: 0 <= k < |e.trace| && e.trace[k].FinalizeCall? ==>
           0 < k && e.trace[k - 1] == ConfirmCall(Some(e.trace[k].signingRequest))
  {
    RequestExitPaths(domain, s, reg);
    var e := Run(domain, s, reg);
    forall k | 0 <= k < |e.trace| && e.trace[k].FinalizeCall?
      ensures 0 < k && e.trace[k - 1] == ConfirmCall(Some(e.trace[k].signingRequest))
    {
      assert FitsAt(domain, e.trace, k);
    }
  }

  lemma {:induction false} IterateMoreRounds(domain: string, s: Server, more: seq<Round>, i: nat, reg: Registry, trace: seq<Event>)
    requires i <= |s.rounds|
    requires !Iterate(domain, s, i, reg, trace).result.Unfinished?
    ensures Iterate(domain, s.(rounds := s.rounds + more), i, reg, trace) == Iterate(domain, s, i, reg, trace)
    decreases |s.rounds| - i
  {
    var longer := s.(rounds := s.rounds + more);
    assert i < |s.rounds|;
    assert longer.rounds[i] == s.rounds[i];
    var round := s.rounds[i];
    if Completes(round) {
      var http := round.authorizations.value[0].http;
      var c := NewChallenge(http.token, http.proof);
      var next := trace + [ConfirmCall(None), AuthorizationsCall] + [Insert(domain, c), ValidateCall(http.token)]
                        + [RefreshCall] + [Remove(domain)];
      IterateMoreRounds(domain, s, more, i + 1, reg[domain := c] - {domain}, next);
    }
  }

  /** The loop has no bound of its own: a run that ended within the scripted
      rounds ends the same way however many further rounds the server would
      have answered, and `Unfinished` stands only for a run still looping. */
  lemma RequestMoreRounds(domain: string, s: Server, more: seq<Round>, reg: Registry)
    requires !Run(domain, s, reg).result.Unfinished?
    ensures Run(domain, s.(rounds := s.rounds + more), reg) == Run(domain, s, reg)
  {
    if s.newOrder.Pass? {
      IterateMoreRounds(domain, s, more, 0, reg, [NewOrderCall]);
    }
  }

  // ---------------------------------------------------------------------
  // Retraction on every exit

  /** `request` with the challenge retracted on every way out, as a scoped
      guard would do it: a `validate` or `refresh` error also removes the
      domain's entry before the error is returned. */
  function RequestRetracting(domain: string, s: Server, reg: Registry): (e: Exit)
    ensures e.result == Run(domain, s, reg).result
    ensures e.registry - {domain} == reg - {domain}
    ensures domain !in reg ==> domain !in e.registry
    ensures domain in reg ==> e.registry == reg || e.registry == reg - {domain}
  {
    var e := Run(domain, s, reg);
    RequestChallengeLifecycle(domain, s, reg);
    RequestTouchesOnlyDomain(domain, s, reg);
    if LeftPublished(e) then
      e.(registry := e.registry - {domain}, trace := e.trace + [Remove(domain)])
    else e
  }

  /** The script behind the finding: one pass whose `validate` fails with
      `err`. */
  function FailingValidationServer(err: AcmeError): Server {
    Server(
      Pass,
      [Round(None, Ok([Authorization(HttpChallenge("tok", "proof"))]), Fail(err), Pass)],
      Pass,
      Err(AcmeError("never reached")))
  }

  /** As written, whatever error `validate` returns, `example.com`'s
      challenge stays published after `request` has returned that error. */
  lemma ValidationErrorLeavesChallenge(err: AcmeError)
    ensures var e := Run("example.com", FailingValidationServer(err), map[]);
      && e.result == Failed(AtValidate, err)
      && "example.com" in e.registry
      && e.registry["example.com"] == NewChallenge("tok", "proof")
    ensures "example.com" !in RequestRetracting("example.com", FailingValidationServer(err), map[]).registry
  {
  }
}
