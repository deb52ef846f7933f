/** The enclave service: its state, the strictly ordered startup of
    `Start`, and how the attestation endpoint learns the certificate
    fingerprint. Process-level effects (entropy, the loopback address,
    environment variables, the vsock listener, serving) are inputs that say
    whether each step fails. */
module EnclaveService {
  import opened Common
  import Tls
  import Router
  import Fingerprint
  import SelfSigned
  import Attestation
  import Nsm

  /** `Config`. */
  datatype Config = Config(socksProxy: string, fqdn: string, port: int, useAcme: bool, debug: bool)

  /** `Enclave`: its configuration, the router's registrations, the
      certificate fingerprint and the HTTPS server's TLS configuration. */
  datatype Enclave = Enclave(cfg: Config, routes: seq<Router.Route>, certFpr: Digest, tlsConfig: Tls.Config)

  /** `NewEnclave(cfg)`: no routes, an all-zero fingerprint, no TLS yet. */
  function NewEnclave(cfg: Config): (e: Enclave)
    ensures e.cfg == cfg && e.routes == [] && e.certFpr == ZeroDigest && e.tlsConfig == Tls.Unset
  {
    Enclave(cfg, [], ZeroDigest, Tls.Unset)
  }

  /** `e.AddRoute(method, pattern, handlerFn)` on the enclave. */
  function AddRoute(e: Enclave, httpMethod: string, pattern: string, h: Router.Handler): (r: Enclave)
    ensures r.cfg == e.cfg && r.certFpr == e.certFpr && r.tlsConfig == e.tlsConfig
    ensures Router.ParseMethod(httpMethod).None? <==> r.routes == e.routes
    ensures forall v :: Router.MethodName(v) == httpMethod ==> Router.Lookup(r.routes, v, pattern) == Some(h)
    ensures forall v, p :: (Router.MethodName(v) != httpMethod || p != pattern) ==>
      Router.Lookup(r.routes, v, p) == Router.Lookup(e.routes, v, p)
  {
    e.(routes := Router.AddRoute(e.routes, httpMethod, pattern, h))
  }

  const ErrPrefix: string := "failed to start Nitro Enclave"
  const ErrCacheDir: string := "Failed to create cache directory: "
  const AttestationPath: string := "/attestation"
  const HttpProxyVar: string := "HTTP_PROXY"
  const HttpsProxyVar: string := "HTTPS_PROXY"

  /** The outcome of each collaborator `Start` relies on: `None` is success,
      `Some(msg)` the error it returns. `serve` is the error `ServeTLS`
      returns when it stops, which it always does with an error. */
  datatype Host = Host(
    seedEntropy: Option<string>,
    assignLoAddr: Option<string>,
    mkdirCache: Option<string>,
    crypto: SelfSigned.Crypto,
    setenvHttpProxy: Option<string>,
    setenvHttpsProxy: Option<string>,
    listen: Option<string>,
    serve: string)

  datatype Step =
    | SeedEntropy
    | AssignLoAddr
    | ObtainCertificate(acme: bool)
    | RegisterAttestation
    | SetProxy(variable: string)
    | Listen(vsockPort: int)
    | Serve
    | CloseListener

  /** The error `Start` returns, the enclave afterwards, the process
      environment afterwards, and the steps attempted in order. */
  datatype StartOutcome = StartOutcome(err: string, enclave: Enclave, environment: map<string, string>, trace: seq<Step>)

  /** `uint32(e.cfg.Port)`: Go's conversion keeps the low 32 bits. */
  function VsockPort(port: int): (p: int)
    ensures 0 <= p < 0x1_0000_0000
    ensures (p - port) % 0x1_0000_0000 == 0
  {
    port % 0x1_0000_0000
  }

  /** `e.setupAcme()` up to its return: the cache directory, then a TLS
      configuration that asks the ACME manager per handshake. The two
      goroutines it starts are not part of this function; the fingerprint is
      left as it was. */
  function SetupAcme(e: Enclave, host: Host): (r: (Enclave, Option<string>))
    ensures r.0.certFpr == e.certFpr && r.0.routes == e.routes
    ensures r.1.Some? <==> host.mkdirCache.Some?
    ensures r.1.None? ==> r.0.tlsConfig == Tls.GetCertificate(e.cfg.fqdn)
    ensures host.mkdirCache.Some? ==> r.0 == e && r.1 == Some(ErrCacheDir + host.mkdirCache.value)
  {
    match host.mkdirCache
    case Some(msg) => (e, Some(ErrCacheDir + msg))
    case None => (e.(tlsConfig := Tls.GetCertificate(e.cfg.fqdn)), None)
  }

  /** The certificate step of `Start`: ACME or self-signed by configuration. */
  function ObtainCert(e: Enclave, host: Host): (r: (Enclave, Option<string>))
    ensures r.0.cfg == e.cfg && r.0.routes == e.routes
    ensures e.cfg.useAcme ==> r == SetupAcme(e, host)
    ensures !e.cfg.useAcme ==>
      var p := SelfSigned.GenSelfSignedCert(e.cfg.fqdn, e.certFpr, e.tlsConfig, host.crypto);
      r.1 == p.err && r.0.certFpr == p.certFpr && r.0.tlsConfig == p.tlsConfig
  {
    if e.cfg.useAcme then SetupAcme(e, host)
    else
      var p := SelfSigned.GenSelfSignedCert(e.cfg.fqdn, e.certFpr, e.tlsConfig, host.crypto);
      (e.(certFpr := p.certFpr, tlsConfig := p.tlsConfig), p.err)
  }

  /** The order `Start` promises, with nothing skipped. */
  function StepOrder(cfg: Config): seq<Step> {
    [SeedEntropy, AssignLoAddr, ObtainCertificate(cfg.useAcme), RegisterAttestation,
     SetProxy(HttpProxyVar), SetProxy(HttpsProxyVar), Listen(VsockPort(cfg.port)), Serve, CloseListener]
  }

  /** The number of steps that can abort startup with a prefixed error:
      every step before serving. */
  const AbortingSteps: nat := 7

  /** The error step `i` of the order reports when every step before it has
      succeeded. Registering the route cannot fail. */
  function StepError(e: Enclave, host: Host, i: nat): Option<string> {
    if i == 0 then host.seedEntropy
    else if i == 1 then host.assignLoAddr
    else if i == 2 then ObtainCert(e, host).1
    else if i == 4 then host.setenvHttpProxy
    else if i == 5 then host.setenvHttpsProxy
    else if i == 6 then host.listen
    else None
  }

  /** How the attestation handler is given the fingerprint. */
  datatype Capture = ByValue | ByReference

  function Bind(capture: Capture, certFpr: Digest): Router.Binding {
    match capture
    case ByValue => Router.Captured(certFpr)
    case ByReference => Router.Live
  }

  function Abort(e: Enclave, env: map<string, string>, trace: seq<Step>, cause: string): StartOutcome {
    StartOutcome(ErrPrefix + ": " + cause, e, env, trace)
  }

  /** The body of `Start`, with the way the attestation handler is bound to
      the fingerprint as a parameter. */
  function Boot(e: Enclave, host: Host, env: map<string, string>, capture: Capture): (o: StartOutcome)
    ensures 1 <= |o.trace| <= |StepOrder(e.cfg)|
    ensures o.trace == StepOrder(e.cfg)[..|o.trace|]
    ensures forall i :: 0 <= i < |o.trace| - 1 ==> StepError(e, host, i).None?
    ensures |o.trace| <= AbortingSteps ==>
      StepError(e, host, |o.trace| - 1).Some? && o.err == ErrPrefix + ": " + StepError(e, host, |o.trace| - 1).value
    ensures |o.trace| > AbortingSteps ==> o.trace == StepOrder(e.cfg) && o.err == host.serve
    ensures |o.trace| < 4 ==> o.enclave.routes == e.routes
    ensures |o.trace| <= 2 ==> o.enclave == e
    ensures |o.trace| == 3 ==> o.enclave == ObtainCert(e, host).0
    ensures |o.trace| >= 4 ==>
      var provisioned := ObtainCert(e, host).0;
      && o.enclave == provisioned.(routes := Router.Register(e.routes, Router.Get, AttestationPath,
           Router.AttestationHandler(Bind(capture, provisioned.certFpr))))
    ensures |o.trace| <= 5 ==> o.environment == env
    ensures |o.trace| == 6 ==> o.environment == env[HttpProxyVar := e.cfg.socksProxy]
    ensures |o.trace| >= 7 ==>
      o.environment == env[HttpProxyVar := e.cfg.socksProxy][HttpsProxyVar := e.cfg.socksProxy]
  {
    var order := StepOrder(e.cfg);
    if host.seedEntropy.Some? then Abort(e, env, order[..1], host.seedEntropy.value)
    else if host.assignLoAddr.Some? then Abort(e, env, order[..2], host.assignLoAddr.value)
    else
      var (provisioned, certErr) := ObtainCert(e, host);
      if certErr.Some? then Abort(provisioned, env, order[..3], certErr.value)
      else
        var handler := Router.AttestationHandler(Bind(capture, provisioned.certFpr));
        var registered := provisioned.(routes := Router.Register(provisioned.routes, Router.Get, AttestationPath, handler));
        if host.setenvHttpProxy.Some? then Abort(registered, env, order[..5], host.setenvHttpProxy.value)
        else
          var env1 := env[HttpProxyVar := e.cfg.socksProxy];
          if host.setenvHttpsProxy.Some? then Abort(registered, env1, order[..6], host.setenvHttpsProxy.value)
          else
            var env2 := env1[HttpsProxyVar := e.cfg.socksProxy];
            if host.listen.Some? then Abort(registered, env2, order[..7], host.listen.value)
            else
              // ServeTLS blocks until the server stops; the deferred Close
              // of the listener runs after it.
              StartOutcome(host.serve, registered, env2, order)
  }

  /** `e.Start()` as written: the handler receives a copy of the fingerprint
      the enclave holds right after the certificate step. */
  function Start(e: Enclave, host: Host, env: map<string, string>): (o: StartOutcome)
    ensures |o.trace| >= 4 ==>
      Router.Lookup(o.enclave.routes, Router.Get, AttestationPath) ==
        Some(Router.AttestationHandler(Router.Captured(ObtainCert(e, host).0.certFpr)))
    ensures |o.trace| < 4 ==>
      Router.Lookup(o.enclave.routes, Router.Get, AttestationPath) == Router.Lookup(e.routes, Router.Get, AttestationPath)
  {
    Boot(e, host, env, ByValue)
  }

  /** The certificate hash an attestation handler uses on a request. */
  function HandlerHash(e: Enclave, b: Router.Binding): Digest {
    match b
    case Captured(d) => d
    case Live => e.certFpr
  }

  predicate HasAttestationRoute(e: Enclave) {
    Router.Lookup(e.routes, Router.Get, AttestationPath).Some? &&
    Router.Lookup(e.routes, Router.Get, AttestationPath).value.AttestationHandler?
  }

  /** A request routed to `/attestation` on the enclave's router: the
      registered attestation handler runs, if there is one. The router
      registers the handler for GET only and answers other methods itself;
      the handler's own method check, reachable here for any
      `req.httpMethod`, stands in for that answer. */
  function ServeAttestation(e: Enclave, req: Attestation.Request, dev: Nsm.Device): (r: Option<Attestation.Response>)
    ensures r.Some? <==> HasAttestationRoute(e)
  {
    match Router.Lookup(e.routes, Router.Get, AttestationPath)
    case Some(AttestationHandler(b)) => Some(Attestation.Handle(HandlerHash(e, b), req, dev))
    case _ => None
  }

  /** The end of the ACME poller goroutine: `e.setCertFingerprint(rawData)`
      on the cached certificate material, with its error discarded. */
  function PollerPublish(e: Enclave, cached: seq<Fingerprint.Block>, parse: Fingerprint.Parser, hash: Fingerprint.Hasher): (r: Enclave)
    ensures r.routes == e.routes && r.tlsConfig == e.tlsConfig && r.cfg == e.cfg
    ensures Fingerprint.Scan(parse, hash, cached).Ok? ==> r.certFpr == Fingerprint.Scan(parse, hash, cached).value
    ensures Fingerprint.Scan(parse, hash, cached).Err? ==> r.certFpr == e.certFpr
  {
    e.(certFpr := Fingerprint.SetCertFingerprint(e.certFpr, parse, hash, cached).certFpr)
  }

  /** Startup stops at the first failing step: when steps before `k` succeed
      and step `k` fails, exactly the first `k + 1` steps ran and the error
      names that step's cause under the common prefix. */
  lemma FirstFailureAborts(e: Enclave, host: Host, env: map<string, string>, k: nat)
    requires k < AbortingSteps
    requires forall i :: 0 <= i < k ==> StepError(e, host, i).None?
    requires StepError(e, host, k).Some?
    ensures Start(e, host, env).trace == StepOrder(e.cfg)[..k + 1]
    ensures Start(e, host, env).err == ErrPrefix + ": " + StepError(e, host, k).value
  {
  }

  /** With the self-signed strategy, the fingerprint every attestation
      request carries is the hash of the certificate the TLS server holds. */
  lemma SelfSignedAttestationMatchesTls(cfg: Config, host: Host, env: map<string, string>, req: Attestation.Request, dev: Nsm.Device)
    requires !cfg.useAcme
    requires |Start(NewEnclave(cfg), host, env).trace| >= 4
    ensures var e := Start(NewEnclave(cfg), host, env).enclave;
            var r := ServeAttestation(e, req, dev);
            && e.tlsConfig.Certificates? && |e.tlsConfig.certificates| == 1
            && r.Some?
            && (r.value.call.Some? ==>
                 r.value.call.value.userData == host.crypto.hash(e.tlsConfig.certificates[0].chain[0]))
  {
    var e0 := NewEnclave(cfg);
    var o := Start(e0, host, env);
    assert StepError(e0, host, 2).None?;
    var r := ServeAttestation(o.enclave, req, dev);
    if r.value.call.Some? {
      Attestation.UserDataIsCertHash(HandlerHash(o.enclave, Router.Captured(o.enclave.certFpr)), req, dev);
    }
  }

  /** As written, the ACME strategy registers the handler before the poller
      has found a certificate, so the handler keeps the all-zero fingerprint
      of a new enclave: after the poller publishes a leaf's hash, requests
      still carry zeros, which differ from the published fingerprint
      whenever that hash is not all zeros. */
  lemma AcmeHandlerKeepsZeroFingerprint(cfg: Config, host: Host, env: map<string, string>,
                                        cached: seq<Fingerprint.Block>, parse: Fingerprint.Parser, hash: Fingerprint.Hasher,
                                        req: Attestation.Request, dev: Nsm.Device)
    requires cfg.useAcme
    requires |Start(NewEnclave(cfg), host, env).trace| >= 4
    ensures var e := PollerPublish(Start(NewEnclave(cfg), host, env).enclave, cached, parse, hash);
            var r := ServeAttestation(e, req, dev);
            && r.Some?
            && (r.value.call.Some? ==> r.value.call.value.userData == ZeroDigest)
            && (r.value.call.Some? && Fingerprint.Scan(parse, hash, cached).Ok? && Fingerprint.Scan(parse, hash, cached).value != ZeroDigest ==>
                 r.value.call.value.userData != e.certFpr)
  {
    var e0 := NewEnclave(cfg);
    var o := Start(e0, host, env);
    var e := PollerPublish(o.enclave, cached, parse, hash);
    assert Router.Lookup(e.routes, Router.Get, AttestationPath) == Some(Router.AttestationHandler(Router.Captured(ZeroDigest)));
    var r := ServeAttestation(e, req, dev);
    if r.value.call.Some? {
      Attestation.UserDataIsCertHash(ZeroDigest, req, dev);
    }
  }

  /** `Start` with the handler reading the enclave's fingerprint on every
      request instead of copying it at registration. */
  function StartCorrected(e: Enclave, host: Host, env: map<string, string>): (o: StartOutcome)
    ensures |o.trace| >= 4 ==>
      Router.Lookup(o.enclave.routes, Router.Get, AttestationPath) == Some(Router.AttestationHandler(Router.Live))
  {
    Boot(e, host, env, ByReference)
  }

  /** With the handler bound by reference, once the ACME poller publishes the
      cached certificate's leaf fingerprint every attestation request carries
      exactly that fingerprint. */
  lemma AcmeCorrectedCarriesPublishedFingerprint(cfg: Config, host: Host, env: map<string, string>,
                                                 cached: seq<Fingerprint.Block>, parse: Fingerprint.Parser, hash: Fingerprint.Hasher,
                                                 req: Attestation.Request, dev: Nsm.Device)
    requires cfg.useAcme
    requires |StartCorrected(NewEnclave(cfg), host, env).trace| >= 4
    requires Fingerprint.Scan(parse, hash, cached).Ok?
    ensures var e := PollerPublish(StartCorrected(NewEnclave(cfg), host, env).enclave, cached, parse, hash);
            var r := ServeAttestation(e, req, dev);
            && e.tlsConfig == Tls.GetCertificate(cfg.fqdn)
            && r.Some?
            && (r.value.call.Some? ==> r.value.call.value.userData == Fingerprint.Scan(parse, hash, cached).value)
  {
    var e0 := NewEnclave(cfg);
    var o := StartCorrected(e0, host, env);
    assert StepError(e0, host, 2).None?;
    var e := PollerPublish(o.enclave, cached, parse, hash);
    var r := ServeAttestation(e, req, dev);
    if r.value.call.Some? {
      Attestation.UserDataIsCertHash(e.certFpr, req, dev);
    }
  }
}
