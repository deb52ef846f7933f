/** The `/attestation` endpoint built by `getAttestationHandler`: a chain of
    checks on the request that stops at the first failure, then one call to
    `attest`, then the Base64 document as the body. */
module Attestation {
  import opened Common
  import Hex
  import Base64
  import NoncePattern
  import Nsm

  const StatusOK: int := 200
  const StatusBadRequest: int := 400
  const StatusMethodNotAllowed: int := 405
  const StatusInternalServerError: int := 500

  const MethodGet: string := "GET"

  const ErrMethodNotGet: string := "only HTTP GET requests are allowed"
  const ErrBadForm: string := "failed to parse POST form data"
  const ErrNoNonce: string := "could not find nonce in URL query parameters"
  /** `fmt.Sprintf("unexpected nonce format; must be %d-digit hex string", nonceLen)`. */
  const ErrBadNonceFormat: string := "unexpected nonce format; must be 40-digit hex string"
  const ErrFailedAttestation: string := "failed to obtain attestation document from hypervisor"

  /** An HTTP request as the handler sees it: the method, whether
      `ParseForm` succeeds, and the `nonce` query parameter if present. */
  datatype Request = Request(httpMethod: string, formParses: bool, nonce: Option<string>)

  /** The arguments of the call `attest(rawNonce, certHash[:], nil)`. */
  datatype AttestCall = AttestCall(nonce: Bytes, userData: Bytes, publicKey: Bytes)

  /** What the client receives, plus what the handler did to reach it: the
      `attest` call it made (if any) and the device session that call ran. */
  datatype Response = Response(status: int, body: string, call: Option<AttestCall>, session: seq<Nsm.Event>)

  /** Which nonce format test the pipeline applies: the unanchored search the
      code performs, or the anchored match its constant and message describe. */
  datatype NonceCheck = Unanchored | Anchored

  predicate PassesNonceCheck(check: NonceCheck, nonce: string) {
    match check
    case Unanchored => NoncePattern.MatchesNonceRegExp(nonce)
    case Anchored => NoncePattern.IsExactNonce(nonce)
  }

  /** `r.URL.Query().Get("nonce")`: an absent parameter reads as "". */
  function QueryNonce(req: Request): (nonce: string)
    ensures nonce == "" <==> req.nonce.None? || req.nonce.value == ""
    ensures req.nonce.Some? ==> nonce == req.nonce.value
  {
    if req.nonce.Some? then req.nonce.value else ""
  }

  /** `http.Error(w, msg, code)`: the message and a newline, nothing called. */
  function HttpError(msg: string, code: int): (r: Response)
    ensures r.status == code && r.call.None? && r.session == []
    ensures |r.body| == |msg| + 1 && r.body[..|msg|] == msg && r.body[|msg|] == '\n'
  {
    Response(code, msg + "\n", None, [])
  }

  /** The nonce reaches the decoder and `attest` only when every check
      before the call passes. */
  predicate ReachesAttest(check: NonceCheck, req: Request) {
    var nonce := QueryNonce(req);
    && req.httpMethod == MethodGet
    && req.formParses
    && nonce != ""
    && PassesNonceCheck(check, nonce)
    && Hex.DecodeString(nonce).Ok?
  }

  /** The handler body, with the nonce format test as a parameter. */
  function Pipeline(check: NonceCheck, certHash: Digest, req: Request, dev: Nsm.Device): (r: Response)
    ensures r.call.Some? <==> ReachesAttest(check, req)
    ensures r.call.None? ==> r.session == [] && r.status in {StatusMethodNotAllowed, StatusBadRequest}
    ensures r.call.Some? ==>
      var call := r.call.value;
      var outcome := Nsm.Attest(dev, call.nonce, call.userData, call.publicKey);
      && call == AttestCall(Hex.DecodeString(QueryNonce(req)).value, certHash, [])
      && r.session == outcome.trace
      && (outcome.result.Err? ==> r.status == StatusInternalServerError && r.body == ErrFailedAttestation + "\n")
      && (outcome.result.Ok? ==> r.status == StatusOK && r.body == Base64.EncodeToString(outcome.result.value) + "\n")
  {
    if req.httpMethod != MethodGet then HttpError(ErrMethodNotGet, StatusMethodNotAllowed)
    else if !req.formParses then HttpError(ErrBadForm, StatusBadRequest)
    else
      var nonce := QueryNonce(req);
      if nonce == "" then HttpError(ErrNoNonce, StatusBadRequest)
      else if !PassesNonceCheck(check, nonce) then HttpError(ErrBadNonceFormat, StatusBadRequest)
      else
        match Hex.DecodeString(nonce)
        case Err(_) => HttpError(ErrBadNonceFormat, StatusBadRequest)
        case Ok(rawNonce) =>
          var call := AttestCall(rawNonce, certHash, []);
          var outcome := Nsm.Attest(dev, call.nonce, call.userData, call.publicKey);
          match outcome.result
          case Err(_) => Response(StatusInternalServerError, ErrFailedAttestation + "\n", Some(call), outcome.trace)
          case Ok(rawDoc) =>
            // fmt.Fprintln writes the body; the status stays the default 200.
            Response(StatusOK, Base64.EncodeToString(rawDoc) + "\n", Some(call), outcome.trace)
  }

  /** `getAttestationHandler(certHash)` applied to one request, as written:
      the nonce test is the unanchored regular-expression search. */
  function Handle(certHash: Digest, req: Request, dev: Nsm.Device): (r: Response)
    ensures req.httpMethod != MethodGet ==>
      r == Response(StatusMethodNotAllowed, ErrMethodNotGet + "\n", None, [])
    ensures req.httpMethod == MethodGet && !req.formParses ==>
      r == Response(StatusBadRequest, ErrBadForm + "\n", None, [])
    ensures req.httpMethod == MethodGet && req.formParses && QueryNonce(req) == "" ==>
      r == Response(StatusBadRequest, ErrNoNonce + "\n", None, [])
    ensures (req.httpMethod == MethodGet && req.formParses && QueryNonce(req) != "" &&
             !NoncePattern.MatchesNonceRegExp(QueryNonce(req))) ==>
      r == Response(StatusBadRequest, ErrBadNonceFormat + "\n", None, [])
    ensures (req.httpMethod == MethodGet && req.formParses && NoncePattern.MatchesNonceRegExp(QueryNonce(req)) &&
             Hex.DecodeString(QueryNonce(req)).Err?) ==>
      r == Response(StatusBadRequest, ErrBadNonceFormat + "\n", None, [])
  {
    Pipeline(Unanchored, certHash, req, dev)
  }

  /** Every nonce that reaches `attest` has even length of at least 40, is
      hex in either case, contains 40 lower-case hex digits in a row, and
      decodes to half as many bytes. */
  lemma AcceptedNonceShape(certHash: Digest, req: Request, dev: Nsm.Device)
    requires Handle(certHash, req, dev).call.Some?
    ensures var nonce := QueryNonce(req);
            && |nonce| % 2 == 0 && |nonce| >= NoncePattern.NonceLen
            && Hex.AllHex(nonce)
            && NoncePattern.MatchesNonceRegExp(nonce)
            && |Handle(certHash, req, dev).call.value.nonce| == |nonce| / 2
  {
    NoncePattern.MatchIsLongEnough(QueryNonce(req));
  }

  /** A nonce of exactly 40 lower-case hex digits is accepted; the raw nonce
      is 20 bytes and encoding it in lower-case hex gives the nonce back. */
  lemma ExactNonceAccepted(certHash: Digest, nonce: string, dev: Nsm.Device)
    requires NoncePattern.IsExactNonce(nonce)
    ensures var r := Handle(certHash, Request(MethodGet, true, Some(nonce)), dev);
            && r.call.Some?
            && |r.call.value.nonce| == 20
            && Hex.EncodeToString(r.call.value.nonce) == nonce
  {
    NoncePattern.ExactNonceMatches(nonce);
    Hex.EncodeDecode(nonce);
  }

  /** The user data handed to `attest` is always the captured certificate
      hash, all 32 bytes of it, and no public key is passed. */
  lemma UserDataIsCertHash(certHash: Digest, req: Request, dev: Nsm.Device)
    requires Handle(certHash, req, dev).call.Some?
    ensures Handle(certHash, req, dev).call.value.userData == certHash
    ensures |Handle(certHash, req, dev).call.value.userData| == DigestSize
    ensures Handle(certHash, req, dev).call.value.publicKey == []
  {
  }

  /** A successful response body decodes back to the document the device
      returned, after the trailing newline is dropped. */
  lemma SuccessBodyDecodes(certHash: Digest, req: Request, dev: Nsm.Device, doc: Bytes)
    requires Handle(certHash, req, dev).call.Some?
    requires var call := Handle(certHash, req, dev).call.value;
             Nsm.Attest(dev, call.nonce, call.userData, call.publicKey).result == Ok(doc)
    ensures var r := Handle(certHash, req, dev);
            && r.status == StatusOK
            && |r.body| >= 1 && r.body[|r.body| - 1] == '\n'
            && Base64.Decode(r.body[..|r.body| - 1]) == Some(doc)
  {
    var r := Handle(certHash, req, dev);
    var encoded := Base64.EncodeToString(doc);
    assert r.body[..|r.body| - 1] == encoded;
    Base64.DecodeEncode(doc);
  }

  /** A device error, a missing document or a failed session all become the
      same 500 response. */
  lemma DeviceFailureIs500(certHash: Digest, req: Request, dev: Nsm.Device)
    requires ReachesAttest(Unanchored, req)
    requires dev.openError.Some? ||
      var q := Nsm.AttestationRequest(Hex.DecodeString(QueryNonce(req)).value, certHash, []);
      Nsm.Interpret(dev.send(q).response).Err?
    ensures Handle(certHash, req, dev).status == StatusInternalServerError
    ensures Handle(certHash, req, dev).body == ErrFailedAttestation + "\n"
  {
  }

  /** Short or case-wrong nonces are refused before `attest`: "xyz", 39
      digits, and 40 upper-case digits. */
  lemma MalformedNoncesRejected(certHash: Digest, dev: Nsm.Device)
    ensures Handle(certHash, Request(MethodGet, true, Some("xyz")), dev) ==
      Response(StatusBadRequest, ErrBadNonceFormat + "\n", None, [])
    ensures Handle(certHash, Request(MethodGet, true, Some(seq(39, _ => 'a'))), dev) ==
      Response(StatusBadRequest, ErrBadNonceFormat + "\n", None, [])
    ensures Handle(certHash, Request(MethodGet, true, Some(seq(40, _ => 'A'))), dev) ==
      Response(StatusBadRequest, ErrBadNonceFormat + "\n", None, [])
  {
    var upper := seq(40, _ => 'A');
    assert !NoncePattern.RunAt(upper, 0, NoncePattern.NonceLen) by {
      assert !Hex.IsLowerHexDigit(upper[0]);
    }
  }

  /** Because the search is unanchored and the decoder takes either case,
      upper-case digits pass when a lower-case run of 40 sits beside them,
      and they reach `attest` as the same bytes as their lower-case forms. */
  lemma MixedCaseAccepted(certHash: Digest, dev: Nsm.Device)
    ensures var nonce := seq(40, _ => 'A') + seq(40, _ => 'a');
            var r := Handle(certHash, Request(MethodGet, true, Some(nonce)), dev);
            && r.call.Some? && |r.call.value.nonce| == 40
            && Hex.EncodeToString(r.call.value.nonce) == seq(80, _ => 'a')
  {
    var nonce := seq(40, _ => 'A') + seq(40, _ => 'a');
    NoncePattern.MatchInsideLongerInput(seq(40, _ => 'A'), seq(40, _ => 'a'), []);
    assert nonce + [] == nonce;
    assert Hex.AllHex(nonce) by {
      forall i | 0 <= i < |nonce| ensures Hex.IsHexDigit(nonce[i]) {
        assert nonce[i] == 'A' || nonce[i] == 'a';
      }
    }
    Hex.DecodeFoldsCase(nonce);
    assert Hex.FoldCase(nonce) == seq(80, _ => 'a') by {
      forall i | 0 <= i < 80 ensures Hex.FoldCase(nonce)[i] == 'a' {
        assert nonce[i] == 'A' || nonce[i] == 'a';
      }
    }
  }

  /** As written, a nonce of 42 lower-case hex digits passes every check and
      `attest` receives a 21-byte nonce. */
  lemma LongNonceAccepted(certHash: Digest, dev: Nsm.Device)
    ensures var r := Handle(certHash, Request(MethodGet, true, Some(seq(42, _ => 'a'))), dev);
            r.call.Some? && |r.call.value.nonce| == 21
  {
    var nonce := seq(42, _ => 'a');
    NoncePattern.MatchInsideLongerInput([], seq(40, _ => 'a'), "aa");
    assert [] + seq(40, _ => 'a') + "aa" == nonce;
    assert Hex.AllHex(nonce) by {
      forall i | 0 <= i < |nonce| ensures Hex.IsHexDigit(nonce[i]) {
        assert nonce[i] == 'a';
      }
    }
  }

  /** The handler with the anchored format the constant and the message
      describe: `attest` is reached exactly for 40 lower-case hex digits, and
      then with 20 bytes and the certificate hash. */
  function HandleStrict(certHash: Digest, req: Request, dev: Nsm.Device): (r: Response)
    ensures r.call.Some? <==>
      req.httpMethod == MethodGet && req.formParses && NoncePattern.IsExactNonce(QueryNonce(req))
    ensures r.call.Some? ==> |r.call.value.nonce| == 20 && r.call.value.userData == certHash
  {
    Pipeline(Anchored, certHash, req, dev)
  }

  /** Under the anchored format the raw nonce is exactly what the client's
      digits encode: hex-encoding it gives the nonce back. */
  lemma StrictNonceRoundTrip(certHash: Digest, req: Request, dev: Nsm.Device)
    requires HandleStrict(certHash, req, dev).call.Some?
    ensures Hex.EncodeToString(HandleStrict(certHash, req, dev).call.value.nonce) == QueryNonce(req)
  {
    Hex.EncodeDecode(QueryNonce(req));
  }
}
