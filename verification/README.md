# nitro-enclave-utils in Dafny

This project models the core of `nitro-enclave-utils`, a Go library for
services that run inside an AWS Nitro Enclave. It covers five parts:

- **The `/attestation` endpoint** (`getAttestationHandler`). The endpoint
  checks the request method, the form and the `nonce` query parameter. It
  then asks the Nitro Secure Module for an attestation document that binds
  the client's nonce to the hash of the enclave's HTTPS certificate, and
  returns the document in Base64 with a trailing newline.
- **The NSM session** (`attest`). It opens a session, sends one attestation
  request with an empty public key, and closes the session on every path
  once it is open. The device's response decides the outcome; the error
  `Send` returns does not.
- **Certificate fingerprinting** (`setCertFingerprint`). It scans PEM blocks
  in order and stores the SHA-256 hash of the first certificate that is not
  a CA.
- **Certificate provisioning.** The self-signed path (`genSelfSignedCert`)
  builds a template, creates and fingerprints a certificate, and installs it
  as the only TLS certificate. The ACME path (`setupAcme`) installs a
  per-handshake certificate lookup. Its poller later fingerprints the
  certificate that was fetched.
- **The enclave service**:
  - `NewEnclave`;
  - `AddRoute`, which accepts the nine standard method names and ignores all
    others;
  - `Start`, a fixed sequence of steps where the first failure aborts with
    the prefix "failed to start Nitro Enclave".

Modules follow that structure:

| module | file | models |
|---|---|---|
| `Common` | common.dfy | `Option`, `Result`, bytes, 32-byte digests |
| `Hex` | hex.dfy | `hex.DecodeString`, with Go's lower-case encoder as its inverse |
| `Base64` | base64.dfy | `base64.StdEncoding.EncodeToString`, with a strict decoder as its inverse |
| `NoncePattern` | nonce.dfy | the unanchored search for `[a-f0-9]{40}` |
| `Nsm` | nsm.dfy | `attest` and the NSM session |
| `Attestation` | attestation.dfy | `getAttestationHandler` |
| `Fingerprint` | fingerprint.dfy | `setCertFingerprint` |
| `Router` | router.dfy | route registration and `AddRoute`'s method switch |
| `Tls` | tls.dfy | the TLS configuration the server holds |
| `SelfSigned` | selfsigned.dfy | `genSelfSignedCert` and its constants |
| `EnclaveService` | enclave.dfy | `Enclave`, `Config`, `NewEnclave`, `Start`, `setupAcme` |

Everything the code gets from outside is an input to the model. This covers
the device, certificate parsing, hashing, key and serial generation, the
clock, `os.Setenv`, `os.MkdirAll`, the vsock listener and `ServeTLS`. The
NSM device is a `Nsm.Device` value. The cryptographic collaborators of
`genSelfSignedCert` form a `SelfSigned.Crypto` value. The process-level
outcomes of `Start` form an `EnclaveService.Host` value.

Some behaviour of the code is easy to misread from its names, comments and
messages. The model follows the code:

- **Device error with a document.** The comment at attestation.go:86-88 says
  the driver may report an error even though it obtained a document. The
  code tolerates that only for the error `Send` returns. A non-empty error
  field inside the response still fails the call, even when the response
  also carries a document (attestation.go:94-96).
- **Only CA certificates.** The error message says no PEM data was found.
  A buffer that holds PEM data, but only CA certificates, gets the same
  error (enclave.go:253-256).
- **Nonce format.** The `nonceLen` comment (attestation.go:17) and the "must
  be 40-digit hex string" message describe exactly 40 digits. The check is an
  unanchored regular-expression search (attestation.go:51), followed by
  `hex.DecodeString` (attestation.go:56). So a nonce reaches the device
  when it meets all three conditions:
  - it has even length;
  - it consists of hex digits of either case;
  - it contains 40 lower-case hex digits in a row.

  Longer nonces and nonces with upper-case digits therefore pass. Upper-case
  digits decode to the same bytes as lower-case ones. See Findings.
- **Closing the session.** The session is closed once per call, but only if
  it opened. If `OpenDefaultSession` fails, nothing is closed
  (attestation.go:76-79).
- **Certificate validity.** `certificateValidity` is 24 * 356 hours
  (enclave.go:32), nine days short of a year.
- **Fingerprint on a late failure.** In `genSelfSignedCert` the fingerprint
  is stored before `tls.X509KeyPair` runs (enclave.go:166-181). If that call
  fails, the function returns an error, but the fingerprint has already
  changed.

## Model

| member | source | states |
|---|---|---|
| Hex.DecodeString | attestation.go:55-60 | decoding succeeds exactly for an even-length string of hex digits in either case, and then yields half as many bytes as there are digits |
| Hex.EncodeToString | attestation.go:56 | the hex encoding has two lower-case hex digits per byte |
| Hex.DecodeIgnoresCase | attestation.go:56 | any input, valid or not, decodes or fails exactly as its lower-case folding does |
| Hex.DecodeFoldsCase | attestation.go:56 | a valid input in either case decodes to the bytes whose lower-case encoding is its folding, so 'A'-'F' mean the same as 'a'-'f' |
| Hex.EncodeVector | attestation.go:56 | the lower-case encoding of "foobar" is the RFC 4648 section 10 vector "666f6f626172" |
| Hex.DecodeUpperVector | attestation.go:56 | the upper-case vector "666F6F626172" decodes to "foobar" |
| Hex.DecodeEncode | attestation.go:56 | decoding the lower-case hex encoding of any byte string gives back that byte string |
| Hex.EncodeDecode | attestation.go:56 | an even-length lower-case hex string decodes, and re-encoding the bytes gives back the original string |
| Base64.EncodeToString | attestation.go:67 | a padded standard encoding has four characters for every started group of three bytes |
| Base64.Rfc4648Vectors | attestation.go:67 | the encoder produces the seven test vectors of RFC 4648 section 10 |
| Base64.DecodeEncode | attestation.go:67 | decoding the standard padded encoding of any document gives back the document |
| Base64.EncodeAlphabet | attestation.go:67 | the encoding uses only the standard alphabet, with '=' padding only in the last two positions |
| NoncePattern.MatchString | attestation.go:51 | the search answers true exactly when some 40 consecutive characters are lower-case hex digits, anywhere in the string |
| NoncePattern.ExactNonceMatches | attestation.go:26 | a string of exactly 40 lower-case hex digits matches the pattern |
| NoncePattern.MatchIsLongEnough | attestation.go:26 | a matching string has at least 40 characters |
| NoncePattern.MatchInsideLongerInput | attestation.go:51 | a 40-digit run still matches with anything before or after it, so the search does not bound the nonce's length |
| Nsm.Interpret | attestation.go:94-102 | a non-empty device error is the failure; otherwise a missing payload or document is the "did not return an attestation" failure; success exactly when neither applies, and then the document is returned unchanged |
| Nsm.Attest | attestation.go:75-103 | a failed open returns its error with no session activity; otherwise the session is opened, sent one request with an empty public key, and closed |
| Nsm.SessionClosedExactlyOnce | attestation.go:76-84 | no activity without an open session; an opened session is opened once and closed exactly once, as the last event |
| Nsm.OpenedResult | attestation.go:89-102 | on an opened session, the result depends only on the device's response to the built request |
| Nsm.CloseFailureInvisible | attestation.go:80-84 | a failing close never changes what the caller receives |
| Nsm.SendErrorIgnored | attestation.go:86-93 | two devices that give the same responses give the same result, whatever errors their drivers report |
| Nsm.PublicKeyIgnored | attestation.go:75-93 | the public key argument has no effect on the call |
| Nsm.ErrorFieldWinsOverDocument | attestation.go:94-96 | a response with a non-empty error field fails with that message even when it holds a document |
| Attestation.QueryNonce | attestation.go:46-50 | an absent nonce parameter and an empty one both read as the empty string; a present value is read unchanged |
| Attestation.Pipeline | attestation.go:36-69 | the device is called exactly when every earlier check passes, with the decoded nonce, the certificate hash and no key; failures before that leave the session untouched; a device failure is a 500 and a document is a 200 with its Base64 and a newline |
| Attestation.Handle | attestation.go:35-70 | each early exit in order: non-GET is 405, a bad form, a missing nonce and a badly formatted nonce are each 400 with the matching message, and none of them calls the device |
| Attestation.AcceptedNonceShape | attestation.go:51-60 | any nonce that reaches the device has even length of at least 40, is hex, contains a 40-digit lower-case run, and decodes to half its length |
| Attestation.ExactNonceAccepted | attestation.go:46-62 | a nonce of exactly 40 lower-case hex digits reaches the device as the 20 bytes it encodes |
| Attestation.UserDataIsCertHash | attestation.go:62 | the user data sent is the 32-byte certificate hash and the public key is empty |
| Attestation.SuccessBodyDecodes | attestation.go:67-68 | a 200 body, once its trailing newline is removed, decodes to the document the device returned |
| Attestation.DeviceFailureIs500 | attestation.go:62-66 | an open failure, a device error or a missing document all give 500 with the attestation-failure message |
| Attestation.MalformedNoncesRejected | attestation.go:51-54 | "xyz", 39 digits and 40 upper-case digits each get 400 and never reach the device |
| Attestation.MixedCaseAccepted | attestation.go:51-60 | 40 upper-case digits followed by 40 lower-case digits reach the device as 40 bytes, the same bytes as 80 lower-case 'a' digits |
| Attestation.LongNonceAccepted | attestation.go:51-54 | a nonce of 42 lower-case hex digits reaches the device as 21 bytes |
| Attestation.HandleStrict | attestation.go:24-26 | with the anchored format, the device is reached exactly for GET with a parsable form and exactly 40 lower-case hex digits, and then receives 20 bytes and the certificate hash |
| Attestation.StrictNonceRoundTrip | attestation.go:55-62 | with the anchored format, the 20 bytes sent hex-encode back to the client's nonce |
| Fingerprint.Scan | enclave.go:253-270 | a found fingerprint is the hash of some parsable non-CA certificate in the buffer; any error other than the "pem.Decode failed" one is the parse error of some certificate block |
| Fingerprint.SetCertFingerprint | enclave.go:251-272 | success exactly when the scan finds a leaf, and the stored fingerprint is then that leaf's hash; any error leaves the stored fingerprint as it was and reports the scan's error |
| Fingerprint.SetCertFingerprintLoop | enclave.go:252-271 | the loop, whose guard never turns false because the inner `rest` shadows the outer one, computes the same fingerprint and error as the scan |
| Fingerprint.ScanSelectsFirstLeaf | enclave.go:253-267 | when the first leaf follows only skipped blocks, the result is that leaf's hash |
| Fingerprint.ScanSuccessHasLeaf | enclave.go:258-267 | every successful scan returns the hash of a first leaf |
| Fingerprint.NoLeafIsDecodeError | enclave.go:253-257 | a buffer with no leaf and no unparsable certificate, including an empty one or one with only CA certificates, gives the "pem.Decode failed" error |
| Fingerprint.ParseErrorStopsScan | enclave.go:259-262 | an unparsable certificate before any leaf ends the scan with its parse error |
| Fingerprint.LaterBlocksIrrelevant | enclave.go:263-267 | blocks after the first leaf, such as intermediate CAs, do not affect the result |
| Fingerprint.SingleCertificate | enclave.go:253-267 | a one-certificate buffer gives its hash if it is a leaf, the "pem.Decode failed" error if it is a CA, and its parse error otherwise |
| Fingerprint.FingerprintWrittenOnlyOnSuccess | enclave.go:263-266 | the stored fingerprint changes only on success, and then to the hash of a first leaf |
| Router.Register | enclave.go:277-278 | after registering, the router serves the new handler for that method and pattern, and every other method and pattern is served as before |
| Router.AddRoute | enclave.go:275-296 | a method outside the nine names leaves the routes unchanged; one of them registers the handler under that method |
| Router.ParseMethodExact | enclave.go:276-294 | the switch accepts a string exactly when it is one of the nine method names, each mapped to its own method |
| Router.AddRouteEffect | enclave.go:275-296 | the routes change exactly when the method is one of the nine names, and the handler is then served for that method and pattern |
| Router.LowerCaseMethodIgnored | enclave.go:276-277 | method matching is case-sensitive: "get" registers nothing |
| SelfSigned.BuildTemplate | enclave.go:141-152 | the template is for the FQDN alone and owned by "Brave Software"; it is a digital-signature, server-auth certificate with basic constraints; with a clock that does not run backwards its validity window is at least 24*356 hours, and under 365 days when both readings coincide |
| SelfSigned.GenSelfSignedCert | enclave.go:127-189 | succeeds exactly when every collaborator does (key, serial, certificate creation, PEM encoding, a non-CA parse, key-pair loading); it then installs exactly the created certificate with the generated key, whose hash is the fingerprint; otherwise it returns the error of the first collaborator that failed, and the TLS configuration is untouched |
| SelfSigned.InstalledCertificateIsFingerprinted | enclave.go:160-186 | the installed certificate parses as a non-CA certificate and hashes to the stored fingerprint |
| SelfSigned.CaCertificateRejected | enclave.go:164-168 | a created certificate that parses as a CA fails provisioning with the "pem.Decode failed" error and changes neither the fingerprint nor the TLS configuration |
| SelfSigned.ValidityWindow | enclave.go:147-148 | with a clock that does not run backwards, validity lasts at least 356 days, and less than 365 days when both readings coincide |
| EnclaveService.AddRoute | enclave.go:275-296 | only the routes change, and only when the method is one of the nine names; the handler is then served for that method and pattern, and every other method and pattern is served as before |
| EnclaveService.VsockPort | enclave.go:107 | the vsock port is the configured port reduced to 32 bits: in range and congruent to it modulo 2^32 |
| EnclaveService.SetupAcme | enclave.go:196-245 | fails exactly when the cache directory cannot be created, and then returns "Failed to create cache directory: " followed by the cause, with the enclave unchanged; otherwise installs a per-handshake lookup for the FQDN; the fingerprint and routes are untouched |
| EnclaveService.ObtainCert | enclave.go:86-93 | the configuration chooses ACME or self-signed, and the self-signed outcome sets the fingerprint and TLS configuration |
| EnclaveService.Boot | enclave.go:73-116 | the steps attempted are a prefix of the fixed order; every earlier step succeeded; an abort reports the failing step's error under the common prefix; a full run returns the server's error; an abort at the entropy or loopback step leaves the enclave untouched, and an abort at the certificate step leaves it as the certificate step made it (a fingerprint already written stays); the attestation route exists from the fourth step on; HTTP_PROXY and HTTPS_PROXY are set to the SOCKS proxy in that order, each only once its call succeeded |
| EnclaveService.Start | enclave.go:94 | once the route is registered, `GET /attestation` is served by a handler holding a copy of the fingerprint taken right after the certificate step |
| EnclaveService.ServeAttestation | enclave.go:94 | a request routed to `/attestation` is answered exactly when an attestation handler is registered there for GET; the handler's own 405 stands in for the router's answer to other methods |
| EnclaveService.PollerPublish | enclave.go:242 | the ACME poller changes only the fingerprint, to the leaf's hash when the scan succeeds; a scan error is discarded |
| EnclaveService.FirstFailureAborts | enclave.go:73-110 | if step k is the first to fail, exactly k+1 steps run and the error is step k's, under the common prefix |
| EnclaveService.SelfSignedAttestationMatchesTls | enclave.go:86-94 | with the self-signed strategy, every attestation request carries the hash of the one certificate the TLS server holds |
| EnclaveService.AcmeHandlerKeepsZeroFingerprint | enclave.go:86-94 | with ACME, requests carry the all-zero fingerprint even after the poller publishes a leaf's hash, and so disagree with it whenever that hash is not all zeros |
| EnclaveService.StartCorrected | enclave.go:94 | with the handler bound by reference, `GET /attestation` is served by a handler that reads the enclave's current fingerprint |
| EnclaveService.AcmeCorrectedCarriesPublishedFingerprint | enclave.go:226-243 | with the handler bound by reference, requests after the poller publishes carry exactly the published fingerprint |

## Left out

- Fingerprint.ParseCertificate: assumes a parsed certificate's `Raw` equals
  the DER it was parsed from. This holds because `x509.ParseCertificate`
  rejects trailing data, but the model builds it in rather than proving it.
- Chi internals: the router's own 405 for unregistered methods, pattern
  syntax and middleware. The `Debug` request logger installed at
  enclave.go:63-65 is not modelled either.
- EnclaveService.ServeAttestation: passes requests of any method to the
  handler. The handler's own 405 stands in for the router's answer to
  methods other than GET, and the router's exact status and body are not
  modelled.
- HTTP plumbing: URL and form parsing, header writing and the
  `Content-Type` headers. A request is reduced to its method, whether
  `ParseForm` succeeds, and the first `nonce` value.
- Nonce encoding: the nonce is a character sequence, one character per
  byte. Only ASCII hex digits pass the checks, so this changes no accepted
  input.
- Logging: `log.Printf` and the debug `e.log` calls. A failed NSM close is
  kept only as the `Closed(failure)` event.
- Cryptography and encodings: ECDSA key generation, `rand.Int`,
  `x509.CreateCertificate`, `x509.ParseCertificate`, `sha256.Sum256`, PEM
  encoding and `tls.X509KeyPair`. They are abstract inputs.
  - A PEM buffer is the sequence of blocks `pem.Decode` would return.
  - The serial's range is the range `rand.Int` promises.
- Process exits: the `log.Fatal` calls at enclave.go:172 and enclave.go:176.
  Marshalling and PEM-encoding the private key are treated as always
  successful.
- `seedEntropyPool` and `assignLoAddr`: not part of this model. Their
  outcomes are inputs to `Start`.
- Process-level collaborators: `os.Setenv`, `os.MkdirAll`, `vsock.Listen`
  and `ServeTLS`.
  - They appear as outcomes; `ServeTLS` always stops with an error.
  - The deferred listener close happens after serving and its result is
    discarded.
- ACME concurrency: the ACME manager, its HTTP-01 listener goroutine, the
  retry loop with its sleeps and timeouts, and the data race on `err` and
  `e.certFpr`. Only the poller's final `setCertFingerprint` is modelled, as
  `EnclaveService.PollerPublish`.
- `EnclaveService.Boot`: the server address string `":<port>"` and the
  `Listen` step's argument are kept only as the reduced vsock port.
- `SelfSigned.GenSelfSignedCert`: times are unbounded integers of
  nanoseconds. `time.Time.Add`'s saturation at the limits of its range is not
  modelled.
- `Base64.DecodeEncode`: the inverse is a strict decoder written for this
  model, not Go's `base64.StdEncoding.DecodeString`, which the library does
  not call.

## Findings

| source | as written | input that shows it | evidently intended | confidence | as-written member | corrected member |
|---|---|---|---|---|---|---|
| attestation.go:51 | `regexp.MatchString("[a-f0-9]{40}", nonce)` searches anywhere in the nonce, so the test only asks for 40 lower-case hex digits somewhere in it | the nonce of 42 `a` characters passes, and the device receives a 21-byte nonce | only exactly 40 lower-case hex digits are accepted, as the 40-digit constant and the "must be 40-digit hex string" message describe | high, not executed | Attestation.LongNonceAccepted | Attestation.HandleStrict |
| enclave.go:94 | `getAttestationHandler(e.certFpr)` copies the fingerprint when the route is registered; with ACME the poller sets `e.certFpr` only later (enclave.go:242) | `UseACME` is true, and the cached certificate's leaf hash is not all zeros | attestation documents carry the fingerprint of the certificate the server presents | high, not executed | EnclaveService.AcmeHandlerKeepsZeroFingerprint | EnclaveService.AcmeCorrectedCarriesPublishedFingerprint |
