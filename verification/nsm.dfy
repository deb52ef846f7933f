/** `attest`: one session with the Nitro Secure Module. The session is
    opened, one attestation request is sent, and the session is closed on
    every path once it was opened. The device response, not the error `Send`
    returns, decides the outcome. */
module Nsm {
  import opened Common

  /** `request.Attestation`. */
  datatype AttestationRequest = AttestationRequest(nonce: Bytes, userData: Bytes, publicKey: Bytes)

  /** `response.Attestation`: `document` is `None` when the slice is nil. */
  datatype AttestationPayload = AttestationPayload(document: Option<Bytes>)

  /** `response.Response` as far as `attest` reads it: the device's error
      code (empty when none) and the attestation payload pointer. */
  datatype DeviceResponse = DeviceResponse(error: string, attestation: Option<AttestationPayload>)

  /** What `Session.Send` hands back: the response and the driver's error. */
  datatype Reply = Reply(response: DeviceResponse, sendError: Option<string>)

  /** The module as the session sees it: whether opening fails, how it
      answers a request, whether closing fails. */
  datatype Device = Device(
    openError: Option<string>,
    send: AttestationRequest -> Reply,
    closeError: Option<string>)

  /** What happens to the session, in order. A failed close is logged. */
  datatype Event = Opened | Sent(request: AttestationRequest) | Closed(failure: Option<string>)

  /** The returned `([]byte, error)` pair and the session trace. */
  datatype Outcome = Outcome(result: Result<Bytes, string>, trace: seq<Event>)

  const ErrNoAttestation: string := "NSM device did not return an attestation"

  /** The one decision point for a device response: a non-empty error field
      wins even when a document came back; otherwise a missing payload or a
      nil document is a failure; otherwise the document is returned as is. */
  function Interpret(res: DeviceResponse): (r: Result<Bytes, string>)
    ensures res.error != "" ==> r == Err(res.error)
    ensures res.error == "" && (res.attestation.None? || res.attestation.value.document.None?) ==>
      r == Err(ErrNoAttestation)
    ensures r.Ok? <==> res.error == "" && res.attestation.Some? && res.attestation.value.document.Some?
    ensures r.Ok? ==> r.value == res.attestation.value.document.value
  {
    if res.error != "" then Err(res.error)
    else if res.attestation.None? || res.attestation.value.document.None? then Err(ErrNoAttestation)
    else Ok(res.attestation.value.document.value)
  }

  /** The request `attest` builds: the public key slot is always the empty
      slice, whatever key the caller passed. */
  function BuildRequest(nonce: Bytes, userData: Bytes, publicKey: Bytes): (q: AttestationRequest)
    ensures q.nonce == nonce && q.userData == userData && q.publicKey == []
  {
    AttestationRequest(nonce, userData, [])
  }

  /** `attest(nonce, userData, publicKey)`. */
  function Attest(dev: Device, nonce: Bytes, userData: Bytes, publicKey: Bytes): (o: Outcome)
    ensures dev.openError.Some? ==> o == Outcome(Err(dev.openError.value), [])
    ensures dev.openError.None? ==>
      o.trace == [Opened, Sent(AttestationRequest(nonce, userData, [])), Closed(dev.closeError)]
  {
    match dev.openError
    case Some(e) => Outcome(Err(e), [])
    case None =>
      var request := BuildRequest(nonce, userData, publicKey);
      var reply := dev.send(request);
      // The error from Send is dropped on purpose: the driver can report one
      // alongside a valid document.
      Outcome(Interpret(reply.response), [Opened, Sent(request), Closed(dev.closeError)])
  }

  function CountClosed(trace: seq<Event>): nat {
    if |trace| == 0 then 0
    else (if trace[0].Closed? then 1 else 0) + CountClosed(trace[1..])
  }

  /** Session discipline: nothing happens without an open session, and an
      opened session is closed exactly once, as the last event, after the
      single request. */
  lemma SessionClosedExactlyOnce(dev: Device, nonce: Bytes, userData: Bytes, publicKey: Bytes)
    ensures var o := Attest(dev, nonce, userData, publicKey);
            && (dev.openError.Some? <==> o.trace == [])
            && (dev.openError.None? ==> CountClosed(o.trace) == 1 && o.trace[|o.trace| - 1].Closed?)
            && (forall i :: 0 <= i < |o.trace| ==> o.trace[i].Opened? ==> i == 0)
  {
    var o := Attest(dev, nonce, userData, publicKey);
    if dev.openError.None? {
      assert CountClosed(o.trace[2..]) == 1;
      assert CountClosed(o.trace[1..]) == 1;
    }
  }

  /** On an opened session the result is the interpretation of the device's
      answer to the built request. */
  lemma OpenedResult(dev: Device, nonce: Bytes, userData: Bytes, publicKey: Bytes)
    requires dev.openError.None?
    ensures Attest(dev, nonce, userData, publicKey).result ==
      Interpret(dev.send(AttestationRequest(nonce, userData, [])).response)
  {
  }

  /** A failing close is logged and never reaches the caller. */
  lemma CloseFailureInvisible(dev: Device, closeError: Option<string>, nonce: Bytes, userData: Bytes, publicKey: Bytes)
    ensures Attest(dev, nonce, userData, publicKey).result ==
      Attest(dev.(closeError := closeError), nonce, userData, publicKey).result
  {
  }

  /** The error `Send` returns is ignored: devices that give the same
      responses give the same result, whatever their send errors. */
  lemma SendErrorIgnored(d1: Device, d2: Device, nonce: Bytes, userData: Bytes, publicKey: Bytes)
    requires d1.openError == d2.openError
    requires forall q :: d1.send(q).response == d2.send(q).response
    ensures Attest(d1, nonce, userData, publicKey).result == Attest(d2, nonce, userData, publicKey).result
  {
  }

  /** The public key argument has no effect on anything `attest` does. */
  lemma PublicKeyIgnored(dev: Device, nonce: Bytes, userData: Bytes, k1: Bytes, k2: Bytes)
    ensures Attest(dev, nonce, userData, k1) == Attest(dev, nonce, userData, k2)
  {
  }

  /** The spurious-error case: a device that sets its error field fails the
      call even though it also returned a document. */
  lemma ErrorFieldWinsOverDocument(dev: Device, nonce: Bytes, userData: Bytes, doc: Bytes, msg: string)
    requires dev.openError.None? && msg != ""
    requires dev.send(AttestationRequest(nonce, userData, [])).response ==
      DeviceResponse(msg, Some(AttestationPayload(Some(doc))))
    ensures Attest(dev, nonce, userData, []).result == Err(msg)
  {
  }
}
