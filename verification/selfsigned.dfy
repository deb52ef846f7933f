/** `genSelfSignedCert`: a fresh key, a certificate template for the
    enclave's FQDN, a self-signed certificate, its fingerprint, and a TLS
    configuration holding that one certificate. Key generation, randomness,
    the clock and certificate creation are inputs. */
module SelfSigned {
  import opened Common
  import Tls
  import Fingerprint

  /** `certificateOrg`. */
  const CertificateOrg: string := "Brave Software"

  /** One hour in nanoseconds (`time.Hour`). */
  const Hour: int := 3_600_000_000_000

  /** `certificateValidity`: 24 * 356 hours, nine days short of a year. */
  const CertificateValidity: int := Hour * 24 * 356

  /** `serialNumberLimit`, that is 1 << 128. */
  const SerialNumberLimit: int := 0x1_0000_0000_0000_0000_0000_0000_0000_0000

  /** What `rand.Int(rand.Reader, serialNumberLimit)` can return. */
  type Serial = n: int | 0 <= n < SerialNumberLimit

  datatype KeyUsage = DigitalSignature

  datatype ExtKeyUsage = ServerAuth

  /** The `x509.Certificate` template. Times are nanoseconds. */
  datatype Template = Template(
    serialNumber: int,
    organization: seq<string>,
    dnsNames: seq<string>,
    notBefore: int,
    notAfter: int,
    keyUsage: KeyUsage,
    extKeyUsage: seq<ExtKeyUsage>,
    basicConstraintsValid: bool)

  /** The collaborators `genSelfSignedCert` calls, each as its outcome. The
      two clock fields are the two `time.Now()` readings, in order. */
  datatype Crypto = Crypto(
    generateKey: Result<Tls.PrivateKey, string>,
    serialNumber: Result<Serial, string>,
    firstNow: int,
    secondNow: int,
    createCertificate: (Template, Tls.PrivateKey) -> Result<Bytes, string>,
    certPemEncodes: bool,
    parse: Fingerprint.Parser,
    hash: Fingerprint.Hasher,
    x509KeyPairError: (Bytes, Tls.PrivateKey) -> Option<string>)

  const ErrPemEncode: string := "failed to encode certificate to PEM"

  /** The enclave state `genSelfSignedCert` touches, the error it returns,
      and the template it built (once it got that far). */
  datatype Provisioned = Provisioned(
    err: Option<string>,
    certFpr: Digest,
    tlsConfig: Tls.Config,
    template: Option<Template>)

  /** The template literal: a leaf certificate for the FQDN alone, owned by
      the fixed organisation, valid from the first clock reading until the
      validity period after the second. */
  function BuildTemplate(serial: Serial, fqdn: string, firstNow: int, secondNow: int): (t: Template)
    ensures 0 <= t.serialNumber < SerialNumberLimit
    ensures t.dnsNames == [fqdn] && t.organization == [CertificateOrg]
    ensures t.notBefore == firstNow && t.notAfter - secondNow == 356 * 24 * Hour
    ensures t.keyUsage == DigitalSignature && t.extKeyUsage == [ServerAuth] && t.basicConstraintsValid
    ensures firstNow <= secondNow ==> t.notAfter - t.notBefore >= 356 * 24 * Hour
    ensures firstNow == secondNow ==> t.notAfter - t.notBefore < 365 * 24 * Hour
  {
    Template(
      serial,
      [CertificateOrg],
      [fqdn],
      firstNow,
      secondNow + CertificateValidity,
      DigitalSignature,
      [ServerAuth],
      true)
  }

  /** The DER `createCertificate` returns for the template built from the
      generated key and serial. */
  function CreatedDer(fqdn: string, c: Crypto): Bytes
    requires c.generateKey.Ok? && c.serialNumber.Ok?
    requires c.createCertificate(BuildTemplate(c.serialNumber.value, fqdn, c.firstNow, c.secondNow), c.generateKey.value).Ok?
  {
    c.createCertificate(BuildTemplate(c.serialNumber.value, fqdn, c.firstNow, c.secondNow), c.generateKey.value).value
  }

  /** Every collaborator succeeds: a key, a serial, a certificate that
      PEM-encodes and parses as a non-CA certificate, and a key pair that
      loads. */
  predicate Provisions(fqdn: string, c: Crypto) {
    && c.generateKey.Ok?
    && c.serialNumber.Ok?
    && c.createCertificate(BuildTemplate(c.serialNumber.value, fqdn, c.firstNow, c.secondNow), c.generateKey.value).Ok?
    && c.certPemEncodes
    && c.parse(CreatedDer(fqdn, c)) == Ok(false)
    && c.x509KeyPairError(CreatedDer(fqdn, c), c.generateKey.value).None?
  }

  /** `e.genSelfSignedCert()` given the enclave's FQDN, fingerprint and TLS
      configuration. */
  function GenSelfSignedCert(fqdn: string, certFpr: Digest, tlsConfig: Tls.Config, c: Crypto): (p: Provisioned)
    ensures p.err.Some? ==> p.tlsConfig == tlsConfig
    ensures p.err.None? ==>
      && p.template.Some?
      && p.template.value.dnsNames == [fqdn]
      && p.template.value.organization == [CertificateOrg]
      && 0 <= p.template.value.serialNumber < SerialNumberLimit
      && p.template.value.notBefore == c.firstNow
      && p.template.value.notAfter == c.secondNow + 356 * 24 * Hour
      && p.tlsConfig.Certificates? && |p.tlsConfig.certificates| == 1
      && |p.tlsConfig.certificates[0].chain| == 1
      && p.certFpr == c.hash(p.tlsConfig.certificates[0].chain[0])
    ensures p.err.None? <==> Provisions(fqdn, c)
    ensures p.err.None? ==>
      p.tlsConfig == Tls.Certificates([Tls.Certificate([CreatedDer(fqdn, c)], c.generateKey.value)])
    // Each failure reports the error of the first collaborator that failed.
    ensures c.generateKey.Err? ==> p == Provisioned(Some(c.generateKey.error), certFpr, tlsConfig, None)
    ensures c.generateKey.Ok? && c.serialNumber.Err? ==>
      p == Provisioned(Some(c.serialNumber.error), certFpr, tlsConfig, None)
    ensures c.generateKey.Ok? && c.serialNumber.Ok? ==>
      var template := BuildTemplate(c.serialNumber.value, fqdn, c.firstNow, c.secondNow);
      var created := c.createCertificate(template, c.generateKey.value);
      && p.template == Some(template)
      && (created.Err? ==> p.err == Some(created.error) && p.certFpr == certFpr && p.tlsConfig == tlsConfig)
      && (created.Ok? && !c.certPemEncodes ==> p.err == Some(ErrPemEncode) && p.certFpr == certFpr)
      && (created.Ok? && c.certPemEncodes && c.parse(created.value).Err? ==>
            p.err == Some(c.parse(created.value).error) && p.certFpr == certFpr)
      && (created.Ok? && c.certPemEncodes && c.parse(created.value) == Ok(true) ==>
            p.err == Some(Fingerprint.ErrNoPem) && p.certFpr == certFpr)
      && (created.Ok? && c.certPemEncodes && c.parse(created.value) == Ok(false) ==>
            p.err == c.x509KeyPairError(created.value, c.generateKey.value) && p.certFpr == c.hash(created.value))
  {
    match c.generateKey
    case Err(e) => Provisioned(Some(e), certFpr, tlsConfig, None)
    case Ok(privateKey) =>
      match c.serialNumber
      case Err(e) => Provisioned(Some(e), certFpr, tlsConfig, None)
      case Ok(serial) =>
        var template := BuildTemplate(serial, fqdn, c.firstNow, c.secondNow);
        match c.createCertificate(template, privateKey)
        case Err(e) => Provisioned(Some(e), certFpr, tlsConfig, Some(template))
        case Ok(derBytes) =>
          if !c.certPemEncodes then Provisioned(Some(ErrPemEncode), certFpr, tlsConfig, Some(template))
          else
            var pemCert := [Fingerprint.Block(Fingerprint.CertificateKind, derBytes)];
            Fingerprint.SingleCertificate(c.parse, c.hash, derBytes);
            var u := Fingerprint.SetCertFingerprint(certFpr, c.parse, c.hash, pemCert);
            if u.err.Some? then Provisioned(u.err, u.certFpr, tlsConfig, Some(template))
            else
              match c.x509KeyPairError(derBytes, privateKey)
              case Some(e) => Provisioned(Some(e), u.certFpr, tlsConfig, Some(template))
              case None =>
                var cert := Tls.Certificate([derBytes], privateKey);
                Provisioned(None, u.certFpr, Tls.Certificates([cert]), Some(template))
  }

  /** The certificate that gets installed is the one that was fingerprinted:
      its DER parses as a non-CA certificate and hashes to the new
      fingerprint. */
  lemma InstalledCertificateIsFingerprinted(fqdn: string, certFpr: Digest, tlsConfig: Tls.Config, c: Crypto)
    requires GenSelfSignedCert(fqdn, certFpr, tlsConfig, c).err.None?
    ensures var p := GenSelfSignedCert(fqdn, certFpr, tlsConfig, c);
            var der := p.tlsConfig.certificates[0].chain[0];
            && c.parse(der) == Ok(false)
            && p.certFpr == c.hash(der)
  {
    var p := GenSelfSignedCert(fqdn, certFpr, tlsConfig, c);
    var der := p.tlsConfig.certificates[0].chain[0];
    Fingerprint.SingleCertificate(c.parse, c.hash, der);
  }

  /** A created certificate that parses as a CA is not fingerprinted: the
      scan finds no leaf and provisioning fails with the PEM error. */
  lemma CaCertificateRejected(fqdn: string, certFpr: Digest, tlsConfig: Tls.Config, c: Crypto, key: Tls.PrivateKey, serial: Serial, der: Bytes)
    requires c.generateKey == Ok(key) && c.serialNumber == Ok(serial)
    requires c.createCertificate(BuildTemplate(serial, fqdn, c.firstNow, c.secondNow), key) == Ok(der)
    requires c.certPemEncodes && c.parse(der) == Ok(true)
    ensures GenSelfSignedCert(fqdn, certFpr, tlsConfig, c) ==
      Provisioned(Some(Fingerprint.ErrNoPem), certFpr, tlsConfig, Some(BuildTemplate(serial, fqdn, c.firstNow, c.secondNow)))
  {
    Fingerprint.SingleCertificate(c.parse, c.hash, der);
  }

  /** With a clock that does not run backwards the certificate is valid for
      at least 356 days from its start, and for less than a 365-day year
      when both readings coincide. */
  lemma ValidityWindow(serial: Serial, fqdn: string, firstNow: int, secondNow: int)
    requires firstNow <= secondNow
    ensures var t := BuildTemplate(serial, fqdn, firstNow, secondNow);
            && t.notAfter - t.notBefore >= 356 * 24 * Hour
            && (firstNow == secondNow ==> t.notAfter - t.notBefore < 365 * 24 * Hour)
  {
  }
}
