/** The TLS material the enclave installs in its HTTPS server. */
module Tls {
  import opened Common

  /** An ECDSA P-256 private key, kept abstract. */
  datatype PrivateKey = PrivateKey(material: Bytes)

  /** `tls.Certificate`: the DER chain, leaf first, and its key. */
  datatype Certificate = Certificate(chain: seq<Bytes>, key: PrivateKey)

  /** `http.Server.TLSConfig`: unset, a fixed certificate list, or a
      per-handshake lookup through the ACME manager for a host name. */
  datatype Config = Unset | Certificates(certificates: seq<Certificate>) | GetCertificate(host: string)
}
