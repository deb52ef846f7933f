/** `setCertFingerprint`: scan PEM blocks in order and fingerprint the first
    `CERTIFICATE` whose certificate is not a CA. PEM input is modelled as the
    list of blocks `pem.Decode` would return one by one; certificate parsing
    and SHA-256 are parameters. */
module Fingerprint {
  import opened Common

  /** A decoded `pem.Block`: its type line and its DER payload. */
  datatype Block = Block(kind: string, bytes: Bytes)

  /** The part of an `x509.Certificate` the scan reads. `raw` is the DER the
      certificate was parsed from (Go's `Raw`). */
  datatype Certificate = Certificate(isCA: bool, raw: Bytes)

  /** `x509.ParseCertificate` as an abstract partial function: either whether
      the certificate is a CA, or the parse error. */
  type Parser = Bytes -> Result<bool, string>

  /** `sha256.Sum256`. */
  type Hasher = Bytes -> Digest

  const CertificateKind: string := "CERTIFICATE"

  const ErrNoPem: string := "pem.Decode failed because it didn't find PEM data in the input we provided"

  function ParseCertificate(parse: Parser, der: Bytes): (r: Result<Certificate, string>)
    ensures r.Ok? ==> r.value.raw == der
  {
    match parse(der)
    case Ok(isCA) => Ok(Certificate(isCA, der))
    case Err(e) => Err(e)
  }

  /** A block the scan steps over: not a certificate, or a CA certificate
      that parses. */
  predicate Skipped(parse: Parser, b: Block) {
    b.kind != CertificateKind || (parse(b.bytes).Ok? && parse(b.bytes).value)
  }

  /** A block the scan fingerprints: a parsable non-CA certificate. */
  predicate IsLeaf(parse: Parser, b: Block) {
    b.kind == CertificateKind && parse(b.bytes).Ok? && !parse(b.bytes).value
  }

  /** Block `i` is a leaf and every block before it is skipped. */
  predicate FirstLeafAt(parse: Parser, blocks: seq<Block>, i: int) {
    && 0 <= i < |blocks|
    && IsLeaf(parse, blocks[i])
    && forall j :: 0 <= j < i ==> Skipped(parse, blocks[j])
  }

  /** One pass of the loop body per block, with the outer `rest` never
      becoming nil: the scan ends only by returning. Running out of blocks is
      the "pem.Decode failed" error, even after CA certificates were seen. */
  function Scan(parse: Parser, hash: Hasher, blocks: seq<Block>): (r: Result<Digest, string>)
    ensures r.Ok? ==> exists i :: 0 <= i < |blocks| && IsLeaf(parse, blocks[i]) && r.value == hash(blocks[i].bytes)
    ensures r.Err? && r.error != ErrNoPem ==>
      exists i :: 0 <= i < |blocks| && blocks[i].kind == CertificateKind && parse(blocks[i].bytes) == Err(r.error)
    decreases |blocks|
  {
    if |blocks| == 0 then Err(ErrNoPem)
    else if blocks[0].kind == CertificateKind then
      match ParseCertificate(parse, blocks[0].bytes)
      case Err(e) => Err(e)
      case Ok(cert) =>
        if !cert.isCA then Ok(hash(cert.raw))
        else Scan(parse, hash, blocks[1..])
    else Scan(parse, hash, blocks[1..])
  }

  /** The enclave's fingerprint after the call and the error it returned. */
  datatype Update = Update(certFpr: Digest, err: Option<string>)

  /** `e.setCertFingerprint(rawData)`: the fingerprint is written only when a
      leaf is found; every error leaves it as it was. */
  function SetCertFingerprint(certFpr: Digest, parse: Parser, hash: Hasher, blocks: seq<Block>): (u: Update)
    ensures u.err.None? <==> Scan(parse, hash, blocks).Ok?
    ensures u.err.None? ==> u.certFpr == Scan(parse, hash, blocks).value
    ensures u.err.Some? ==> u.certFpr == certFpr && u.err.value == Scan(parse, hash, blocks).error
  {
    match Scan(parse, hash, blocks)
    case Ok(d) => Update(d, None)
    case Err(e) => Update(certFpr, Some(e))
  }

  /** The loop of `setCertFingerprint` step by step. The outer `rest` starts
      as a non-nil empty slice and is never assigned, because the `rest` the
      loop body declares shadows it; so the loop guard stays true and only
      the returns inside the body leave the loop. */
  method SetCertFingerprintLoop(certFpr: Digest, parse: Parser, hash: Hasher, rawData: seq<Block>)
    returns (newFpr: Digest, err: Option<string>)
    ensures Update(newFpr, err) == SetCertFingerprint(certFpr, parse, hash, rawData)
  {
    var outerRest: Option<Bytes> := Some([]);
    var data := rawData;
    while outerRest.Some?
      invariant outerRest == Some([])
      invariant Scan(parse, hash, data) == Scan(parse, hash, rawData)
      decreases |data|
    {
      if |data| == 0 {
        return certFpr, Some(ErrNoPem);
      }
      var block, rest := data[0], data[1..];
      if block.kind == CertificateKind {
        var parsed := ParseCertificate(parse, block.bytes);
        if parsed.Err? {
          return certFpr, Some(parsed.error);
        }
        if !parsed.value.isCA {
          return hash(parsed.value.raw), None;
        }
      }
      data := rest;
    }
    return certFpr, None;
  }

  /** The scan returns the fingerprint of the first leaf, whatever CA
      certificates or other blocks precede it. */
  lemma {:induction false} ScanSelectsFirstLeaf(parse: Parser, hash: Hasher, blocks: seq<Block>, i: nat)
    requires FirstLeafAt(parse, blocks, i)
    ensures Scan(parse, hash, blocks) == Ok(hash(blocks[i].bytes))
  {
    if i > 0 {
      assert Skipped(parse, blocks[0]);
      ScanSelectsFirstLeaf(parse, hash, blocks[1..], i - 1);
    }
  }

  /** Conversely, every successful scan found such a first leaf. */
  lemma {:induction false} ScanSuccessHasLeaf(parse: Parser, hash: Hasher, blocks: seq<Block>)
    requires Scan(parse, hash, blocks).Ok?
    ensures exists i :: FirstLeafAt(parse, blocks, i) && Scan(parse, hash, blocks).value == hash(blocks[i].bytes)
  {
    if !IsLeaf(parse, blocks[0]) {
      ScanSuccessHasLeaf(parse, hash, blocks[1..]);
      var i :| FirstLeafAt(parse, blocks[1..], i) && Scan(parse, hash, blocks[1..]).value == hash(blocks[1..][i].bytes);
      assert IsLeaf(parse, blocks[i + 1]);
      assert forall j :: 0 <= j < i + 1 ==> Skipped(parse, blocks[j]) by {
        forall j | 0 <= j < i + 1 ensures Skipped(parse, blocks[j]) {
          if j > 0 { assert blocks[j] == blocks[1..][j - 1]; }
        }
      }
      assert FirstLeafAt(parse, blocks, i + 1);
    } else {
      assert FirstLeafAt(parse, blocks, 0);
    }
  }

  /** No leaf and no parse failure, including an empty input or a chain of
      CA certificates only, ends in the "pem.Decode failed" error. */
  lemma {:induction false} NoLeafIsDecodeError(parse: Parser, hash: Hasher, blocks: seq<Block>)
    requires forall j :: 0 <= j < |blocks| ==> Skipped(parse, blocks[j])
    ensures Scan(parse, hash, blocks) == Err(ErrNoPem)
  {
    if |blocks| > 0 {
      assert Skipped(parse, blocks[0]);
      NoLeafIsDecodeError(parse, hash, blocks[1..]);
    }
  }

  /** A certificate that fails to parse before any leaf ends the scan with
      the parse error. */
  lemma {:induction false} ParseErrorStopsScan(parse: Parser, hash: Hasher, blocks: seq<Block>, i: nat)
    requires i < |blocks| && blocks[i].kind == CertificateKind && parse(blocks[i].bytes).Err?
    requires forall j :: 0 <= j < i ==> Skipped(parse, blocks[j])
    ensures Scan(parse, hash, blocks) == Err(parse(blocks[i].bytes).error)
  {
    if i > 0 {
      assert Skipped(parse, blocks[0]);
      ParseErrorStopsScan(parse, hash, blocks[1..], i - 1);
    }
  }

  /** Blocks after the first leaf are never looked at, so intermediates may
      follow the leaf as well as precede it. */
  lemma LaterBlocksIrrelevant(parse: Parser, hash: Hasher, before: seq<Block>, leaf: Block, after: seq<Block>)
    requires IsLeaf(parse, leaf)
    requires forall j :: 0 <= j < |before| ==> Skipped(parse, before[j])
    ensures Scan(parse, hash, before + [leaf] + after) == Ok(hash(leaf.bytes))
  {
    var blocks := before + [leaf] + after;
    assert blocks[|before|] == leaf;
    assert forall j :: 0 <= j < |before| ==> blocks[j] == before[j];
    assert FirstLeafAt(parse, blocks, |before|);
    ScanSelectsFirstLeaf(parse, hash, blocks, |before|);
  }

  /** A buffer holding one certificate: its hash when it is a leaf, its
      parse error, or the "pem.Decode failed" error when it is a CA. */
  lemma SingleCertificate(parse: Parser, hash: Hasher, der: Bytes)
    ensures var r := Scan(parse, hash, [Block(CertificateKind, der)]);
            && (parse(der) == Ok(false) ==> r == Ok(hash(der)))
            && (parse(der) == Ok(true) ==> r == Err(ErrNoPem))
            && (parse(der).Err? ==> r == Err(parse(der).error))
  {
    assert [Block(CertificateKind, der)][1..] == [];
  }

  /** Errors never touch the stored fingerprint; on success it is the hash of
      the leaf's DER. */
  lemma FingerprintWrittenOnlyOnSuccess(certFpr: Digest, parse: Parser, hash: Hasher, blocks: seq<Block>)
    ensures var u := SetCertFingerprint(certFpr, parse, hash, blocks);
            u.err.Some? ==> u.certFpr == certFpr
    ensures var u := SetCertFingerprint(certFpr, parse, hash, blocks);
            u.err.None? ==> exists i :: FirstLeafAt(parse, blocks, i) && u.certFpr == hash(blocks[i].bytes)
  {
    if Scan(parse, hash, blocks).Ok? {
      ScanSuccessHasLeaf(parse, hash, blocks);
    }
  }
}
