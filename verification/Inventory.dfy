/** The metadata inventory of one token (internal/inventory/inventory.go and
    internal/p11/types.go), with the fields the engines read. Times are
    nanoseconds; a certificate also carries its expiry date as rendered. */
module Inventory {
  import opened Seqs

  const PRIVATE_KEY := "private-key"
  const PUBLIC_KEY := "public-key"
  const SECRET_KEY := "secret-key"
  const CERTIFICATE := "certificate"

  datatype Cert = Cert(
    subject: string, issuer: string, serial: string,
    notBefore: int, notAfter: int, expiryDate: string,
    signatureAlgorithm: string, publicKeyAlgorithm: string, publicKeyBits: nat,
    isCA: bool, selfSigned: bool, keyCertSign: bool, chainUnverified: bool,
    fingerprint: string)

  /** Boolean attributes are tri-state: None means the token did not expose it. */
  datatype Object = Object(
    class_: string, name: string, id: string,
    keyType: string, keyBits: nat, curve: string, fingerprint: string,
    sensitive: Option<bool>, extractable: Option<bool>, sign: Option<bool>, verify: Option<bool>,
    encrypt: Option<bool>, decrypt: Option<bool>, wrap: Option<bool>, unwrap: Option<bool>,
    derive: Option<bool>, modifiable: Option<bool>,
    cert: Option<Cert>)

  datatype TokenInfo = TokenInfo(
    name: string, serial: string, model: string, manufacturer: string, firmware: string, hardware: string)

  datatype Inventory = Inventory(scannedAt: int, token: Option<TokenInfo>, mechanisms: seq<string>, objects: seq<Object>)

  /** class, then label and CKA_ID when present. */
  function ObjectRef(o: Object): string {
    o.class_ + (if o.name != "" then " " + o.name else "") + (if o.id != "" then " (id " + o.id + ")" else "")
  }
}
