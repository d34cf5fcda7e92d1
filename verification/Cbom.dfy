/** The cryptographic bill of materials (internal/report/cbom.go): a builder
    that registers each algorithm once, then keys, then certificates, and the
    references between them. */
module Cbom {
  import opened Seqs
  import opened Inventory
  import opened Decimal
  import opened Text

  // ---- algorithms ----

  /** An algorithm's name and its post-quantum standing. */
  datatype Identity = Identity(name: string, primitive: string, paramSet: string, level: nat, vulnerable: bool)

  function Sized(name: string, bits: nat): string { if bits > 0 then name + "-" + Digits(bits) else name }

  function BitsText(bits: nat): string { if bits == 0 then "" else Digits(bits) }

  function AesLevel(bits: nat): nat {
    if bits == 128 then 1 else if bits == 192 then 3 else if bits == 256 then 5 else 0
  }

  function IdentityOf(keyType: string, curve: string, bits: nat): (id: Identity)
    ensures id.name == "" <==> Blank(keyType)
  {
    TrimmedIsEmpty(keyType);
    var kt := ToUpper(TrimSpace(keyType));
    if kt == "" then Identity("", "", "", 0, false)
    else if kt == "RSA" then Identity(Sized("RSA", bits), "pke", BitsText(bits), 0, true)
    else if kt == "EC" || kt == "ECDSA" then
      Identity(if curve != "" then "EC-" + curve else "EC", "signature", curve, 0, true)
    else if kt == "DSA" then Identity("DSA", "signature", BitsText(bits), 0, true)
    else if kt == "DH" then Identity("DH", "keyagree", BitsText(bits), 0, true)
    else if "AES" <= kt then Identity(Sized("AES", bits), "blockcipher", BitsText(bits), AesLevel(bits), false)
    else if Contains(kt, "ML-DSA") || Contains(kt, "ML_DSA") then Identity("ML-DSA", "signature", "", 0, false)
    else if Contains(kt, "ML-KEM") || Contains(kt, "ML_KEM") then Identity("ML-KEM", "kem", "", 0, false)
    else if Contains(kt, "SLH-DSA") || Contains(kt, "SLH_DSA") then Identity("SLH-DSA", "signature", "", 0, false)
    else if kt == "DES" || kt == "DES2" || kt == "DES3" then Identity(kt, "blockcipher", "", 0, false)
    else Identity(kt, "unknown", "", 0, false)
  }

  /** The key algorithms flagged as quantum-vulnerable, and nothing else. */
  lemma VulnerableExactly(keyType: string, curve: string, bits: nat)
    ensures IdentityOf(keyType, curve, bits).vulnerable
       <==> ToUpper(TrimSpace(keyType)) in {"RSA", "EC", "ECDSA", "DSA", "DH"}
  {
    hide ToUpper, TrimSpace, Contains, Sized, BitsText;
  }

  predicate SignatureVulnerable(sigAlg: string) {
    var s := ToUpper(sigAlg);
    && !(Contains(s, "ML-DSA") || Contains(s, "SLH-DSA"))
    && (Contains(s, "RSA") || Contains(s, "ECDSA") || Contains(s, "DSA") || Contains(s, "ED25519") || Contains(s, "ED448"))
  }

  lemma ContainsAfter(s: string, t: string, i: nat)
    requires i <= |s| && t <= s[i..]
    ensures Contains(s, t)
  {
    if i > 0 { ContainsAfter(s[1..], t, i - 1); }
  }

  lemma PrefixKeeps(t: string, s: string, c: char)
    ensures c in t && t <= s ==> c in s
  {
    if c in t && t <= s {
      var i :| 0 <= i < |t| && t[i] == c;
      assert s[i] == c;
    }
  }

  /** A string without an L contains no post-quantum signature's name. */
  lemma {:induction false} NoPostQuantumName(s: string)
    requires 'L' !in s
    ensures !Contains(s, "ML-DSA") && !Contains(s, "SLH-DSA")
  {
    assert "ML-DSA"[1] == 'L' && "SLH-DSA"[1] == 'L';
    PrefixKeeps("ML-DSA", s, 'L');
    PrefixKeeps("SLH-DSA", s, 'L');
    if s != "" { NoPostQuantumName(s[1..]); }
  }

  // ---- what is flagged, and what should be ----

  /** The collector's name for a CKK_ code: sixteen are named, every other one is
      shown in hexadecimal. */
  function KeyTypeName(code: nat): string {
    match code
    case 0x00 => "RSA"
    case 0x01 => "DSA"
    case 0x02 => "DH"
    case 0x03 => "EC"
    case 0x10 => "GENERIC-SECRET"
    case 0x13 => "DES"
    case 0x14 => "DES2"
    case 0x15 => "DES3"
    case 0x1F => "AES"
    case 0x28 => "SHA1-HMAC"
    case 0x2B => "SHA256-HMAC"
    case 0x2C => "SHA384-HMAC"
    case 0x2D => "SHA512-HMAC"
    case 0x49 => "ML-KEM"
    case 0x4A => "ML-DSA"
    case 0x4B => "SLH-DSA"
    case _ => "CKK_0x" + HexUpper(code, 8)
  }

  /** Codes from here on belong to the vendors. */
  const CKK_VENDOR_DEFINED: nat := 0x8000_0000

  /** The standard key types that rest on factoring or discrete logarithms and so
      fall to Shor's algorithm: CKK_RSA, CKK_DSA, CKK_DH, CKK_EC,
      CKK_X9_42_DH, CKK_KEA, CKK_GOSTR3410, CKK_EC_EDWARDS, CKK_EC_MONTGOMERY. */
  const SHOR_KEY_TYPES: set<nat> := {0x00, 0x01, 0x02, 0x03, 0x04, 0x05, 0x30, 0x40, 0x41}

  /** Those of them the collector has no name for. */
  const UNNAMED_SHOR_KEY_TYPES: set<nat> := {0x04, 0x05, 0x30, 0x40, 0x41}

  lemma PlainName(name: string)
    requires name != "" && forall i :: 0 <= i < |name| ==> !IsSpace(name[i]) && !('a' <= name[i] <= 'z')
    ensures ToUpper(TrimSpace(name)) == name
  {
    TrimStays(name);
    UpperStays(name);
  }

  lemma HexNameIsUnknown(code: nat)
    ensures |ToUpper(TrimSpace("CKK_0x" + HexUpper(code, 8)))| >= 14
  {
    TrimStays("CKK_0x" + HexUpper(code, 8));
  }

  predicate Named(code: nat) { code < 4 || Symmetric(code) || Hmac(code) || PostQuantum(code) }

  predicate Symmetric(code: nat) { code == 0x10 || code == 0x13 || code == 0x14 || code == 0x15 || code == 0x1F }

  predicate Hmac(code: nat) { code == 0x28 || code == 0x2B || code == 0x2C || code == 0x2D }

  predicate PostQuantum(code: nat) { code == 0x49 || code == 0x4A || code == 0x4B }

  lemma AsymmetricName(code: nat)
    requires code < 4
    ensures ToUpper(TrimSpace(KeyTypeName(code))) == KeyTypeName(code)
  {
    hide ToUpper, TrimSpace, HexUpper;
    PlainName(KeyTypeName(code));
  }

  lemma SymmetricName(code: nat)
    requires Symmetric(code)
    ensures ToUpper(TrimSpace(KeyTypeName(code))) == KeyTypeName(code)
  {
    hide ToUpper, TrimSpace, HexUpper;
    PlainName(KeyTypeName(code));
  }

  lemma HmacName(code: nat)
    requires Hmac(code)
    ensures ToUpper(TrimSpace(KeyTypeName(code))) == KeyTypeName(code)
  {
    hide ToUpper, TrimSpace, HexUpper;
    PlainName(KeyTypeName(code));
  }

  lemma PostQuantumName(code: nat)
    requires PostQuantum(code)
    ensures ToUpper(TrimSpace(KeyTypeName(code))) == KeyTypeName(code)
  {
    hide ToUpper, TrimSpace, HexUpper;
    PlainName(KeyTypeName(code));
  }

  lemma KeyTypeFlagged(code: nat, curve: string, bits: nat)
    ensures IdentityOf(KeyTypeName(code), curve, bits).vulnerable <==> code < 4
  {
    hide IdentityOf, ToUpper, TrimSpace, HexUpper;
    VulnerableExactly(KeyTypeName(code), curve, bits);
    if code < 4 { AsymmetricName(code); }
    else if Symmetric(code) { SymmetricName(code); }
    else if Hmac(code) { HmacName(code); }
    else if PostQuantum(code) { PostQuantumName(code); }
    else {
      assert KeyTypeName(code) == "CKK_0x" + HexUpper(code, 8);
      HexNameIsUnknown(code);
    }
  }

  /** Which key types Shor's algorithm breaks: the standard ones as listed, the
      vendors' ones whatever they are. */
  ghost predicate ShorBreaks(broken: nat -> bool) {
    forall code: nat :: code < CKK_VENDOR_DEFINED ==> (broken(code) <==> code in SHOR_KEY_TYPES)
  }

  /** For every key type a token can report, standard or a vendor's: the flag says
      whether Shor's algorithm breaks it exactly if the type is one of the four
      flagged ones or is not broken. Of the standard types these are all but the
      five the collector has no name for; a vendor's type that is broken is
      always missed. */
  lemma KeyFlaggedExactly(code: nat, curve: string, bits: nat, broken: nat -> bool)
    requires ShorBreaks(broken)
    ensures var right := IdentityOf(KeyTypeName(code), curve, bits).vulnerable <==> broken(code);
            && (right <==> code < 4 || !broken(code))
            && (code < CKK_VENDOR_DEFINED ==> (right <==> code !in UNNAMED_SHOR_KEY_TYPES))
            && (code >= CKK_VENDOR_DEFINED ==> (right <==> !broken(code)))
  {
    hide IdentityOf, KeyTypeName;
    KeyTypeFlagged(code, curve, bits);
    if code < CKK_VENDOR_DEFINED { assert broken(code) <==> code in SHOR_KEY_TYPES; }
  }

  /** A vendor's discrete-logarithm type, KCDSA for one, is not flagged. */
  lemma VendorKeyIsNotFlagged(broken: nat -> bool)
    requires ShorBreaks(broken) && broken(0x8000_0010)
    ensures !IdentityOf(KeyTypeName(0x8000_0010), "", 0).vulnerable
  {
    hide IdentityOf, KeyTypeName;
    KeyFlaggedExactly(0x8000_0010, "", 0, broken);
  }

  /** The public key algorithms crypto/x509 knows, all broken by Shor's algorithm,
      and the names it gives them; any other one is a number. */
  datatype CertAlgorithm = RSA | DSA | ECDSA | Ed25519 | Unknown(n: nat)

  function CertAlgorithmName(a: CertAlgorithm): string {
    match a
    case RSA => "RSA"
    case DSA => "DSA"
    case ECDSA => "ECDSA"
    case Ed25519 => "Ed25519"
    case Unknown(n) => Digits(n)
  }

  lemma DigitsAreUnknown(n: nat)
    ensures ToUpper(TrimSpace(Digits(n))) == Digits(n) && IsDigit(Digits(n)[0])
  {
    ValueOfDigits(n);
    PlainName(Digits(n));
  }

  /** A certificate's key is flagged exactly when crypto/x509 knows its algorithm,
      except for Ed25519, which it knows and Shor's algorithm breaks. */
  lemma CertKeyFlaggedExactly(a: CertAlgorithm, bits: nat)
    ensures IdentityOf(CertAlgorithmName(a), "", bits).vulnerable <==> !a.Unknown? && !a.Ed25519?
  {
    hide IdentityOf, ToUpper, TrimSpace, Digits;
    VulnerableExactly(CertAlgorithmName(a), "", bits);
    match a
    case Unknown(n) => DigitsAreUnknown(n);
    case Ed25519 => EdwardsName();
    case _ => PlainName(CertAlgorithmName(a));
  }

  lemma EdwardsName()
    ensures ToUpper(TrimSpace("Ed25519")) == "ED25519" == ToUpper("Ed25519")
  {
    TrimStays("Ed25519");
    assert ToUpper("Ed25519") == "ED25519";
  }

  /** The signature algorithms crypto/x509 knows. */
  const X509_SIGNATURES: seq<string> := [
    "MD2-RSA", "MD5-RSA", "SHA1-RSA", "SHA256-RSA", "SHA384-RSA", "SHA512-RSA",
    "SHA256-RSAPSS", "SHA384-RSAPSS", "SHA512-RSAPSS",
    "DSA-SHA1", "DSA-SHA256", "ECDSA-SHA1", "ECDSA-SHA256", "ECDSA-SHA384", "ECDSA-SHA512"
  ]

  lemma FlaggedBy(name: string, t: string, i: nat)
    requires (forall j :: 0 <= j < |name| ==> !('a' <= name[j] <= 'z')) && 'L' !in name
    requires t in {"RSA", "DSA"} && i <= |name| && t <= name[i..]
    ensures SignatureVulnerable(name)
  {
    UpperStays(name);
    NoPostQuantumName(name);
    ContainsAfter(name, t, i);
  }

  lemma RsaSignatureIsFlagged(k: nat)
    requires k < 9
    ensures SignatureVulnerable(X509_SIGNATURES[k])
  {
    hide SignatureVulnerable;
    FlaggedBy(X509_SIGNATURES[k], "RSA", if k < 2 then 4 else if k == 2 then 5 else 7);
  }

  lemma DsaSignatureIsFlagged(k: nat)
    requires 9 <= k < |X509_SIGNATURES|
    ensures SignatureVulnerable(X509_SIGNATURES[k])
  {
    hide SignatureVulnerable;
    FlaggedBy(X509_SIGNATURES[k], "DSA", if k < 11 then 0 else 2);
  }

  /** All of them fall to Shor's algorithm, and all of them are flagged. */
  lemma SignaturesAreFlagged(k: nat)
    requires k < |X509_SIGNATURES|
    ensures SignatureVulnerable(X509_SIGNATURES[k]) && SignatureVulnerable("Ed25519")
  {
    hide SignatureVulnerable;
    if k < 9 { RsaSignatureIsFlagged(k); } else { DsaSignatureIsFlagged(k); }
    EdwardsSignatureIsFlagged();
  }

  lemma EdwardsSignatureIsFlagged()
    ensures SignatureVulnerable("Ed25519")
  {
    EdwardsName();
    NoPostQuantumName("ED25519");
    ContainsAfter("ED25519", "ED25519", 0);
  }

  lemma EdwardsHex()
    ensures HexUpper(0x40, 8) == "00000040"
  {
    assert HexUpper(0, 2) == "00";
    assert HexUpper(0, 4) == "0000";
    assert HexUpper(0, 6) == "000000";
    assert HexUpper(4, 7) == "0000004";
  }

  /** The input on which the two tables part: an Ed25519 certificate key is not
      flagged, an Ed25519 signature is; nor is a token's CKK_EC_EDWARDS key. */
  lemma EdwardsKeysAreNotFlagged()
    ensures !IdentityOf("Ed25519", "", 256).vulnerable && SignatureVulnerable("Ed25519")
    ensures !IdentityOf(KeyTypeName(0x40), "", 0).vulnerable && KeyTypeName(0x40) == "CKK_0x" + "00000040"
  {
    hide IdentityOf, SignatureVulnerable, HexUpper;
    CertKeyFlaggedExactly(Ed25519, 256);
    EdwardsSignatureIsFlagged();
    KeyTypeFlagged(0x40, "", 0);
    EdwardsHex();
  }

  function SignatureIdentity(sigAlg: string): Identity {
    Identity(sigAlg, "signature", "", 0, SignatureVulnerable(sigAlg))
  }

  // ---- the document ----

  datatype Asset =
    | Algorithm(identity: Identity, curve: string)
    | Key(kind: string, id: string, algorithmRef: string, size: nat, securedByHSM: bool)
    | Certificate(subject: string, issuer: string, subjectPublicKeyRef: string, signatureAlgorithmRef: string)

  datatype Component = Component(ref: string, asset: Asset)

  datatype Dependency = Dependency(ref: string, dependsOn: seq<string>)

  datatype State = State(components: seq<Component>, algoRefs: map<string, string>, deps: seq<Dependency>)

  const EMPTY := State([], map[], [])

  function MaterialType(class_: string): string {
    if class_ == PRIVATE_KEY then "private-key"
    else if class_ == PUBLIC_KEY then "public-key"
    else if class_ == SECRET_KEY then "secret-key"
    else ""
  }

  function RefOfAlgorithm(name: string): string { "algorithm:" + name }

  /** Registers an algorithm under its name, once. */
  function WithAlgorithm(s: State, id: Identity, curve: string): State {
    if id.name == "" || id.name in s.algoRefs then s
    else State(s.components + [Component(RefOfAlgorithm(id.name), Algorithm(id, curve))],
               s.algoRefs[id.name := RefOfAlgorithm(id.name)], s.deps)
  }

  function KeyIdentity(o: Object): Identity { IdentityOf(o.keyType, o.curve, o.keyBits) }

  function AlgorithmRef(id: Identity): string { if id.name == "" then "" else RefOfAlgorithm(id.name) }

  function KeyRef(s: State, o: Object): string {
    "key:" + o.class_ + ":" + FirstNonEmpty([o.id, o.name, Digits(|s.components|)])
  }

  /** A key object as a component; any other object changes nothing. */
  function WithKey(s: State, o: Object): State {
    if MaterialType(o.class_) == "" then s
    else
      var algo := AlgorithmRef(KeyIdentity(o));
      var s1 := WithAlgorithm(s, KeyIdentity(o), o.curve);
      var c := Component(KeyRef(s, o), Key(MaterialType(o.class_), o.id, algo, o.keyBits, o.extractable == Some(false)));
      State(s1.components + [c], s1.algoRefs, if algo != "" then s1.deps + [Dependency(c.ref, [algo])] else s1.deps)
  }

  function CertIdentity(c: Cert): Identity { IdentityOf(c.publicKeyAlgorithm, "", c.publicKeyBits) }

  predicate OnToken(c: Cert, byFingerprint: map<string, string>) {
    c.fingerprint != "" && c.fingerprint in byFingerprint
  }

  /** What a certificate's public key field names; the option says whether it
      becomes a dependency. */
  function SubjectKey(c: Cert, byFingerprint: map<string, string>): Option<string> {
    if OnToken(c, byFingerprint) then Some(byFingerprint[c.fingerprint])
    else if c.publicKeyAlgorithm != "" then Some(AlgorithmRef(CertIdentity(c)))
    else None
  }

  function Signature(c: Cert): Option<string> {
    if c.signatureAlgorithm != "" then Some(RefOfAlgorithm(c.signatureAlgorithm)) else None
  }

  function Listed(r: Option<string>): seq<string> { if r.Some? then [r.value] else [] }

  function OrNone(r: Option<string>): string { if r.Some? then r.value else "" }

  function CertRef(s: State, o: Object, c: Cert): string {
    "certificate:" + FirstNonEmpty([c.serial, o.id, o.name, Digits(|s.components|)])
  }

  /** The state after the subject's public key has been looked up. */
  function WithSubjectAlgorithm(s: State, c: Cert, byFingerprint: map<string, string>): State {
    if OnToken(c, byFingerprint) || c.publicKeyAlgorithm == "" then s else WithAlgorithm(s, CertIdentity(c), "")
  }

  function WithCertAlgorithms(s: State, c: Cert, byFingerprint: map<string, string>): State {
    var s1 := WithSubjectAlgorithm(s, c, byFingerprint);
    if c.signatureAlgorithm != "" then WithAlgorithm(s1, SignatureIdentity(c.signatureAlgorithm), "") else s1
  }

  function WithCertificate(s: State, o: Object, c: Cert, byFingerprint: map<string, string>): State {
    var s1 := WithCertAlgorithms(s, c, byFingerprint);
    var key, sig := SubjectKey(c, byFingerprint), Signature(c);
    var cert := Component(CertRef(s, o, c), Certificate(c.subject, c.issuer, OrNone(key), OrNone(sig)));
    var dependsOn := Listed(key) + Listed(sig);
    State(s1.components + [cert], s1.algoRefs,
          if dependsOn != [] then s1.deps + [Dependency(cert.ref, dependsOn)] else s1.deps)
  }

  datatype Keys = Keys(state: State, byFingerprint: map<string, string>)

  /** First pass: the keys, and which component holds which public key. */
  function KeyPass(objs: seq<Object>): Keys {
    if objs == [] then Keys(EMPTY, map[])
    else
      var k, o := KeyPass(objs[..|objs| - 1]), objs[|objs| - 1];
      Keys(WithKey(k.state, o),
           if MaterialType(o.class_) != "" && o.fingerprint != "" then k.byFingerprint[o.fingerprint := KeyRef(k.state, o)]
           else k.byFingerprint)
  }

  /** Second pass: the certificates. */
  function CertPass(k: Keys, objs: seq<Object>): State {
    if objs == [] then k.state
    else
      var s, o := CertPass(k, objs[..|objs| - 1]), objs[|objs| - 1];
      if o.cert.Some? then WithCertificate(s, o, o.cert.value, k.byFingerprint) else s
  }

  function Bom(objs: seq<Object>): State { CertPass(KeyPass(objs), objs) }

  // ---- references ----

  /** The components a component names in its own fields. */
  function RefsOf(c: Component): seq<string> {
    match c.asset
    case Algorithm(_, _) => []
    case Key(_, _, algo, _, _) => if algo != "" then [algo] else []
    case Certificate(_, _, key, sig) => (if key != "" then [key] else []) + (if sig != "" then [sig] else [])
  }

  predicate Emitted(cs: seq<Component>, ref: string) { exists i :: 0 <= i < |cs| && cs[i].ref == ref }

  function HasRef(ref: string): Component -> bool { (c: Component) => c.ref == ref }

  /** Component i names earlier components only. */
  predicate NamesEarlier(cs: seq<Component>, i: nat)
    requires i < |cs|
  {
    forall r :: r in RefsOf(cs[i]) ==> Emitted(cs[..i], r)
  }

  /** Algorithm components, and only they, have algorithm references. */
  predicate WellNamed(s: State, c: Component) {
    match c.asset
    case Algorithm(id, _) => c.ref == RefOfAlgorithm(id.name) && id.name in s.algoRefs
    case Key(_, _, _, _, _) => "key:" <= c.ref
    case Certificate(_, _, _, _) => "certificate:" <= c.ref
  }

  /** The map never holds anything but a name's own reference. */
  ghost predicate NamesAreRefs(s: State) {
    forall n :: n in s.algoRefs ==> s.algoRefs[n] == RefOfAlgorithm(n)
  }

  /** What holds after every step of the builder. */
  ghost predicate Inv(s: State) {
    && NamesAreRefs(s)
    && (forall i :: 0 <= i < |s.components| ==> NamesEarlier(s.components, i))
    && (forall i :: 0 <= i < |s.components| ==> WellNamed(s, s.components[i]))
    && (forall n :: n in s.algoRefs ==> CountIf(s.components, HasRef(RefOfAlgorithm(n))) == 1)
  }

  lemma EmittedSnoc(cs: seq<Component>, c: Component, r: string)
    ensures Emitted(cs + [c], r) <==> Emitted(cs, r) || c.ref == r
  {
    if Emitted(cs, r) {
      var i :| 0 <= i < |cs| && cs[i].ref == r;
      assert (cs + [c])[i].ref == r;
    }
    assert (cs + [c])[|cs|] == c;
  }

  lemma CountedIsEmitted(cs: seq<Component>, r: string)
    ensures CountIf(cs, HasRef(r)) > 0 <==> Emitted(cs, r)
  {
    CountIfPositive(cs, HasRef(r));
    if Emitted(cs, r) {
      var i :| 0 <= i < |cs| && cs[i].ref == r;
      assert HasRef(r)(cs[i]);
    }
  }

  lemma EarlierSnoc(cs: seq<Component>, c: Component)
    requires forall i :: 0 <= i < |cs| ==> NamesEarlier(cs, i)
    requires forall r :: r in RefsOf(c) ==> Emitted(cs, r)
    ensures forall i :: 0 <= i < |cs + [c]| ==> NamesEarlier(cs + [c], i)
  {
    forall i | 0 <= i < |cs + [c]| ensures NamesEarlier(cs + [c], i) {
      if i < |cs| {
        assert NamesEarlier(cs, i) && (cs + [c])[..i] == cs[..i];
      } else {
        assert (cs + [c])[..i] == cs;
      }
    }
  }

  lemma CountSnoc(cs: seq<Component>, c: Component, names: set<string>)
    requires forall n :: n in names ==> CountIf(cs, HasRef(RefOfAlgorithm(n))) == 1
    requires forall n :: n in names ==> c.ref != RefOfAlgorithm(n)
    ensures forall n :: n in names ==> CountIf(cs + [c], HasRef(RefOfAlgorithm(n))) == 1
  {
    forall n | n in names ensures CountIf(cs + [c], HasRef(RefOfAlgorithm(n))) == 1 {
      CountIfAppend(cs, c, HasRef(RefOfAlgorithm(n)));
    }
  }

  lemma NotYetCounted(s: State, name: string)
    requires Inv(s) && name !in s.algoRefs
    ensures CountIf(s.components, HasRef(RefOfAlgorithm(name))) == 0
  {
    CountedIsEmitted(s.components, RefOfAlgorithm(name));
    if Emitted(s.components, RefOfAlgorithm(name)) {
      var i :| 0 <= i < |s.components| && s.components[i].ref == RefOfAlgorithm(name);
      OtherPrefixes(s, s.components[i], name);
    }
  }

  lemma OtherPrefixes(s: State, c: Component, name: string)
    requires WellNamed(s, c) && c.ref == RefOfAlgorithm(name)
    ensures c.asset.Algorithm? && name in s.algoRefs
  {
    assert c.ref[0] == 'a';
    if c.asset.Algorithm? {
      assert c.ref[|"algorithm:"|..] == c.asset.identity.name;
      assert c.ref[|"algorithm:"|..] == name;
    }
  }

  lemma AlgorithmKeepsInv(s: State, id: Identity, curve: string)
    requires Inv(s)
    ensures Inv(WithAlgorithm(s, id, curve))
    ensures id.name != "" ==> Emitted(WithAlgorithm(s, id, curve).components, RefOfAlgorithm(id.name))
  {
    var after := WithAlgorithm(s, id, curve);
    if id.name != "" {
      if id.name in s.algoRefs {
        CountedIsEmitted(s.components, RefOfAlgorithm(id.name));
      } else {
        var c := Component(RefOfAlgorithm(id.name), Algorithm(id, curve));
        EarlierSnoc(s.components, c);
        NotYetCounted(s, id.name);
        CountIfAppend(s.components, c, HasRef(c.ref));
        forall n | n in s.algoRefs ensures c.ref != RefOfAlgorithm(n) {
          assert c.ref[|"algorithm:"|..] == id.name && RefOfAlgorithm(n)[|"algorithm:"|..] == n;
        }
        CountSnoc(s.components, c, s.algoRefs.Keys);
        forall i | 0 <= i < |after.components| ensures WellNamed(after, after.components[i]) {
          assert i < |s.components| ==> WellNamed(s, s.components[i]);
        }
        EmittedSnoc(s.components, c, c.ref);
      }
    }
  }

  lemma AssetKeepsInv(s: State, c: Component, deps: seq<Dependency>)
    requires Inv(s) && !c.asset.Algorithm? && WellNamed(s, c)
    requires forall r :: r in RefsOf(c) ==> Emitted(s.components, r)
    ensures Inv(State(s.components + [c], s.algoRefs, deps))
  {
    EarlierSnoc(s.components, c);
    forall n | n in s.algoRefs ensures c.ref != RefOfAlgorithm(n) {
      if c.ref == RefOfAlgorithm(n) { OtherPrefixes(s, c, n); assert false; }
    }
    CountSnoc(s.components, c, s.algoRefs.Keys);
    var after := State(s.components + [c], s.algoRefs, deps);
    forall i | 0 <= i < |after.components| ensures WellNamed(after, after.components[i]) {
      assert i < |s.components| ==> WellNamed(s, s.components[i]);
    }
  }

  lemma KeyKeepsInv(s: State, o: Object)
    requires Inv(s)
    ensures Inv(WithKey(s, o))
    ensures MaterialType(o.class_) != "" ==> Emitted(WithKey(s, o).components, KeyRef(s, o))
  {
    if MaterialType(o.class_) != "" {
      var s1 := WithAlgorithm(s, KeyIdentity(o), o.curve);
      AlgorithmKeepsInv(s, KeyIdentity(o), o.curve);
      var after := WithKey(s, o);
      var c := after.components[|s1.components|];
      assert KeyRef(s, o)[..4] == "key:";
      AssetKeepsInv(s1, c, after.deps);
      EmittedSnoc(s1.components, c, c.ref);
    }
  }

  /** The index names emitted components, by their non-empty references. */
  ghost predicate IndexFits(s: State, byFingerprint: map<string, string>) {
    forall fp :: fp in byFingerprint ==> byFingerprint[fp] != "" && Emitted(s.components, byFingerprint[fp])
  }

  lemma StillEmitted(cs: seq<Component>, c: Component, byFingerprint: map<string, string>)
    requires forall fp :: fp in byFingerprint ==> byFingerprint[fp] != "" && Emitted(cs, byFingerprint[fp])
    ensures forall fp :: fp in byFingerprint ==> byFingerprint[fp] != "" && Emitted(cs + [c], byFingerprint[fp])
  {
    forall fp | fp in byFingerprint ensures Emitted(cs + [c], byFingerprint[fp]) {
      EmittedSnoc(cs, c, byFingerprint[fp]);
    }
  }

  lemma AlgorithmKeepsIndex(s: State, id: Identity, curve: string, byFingerprint: map<string, string>, r: string)
    requires IndexFits(s, byFingerprint)
    ensures IndexFits(WithAlgorithm(s, id, curve), byFingerprint)
    ensures Emitted(s.components, r) ==> Emitted(WithAlgorithm(s, id, curve).components, r)
  {
    var c := Component(RefOfAlgorithm(id.name), Algorithm(id, curve));
    StillEmitted(s.components, c, byFingerprint);
    EmittedSnoc(s.components, c, r);
  }

  lemma SubjectKeepsInv(s: State, c: Cert, byFingerprint: map<string, string>)
    requires Inv(s) && IndexFits(s, byFingerprint)
    ensures var s1 := WithSubjectAlgorithm(s, c, byFingerprint);
            Inv(s1) && IndexFits(s1, byFingerprint)
            && forall r :: r in Listed(SubjectKey(c, byFingerprint)) && r != "" ==> Emitted(s1.components, r)
  {
    hide Inv, IdentityOf;
    AlgorithmKeepsInv(s, CertIdentity(c), "");
    AlgorithmKeepsIndex(s, CertIdentity(c), "", byFingerprint, "");
  }

  lemma CertAlgorithmsKeepInv(s: State, c: Cert, byFingerprint: map<string, string>)
    requires Inv(s) && IndexFits(s, byFingerprint)
    ensures var s1 := WithCertAlgorithms(s, c, byFingerprint);
            Inv(s1) && IndexFits(s1, byFingerprint)
    ensures forall r :: r in Listed(SubjectKey(c, byFingerprint)) + Listed(Signature(c)) && r != "" ==>
              Emitted(WithCertAlgorithms(s, c, byFingerprint).components, r)
  {
    hide Inv, IndexFits, IdentityOf, SubjectKey;
    var s1, sig := WithSubjectAlgorithm(s, c, byFingerprint), SignatureIdentity(c.signatureAlgorithm);
    SubjectKeepsInv(s, c, byFingerprint);
    AlgorithmKeepsInv(s1, sig, "");
    AlgorithmKeepsIndex(s1, sig, "", byFingerprint, OrNone(SubjectKey(c, byFingerprint)));
  }

  lemma CertificateKeepsInv(s: State, o: Object, c: Cert, byFingerprint: map<string, string>)
    requires Inv(s) && IndexFits(s, byFingerprint)
    ensures Inv(WithCertificate(s, o, c, byFingerprint)) && IndexFits(WithCertificate(s, o, c, byFingerprint), byFingerprint)
  {
    hide Inv, IndexFits, IdentityOf;
    var s1, after := WithCertAlgorithms(s, c, byFingerprint), WithCertificate(s, o, c, byFingerprint);
    CertAlgorithmsKeepInv(s, c, byFingerprint);
    var cert := after.components[|s1.components|];
    assert CertRef(s, o, c)[..12] == "certificate:";
    AssetKeepsInv(s1, cert, after.deps);
    IndexSnoc(s1, after, cert, byFingerprint);
  }

  lemma IndexSnoc(s: State, after: State, c: Component, byFingerprint: map<string, string>)
    requires IndexFits(s, byFingerprint) && after.components == s.components + [c]
    ensures IndexFits(after, byFingerprint)
  {
    StillEmitted(s.components, c, byFingerprint);
  }

  lemma KeyKeepsIndex(s: State, o: Object, byFingerprint: map<string, string>)
    requires IndexFits(s, byFingerprint)
    ensures IndexFits(WithKey(s, o), byFingerprint)
  {
    hide IdentityOf, IndexFits;
    if MaterialType(o.class_) != "" {
      var s1, after := WithAlgorithm(s, KeyIdentity(o), o.curve), WithKey(s, o);
      AlgorithmKeepsIndex(s, KeyIdentity(o), o.curve, byFingerprint, "");
      IndexSnoc(s1, after, after.components[|s1.components|], byFingerprint);
    }
  }

  lemma {:induction false} KeyPassKeepsInv(objs: seq<Object>)
    ensures Inv(KeyPass(objs).state) && IndexFits(KeyPass(objs).state, KeyPass(objs).byFingerprint)
  {
    hide WithKey, KeyRef;
    if objs != [] {
      var k, o := KeyPass(objs[..|objs| - 1]), objs[|objs| - 1];
      KeyPassKeepsInv(objs[..|objs| - 1]);
      KeyKeepsInv(k.state, o);
      KeyKeepsIndex(k.state, o, k.byFingerprint);
      KeyRefNotEmpty(k.state, o);
    }
  }

  lemma KeyRefNotEmpty(s: State, o: Object)
    ensures KeyRef(s, o) != ""
  {
  }

  lemma {:induction false} CertPassKeepsInv(k: Keys, objs: seq<Object>)
    requires Inv(k.state) && IndexFits(k.state, k.byFingerprint)
    ensures Inv(CertPass(k, objs)) && IndexFits(CertPass(k, objs), k.byFingerprint)
  {
    hide Inv, IndexFits, WithCertificate;
    if objs != [] {
      var s, o := CertPass(k, objs[..|objs| - 1]), objs[|objs| - 1];
      CertPassKeepsInv(k, objs[..|objs| - 1]);
      if o.cert.Some? { CertificateKeepsInv(s, o, o.cert.value, k.byFingerprint); }
    }
  }

  /** In the finished document every algorithm has one component, and every
      component refers to components before it. */
  lemma BomKeepsInv(objs: seq<Object>)
    ensures Inv(Bom(objs)) && IndexFits(Bom(objs), KeyPass(objs).byFingerprint)
  {
    KeyPassKeepsInv(objs);
    CertPassKeepsInv(KeyPass(objs), objs);
  }

  // ---- dependencies ----

  /** One dependency entry for each component that refers to others. */
  function DepsOf(cs: seq<Component>): seq<Dependency> {
    if cs == [] then []
    else
      var c := cs[|cs| - 1];
      if RefsOf(c) == [] then DepsOf(cs[..|cs| - 1]) else DepsOf(cs[..|cs| - 1]) + [Dependency(c.ref, RefsOf(c))]
  }

  lemma DepsSnoc(cs: seq<Component>, c: Component)
    ensures DepsOf(cs + [c]) == if RefsOf(c) == [] then DepsOf(cs) else DepsOf(cs) + [Dependency(c.ref, RefsOf(c))]
  {
    assert (cs + [c])[..|cs|] == cs;
  }

  predicate Mirrors(s: State) { s.deps == DepsOf(s.components) }

  lemma AlgorithmKeepsMirror(s: State, id: Identity, curve: string)
    requires Mirrors(s)
    ensures Mirrors(WithAlgorithm(s, id, curve))
  {
    DepsSnoc(s.components, Component(RefOfAlgorithm(id.name), Algorithm(id, curve)));
  }

  lemma KeyKeepsMirror(s: State, o: Object)
    requires Mirrors(s)
    ensures Mirrors(WithKey(s, o))
  {
    hide IdentityOf;
    if MaterialType(o.class_) != "" {
      var s1, after := WithAlgorithm(s, KeyIdentity(o), o.curve), WithKey(s, o);
      AlgorithmKeepsMirror(s, KeyIdentity(o), o.curve);
      DepsSnoc(s1.components, after.components[|s1.components|]);
    }
  }

  /** A certificate whose key is not on the token and whose key algorithm is
      given, but only as white space. */
  predicate BlankAlgorithm(c: Cert, byFingerprint: map<string, string>) {
    !OnToken(c, byFingerprint) && c.publicKeyAlgorithm != "" && Blank(c.publicKeyAlgorithm)
  }

  lemma SubjectKeyIsBlank(s: State, c: Cert, byFingerprint: map<string, string>)
    requires IndexFits(s, byFingerprint)
    ensures SubjectKey(c, byFingerprint) == Some("") <==> BlankAlgorithm(c, byFingerprint)
  {
  }

  lemma CertAlgorithmsKeepMirror(s: State, c: Cert, byFingerprint: map<string, string>)
    requires Mirrors(s)
    ensures Mirrors(WithCertAlgorithms(s, c, byFingerprint))
  {
    hide IdentityOf, Mirrors, WithAlgorithm;
    AlgorithmKeepsMirror(s, CertIdentity(c), "");
    AlgorithmKeepsMirror(WithSubjectAlgorithm(s, c, byFingerprint), SignatureIdentity(c.signatureAlgorithm), "");
  }

  lemma CertificateKeepsMirror(s: State, o: Object, c: Cert, byFingerprint: map<string, string>)
    requires Mirrors(s) && IndexFits(s, byFingerprint) && !BlankAlgorithm(c, byFingerprint)
    ensures Mirrors(WithCertificate(s, o, c, byFingerprint))
  {
    hide SubjectKey, IndexFits, BlankAlgorithm, WithCertAlgorithms;
    SubjectKeyIsBlank(s, c, byFingerprint);
    var s1, after := WithCertAlgorithms(s, c, byFingerprint), WithCertificate(s, o, c, byFingerprint);
    CertAlgorithmsKeepMirror(s, c, byFingerprint);
    DepsSnoc(s1.components, after.components[|s1.components|]);
  }

  predicate AnyBlank(objs: seq<Object>, byFingerprint: map<string, string>) {
    exists i :: 0 <= i < |objs| && objs[i].cert.Some? && BlankAlgorithm(objs[i].cert.value, byFingerprint)
  }

  predicate NamesNothing(s: State) { exists d :: d in s.deps && "" in d.dependsOn }

  lemma AnyBlankSnoc(objs: seq<Object>, byFingerprint: map<string, string>)
    requires objs != []
    ensures var o := objs[|objs| - 1];
            AnyBlank(objs, byFingerprint)
            <==> AnyBlank(objs[..|objs| - 1], byFingerprint) || (o.cert.Some? && BlankAlgorithm(o.cert.value, byFingerprint))
  {
    var init := objs[..|objs| - 1];
    if AnyBlank(init, byFingerprint) {
      var i :| 0 <= i < |init| && init[i].cert.Some? && BlankAlgorithm(init[i].cert.value, byFingerprint);
      assert objs[i] == init[i];
    }
    if AnyBlank(objs, byFingerprint) {
      var i :| 0 <= i < |objs| && objs[i].cert.Some? && BlankAlgorithm(objs[i].cert.value, byFingerprint);
      assert i < |init| ==> init[i] == objs[i];
    }
  }

  lemma BlankLeavesEmptyName(s: State, o: Object, c: Cert, byFingerprint: map<string, string>)
    requires IndexFits(s, byFingerprint)
    ensures NamesNothing(s) || BlankAlgorithm(c, byFingerprint) ==> NamesNothing(WithCertificate(s, o, c, byFingerprint))
  {
    hide IdentityOf, SubjectKey, IndexFits, BlankAlgorithm;
    SubjectKeyIsBlank(s, c, byFingerprint);
    var after := WithCertificate(s, o, c, byFingerprint);
    assert s.deps <= after.deps;
    if BlankAlgorithm(c, byFingerprint) {
      var d := after.deps[|s.deps|];
      assert d.dependsOn[0] == "";
    }
  }

  lemma {:induction false} KeyPassMirrors(objs: seq<Object>)
    ensures Mirrors(KeyPass(objs).state)
  {
    if objs != [] {
      KeyPassMirrors(objs[..|objs| - 1]);
      KeyKeepsMirror(KeyPass(objs[..|objs| - 1]).state, objs[|objs| - 1]);
    }
  }

  lemma {:induction false} CertPassMirrors(k: Keys, objs: seq<Object>)
    requires Mirrors(k.state) && Inv(k.state) && IndexFits(k.state, k.byFingerprint)
    ensures if AnyBlank(objs, k.byFingerprint) then NamesNothing(CertPass(k, objs)) else Mirrors(CertPass(k, objs))
  {
    hide Inv, IndexFits, WithCertificate, AnyBlank, Mirrors, NamesNothing, BlankAlgorithm;
    if objs == [] {
      NoneBlank(k.byFingerprint);
    } else {
      var s, o := CertPass(k, objs[..|objs| - 1]), objs[|objs| - 1];
      CertPassMirrors(k, objs[..|objs| - 1]);
      CertPassKeepsInv(k, objs[..|objs| - 1]);
      AnyBlankSnoc(objs, k.byFingerprint);
      if o.cert.Some? {
        BlankLeavesEmptyName(s, o, o.cert.value, k.byFingerprint);
        if !AnyBlank(objs, k.byFingerprint) { CertificateKeepsMirror(s, o, o.cert.value, k.byFingerprint); }
      }
    }
  }

  lemma NoneBlank(byFingerprint: map<string, string>)
    ensures !AnyBlank([], byFingerprint)
  {
  }

  /** Every name a dependency uses belongs to an emitted component. */
  predicate Resolves(s: State) {
    forall d :: d in s.deps ==> Emitted(s.components, d.ref) && forall r :: r in d.dependsOn ==> Emitted(s.components, r)
  }

  lemma EmittedLater(cs: seq<Component>, i: nat, r: string)
    requires i <= |cs| && Emitted(cs[..i], r)
    ensures Emitted(cs, r)
  {
    var j :| 0 <= j < i && cs[..i][j].ref == r;
    assert cs[j].ref == r;
  }

  lemma {:induction false} DepsComeFromComponents(cs: seq<Component>, d: Dependency) returns (i: nat)
    requires d in DepsOf(cs)
    ensures i < |cs| && d == Dependency(cs[i].ref, RefsOf(cs[i]))
  {
    var n := |cs| - 1;
    if d in DepsOf(cs[..n]) { i := DepsComeFromComponents(cs[..n], d); } else { i := n; }
  }

  lemma MirroredResolves(s: State)
    requires Inv(s) && Mirrors(s)
    ensures Resolves(s)
  {
    forall d | d in s.deps
      ensures Emitted(s.components, d.ref) && forall r :: r in d.dependsOn ==> Emitted(s.components, r)
    {
      var i := DepsComeFromComponents(s.components, d);
      assert NamesEarlier(s.components, i);
      forall r | r in d.dependsOn ensures Emitted(s.components, r) { EmittedLater(s.components, i, r); }
    }
  }

  lemma EmptyNameDangles(s: State)
    requires Inv(s) && NamesNothing(s)
    ensures !Resolves(s)
  {
    forall i | 0 <= i < |s.components| ensures s.components[i].ref != "" {
      assert WellNamed(s, s.components[i]);
    }
  }

  predicate HoldsKey(o: Object, fp: string) { MaterialType(o.class_) != "" && o.fingerprint == fp }

  predicate KeyOnToken(objs: seq<Object>, fp: string) { fp != "" && exists i :: 0 <= i < |objs| && HoldsKey(objs[i], fp) }

  lemma KeyOnTokenSnoc(objs: seq<Object>, o: Object, fp: string)
    ensures KeyOnToken(objs + [o], fp) <==> KeyOnToken(objs, fp) || (fp != "" && HoldsKey(o, fp))
  {
    if KeyOnToken(objs, fp) {
      var i :| 0 <= i < |objs| && HoldsKey(objs[i], fp);
      assert HoldsKey((objs + [o])[i], fp);
    }
    assert (objs + [o])[|objs|] == o;
  }

  /** The fingerprint index knows exactly the keys on the token. */
  lemma {:induction false} IndexMeaning(objs: seq<Object>, fp: string)
    ensures fp in KeyPass(objs).byFingerprint <==> KeyOnToken(objs, fp)
  {
    hide WithKey, KeyRef, KeyOnToken;
    if objs == [] {
      NoKeys(fp);
    } else {
      IndexMeaning(objs[..|objs| - 1], fp);
      assert objs == objs[..|objs| - 1] + [objs[|objs| - 1]];
      KeyOnTokenSnoc(objs[..|objs| - 1], objs[|objs| - 1], fp);
    }
  }

  lemma NoKeys(fp: string)
    ensures !KeyOnToken([], fp)
  {
  }

  /** Some certificate gives its key algorithm as white space only, and its
      public key is not that of a key on the token. */
  predicate HasBlankAlgorithm(objs: seq<Object>) {
    exists o :: o in objs && o.cert.Some? && o.cert.value.publicKeyAlgorithm != "" && Blank(o.cert.value.publicKeyAlgorithm)
                && !KeyOnToken(objs, o.cert.value.fingerprint)
  }

  lemma AnyBlankMeaning(objs: seq<Object>)
    ensures AnyBlank(objs, KeyPass(objs).byFingerprint) <==> HasBlankAlgorithm(objs)
  {
    hide KeyPass, Blank;
    forall fp ensures fp in KeyPass(objs).byFingerprint <==> KeyOnToken(objs, fp) { IndexMeaning(objs, fp); }
    if HasBlankAlgorithm(objs) {
      var o :| o in objs && o.cert.Some? && o.cert.value.publicKeyAlgorithm != "" && Blank(o.cert.value.publicKeyAlgorithm)
               && !KeyOnToken(objs, o.cert.value.fingerprint);
      var i :| 0 <= i < |objs| && objs[i] == o;
      assert BlankAlgorithm(objs[i].cert.value, KeyPass(objs).byFingerprint);
    }
    if AnyBlank(objs, KeyPass(objs).byFingerprint) {
      var i :| 0 <= i < |objs| && objs[i].cert.Some? && BlankAlgorithm(objs[i].cert.value, KeyPass(objs).byFingerprint);
      assert objs[i] in objs;
    }
  }

  /** Every reference in the document resolves, and the dependency list is
      exactly what the components name, unless some certificate's key algorithm
      is given as white space only. */
  lemma ResolvesUnlessBlank(objs: seq<Object>)
    ensures Resolves(Bom(objs)) <==> !HasBlankAlgorithm(objs)
    ensures !HasBlankAlgorithm(objs) ==> Mirrors(Bom(objs))
  {
    hide Inv, IndexFits, AnyBlank, Resolves, NamesNothing, Mirrors, HasBlankAlgorithm;
    AnyBlankMeaning(objs);
    KeyPassMirrors(objs);
    KeyPassKeepsInv(objs);
    CertPassMirrors(KeyPass(objs), objs);
    BomKeepsInv(objs);
    if HasBlankAlgorithm(objs) { EmptyNameDangles(Bom(objs)); } else { MirroredResolves(Bom(objs)); }
  }

  /** What the collector writes into an inventory: no key algorithm at all, or
      one of crypto/x509's names. */
  ghost predicate Collected(c: Cert) {
    c.publicKeyAlgorithm == "" || exists a :: c.publicKeyAlgorithm == CertAlgorithmName(a)
  }

  /** So on every collected inventory all references resolve, and the dependency
      list is exactly what the components name. */
  lemma CollectedResolves(objs: seq<Object>)
    requires forall o :: o in objs && o.cert.Some? ==> Collected(o.cert.value)
    ensures Resolves(Bom(objs)) && Mirrors(Bom(objs))
  {
    hide Bom, Resolves, Mirrors, Blank, CertAlgorithmName, KeyOnToken;
    ResolvesUnlessBlank(objs);
    if HasBlankAlgorithm(objs) {
      var o :| o in objs && o.cert.Some? && o.cert.value.publicKeyAlgorithm != "" && Blank(o.cert.value.publicKeyAlgorithm);
      var a :| o.cert.value.publicKeyAlgorithm == CertAlgorithmName(a);
      NamesAreNotBlank(a);
    }
  }

  lemma NamesAreNotBlank(a: CertAlgorithm)
    ensures !Blank(CertAlgorithmName(a))
  {
    match a
    case Unknown(n) => DigitsAreUnknown(n);
    case _ => assert !IsSpace(CertAlgorithmName(a)[0]);
  }

  // ---- completeness ----

  predicate NotAlgorithm(c: Component) { !c.asset.Algorithm? }

  function AssetOf(c: Component): Asset { c.asset }

  function Assets(cs: seq<Component>): seq<Asset> { Map(Filter(cs, NotAlgorithm), AssetOf) }

  predicate IsKeyObject(o: Object) { MaterialType(o.class_) != "" }

  function KeyAsset(o: Object): Asset {
    Key(MaterialType(o.class_), o.id, AlgorithmRef(KeyIdentity(o)), o.keyBits, o.extractable == Some(false))
  }

  predicate HasCert(o: Object) { o.cert.Some? }

  function CertAsset(byFingerprint: map<string, string>): Object -> Asset {
    (o: Object) =>
      if o.cert.None? then Certificate("", "", "", "")
      else
        var c := o.cert.value;
        Certificate(c.subject, c.issuer, OrNone(SubjectKey(c, byFingerprint)), OrNone(Signature(c)))
  }

  lemma AssetsSnoc(cs: seq<Component>, c: Component)
    ensures Assets(cs + [c]) == if c.asset.Algorithm? then Assets(cs) else Assets(cs) + [c.asset]
  {
    FilterSnoc(cs, c, NotAlgorithm);
    MapSnoc(Filter(cs, NotAlgorithm), c, AssetOf);
  }

  lemma AlgorithmAddsNoAsset(s: State, id: Identity, curve: string)
    ensures Assets(WithAlgorithm(s, id, curve).components) == Assets(s.components)
  {
    AssetsSnoc(s.components, Component(RefOfAlgorithm(id.name), Algorithm(id, curve)));
  }

  lemma {:induction false} KeyPassLists(objs: seq<Object>)
    ensures Assets(KeyPass(objs).state.components) == Map(Filter(objs, IsKeyObject), KeyAsset)
  {
    hide IdentityOf, WithAlgorithm, Assets;
    if objs == [] {
      NoAssets();
    } else {
      var init, o := objs[..|objs| - 1], objs[|objs| - 1];
      var s := KeyPass(init).state;
      KeyPassLists(init);
      assert objs == init + [o];
      FilterSnoc(init, o, IsKeyObject);
      if IsKeyObject(o) {
        AlgorithmAddsNoAsset(s, KeyIdentity(o), o.curve);
        var s1 := WithAlgorithm(s, KeyIdentity(o), o.curve);
        AssetsSnoc(s1.components, WithKey(s, o).components[|s1.components|]);
        MapSnoc(Filter(init, IsKeyObject), o, KeyAsset);
      }
    }
  }

  lemma NoAssets()
    ensures Assets([]) == []
  {
  }

  lemma CertificateAddsItself(s: State, o: Object, byFingerprint: map<string, string>)
    requires o.cert.Some?
    ensures Assets(WithCertificate(s, o, o.cert.value, byFingerprint).components)
         == Assets(s.components) + [CertAsset(byFingerprint)(o)]
  {
    hide IdentityOf, WithAlgorithm, Assets, SubjectKey, Signature;
    var c := o.cert.value;
    var s1 := WithCertAlgorithms(s, c, byFingerprint);
    AlgorithmAddsNoAsset(s, CertIdentity(c), "");
    AlgorithmAddsNoAsset(WithSubjectAlgorithm(s, c, byFingerprint), SignatureIdentity(c.signatureAlgorithm), "");
    AssetsSnoc(s1.components, WithCertificate(s, o, c, byFingerprint).components[|s1.components|]);
  }

  lemma {:induction false} CertPassLists(k: Keys, objs: seq<Object>)
    ensures Assets(CertPass(k, objs).components)
         == Assets(k.state.components) + Map(Filter(objs, HasCert), CertAsset(k.byFingerprint))
  {
    hide WithCertificate, Assets, CertAsset;
    if objs != [] {
      var init, o := objs[..|objs| - 1], objs[|objs| - 1];
      var s := CertPass(k, init);
      CertPassLists(k, init);
      assert objs == init + [o];
      FilterSnoc(init, o, HasCert);
      if o.cert.Some? {
        CertificateAddsItself(s, o, k.byFingerprint);
        MapSnoc(Filter(init, HasCert), o, CertAsset(k.byFingerprint));
      }
    }
  }

  /** Beside the algorithms the document lists each key object and then each
      certificate, once and in inventory order, a key naming its algorithm by the
      name of its type, curve and size. */
  lemma BomLists(objs: seq<Object>)
    ensures Assets(Bom(objs).components)
         == Map(Filter(objs, IsKeyObject), KeyAsset) + Map(Filter(objs, HasCert), CertAsset(KeyPass(objs).byFingerprint))
  {
    KeyPassLists(objs);
    CertPassLists(KeyPass(objs), objs);
  }

  // ---- the program ----

  class CbomBuilder {
    var components: seq<Component>
    var algoRefs: map<string, string>
    var deps: seq<Dependency>

    function View(): State
      reads this
    {
      State(components, algoRefs, deps)
    }

    constructor ()
      ensures View() == EMPTY
    {
      components, algoRefs, deps := [], map[], [];
    }

    /** The bom-ref of the algorithm, registered if it was not. */
    method Register(id: Identity, curve: string) returns (ref: string)
      requires id.name != "" && NamesAreRefs(View())
      modifies this`components, this`algoRefs
      ensures View() == WithAlgorithm(old(View()), id, curve) && ref == RefOfAlgorithm(id.name)
      ensures NamesAreRefs(View())
    {
      if id.name in algoRefs { return algoRefs[id.name]; }
      ref := "algorithm:" + id.name;
      algoRefs := algoRefs[id.name := ref];
      components := components + [Component(ref, Algorithm(id, curve))];
    }

    method AlgorithmFor(keyType: string, curve: string, bits: nat) returns (ref: string)
      requires NamesAreRefs(View())
      modifies this`components, this`algoRefs
      ensures View() == WithAlgorithm(old(View()), IdentityOf(keyType, curve, bits), curve)
      ensures ref == AlgorithmRef(IdentityOf(keyType, curve, bits)) && NamesAreRefs(View())
    {
      var id := IdentityOf(keyType, curve, bits);
      if id.name == "" { return ""; }
      ref := Register(id, curve);
    }

    method AddKey(o: Object) returns (ref: string)
      requires NamesAreRefs(View())
      modifies this
      ensures View() == WithKey(old(View()), o) && NamesAreRefs(View())
      ensures ref == if MaterialType(o.class_) == "" then "" else KeyRef(old(View()), o)
    {
      var kind := MaterialType(o.class_);
      if kind == "" { return ""; }
      ref := "key:" + o.class_ + ":" + FirstNonEmpty([o.id, o.name, Digits(|components|)]);
      var algoRef := AlgorithmFor(o.keyType, o.curve, o.keyBits);
      var secured := o.extractable.Some? && !o.extractable.value;
      components := components + [Component(ref, Key(kind, o.id, algoRef, o.keyBits, secured))];
      if algoRef != "" { deps := deps + [Dependency(ref, [algoRef])]; }
    }

    method CertAlgorithms(c: Cert, byFingerprint: map<string, string>)
      returns (keyRef: string, sigRef: string, dependsOn: seq<string>)
      requires NamesAreRefs(View())
      modifies this`components, this`algoRefs
      ensures View() == WithCertAlgorithms(old(View()), c, byFingerprint) && NamesAreRefs(View())
      ensures keyRef == OrNone(SubjectKey(c, byFingerprint)) && sigRef == OrNone(Signature(c))
      ensures dependsOn == Listed(SubjectKey(c, byFingerprint)) + Listed(Signature(c))
    {
      keyRef, sigRef, dependsOn := "", "", [];
      if c.fingerprint in byFingerprint && c.fingerprint != "" {
        keyRef := byFingerprint[c.fingerprint];
        dependsOn := dependsOn + [keyRef];
      } else if c.publicKeyAlgorithm != "" {
        keyRef := AlgorithmFor(c.publicKeyAlgorithm, "", c.publicKeyBits);
        dependsOn := dependsOn + [keyRef];
      }
      assert dependsOn == Listed(SubjectKey(c, byFingerprint));
      if c.signatureAlgorithm != "" {
        sigRef := Register(SignatureIdentity(c.signatureAlgorithm), "");
        dependsOn := dependsOn + [sigRef];
      }
    }

    method AddCertificate(o: Object, c: Cert, byFingerprint: map<string, string>)
      requires NamesAreRefs(View())
      modifies this
      ensures View() == WithCertificate(old(View()), o, c, byFingerprint) && NamesAreRefs(View())
    {
      var ref := "certificate:" + FirstNonEmpty([c.serial, o.id, o.name, Digits(|components|)]);
      var keyRef, sigRef, dependsOn := CertAlgorithms(c, byFingerprint);
      components := components + [Component(ref, Certificate(c.subject, c.issuer, keyRef, sigRef))];
      if |dependsOn| > 0 { deps := deps + [Dependency(ref, dependsOn)]; }
    }
  }

  /** Keys first, so that certificates can refer to them by fingerprint. */
  method AddKeys(b: CbomBuilder, objs: seq<Object>) returns (byFingerprint: map<string, string>)
    requires b.View() == EMPTY
    modifies b
    ensures Keys(b.View(), byFingerprint) == KeyPass(objs) && NamesAreRefs(b.View())
  {
    hide WithKey;
    byFingerprint := map[];
    for i := 0 to |objs|
      invariant NamesAreRefs(b.View()) && Keys(b.View(), byFingerprint) == KeyPass(objs[..i])
    {
      assert objs[..i + 1][..i] == objs[..i];
      var ref := b.AddKey(objs[i]);
      if ref != "" && objs[i].fingerprint != "" {
        byFingerprint := byFingerprint[objs[i].fingerprint := ref];
      }
    }
    assert objs[..|objs|] == objs;
  }

  method BuildCbom(objs: seq<Object>) returns (b: CbomBuilder)
    ensures fresh(b) && b.View() == Bom(objs)
  {
    hide KeyPass, WithCertificate;
    b := new CbomBuilder();
    var byFingerprint := AddKeys(b, objs);
    for i := 0 to |objs|
      invariant fresh(b) && NamesAreRefs(b.View())
      invariant b.View() == CertPass(KeyPass(objs), objs[..i])
    {
      assert objs[..i + 1][..i] == objs[..i];
      if objs[i].cert.Some? {
        b.AddCertificate(objs[i], objs[i].cert.value, byFingerprint);
      }
    }
    assert objs[..|objs|] == objs;
  }
}
