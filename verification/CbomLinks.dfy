/** Which component each key and certificate of the inventory becomes, and which
    key a certificate is linked to (internal/report/cbom.go). */
module CbomLinks {
  import opened Seqs
  import opened Inventory
  import opened Decimal
  import opened Text
  import opened Cbom
  import opened CbomNames

  predicate IsKey(o: Object) { o.class_ == "private-key" || o.class_ == "public-key" || o.class_ == "secret-key" }

  lemma KeyClasses(o: Object)
    ensures IsKeyObject(o) <==> IsKey(o)
    ensures IsKey(o) ==> MaterialType(o.class_) == o.class_
  {
  }

  /** Object i is the last key with the public key fingerprint. */
  predicate LastKeyWith(objs: seq<Object>, i: nat, fp: string) {
    && i < |objs| && IsKey(objs[i]) && objs[i].fingerprint == fp
    && forall j :: i < j < |objs| && IsKey(objs[j]) ==> objs[j].fingerprint != fp
  }

  predicate NoKeyWith(objs: seq<Object>, fp: string) { forall o :: o in objs && IsKey(o) ==> o.fingerprint != fp }

  lemma IndexStep(objs: seq<Object>, fp: string)
    requires objs != [] && fp != ""
    ensures var n := |objs| - 1;
            var m, earlier := KeyPass(objs).byFingerprint, KeyPass(objs[..n]).byFingerprint;
            if IsKey(objs[n]) && objs[n].fingerprint == fp then fp in m && m[fp] == KeyRefAt(objs, n)
            else (fp in m <==> fp in earlier) && (fp in m ==> m[fp] == earlier[fp])
  {
    hide KeyRef, WithKey;
    KeyClasses(objs[|objs| - 1]);
  }

  lemma {:induction false} IndexNamesLast(objs: seq<Object>, i: nat, fp: string)
    requires fp != "" && LastKeyWith(objs, i, fp)
    ensures fp in KeyPass(objs).byFingerprint && KeyPass(objs).byFingerprint[fp] == KeyRefAt(objs, i)
  {
    hide KeyPass, KeyRefAt;
    var n := |objs| - 1;
    IndexStep(objs, fp);
    if i < n {
      assert IsKey(objs[n]) ==> objs[n].fingerprint != fp;
      assert forall j :: 0 <= j < n ==> objs[..n][j] == objs[j];
      IndexNamesLast(objs[..n], i, fp);
      KeyRefStays(objs, n, i);
    }
  }

  lemma NotIndexed(objs: seq<Object>, fp: string)
    requires NoKeyWith(objs, fp)
    ensures fp !in KeyPass(objs).byFingerprint
  {
    hide KeyPass;
    IndexMeaning(objs, fp);
    forall i | 0 <= i < |objs| ensures !HoldsKey(objs[i], fp) {
      KeyClasses(objs[i]);
      assert objs[i] in objs;
    }
  }

  // ---- components stay where they are ----

  lemma AlgorithmAppends(s: State, id: Identity, curve: string)
    ensures s.components <= WithAlgorithm(s, id, curve).components && WithAlgorithm(s, id, curve).deps == s.deps
  {
  }

  lemma KeyAppends(s: State, o: Object)
    ensures s.components <= WithKey(s, o).components && s.deps <= WithKey(s, o).deps
    ensures IsKeyObject(o) ==>
              && WithKey(s, o).components != []
              && WithKey(s, o).components[|WithKey(s, o).components| - 1] == Component(KeyRef(s, o), KeyAsset(o))
    ensures IsKeyObject(o) && KeyIdentity(o).name != "" ==>
              Dependency(KeyRef(s, o), [RefOfAlgorithm(KeyIdentity(o).name)]) in WithKey(s, o).deps
  {
    hide IdentityOf, WithAlgorithm, KeyRef;
    AlgorithmAppends(s, KeyIdentity(o), o.curve);
  }

  lemma CertificateAppends(s: State, o: Object, c: Cert, byFingerprint: map<string, string>)
    ensures var after := WithCertificate(s, o, c, byFingerprint);
            && s.components <= after.components && s.deps <= after.deps && after.components != []
            && after.components[|after.components| - 1]
               == Component(CertRef(s, o, c), Certificate(c.subject, c.issuer, OrNone(SubjectKey(c, byFingerprint)), OrNone(Signature(c))))
            && (SubjectKey(c, byFingerprint).Some? ==>
                  Dependency(CertRef(s, o, c), Listed(SubjectKey(c, byFingerprint)) + Listed(Signature(c))) in after.deps)
  {
    hide IdentityOf, WithAlgorithm, CertRef, SubjectKey, Signature, SignatureVulnerable;
    AlgorithmAppends(s, CertIdentity(c), "");
    AlgorithmAppends(WithSubjectAlgorithm(s, c, byFingerprint), SignatureIdentity(c.signatureAlgorithm), "");
  }

  lemma {:induction false} KeyStays(objs: seq<Object>, n: nat)
    requires n <= |objs|
    ensures KeyPass(objs[..n]).state.components <= KeyPass(objs).state.components
    ensures KeyPass(objs[..n]).state.deps <= KeyPass(objs).state.deps
  {
    hide WithKey, KeyRef;
    if n == |objs| {
      assert objs[..n] == objs;
    } else {
      var init := objs[..|objs| - 1];
      KeyStays(init, n);
      PrefixOfPrefix(objs, |objs| - 1, n);
      KeyAppends(KeyPass(init).state, objs[|objs| - 1]);
    }
  }

  lemma {:induction false} CertStays(k: Keys, objs: seq<Object>, n: nat)
    requires n <= |objs|
    ensures CertPass(k, objs[..n]).components <= CertPass(k, objs).components
    ensures CertPass(k, objs[..n]).deps <= CertPass(k, objs).deps
    ensures k.state.components <= CertPass(k, objs).components && k.state.deps <= CertPass(k, objs).deps
    decreases |objs|, n
  {
    hide WithCertificate;
    if n == |objs| {
      assert objs[..n] == objs;
      if objs != [] { CertStays(k, objs, 0); }
    } else {
      var init, o := objs[..|objs| - 1], objs[|objs| - 1];
      CertStays(k, init, n);
      PrefixOfPrefix(objs, |objs| - 1, n);
      if o.cert.Some? { CertificateAppends(CertPass(k, init), o, o.cert.value, k.byFingerprint); }
    }
  }

  // ---- the component of a key ----

  /** Component p is key object i, with its identifiers, its algorithm, its size,
      and whether the HSM keeps it. */
  predicate KeyAt(objs: seq<Object>, i: nat, p: nat)
    requires i < |objs|
  {
    var o, cs := objs[i], Bom(objs).components;
    && p < |cs| && cs[p].ref == "key:" + o.class_ + ":" + KeyGoesBy(objs, i)
    && cs[p].asset == Key(o.class_, o.id, (if IdentityOf(o.keyType, o.curve, o.keyBits).name == "" then ""
                                           else "algorithm:" + IdentityOf(o.keyType, o.curve, o.keyBits).name),
                          o.keyBits, o.extractable == Some(false))
  }

  lemma KeyComponent(objs: seq<Object>, i: nat) returns (p: nat)
    requires i < |objs| && IsKey(objs[i])
    ensures p < KeyPlace(objs, |objs|) && KeyAt(objs, i, p) && Bom(objs).components[p].ref == KeyRefAt(objs, i)
  {
    hide WithKey, IdentityOf, KeyPass, CertPass, FirstNonEmpty;
    KeyClasses(objs[i]);
    var one := objs[..i + 1];
    assert one[..i] == objs[..i] && one[i] == objs[i];
    KeyPassStep(one);
    KeyAppends(KeyPass(objs[..i]).state, objs[i]);
    KeyStays(objs, i + 1);
    CertStays(KeyPass(objs), objs, 0);
    p := |KeyPass(one).state.components| - 1;
    assert objs[..|objs|] == objs;
  }

  lemma KeyPassStep(objs: seq<Object>)
    requires objs != []
    ensures KeyPass(objs).state == WithKey(KeyPass(objs[..|objs| - 1]).state, objs[|objs| - 1])
  {
    hide WithKey;
  }

  // ---- the component of a certificate ----

  /** Component q is the certificate of object j, naming this public key. */
  predicate CertAt(objs: seq<Object>, j: nat, q: nat, key: string)
    requires j < |objs| && objs[j].cert.Some?
  {
    var c, s := objs[j].cert.value, Bom(objs);
    && q < |s.components| && s.components[q].ref == "certificate:" + CertGoesBy(objs, j)
    && s.components[q].asset == Certificate(c.subject, c.issuer, key,
                                            if c.signatureAlgorithm != "" then "algorithm:" + c.signatureAlgorithm else "")
  }

  lemma CertComponent(objs: seq<Object>, j: nat) returns (q: nat)
    requires j < |objs| && objs[j].cert.Some?
    ensures KeyPlace(objs, |objs|) <= q && CertAt(objs, j, q, OrNone(SubjectKey(objs[j].cert.value, KeyPass(objs).byFingerprint)))
    ensures var key := SubjectKey(objs[j].cert.value, KeyPass(objs).byFingerprint);
            key.Some? ==> Dependency(Bom(objs).components[q].ref, Listed(key) + Listed(Signature(objs[j].cert.value))) in Bom(objs).deps
  {
    hide WithCertificate, KeyPass, CertPass, FirstNonEmpty, SubjectKey;
    var k, one, c := KeyPass(objs), objs[..j + 1], objs[j].cert.value;
    assert one[..j] == objs[..j] && one[j] == objs[j] && objs[..|objs|] == objs;
    CertPassStep(k, one);
    CertificateAppends(CertPass(k, objs[..j]), objs[j], c, k.byFingerprint);
    CertStays(k, objs, j + 1);
    CertStays(k, objs[..j], 0);
    q := |CertPass(k, one).components| - 1;
    CertificateAddsComponent(CertPass(k, objs[..j]), objs[j], k.byFingerprint);
  }

  lemma CertPassStep(k: Keys, objs: seq<Object>)
    requires objs != [] && objs[|objs| - 1].cert.Some?
    ensures CertPass(k, objs)
         == WithCertificate(CertPass(k, objs[..|objs| - 1]), objs[|objs| - 1], objs[|objs| - 1].cert.value, k.byFingerprint)
  {
    hide WithCertificate;
  }

  /** Components p and q are key i and the certificate of object j, and q and its
      dependency name p. */
  predicate Linked(objs: seq<Object>, i: nat, j: nat, p: nat, q: nat)
    requires i < |objs| && j < |objs| && objs[j].cert.Some?
  {
    var s, c := Bom(objs), objs[j].cert.value;
    && p < q && KeyAt(objs, i, p) && p < |s.components| && CertAt(objs, j, q, s.components[p].ref) && q < |s.components|
    && Dependency(s.components[q].ref,
                  [s.components[p].ref] + if c.signatureAlgorithm != "" then ["algorithm:" + c.signatureAlgorithm] else []) in s.deps
  }

  /** A certificate whose public key is on the token refers to the component of
      the last key object with its fingerprint, in its own fields and in its
      dependency. */
  lemma CertificateNamesItsKey(objs: seq<Object>, i: nat, j: nat)
    requires j < |objs| && objs[j].cert.Some? && objs[j].cert.value.fingerprint != ""
    requires LastKeyWith(objs, i, objs[j].cert.value.fingerprint)
    ensures exists p: nat, q: nat :: Linked(objs, i, j, p, q)
  {
    hide Bom, KeyPass, KeyAt, CertAt, KeyRefAt, LastKeyWith, IdentityOf;
    assert i < |objs| && IsKey(objs[i]) by { LastIsKey(objs, i, objs[j].cert.value.fingerprint); }
    var c := objs[j].cert.value;
    IndexNamesLast(objs, i, c.fingerprint);
    var p := KeyComponent(objs, i);
    var q := CertComponent(objs, j);
    ComponentInside(objs, i, p);
    CertInside(objs, j, q, OrNone(SubjectKey(c, KeyPass(objs).byFingerprint)));
    assert Linked(objs, i, j, p, q);
  }

  lemma LastIsKey(objs: seq<Object>, i: nat, fp: string)
    requires LastKeyWith(objs, i, fp)
    ensures i < |objs| && IsKey(objs[i])
  {
  }

  lemma ComponentInside(objs: seq<Object>, i: nat, p: nat)
    requires i < |objs| && KeyAt(objs, i, p)
    ensures p < |Bom(objs).components|
  {
  }

  lemma CertInside(objs: seq<Object>, j: nat, q: nat, key: string)
    requires j < |objs| && objs[j].cert.Some? && CertAt(objs, j, q, key)
    ensures q < |Bom(objs).components|
  {
  }

  ghost predicate NamesKey(objs: seq<Object>, j: nat, key: string)
    requires j < |objs| && objs[j].cert.Some?
  {
    exists q: nat :: CertAt(objs, j, q, key)
  }

  /** Any other certificate refers to the algorithm of its key, if it says one. */
  lemma CertificateNamesAlgorithm(objs: seq<Object>, j: nat)
    requires j < |objs| && objs[j].cert.Some?
    requires objs[j].cert.value.fingerprint == "" || NoKeyWith(objs, objs[j].cert.value.fingerprint)
    ensures var c := objs[j].cert.value;
            var name := IdentityOf(c.publicKeyAlgorithm, "", c.publicKeyBits).name;
            NamesKey(objs, j, if c.publicKeyAlgorithm == "" || name == "" then "" else "algorithm:" + name)
  {
    hide Bom, KeyPass, CertAt, IdentityOf;
    var c := objs[j].cert.value;
    if c.fingerprint != "" { NotIndexed(objs, c.fingerprint); }
    var q := CertComponent(objs, j);
  }

  // ---- the tables ----

  /** The collector's names. */
  lemma TypeNames()
    ensures KeyTypeName(0x00) == "RSA" && KeyTypeName(0x01) == "DSA" && KeyTypeName(0x02) == "DH" && KeyTypeName(0x03) == "EC"
    ensures KeyTypeName(0x10) == "GENERIC-SECRET" && KeyTypeName(0x1F) == "AES"
    ensures KeyTypeName(0x13) == "DES" && KeyTypeName(0x14) == "DES2" && KeyTypeName(0x15) == "DES3"
    ensures KeyTypeName(0x28) == "SHA1-HMAC" && KeyTypeName(0x2B) == "SHA256-HMAC"
    ensures KeyTypeName(0x2C) == "SHA384-HMAC" && KeyTypeName(0x2D) == "SHA512-HMAC"
    ensures KeyTypeName(0x49) == "ML-KEM" && KeyTypeName(0x4A) == "ML-DSA" && KeyTypeName(0x4B) == "SLH-DSA"
    ensures forall code: nat ::
      code !in {0, 1, 2, 3, 0x10, 0x13, 0x14, 0x15, 0x1F, 0x28, 0x2B, 0x2C, 0x2D, 0x49, 0x4A, 0x4B} ==>
        KeyTypeName(code) == "CKK_0x" + HexUpper(code, 8)
  {
    hide HexUpper;
  }

  function Bits(n: nat): string { if n > 0 then Digits(n) else "" }

  lemma RsaIdentity(bits: nat)
    ensures IdentityOf("RSA", "", bits) == Identity(if bits > 0 then "RSA-" + Digits(bits) else "RSA", "pke", Bits(bits), 0, true)
  {
    hide ToUpper, TrimSpace, Digits;
    PlainName("RSA");
    assert "RSA" + "-" == "RSA-";
  }

  lemma EcIdentity(curve: string, bits: nat)
    ensures IdentityOf("EC", curve, bits) == Identity(if curve != "" then "EC-" + curve else "EC", "signature", curve, 0, true)
    ensures IdentityOf("ECDSA", curve, bits) == Identity(if curve != "" then "EC-" + curve else "EC", "signature", curve, 0, true)
  {
    hide ToUpper, TrimSpace, Digits;
    PlainName("EC");
    PlainName("ECDSA");
  }

  lemma DhIdentity(bits: nat)
    ensures IdentityOf("DSA", "", bits) == Identity("DSA", "signature", Bits(bits), 0, true)
    ensures IdentityOf("DH", "", bits) == Identity("DH", "keyagree", Bits(bits), 0, true)
  {
    hide ToUpper, TrimSpace, Digits;
    PlainName("DSA");
    PlainName("DH");
  }

  lemma AesIdentity(bits: nat)
    ensures IdentityOf("AES", "", bits)
         == Identity(if bits > 0 then "AES-" + Digits(bits) else "AES", "blockcipher", Bits(bits),
                     if bits == 128 then 1 else if bits == 192 then 3 else if bits == 256 then 5 else 0, false)
  {
    hide ToUpper, TrimSpace, Digits;
    PlainName("AES");
    assert "AES" + "-" == "AES-";
  }

  /** Post-quantum keys, and the old block cipher. */
  lemma OtherIdentities(bits: nat)
    ensures IdentityOf("ML-DSA", "", bits) == Identity("ML-DSA", "signature", "", 0, false)
    ensures IdentityOf("ML-KEM", "", bits) == Identity("ML-KEM", "kem", "", 0, false)
    ensures IdentityOf("SLH-DSA", "", bits) == Identity("SLH-DSA", "signature", "", 0, false)
    ensures IdentityOf("DES3", "", bits) == Identity("DES3", "blockcipher", "", 0, false)
  {
    MlDsaIdentity(bits);
    MlKemIdentity(bits);
    SlhDsaIdentity(bits);
    DesIdentity(bits);
  }

  lemma NotClassical(kt: string)
    requires kt != "" && (kt[0] == 'M' || kt[0] == 'S')
    ensures kt != "RSA" && kt != "EC" && kt != "ECDSA" && kt != "DSA" && kt != "DH" && !("AES" <= kt)
  {
    assert "RSA"[0] == 'R' && "EC"[0] == 'E' && "ECDSA"[0] == 'E' && "DSA"[0] == 'D' && "DH"[0] == 'D' && "AES"[0] == 'A';
  }

  lemma MlDsaIdentity(bits: nat)
    ensures IdentityOf("ML-DSA", "", bits) == Identity("ML-DSA", "signature", "", 0, false)
  {
    hide ToUpper, TrimSpace, Digits, Contains;
    PlainName("ML-DSA");
    NotClassical("ML-DSA");
    ContainsAfter("ML-DSA", "ML-DSA", 0);
  }

  lemma MlKemIdentity(bits: nat)
    ensures IdentityOf("ML-KEM", "", bits) == Identity("ML-KEM", "kem", "", 0, false)
  {
    hide ToUpper, TrimSpace, Digits, Contains;
    PlainName("ML-KEM");
    NotClassical("ML-KEM");
    ContainsAfter("ML-KEM", "ML-KEM", 0);
    assert "ML-DSA"[3] == 'D' && "ML_DSA"[3] == 'D';
    NoChar("ML-KEM", "ML-DSA", 'D');
    NoChar("ML-KEM", "ML_DSA", 'D');
  }

  lemma SlhDsaIdentity(bits: nat)
    ensures IdentityOf("SLH-DSA", "", bits) == Identity("SLH-DSA", "signature", "", 0, false)
  {
    hide ToUpper, TrimSpace, Digits, Contains;
    PlainName("SLH-DSA");
    NotClassical("SLH-DSA");
    ContainsAfter("SLH-DSA", "SLH-DSA", 0);
    NoMl("SLH-DSA");
  }

  /** Without an M none of these names is inside. */
  lemma NoMl(s: string)
    requires 'M' !in s
    ensures !Contains(s, "ML-DSA") && !Contains(s, "ML_DSA") && !Contains(s, "ML-KEM") && !Contains(s, "ML_KEM")
  {
    assert "ML-DSA"[0] == 'M' && "ML_DSA"[0] == 'M' && "ML-KEM"[0] == 'M' && "ML_KEM"[0] == 'M';
    NoChar(s, "ML-DSA", 'M');
    NoChar(s, "ML_DSA", 'M');
    NoChar(s, "ML-KEM", 'M');
    NoChar(s, "ML_KEM", 'M');
  }

  lemma {:induction false} NoChar(s: string, t: string, c: char)
    requires c in t && c !in s
    ensures !Contains(s, t)
  {
    PrefixKeeps(t, s, c);
    if s != "" { NoChar(s[1..], t, c); }
  }

  lemma DesIdentity(bits: nat)
    ensures IdentityOf("DES3", "", bits) == Identity("DES3", "blockcipher", "", 0, false)
  {
    hide ToUpper, TrimSpace, Digits, Contains;
    PlainName("DES3");
    assert "DES3"[0] == 'D' && "AES"[0] == 'A' && "RSA"[0] == 'R' && "EC"[0] == 'E';
    TooShort("DES3", "ML-DSA");
    TooShort("DES3", "ML_DSA");
    TooShort("DES3", "ML-KEM");
    TooShort("DES3", "ML_KEM");
    TooShort("DES3", "SLH-DSA");
    TooShort("DES3", "SLH_DSA");
  }

  lemma {:induction false} TooShort(s: string, t: string)
    requires |s| < |t|
    ensures !Contains(s, t)
  {
    if s != "" { TooShort(s[1..], t); }
  }

  /** A signature algorithm is registered under its own name, as a signature. */
  lemma SignatureIdentityMeaning(sigAlg: string)
    ensures SignatureIdentity(sigAlg) == Identity(sigAlg, "signature", "", 0, SignatureVulnerable(sigAlg))
  {
    hide SignatureVulnerable;
  }

  /** Post-quantum signatures and unnamed ones are not flagged. */
  lemma OtherSignatures(n: nat)
    ensures !SignatureVulnerable("ML-DSA-65") && !SignatureVulnerable("SLH-DSA-SHA2-128s") && !SignatureVulnerable(Digits(n))
  {
    hide Digits;
    UpperStays("ML-DSA-65");
    ContainsAfter("ML-DSA-65", "ML-DSA", 0);
    assert ToUpper("SLH-DSA-SHA2-128s")[..7] == "SLH-DSA";
    ContainsAfter(ToUpper("SLH-DSA-SHA2-128s"), "SLH-DSA", 0);
    DigitsAreUnknown(n);
    ValueOfDigits(n);
    UpperStays(Digits(n));
    NoLetters(Digits(n), "RSA");
    NoLetters(Digits(n), "DSA");
    NoLetters(Digits(n), "ECDSA");
    NoLetters(Digits(n), "ED25519");
    NoLetters(Digits(n), "ED448");
  }

  lemma {:induction false} NoLetters(s: string, t: string)
    requires AllDigits(s) && t != "" && !IsDigit(t[0])
    ensures !Contains(s, t)
  {
    if s != "" { NoLetters(s[1..], t); }
  }

  // ---- strings ----

  lemma {:induction false} ContainsMeaning(s: string, t: string)
    ensures Contains(s, t) <==> exists i: nat :: i <= |s| && t <= s[i..]
  {
    if s != "" { ContainsMeaning(s[1..], t); }
    if t <= s { assert t <= s[0..]; }
    if s != "" && Contains(s[1..], t) {
      var i: nat :| i <= |s[1..]| && t <= s[1..][i..];
      assert s[1..][i..] == s[i + 1..];
    }
    if i: nat :| i <= |s| && t <= s[i..] {
      if i == 0 { assert s[0..] == s; } else { assert s[1..][i - 1..] == s[i..]; }
    }
  }

  lemma {:induction false} FirstNonEmptyMeaning(vals: seq<string>, i: nat)
    requires i < |vals| && vals[i] != "" && forall j :: 0 <= j < i ==> vals[j] == ""
    ensures FirstNonEmpty(vals) == vals[i]
  {
    if i > 0 { FirstNonEmptyMeaning(vals[1..], i - 1); }
  }

  lemma {:induction false} AllEmptyMeaning(vals: seq<string>)
    requires forall j :: 0 <= j < |vals| ==> vals[j] == ""
    ensures FirstNonEmpty(vals) == ""
  {
    if vals != [] { AllEmptyMeaning(vals[1..]); }
  }

  /** Upper-casing moves the ASCII letters from 97 to 122 down by 32. */
  lemma UpperMeaning(s: string, i: nat)
    requires i < |s|
    ensures |ToUpper(s)| == |s|
    ensures ToUpper(s)[i] as int == if 97 <= s[i] as int <= 122 then s[i] as int - 32 else s[i] as int
  {
  }
}
