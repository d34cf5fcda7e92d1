/** What the names in the bill of materials stand for (internal/report/cbom.go):
    algorithms are told apart by name alone, keys and certificates by the first
    of several identifiers they have. */
module CbomNames {
  import opened Seqs
  import opened Inventory
  import opened Decimal
  import opened Text
  import opened Cbom

  // ---- algorithms ----

  /** What the builder is asked to register an algorithm component for. */
  datatype Registration = Registration(identity: Identity, curve: string)

  function Registered(id: Identity, curve: string): seq<Registration> {
    if id.name == "" then [] else [Registration(id, curve)]
  }

  function OfKey(o: Object): seq<Registration> { if IsKeyObject(o) then Registered(KeyIdentity(o), o.curve) else [] }

  function OfSubject(c: Cert, byFingerprint: map<string, string>): seq<Registration> {
    if OnToken(c, byFingerprint) || c.publicKeyAlgorithm == "" then [] else Registered(CertIdentity(c), "")
  }

  function OfSignature(c: Cert): seq<Registration> { Registered(SignatureIdentity(c.signatureAlgorithm), "") }

  function OfKeys(objs: seq<Object>): seq<Registration> {
    if objs == [] then [] else OfKeys(objs[..|objs| - 1]) + OfKey(objs[|objs| - 1])
  }

  function OfCertificates(objs: seq<Object>, byFingerprint: map<string, string>): seq<Registration> {
    if objs == [] then []
    else
      var o := objs[|objs| - 1];
      OfCertificates(objs[..|objs| - 1], byFingerprint)
      + if o.cert.Some? then OfSubject(o.cert.value, byFingerprint) + OfSignature(o.cert.value) else []
  }

  /** Every registration the keys and certificates of an inventory ask for, in
      order; each is referred to as RefOfAlgorithm of its name. */
  function Registrations(objs: seq<Object>): seq<Registration> {
    OfKeys(objs) + OfCertificates(objs, KeyPass(objs).byFingerprint)
  }

  /** The first registration under a name. */
  function FirstNamed(regs: seq<Registration>, name: string): (r: Option<Registration>)
    ensures r.Some? ==> r.value in regs && r.value.identity.name == name
    ensures r.None? ==> forall q :: q in regs ==> q.identity.name != name
  {
    if regs == [] then None
    else
      var earlier, last := FirstNamed(regs[..|regs| - 1], name), regs[|regs| - 1];
      assert regs == regs[..|regs| - 1] + [last];
      if earlier.Some? then earlier else if last.identity.name == name then Some(last) else None
  }

  /** The component the registration's reference names is one for its identity. */
  predicate Carries(s: State, r: Registration) {
    exists i :: 0 <= i < |s.components|
      && s.components[i] == Component(RefOfAlgorithm(r.identity.name), Algorithm(r.identity, r.curve))
  }

  predicate OwnComponent(c: Component, regs: seq<Registration>) {
    c.asset.Algorithm? ==> FirstNamed(regs, c.asset.identity.name) == Some(Registration(c.asset.identity, c.asset.curve))
  }

  /** The algorithm components are those of the first registrations. */
  ghost predicate Represents(s: State, regs: seq<Registration>) {
    && (forall n :: n in s.algoRefs <==> FirstNamed(regs, n).Some?)
    && (forall i :: 0 <= i < |s.components| ==> OwnComponent(s.components[i], regs))
  }

  lemma FirstSnoc(regs: seq<Registration>, r: Registration, name: string)
    ensures FirstNamed(regs + [r], name)
         == if FirstNamed(regs, name).Some? then FirstNamed(regs, name)
            else if r.identity.name == name then Some(r) else None
  {
    assert (regs + [r])[..|regs|] == regs;
  }

  lemma AlgorithmRepresents(s: State, regs: seq<Registration>, id: Identity, curve: string)
    requires Represents(s, regs)
    ensures Represents(WithAlgorithm(s, id, curve), regs + Registered(id, curve))
  {
    hide FirstNamed;
    if id.name == "" {
      assert regs + [] == regs;
    } else {
      var r, after := Registration(id, curve), WithAlgorithm(s, id, curve);
      forall n ensures n in after.algoRefs <==> FirstNamed(regs + [r], n).Some? { FirstSnoc(regs, r, n); }
      forall i | 0 <= i < |after.components| ensures OwnComponent(after.components[i], regs + [r]) {
        var c := after.components[i];
        if c.asset.Algorithm? { FirstSnoc(regs, r, c.asset.identity.name); }
        if i < |s.components| { assert OwnComponent(s.components[i], regs); }
      }
    }
  }

  lemma AssetRepresents(s: State, regs: seq<Registration>, c: Component, deps: seq<Dependency>)
    requires Represents(s, regs) && !c.asset.Algorithm?
    ensures Represents(State(s.components + [c], s.algoRefs, deps), regs)
  {
    hide FirstNamed;
    var after := State(s.components + [c], s.algoRefs, deps);
    forall i | 0 <= i < |after.components| ensures OwnComponent(after.components[i], regs) {
      if i < |s.components| { assert OwnComponent(s.components[i], regs); }
    }
  }

  lemma {:induction false} KeysRepresent(objs: seq<Object>)
    ensures Represents(KeyPass(objs).state, OfKeys(objs))
  {
    hide Represents, FirstNamed, Registered, WithAlgorithm, KeyIdentity;
    if objs == [] {
      NothingRepresented();
    } else {
      var s, o, regs := KeyPass(objs[..|objs| - 1]).state, objs[|objs| - 1], OfKeys(objs[..|objs| - 1]);
      KeysRepresent(objs[..|objs| - 1]);
      if IsKeyObject(o) {
        var s1, after := WithAlgorithm(s, KeyIdentity(o), o.curve), WithKey(s, o);
        AlgorithmRepresents(s, regs, KeyIdentity(o), o.curve);
        AssetRepresents(s1, regs + OfKey(o), after.components[|s1.components|], after.deps);
      } else {
        assert regs + [] == regs;
      }
    }
  }

  lemma NothingRepresented()
    ensures Represents(EMPTY, [])
  {
  }

  lemma CertificateRepresents(s: State, o: Object, c: Cert, byFingerprint: map<string, string>, regs: seq<Registration>)
    requires Represents(s, regs)
    ensures Represents(WithCertificate(s, o, c, byFingerprint), regs + (OfSubject(c, byFingerprint) + OfSignature(c)))
  {
    hide Represents, FirstNamed, WithAlgorithm, IdentityOf, SubjectKey, SignatureVulnerable;
    var s1, s2 := WithSubjectAlgorithm(s, c, byFingerprint), WithCertAlgorithms(s, c, byFingerprint);
    var after, regs1 := WithCertificate(s, o, c, byFingerprint), regs + OfSubject(c, byFingerprint);
    assert regs + [] == regs && regs1 + [] == regs1;
    assert regs + (OfSubject(c, byFingerprint) + OfSignature(c)) == regs1 + OfSignature(c);
    AlgorithmRepresents(s, regs, CertIdentity(c), "");
    AlgorithmRepresents(s1, regs1, SignatureIdentity(c.signatureAlgorithm), "");
    AssetRepresents(s2, regs1 + OfSignature(c), after.components[|s2.components|], after.deps);
  }

  lemma {:induction false} CertificatesRepresent(k: Keys, objs: seq<Object>, regs: seq<Registration>)
    requires Represents(k.state, regs)
    ensures Represents(CertPass(k, objs), regs + OfCertificates(objs, k.byFingerprint))
  {
    hide Represents, OfSubject, OfSignature, WithCertificate;
    if objs == [] {
      assert regs + [] == regs;
    } else {
      var init, o := objs[..|objs| - 1], objs[|objs| - 1];
      CertificatesRepresent(k, init, regs);
      var earlier := OfCertificates(init, k.byFingerprint);
      if o.cert.Some? {
        var own := OfSubject(o.cert.value, k.byFingerprint) + OfSignature(o.cert.value);
        CertificateRepresents(CertPass(k, init), o, o.cert.value, k.byFingerprint, regs + earlier);
        assert regs + (earlier + own) == regs + earlier + own;
      } else {
        assert earlier + [] == earlier;
      }
    }
  }

  lemma BomRepresents(objs: seq<Object>)
    ensures Represents(Bom(objs), Registrations(objs))
  {
    hide Represents, KeyPass, CertPass, OfKeys, OfCertificates;
    KeysRepresent(objs);
    CertificatesRepresent(KeyPass(objs), objs, OfKeys(objs));
  }

  /** A registration's reference names a component for its own identity if and
      only if it is the first one under its name. */
  lemma CarriedExactly(objs: seq<Object>, r: Registration)
    ensures Carries(Bom(objs), r) <==> FirstNamed(Registrations(objs), r.identity.name) == Some(r)
  {
    hide Bom, Registrations, FirstNamed, RefOfAlgorithm, Inv;
    var s, regs, name := Bom(objs), Registrations(objs), r.identity.name;
    BomRepresents(objs);
    if Carries(s, r) {
      var i :| 0 <= i < |s.components| && s.components[i] == Component(RefOfAlgorithm(name), Algorithm(r.identity, r.curve));
      assert OwnComponent(s.components[i], regs);
    }
    if FirstNamed(regs, name) == Some(r) {
      BomKeepsInv(objs);
      var i := ComponentOf(s, name);
      assert OwnComponent(s.components[i], regs);
    }
  }

  lemma ComponentOf(s: State, name: string) returns (i: nat)
    requires Inv(s) && name in s.algoRefs
    ensures i < |s.components| && s.components[i].ref == RefOfAlgorithm(name)
    ensures s.components[i].asset.Algorithm? && s.components[i].asset.identity.name == name
  {
    CountedIsEmitted(s.components, RefOfAlgorithm(name));
    assert Emitted(s.components, RefOfAlgorithm(name));
    i :| 0 <= i < |s.components| && s.components[i].ref == RefOfAlgorithm(name);
    OtherPrefixes(s, s.components[i], name);
    SameReference(s.components[i].asset.identity.name, name);
  }

  lemma SameReference(a: string, b: string)
    ensures RefOfAlgorithm(a) == RefOfAlgorithm(b) ==> a == b
  {
    assert RefOfAlgorithm(a)[|"algorithm:"|..] == a && RefOfAlgorithm(b)[|"algorithm:"|..] == b;
  }

  ghost predicate AllCarried(objs: seq<Object>) { forall r :: r in Registrations(objs) ==> Carries(Bom(objs), r) }

  /** No two registrations share a name and differ otherwise. */
  ghost predicate NamesDecide(objs: seq<Object>) {
    forall q, r :: q in Registrations(objs) && r in Registrations(objs) && q.identity.name == r.identity.name ==> q == r
  }

  /** Registering a name once is sound, that is every algorithm reference names a
      component with the primitive, parameters, curve and flag it was made from,
      if and only if no two keys or certificates share an algorithm's name and
      differ in one of these. */
  lemma AllCarriedExactly(objs: seq<Object>)
    ensures AllCarried(objs) <==> NamesDecide(objs)
  {
    hide Registrations, Bom, Carries;
    var regs := Registrations(objs);
    forall r ensures Carries(Bom(objs), r) <==> FirstNamed(regs, r.identity.name) == Some(r) { CarriedExactly(objs, r); }
    if NamesDecide(objs) {
      forall r | r in regs ensures Carries(Bom(objs), r) {
        assert FirstNamed(regs, r.identity.name).Some?;
      }
    }
  }

  // ---- two inputs on which they do not ----

  /** A private key that shows its type and size only. */
  function PlainKey(keyType: string, bits: nat, name: string): Object {
    Object(PRIVATE_KEY, name, "", keyType, bits, "", "", None, None, None, None, None, None, None, None, None, None, None)
  }

  lemma DsaIdentity(bits: nat)
    ensures IdentityOf("DSA", "", bits) == Identity("DSA", "signature", BitsText(bits), 0, true)
  {
    hide ToUpper, TrimSpace, BitsText, Sized, Contains;
    AsymmetricName(1);
  }

  lemma TwoKeys(a: Object, b: Object)
    requires a.cert.None? && b.cert.None? && KeyIdentity(a).name != "" && KeyIdentity(b).name != ""
    requires IsKeyObject(a) && IsKeyObject(b)
    ensures Registrations([a, b]) == [Registration(KeyIdentity(a), a.curve), Registration(KeyIdentity(b), b.curve)]
  {
    hide IdentityOf;
    assert [a, b][..1] == [a] && [a][..0] == [];
    assert OfKeys([a]) == OfKey(a);
    assert OfCertificates([a], KeyPass([a, b]).byFingerprint) == [];
  }

  lemma SecondIsLost(objs: seq<Object>, q: Registration, r: Registration)
    requires Registrations(objs) == [q, r] && q.identity.name == r.identity.name && q != r
    ensures Carries(Bom(objs), q) && !Carries(Bom(objs), r)
  {
    hide Bom, Registrations, Carries;
    assert [q, r] == [q] + [r] && [q] == [] + [q];
    FirstSnoc([q], r, q.identity.name);
    FirstSnoc([], q, q.identity.name);
    CarriedExactly(objs, q);
    CarriedExactly(objs, r);
  }

  lemma SizesDiffer(a: nat, b: nat)
    requires 0 < a && 0 < b && a != b
    ensures BitsText(a) != BitsText(b)
  {
    if BitsText(a) == BitsText(b) { DigitsInjective(a, b); }
  }

  /** Two DSA keys of 1024 and 2048 bits: both refer to the one component for DSA,
      and its parameter set is 1024. */
  lemma SecondDsaSizeIsLost()
    ensures var objs := [PlainKey("DSA", 1024, "a"), PlainKey("DSA", 2048, "b")];
            && AlgorithmRef(KeyIdentity(objs[0])) == AlgorithmRef(KeyIdentity(objs[1])) == RefOfAlgorithm("DSA")
            && Carries(Bom(objs), Registration(KeyIdentity(objs[0]), ""))
            && !Carries(Bom(objs), Registration(KeyIdentity(objs[1]), ""))
  {
    hide IdentityOf, Bom, Registrations, BitsText;
    var a, b := PlainKey("DSA", 1024, "a"), PlainKey("DSA", 2048, "b");
    DsaIdentity(1024);
    DsaIdentity(2048);
    SizesDiffer(1024, 2048);
    TwoKeys(a, b);
    SecondIsLost([a, b], Registration(KeyIdentity(a), ""), Registration(KeyIdentity(b), ""));
  }

  /** A certificate without anything on the token, for the given algorithms. */
  function PlainCertificate(keyAlgorithm: string, signature: string): Object {
    PlainKey("", 0, "c").(class_ := CERTIFICATE,
      cert := Some(Cert("CN=a", "CN=a", "1", 0, 1, "", signature, keyAlgorithm, 0, false, false, false, false, "")))
  }

  lemma UnknownIdentity()
    ensures IdentityOf("0", "", 0) == Identity("0", "unknown", "", 0, false)
  {
    hide Sized, BitsText;
    DigitsAreUnknown(0);
    assert Digits(0) == "0";
    assert ToUpper(TrimSpace("0")) == "0";
    assert !Contains("0", "ML-DSA") && !Contains("0", "ML_DSA") && !Contains("0", "ML-KEM") && !Contains("0", "ML_KEM")
        && !Contains("0", "SLH-DSA") && !Contains("0", "SLH_DSA");
  }

  lemma OneCertificate(o: Object)
    requires o.cert.Some? && o.cert.value.fingerprint == "" && !IsKeyObject(o)
    requires o.cert.value.publicKeyAlgorithm != "" && CertIdentity(o.cert.value).name != "" && o.cert.value.signatureAlgorithm != ""
    ensures Registrations([o])
         == [Registration(CertIdentity(o.cert.value), ""), Registration(SignatureIdentity(o.cert.value.signatureAlgorithm), "")]
  {
    hide IdentityOf, SignatureVulnerable, KeyPass;
    var c, byFingerprint := o.cert.value, KeyPass([o]).byFingerprint;
    assert [o][..0] == [];
    assert OfKeys([o]) == [];
    assert OfSubject(c, byFingerprint) == [Registration(CertIdentity(c), "")];
    assert OfSignature(c) == [Registration(SignatureIdentity(c.signatureAlgorithm), "")];
    assert OfCertificates([o], byFingerprint) == [] + (OfSubject(c, byFingerprint) + OfSignature(c));
  }

  lemma UnknownReferences(c: Cert)
    requires c.publicKeyAlgorithm == "0" == c.signatureAlgorithm && CertIdentity(c).name == "0" && c.fingerprint == ""
    ensures Signature(c) == SubjectKey(c, map[]) == Some(RefOfAlgorithm("0"))
  {
    hide CertIdentity;
  }

  /** A certificate whose key and signature algorithms crypto/x509 both calls "0":
      its signature reference names the component of primitive "unknown", and no
      component is for a signature algorithm. */
  lemma UnknownSignatureIsLost()
    ensures var o := PlainCertificate("0", "0");
            && Signature(o.cert.value) == SubjectKey(o.cert.value, map[]) == Some(RefOfAlgorithm("0"))
            && Carries(Bom([o]), Registration(Identity("0", "unknown", "", 0, false), ""))
            && !Carries(Bom([o]), Registration(SignatureIdentity("0"), ""))
  {
    hide IdentityOf, Bom, Registrations, SignatureVulnerable;
    var o := PlainCertificate("0", "0");
    UnknownIdentity();
    OneCertificate(o);
    SecondIsLost([o], Registration(CertIdentity(o.cert.value), ""), Registration(SignatureIdentity("0"), ""));
    UnknownReferences(o.cert.value);
  }

  // ---- references of keys and certificates ----

  /** How many components come before object i's key, or its certificate. */
  function KeyPlace(objs: seq<Object>, i: nat): nat
    requires i <= |objs|
  {
    |KeyPass(objs[..i]).state.components|
  }

  function CertPlace(objs: seq<Object>, i: nat): nat
    requires i <= |objs|
  {
    |CertPass(KeyPass(objs), objs[..i]).components|
  }

  /** Object i's reference as a key, or as a certificate; none if it is not one. */
  function KeyRefAt(objs: seq<Object>, i: nat): string
    requires i < |objs|
  {
    if IsKeyObject(objs[i]) then KeyRef(KeyPass(objs[..i]).state, objs[i]) else ""
  }

  function CertRefAt(objs: seq<Object>, i: nat): string
    requires i < |objs|
  {
    if objs[i].cert.Some? then CertRef(CertPass(KeyPass(objs), objs[..i]), objs[i], objs[i].cert.value) else ""
  }

  function KeyRefs(objs: seq<Object>): seq<string> {
    if objs == [] then [] else KeyRefs(objs[..|objs| - 1]) + [KeyRefAt(objs, |objs| - 1)]
  }

  function CertRefs(k: Keys, objs: seq<Object>): seq<string> {
    if objs == [] then []
    else
      var init, o := objs[..|objs| - 1], objs[|objs| - 1];
      CertRefs(k, init) + [if o.cert.Some? then CertRef(CertPass(k, init), o, o.cert.value) else ""]
  }

  lemma KeyRefStays(objs: seq<Object>, n: nat, i: nat)
    requires i < n <= |objs|
    ensures KeyRefAt(objs[..n], i) == KeyRefAt(objs, i)
  {
    hide KeyPass, KeyRef;
    PrefixOfPrefix(objs, n, i);
  }

  lemma {:induction false} KeyRefsAre(objs: seq<Object>, i: nat)
    requires i < |objs|
    ensures |KeyRefs(objs)| == |objs| && KeyRefs(objs)[i] == KeyRefAt(objs, i)
  {
    hide KeyRefAt;
    var n := |objs| - 1;
    if i < n {
      KeyRefsAre(objs[..n], i);
      KeyRefStays(objs, n, i);
    } else if n > 0 {
      KeyRefsAre(objs[..n], 0);
    }
  }

  lemma {:induction false} CertRefsAre(k: Keys, objs: seq<Object>, i: nat)
    requires i < |objs|
    ensures |CertRefs(k, objs)| == |objs|
    ensures CertRefs(k, objs)[i]
         == if objs[i].cert.Some? then CertRef(CertPass(k, objs[..i]), objs[i], objs[i].cert.value) else ""
  {
    hide CertPass, CertRef;
    var n := |objs| - 1;
    if i < n {
      CertRefsAre(k, objs[..n], i);
      PrefixOfPrefix(objs, n, i);
    } else if n > 0 {
      CertRefsAre(k, objs[..n], 0);
    }
  }

  function Is(r: string): string -> bool { (x: string) => x == r }

  predicate NotAnAlgorithm(r: string) { r != "" && r[0] != 'a' }

  lemma OtherRef(s: State, id: Identity, curve: string, r: string)
    requires NotAnAlgorithm(r)
    ensures CountIf(WithAlgorithm(s, id, curve).components, HasRef(r)) == CountIf(s.components, HasRef(r))
  {
    var c := Component(RefOfAlgorithm(id.name), Algorithm(id, curve));
    assert c.ref[0] == 'a';
    CountIfAppend(s.components, c, HasRef(r));
  }

  lemma KeyAddsRef(s: State, o: Object, r: string)
    requires NotAnAlgorithm(r)
    ensures CountIf(WithKey(s, o).components, HasRef(r))
         == CountIf(s.components, HasRef(r)) + (if IsKeyObject(o) && KeyRef(s, o) == r then 1 else 0)
  {
    hide IdentityOf, WithAlgorithm, Seqs.CountIf, KeyRef;
    if IsKeyObject(o) {
      var s1 := WithAlgorithm(s, KeyIdentity(o), o.curve);
      OtherRef(s, KeyIdentity(o), o.curve, r);
      CountIfAppend(s1.components, WithKey(s, o).components[|s1.components|], HasRef(r));
    }
  }

  lemma {:induction false} KeyPassRefs(objs: seq<Object>, r: string)
    requires NotAnAlgorithm(r)
    ensures CountIf(KeyPass(objs).state.components, HasRef(r)) == CountIf(KeyRefs(objs), Is(r))
  {
    hide WithKey, KeyRef, Seqs.CountIf, HasRef;
    if objs == [] {
      NoneCounted(r);
    } else {
      var init, o := objs[..|objs| - 1], objs[|objs| - 1];
      KeyPassRefs(init, r);
      KeyAddsRef(KeyPass(init).state, o, r);
      CountIfAppend(KeyRefs(init), KeyRefAt(objs, |init|), Is(r));
    }
  }

  lemma NoneCounted(r: string)
    ensures CountIf([], HasRef(r)) == 0 && CountIf([], Is(r)) == 0
  {
  }

  lemma CertificateAddsRef(s: State, o: Object, byFingerprint: map<string, string>, r: string)
    requires NotAnAlgorithm(r) && o.cert.Some?
    ensures CountIf(WithCertificate(s, o, o.cert.value, byFingerprint).components, HasRef(r))
         == CountIf(s.components, HasRef(r)) + (if CertRef(s, o, o.cert.value) == r then 1 else 0)
  {
    hide IdentityOf, WithAlgorithm, SubjectKey, Signature, Seqs.CountIf, CertRef;
    var c := o.cert.value;
    var s1 := WithCertAlgorithms(s, c, byFingerprint);
    OtherRef(s, CertIdentity(c), "", r);
    OtherRef(WithSubjectAlgorithm(s, c, byFingerprint), SignatureIdentity(c.signatureAlgorithm), "", r);
    CountIfAppend(s1.components, WithCertificate(s, o, c, byFingerprint).components[|s1.components|], HasRef(r));
  }

  lemma {:induction false} CertPassRefs(k: Keys, objs: seq<Object>, r: string)
    requires NotAnAlgorithm(r)
    ensures CountIf(CertPass(k, objs).components, HasRef(r))
         == CountIf(k.state.components, HasRef(r)) + CountIf(CertRefs(k, objs), Is(r))
  {
    hide WithCertificate, CertRef, Seqs.CountIf, HasRef;
    if objs == [] {
      NoneCounted(r);
    } else {
      var init, o := objs[..|objs| - 1], objs[|objs| - 1];
      CertPassRefs(k, init, r);
      CountIfAppend(CertRefs(k, init), CertRefs(k, objs)[|CertRefs(k, init)|], Is(r));
      if o.cert.Some? { CertificateAddsRef(CertPass(k, init), o, k.byFingerprint, r); }
    }
  }

  /** Each reference names one component. */
  ghost predicate RefsDistinct(s: State) {
    forall i, j :: 0 <= i < j < |s.components| ==> s.components[i].ref != s.components[j].ref
  }

  lemma DistinctByCount(s: State)
    ensures RefsDistinct(s) <==> forall r :: CountIf(s.components, HasRef(r)) <= 1
  {
    hide Seqs.CountIf;
    forall r ensures CountIf(s.components, HasRef(r)) <= 1
                <==> forall i, j :: 0 <= i < j < |s.components| ==> !(s.components[i].ref == r && s.components[j].ref == r)
    {
      AtMostOneExactly(s.components, HasRef(r));
    }
    if forall r :: CountIf(s.components, HasRef(r)) <= 1 {
      forall i, j | 0 <= i < j < |s.components| ensures s.components[i].ref != s.components[j].ref {
        assert CountIf(s.components, HasRef(s.components[i].ref)) <= 1;
      }
    }
  }

  lemma OtherRefsOnce(s: State, r: string)
    requires Inv(s) && !NotAnAlgorithm(r)
    ensures CountIf(s.components, HasRef(r)) <= 1
  {
    CountedIsEmitted(s.components, r);
    if Emitted(s.components, r) {
      var i :| 0 <= i < |s.components| && s.components[i].ref == r;
      assert WellNamed(s, s.components[i]);
      assert !("key:" <= r) && !("certificate:" <= r);
    }
  }

  ghost predicate Apart(refs: seq<string>) { forall i, j :: 0 <= i < j < |refs| && refs[i] != "" ==> refs[i] != refs[j] }

  lemma ApartByCount(refs: seq<string>)
    ensures Apart(refs) <==> forall r :: r != "" ==> CountIf(refs, Is(r)) <= 1
  {
    hide Seqs.CountIf;
    forall r ensures CountIf(refs, Is(r)) <= 1 <==> forall i, j :: 0 <= i < j < |refs| ==> !(refs[i] == r && refs[j] == r) {
      AtMostOneExactly(refs, Is(r));
    }
    if forall r :: r != "" ==> CountIf(refs, Is(r)) <= 1 {
      forall i, j | 0 <= i < j < |refs| && refs[i] != "" ensures refs[i] != refs[j] {
        assert CountIf(refs, Is(refs[i])) <= 1;
      }
    }
  }

  lemma RefStarts(objs: seq<Object>, i: nat)
    requires i < |objs|
    ensures KeyRefAt(objs, i) != "" ==> KeyRefAt(objs, i)[0] == 'k'
    ensures CertRefAt(objs, i) != "" ==> CertRefAt(objs, i)[0] == 'c'
  {
    hide KeyPass, CertPass;
  }

  /** Keys and certificates never share a reference. */
  lemma KindsApart(objs: seq<Object>, r: string)
    requires r != ""
    ensures var keys, certs := CountIf(KeyRefs(objs), Is(r)), CountIf(CertRefs(KeyPass(objs), objs), Is(r));
            && (keys > 0 ==> r[0] == 'k') && (certs > 0 ==> r[0] == 'c')
  {
    hide Seqs.CountIf, KeyPass, CertPass, KeyRefs, CertRefs, KeyRefAt, CertRefAt, KeyRef, CertRef;
    var keys, certs := KeyRefs(objs), CertRefs(KeyPass(objs), objs);
    CountIfPositive(keys, Is(r));
    CountIfPositive(certs, Is(r));
    RefLists(objs);
    if i :| 0 <= i < |keys| && Is(r)(keys[i]) { RefStarts(objs, i); }
    if i :| 0 <= i < |certs| && Is(r)(certs[i]) { RefStarts(objs, i); }
  }

  lemma RefLists(objs: seq<Object>)
    ensures |KeyRefs(objs)| == |objs| && |CertRefs(KeyPass(objs), objs)| == |objs|
    ensures forall i :: 0 <= i < |objs| ==> KeyRefs(objs)[i] == KeyRefAt(objs, i)
    ensures forall i :: 0 <= i < |objs| ==> CertRefs(KeyPass(objs), objs)[i] == CertRefAt(objs, i)
  {
    hide KeyPass, CertPass, KeyRefs, CertRefs, KeyRef, CertRef, KeyRefAt;
    if objs == [] {
      NoRefs(KeyPass(objs));
    } else {
      KeyRefsAre(objs, 0);
      CertRefsAre(KeyPass(objs), objs, 0);
    }
    forall i | 0 <= i < |objs| ensures KeyRefs(objs)[i] == KeyRefAt(objs, i) { KeyRefsAre(objs, i); }
    forall i | 0 <= i < |objs| ensures CertRefs(KeyPass(objs), objs)[i] == CertRefAt(objs, i) {
      CertRefsAre(KeyPass(objs), objs, i);
    }
  }

  lemma NoRefs(k: Keys)
    ensures KeyRefs([]) == [] && CertRefs(k, []) == []
  {
  }

  lemma DistinctAreApart(objs: seq<Object>)
    ensures RefsDistinct(Bom(objs)) <==> Apart(KeyRefs(objs)) && Apart(CertRefs(KeyPass(objs), objs))
  {
    hide KeyPass, CertPass, KeyRefs, CertRefs, Seqs.CountIf, RefsDistinct, Apart, Inv, HasRef, Is;
    var s, k := Bom(objs), KeyPass(objs);
    BomKeepsInv(objs);
    DistinctByCount(s);
    ApartByCount(KeyRefs(objs));
    ApartByCount(CertRefs(k, objs));
    forall r ensures CountIf(s.components, HasRef(r)) <= 1
                <==> (r != "" ==> CountIf(KeyRefs(objs), Is(r)) <= 1 && CountIf(CertRefs(k, objs), Is(r)) <= 1)
    {
      if r != "" { KindsApart(objs, r); }
      if NotAnAlgorithm(r) {
        KeyPassRefs(objs, r);
        CertPassRefs(k, objs, r);
      } else {
        OtherRefsOnce(s, r);
      }
    }
  }

  // ---- what the references come from ----

  /** Keys have an ID or a label, as a rule. */
  predicate TaggedKey(o: Object) { o.id != "" || o.name != "" }

  predicate TaggedCert(o: Object)
    requires o.cert.Some?
  {
    o.cert.value.serial != "" || o.id != "" || o.name != ""
  }

  /** What a key goes by: its ID, else its label, else the number of components
      before it. */
  function KeyGoesBy(objs: seq<Object>, i: nat): string
    requires i < |objs|
  {
    FirstNonEmpty([objs[i].id, objs[i].name, Digits(KeyPlace(objs, i))])
  }

  function CertGoesBy(objs: seq<Object>, i: nat): string
    requires i < |objs| && objs[i].cert.Some?
  {
    FirstNonEmpty([objs[i].cert.value.serial, objs[i].id, objs[i].name, Digits(CertPlace(objs, i))])
  }

  /** Two keys of one class, at least one with an ID or label, go by the same. */
  predicate KeysClash(objs: seq<Object>, i: nat, j: nat)
    requires i < |objs| && j < |objs|
  {
    && IsKeyObject(objs[i]) && IsKeyObject(objs[j]) && objs[i].class_ == objs[j].class_
    && (TaggedKey(objs[i]) || TaggedKey(objs[j])) && KeyGoesBy(objs, i) == KeyGoesBy(objs, j)
  }

  predicate CertsClash(objs: seq<Object>, i: nat, j: nat)
    requires i < |objs| && j < |objs|
  {
    && objs[i].cert.Some? && objs[j].cert.Some?
    && (TaggedCert(objs[i]) || TaggedCert(objs[j])) && CertGoesBy(objs, i) == CertGoesBy(objs, j)
  }

  lemma ClassesTell(c: string, x: string, d: string, y: string)
    requires MaterialType(c) != "" && MaterialType(d) != ""
    ensures "key:" + c + ":" + x == "key:" + d + ":" + y <==> c == d && x == y
  {
    var r, q := "key:" + c + ":" + x, "key:" + d + ":" + y;
    assert r[4] == c[0] && r[5] == c[1] && q[4] == d[0] && q[5] == d[1];
    assert c == d ==> |"key:" + c + ":"| == |"key:" + d + ":"|;
    assert r[|"key:" + c + ":"|..] == x && q[|"key:" + d + ":"|..] == y;
  }

  lemma CertTell(x: string, y: string)
    ensures "certificate:" + x == "certificate:" + y <==> x == y
  {
    assert ("certificate:" + x)[12..] == x && ("certificate:" + y)[12..] == y;
  }

  lemma KeyAddsComponent(s: State, o: Object)
    ensures |WithKey(s, o).components| >= |s.components| + if IsKeyObject(o) then 1 else 0
  {
    hide IdentityOf;
  }

  lemma CertificateAddsComponent(s: State, o: Object, byFingerprint: map<string, string>)
    requires o.cert.Some?
    ensures |WithCertificate(s, o, o.cert.value, byFingerprint).components| > |s.components|
  {
    hide IdentityOf, SubjectKey, Signature;
  }

  lemma {:induction false} KeyPlaceGrows(objs: seq<Object>, i: nat, j: nat)
    requires i < j <= |objs|
    ensures KeyPlace(objs, j) >= KeyPlace(objs, i) + if IsKeyObject(objs[i]) then 1 else 0
  {
    hide WithKey, KeyRef;
    assert objs[..j][..j - 1] == objs[..j - 1];
    KeyAddsComponent(KeyPass(objs[..j - 1]).state, objs[j - 1]);
    if i < j - 1 { KeyPlaceGrows(objs, i, j - 1); }
  }

  lemma {:induction false} CertPlaceGrows(objs: seq<Object>, i: nat, j: nat)
    requires i < j <= |objs|
    ensures CertPlace(objs, j) >= CertPlace(objs, i) + if objs[i].cert.Some? then 1 else 0
  {
    hide WithCertificate, KeyPass;
    var k, o := KeyPass(objs), objs[j - 1];
    assert objs[..j][..j - 1] == objs[..j - 1];
    if o.cert.Some? { CertificateAddsComponent(CertPass(k, objs[..j - 1]), o, k.byFingerprint); }
    if i < j - 1 { CertPlaceGrows(objs, i, j - 1); }
  }

  lemma FallsBackToPlace(a: string, b: string, c: string, place: nat)
    ensures FirstNonEmpty([a, b, Digits(place)]) == Digits(place) || a != "" || b != ""
    ensures FirstNonEmpty([a, b, c, Digits(place)]) == Digits(place) || a != "" || b != "" || c != ""
  {
    hide Digits;
    ValueOfDigits(place);
    var d := [Digits(place)];
    if a == "" && b == "" {
      assert [a, b, Digits(place)] == [""] + ([""] + d);
      SkipEmpty([""] + d);
      SkipEmpty(d);
      if c == "" {
        assert [a, b, c, Digits(place)] == [""] + ([""] + ([""] + d));
        SkipEmpty([""] + ([""] + d));
      }
    }
  }

  lemma SkipEmpty(rest: seq<string>)
    ensures FirstNonEmpty([""] + rest) == FirstNonEmpty(rest)
  {
    assert ([""] + rest)[1..] == rest;
  }

  lemma KeyRefsClash(objs: seq<Object>, i: nat, j: nat)
    requires i < j < |objs| && IsKeyObject(objs[i]) && IsKeyObject(objs[j])
    ensures KeyRefAt(objs, i) == KeyRefAt(objs, j) <==> KeysClash(objs, i, j)
  {
    hide KeyPass, FirstNonEmpty, Digits;
    ClassesTell(objs[i].class_, KeyGoesBy(objs, i), objs[j].class_, KeyGoesBy(objs, j));
    FallsBackToPlace(objs[i].id, objs[i].name, "", KeyPlace(objs, i));
    FallsBackToPlace(objs[j].id, objs[j].name, "", KeyPlace(objs, j));
    KeyPlaceGrows(objs, i, j);
    if Digits(KeyPlace(objs, i)) == Digits(KeyPlace(objs, j)) { DigitsInjective(KeyPlace(objs, i), KeyPlace(objs, j)); }
  }

  lemma CertRefsClash(objs: seq<Object>, i: nat, j: nat)
    requires i < j < |objs| && objs[i].cert.Some? && objs[j].cert.Some?
    ensures CertRefAt(objs, i) == CertRefAt(objs, j) <==> CertsClash(objs, i, j)
  {
    hide KeyPass, CertPass, FirstNonEmpty, Digits;
    CertTell(CertGoesBy(objs, i), CertGoesBy(objs, j));
    FallsBackToPlace(objs[i].cert.value.serial, objs[i].id, objs[i].name, CertPlace(objs, i));
    FallsBackToPlace(objs[j].cert.value.serial, objs[j].id, objs[j].name, CertPlace(objs, j));
    CertPlaceGrows(objs, i, j);
    if Digits(CertPlace(objs, i)) == Digits(CertPlace(objs, j)) { DigitsInjective(CertPlace(objs, i), CertPlace(objs, j)); }
  }

  ghost predicate NothingClashes(objs: seq<Object>) {
    forall i, j :: 0 <= i < j < |objs| ==> !KeysClash(objs, i, j) && !CertsClash(objs, i, j)
  }

  /** All references of the document are distinct, so each names one component, if
      and only if no two keys of one class and no two certificates go by the same
      name, where at least one of the two has an identifier of its own: keys and
      certificates without any never clash among themselves. */
  lemma RefsDistinctExactly(objs: seq<Object>)
    ensures RefsDistinct(Bom(objs)) <==> NothingClashes(objs)
  {
    hide Bom, KeyPass, KeyRefs, CertRefs, KeyRefAt, CertRefAt, KeysClash, CertsClash;
    DistinctAreApart(objs);
    RefLists(objs);
    forall i, j | 0 <= i < j < |objs|
      ensures KeysClash(objs, i, j) <==> KeyRefAt(objs, i) != "" && KeyRefAt(objs, i) == KeyRefAt(objs, j)
      ensures CertsClash(objs, i, j) <==> CertRefAt(objs, i) != "" && CertRefAt(objs, i) == CertRefAt(objs, j)
    {
      ClashesExactly(objs, i, j);
    }
  }

  lemma ClashesExactly(objs: seq<Object>, i: nat, j: nat)
    requires i < j < |objs|
    ensures KeysClash(objs, i, j) <==> KeyRefAt(objs, i) != "" && KeyRefAt(objs, i) == KeyRefAt(objs, j)
    ensures CertsClash(objs, i, j) <==> CertRefAt(objs, i) != "" && CertRefAt(objs, i) == CertRefAt(objs, j)
  {
    hide KeyPass, CertPass, KeyGoesBy, CertGoesBy;
    if IsKeyObject(objs[i]) && IsKeyObject(objs[j]) { KeyRefsClash(objs, i, j); }
    if objs[i].cert.Some? && objs[j].cert.Some? { CertRefsClash(objs, i, j); }
  }

  // ---- the places themselves ----

  function NameOf(r: Registration): string { r.identity.name }

  /** The distinct algorithm names of a list of registrations. */
  ghost function NamesIn(regs: seq<Registration>): set<string> { set r | r in regs :: NameOf(r) }

  lemma NamesAreRegistered(s: State, regs: seq<Registration>)
    requires Represents(s, regs)
    ensures s.algoRefs.Keys == NamesIn(regs)
  {
    forall n ensures n in s.algoRefs <==> n in NamesIn(regs) {
      if n in s.algoRefs { assert NameOf(FirstNamed(regs, n).value) == n; }
    }
  }

  lemma AlgorithmAddsBoth(s: State, id: Identity, curve: string)
    ensures |WithAlgorithm(s, id, curve).components| - |WithAlgorithm(s, id, curve).algoRefs| == |s.components| - |s.algoRefs|
  {
  }

  lemma {:induction false} KeyPassSize(objs: seq<Object>)
    ensures var s := KeyPass(objs).state; |s.components| == CountIf(objs, IsKeyObject) + |s.algoRefs|
  {
    hide IdentityOf, KeyRef, WithAlgorithm;
    if objs != [] {
      var init, o := objs[..|objs| - 1], objs[|objs| - 1];
      KeyPassSize(init);
      if IsKeyObject(o) { AlgorithmAddsBoth(KeyPass(init).state, KeyIdentity(o), o.curve); }
    }
  }

  lemma CertificateSize(s: State, o: Object, c: Cert, byFingerprint: map<string, string>)
    ensures var after := WithCertificate(s, o, c, byFingerprint);
            |after.components| - |after.algoRefs| == |s.components| - |s.algoRefs| + 1
  {
    hide IdentityOf, SubjectKey, Signature, WithAlgorithm, CertRef, SignatureVulnerable;
    AlgorithmAddsBoth(s, CertIdentity(c), "");
    AlgorithmAddsBoth(WithSubjectAlgorithm(s, c, byFingerprint), SignatureIdentity(c.signatureAlgorithm), "");
  }

  lemma {:induction false} CertPassSize(k: Keys, objs: seq<Object>)
    ensures var s, s' := k.state, CertPass(k, objs);
            |s'.components| - |s'.algoRefs| == |s.components| - |s.algoRefs| + CountIf(objs, HasCert)
  {
    hide WithCertificate;
    if objs != [] {
      var init, o := objs[..|objs| - 1], objs[|objs| - 1];
      CertPassSize(k, init);
      if o.cert.Some? { CertificateSize(CertPass(k, init), o, o.cert.value, k.byFingerprint); }
    }
  }

  /** The number a nameless key falls back to is that of the keys before it and
      their distinct algorithm names; a certificate's counts all keys, the
      certificates before it, and the distinct names of all these. */
  lemma PlacesAre(objs: seq<Object>, i: nat)
    requires i <= |objs|
    ensures KeyPlace(objs, i) == CountIf(objs[..i], IsKeyObject) + |NamesIn(OfKeys(objs[..i]))|
    ensures CertPlace(objs, i)
         == CountIf(objs, IsKeyObject) + CountIf(objs[..i], HasCert)
            + |NamesIn(OfKeys(objs) + OfCertificates(objs[..i], KeyPass(objs).byFingerprint))|
  {
    hide KeyPass, CertPass, Represents, OfKeys, OfCertificates, NamesIn, Seqs.CountIf;
    KeysRepresent(objs[..i]);
    KeyPassSize(objs[..i]);
    NamesAreRegistered(KeyPass(objs[..i]).state, OfKeys(objs[..i]));
    KeysRepresent(objs);
    KeyPassSize(objs);
    CertificatesRepresent(KeyPass(objs), objs[..i], OfKeys(objs));
    CertPassSize(KeyPass(objs), objs[..i]);
    NamesAreRegistered(CertPass(KeyPass(objs), objs[..i]),
                       OfKeys(objs) + OfCertificates(objs[..i], KeyPass(objs).byFingerprint));
    SameSize(KeyPass(objs[..i]).state.algoRefs);
    SameSize(CertPass(KeyPass(objs), objs[..i]).algoRefs);
  }

  lemma SameSize(m: map<string, string>)
    ensures |m| == |m.Keys|
  {
  }

  // ---- two inputs on which references coincide ----

  /** Two keys of one class with the same ID, and a nameless first key beside one
      labelled "0": one reference for both. */
  lemma KeysCanClash(a: Object, b: Object)
    requires a.class_ == b.class_ == PRIVATE_KEY && a.id == b.id
    requires a.id != "" || (a.name == "" && b.name == "0")
    ensures KeyRefAt([a, b], 0) == KeyRefAt([a, b], 1) && !RefsDistinct(Bom([a, b]))
  {
    hide RefsDistinct, Bom;
    var objs := [a, b];
    assert objs[..0] == [];
    assert KeyPlace(objs, 0) == 0;
    if a.id == "" {
      FallsBackToPlace("", "", "", 0);
      SkipEmpty(["0", Digits(KeyPlace(objs, 1))]);
      assert [""] + ["0", Digits(KeyPlace(objs, 1))] == ["", "0", Digits(KeyPlace(objs, 1))];
    }
    assert KeyGoesBy(objs, 0) == KeyGoesBy(objs, 1);
    assert KeysClash(objs, 0, 1);
    ClashesExactly(objs, 0, 1);
    RefsDistinctExactly(objs);
  }
}
