/** Certificate monitoring (internal/certmon/certmon.go): expiry state, warnings
    and an index of key fingerprints of its own. */
module Certmon {
  import opened Seqs
  import opened Order
  import opened Inventory
  import opened Policy

  const DAY := 86_400_000_000_000

  datatype Status = OK | Expiring | Expired

  datatype Warning = SelfSigned | NotYetValid | WeakRSA(bits: nat) | CAWithoutKeyCertSign | MismatchedKey | ChainUnverified

  datatype Entry = Entry(
    name: string, id: string, subject: string, notAfter: int, status: Status, daysLeft: int, warnings: seq<Warning>)

  /** Integer division that truncates toward zero. */
  function TruncDiv(a: int, b: int): int
    requires b > 0
  {
    if a >= 0 then a / b else -((-a) / b)
  }

  function StatusOf(left: int, warnDays: int): Status {
    if left <= 0 then Expired else if left <= warnDays * DAY then Expiring else OK
  }

  function Warned(w: seq<Warning>, c: bool, x: Warning): seq<Warning> { if c then w + [x] else w }

  predicate WeakKey(c: Cert) { c.publicKeyAlgorithm == "RSA" && 0 < c.publicKeyBits < 2048 }

  /** The warnings the certificate alone decides. */
  function OwnWarnings(c: Cert, now: int): seq<Warning> {
    var w := Warned([], c.selfSigned && !c.isCA, SelfSigned);
    var w := Warned(w, c.notBefore > now, NotYetValid);
    var w := Warned(w, WeakKey(c), WeakRSA(c.publicKeyBits));
    Warned(w, c.isCA && !c.keyCertSign, CAWithoutKeyCertSign)
  }

  /** The warnings of one certificate, mismatch decided by quantification. */
  function WarningsOf(objs: seq<Object>, o: Object, c: Cert, now: int): seq<Warning> {
    var w := Warned(OwnWarnings(c, now), KeyMismatch(objs, o), MismatchedKey);
    Warned(w, c.chainUnverified, ChainUnverified)
  }

  predicate IsCertificate(o: Object) { o.class_ == CERTIFICATE && o.cert.Some? }

  function EntryOf(objs: seq<Object>, now: int, warnDays: int): Object -> Entry {
    (o: Object) =>
      if o.cert.Some? then
        var c := o.cert.value;
        var left := c.notAfter - now;
        Entry(o.name, o.id, c.subject, c.notAfter, StatusOf(left, warnDays), TruncDiv(left, DAY), WarningsOf(objs, o, c, now))
      else Entry("", "", "", 0, OK, 0, [])
  }

  predicate ExpiryLe(a: Entry, b: Entry) { a.notAfter <= b.notAfter }

  /** One entry per certificate object, most urgent first. */
  function Entries(inv: Inventory, now: int, warnDays: int): seq<Entry> {
    Sort(Map(Filter(inv.objects, IsCertificate), EntryOf(inv.objects, now, warnDays)), ExpiryLe)
  }

  ghost predicate IndexOf(m: map<string, seq<string>>, objs: seq<Object>) {
    forall id :: id != "" ==> FingerprintsOf(m, id) == KeyFingerprints(objs, id)
  }

  method KeyIndex(objs: seq<Object>) returns (m: map<string, seq<string>>)
    ensures IndexOf(m, objs)
  {
    m := map[];
    for i := 0 to |objs|
      invariant IndexOf(m, objs[..i])
    {
      var o := objs[i];
      assert objs[..i + 1] == objs[..i] + [o];
      forall id ensures KeyFingerprints(objs[..i] + [o], id)
        == if Vouches(o, id) then KeyFingerprints(objs[..i], id) + [o.fingerprint] else KeyFingerprints(objs[..i], id)
      {
        FingerprintsSnoc(objs[..i], o, id);
      }
      if IsKeyObject(o) && o.id != "" && o.fingerprint != "" {
        m := m[o.id := (if o.id in m then m[o.id] else []) + [o.fingerprint]];
      }
    }
    assert objs[..|objs|] == objs;
  }

  method HasMismatch(o: Object, c: Cert, keyFPs: map<string, seq<string>>, ghost objs: seq<Object>) returns (r: bool)
    requires IsCertificate(o) && o.cert.value == c && IndexOf(keyFPs, objs)
    ensures r <==> KeyMismatch(objs, o)
  {
    FingerprintListMeaning(objs, o.id, c.fingerprint);
    if o.id == "" || c.fingerprint == "" { return false; }
    var fps := FingerprintsOf(keyFPs, o.id);
    return |fps| > 0 && c.fingerprint !in fps;
  }

  method AppendIf(w: seq<Warning>, c: bool, x: Warning) returns (r: seq<Warning>)
    ensures r == Warned(w, c, x)
  {
    r := w;
    if c { r := r + [x]; }
  }

  method CertWarnings(o: Object, c: Cert, now: int, keyFPs: map<string, seq<string>>, ghost objs: seq<Object>)
    returns (w: seq<Warning>)
    requires IsCertificate(o) && o.cert.value == c && IndexOf(keyFPs, objs)
    ensures w == WarningsOf(objs, o, c, now)
  {
    hide KeyMismatch, IndexOf, Warned;
    var mismatch := HasMismatch(o, c, keyFPs, objs);
    w := AppendIf([], c.selfSigned && !c.isCA, SelfSigned);
    w := AppendIf(w, c.notBefore > now, NotYetValid);
    w := AppendIf(w, c.publicKeyAlgorithm == "RSA" && c.publicKeyBits > 0 && c.publicKeyBits < 2048, WeakRSA(c.publicKeyBits));
    w := AppendIf(w, c.isCA && !c.keyCertSign, CAWithoutKeyCertSign);
    w := AppendIf(w, mismatch, MismatchedKey);
    w := AppendIf(w, c.chainUnverified, ChainUnverified);
  }

  method ClassifyOne(o: Object, c: Cert, now: int, warnDays: int, keyFPs: map<string, seq<string>>, ghost objs: seq<Object>)
    returns (e: Entry)
    requires IsCertificate(o) && o.cert.value == c && IndexOf(keyFPs, objs)
    ensures e == EntryOf(objs, now, warnDays)(o)
  {
    hide IndexOf, WarningsOf;
    var warnings := CertWarnings(o, c, now, keyFPs, objs);
    var left := c.notAfter - now;
    var status;
    if left <= 0 {
      status := Expired;
    } else if left <= warnDays * DAY {
      status := Expiring;
    } else {
      status := OK;
    }
    e := Entry(o.name, o.id, c.subject, c.notAfter, status, TruncDiv(left, DAY), warnings);
  }

  method Classify(inv: Inventory, now: int, warnDays: int) returns (entries: seq<Entry>)
    ensures entries == Entries(inv, now, warnDays)
  {
    hide EntryOf, IndexOf;
    var objs := inv.objects;
    var keyFPs := KeyIndex(objs);
    ghost var entry := EntryOf(objs, now, warnDays);
    entries := [];
    for i := 0 to |objs|
      invariant entries == Map(Filter(objs[..i], IsCertificate), entry)
    {
      var o := objs[i];
      assert objs[..i + 1] == objs[..i] + [o];
      FilterSnoc(objs[..i], o, IsCertificate);
      if o.class_ == CERTIFICATE && o.cert.Some? {
        var e := ClassifyOne(o, o.cert.value, now, warnDays, keyFPs, objs);
        MapSnoc(Filter(objs[..i], IsCertificate), o, entry);
        entries := entries + [e];
      }
    }
    assert objs[..|objs|] == objs;
    entries := Sort(entries, ExpiryLe);
  }

  /** The monitor's mismatch warning and the policy engine's mismatch predicate,
      computed from two separate indexes, fire on the same certificates. */
  lemma MonitorAgreesWithPolicy(objs: seq<Object>, o: Object, now: int, warnDays: int, f: Facts)
    requires IsCertificate(o) && FactsOf(f, objs)
    ensures MismatchedKey in EntryOf(objs, now, warnDays)(o).warnings <==> CertKeyMismatch(f, o)
  {
    IndexesAgree(f, objs, o);
  }

  function Place(w: Warning): nat {
    match w
    case SelfSigned => 0
    case NotYetValid => 1
    case WeakRSA(_) => 2
    case CAWithoutKeyCertSign => 3
    case MismatchedKey => 4
    case ChainUnverified => 5
  }

  /** Warnings in their fixed order, all of them before place k. */
  predicate InOrder(w: seq<Warning>, k: nat) {
    && (forall i, j :: 0 <= i < j < |w| ==> Place(w[i]) < Place(w[j]))
    && (forall x :: x in w ==> Place(x) < k)
  }

  lemma WarnedStep(w: seq<Warning>, c: bool, x: Warning)
    requires InOrder(w, Place(x))
    ensures InOrder(Warned(w, c, x), Place(x) + 1)
    ensures forall y :: y in Warned(w, c, x) <==> y in w || (c && y == x)
  {
  }

  /** The condition of each warning. */
  predicate Deserved(x: Warning, objs: seq<Object>, o: Object, c: Cert, now: int) {
    match x
    case SelfSigned => c.selfSigned && !c.isCA
    case NotYetValid => c.notBefore > now
    case WeakRSA(bits) => WeakKey(c) && bits == c.publicKeyBits
    case CAWithoutKeyCertSign => c.isCA && !c.keyCertSign
    case MismatchedKey => KeyMismatch(objs, o)
    case ChainUnverified => c.chainUnverified
  }

  lemma OwnWarningsMeaning(objs: seq<Object>, o: Object, c: Cert, now: int)
    ensures InOrder(OwnWarnings(c, now), 4)
    ensures forall x :: x in OwnWarnings(c, now) <==> Place(x) < 4 && Deserved(x, objs, o, c, now)
  {
    hide KeyMismatch, Warned, InOrder, WeakKey;
    NoneWarned();
    WarnedStep([], c.selfSigned && !c.isCA, SelfSigned);
    var w1 := Warned([], c.selfSigned && !c.isCA, SelfSigned);
    WarnedStep(w1, c.notBefore > now, NotYetValid);
    var w2 := Warned(w1, c.notBefore > now, NotYetValid);
    WarnedStep(w2, WeakKey(c), WeakRSA(c.publicKeyBits));
    var w3 := Warned(w2, WeakKey(c), WeakRSA(c.publicKeyBits));
    WarnedStep(w3, c.isCA && !c.keyCertSign, CAWithoutKeyCertSign);
  }

  /** Each warning is given exactly under its own condition, at most once, and
      the warnings come in a fixed order. */
  lemma WarningsMeaning(objs: seq<Object>, o: Object, c: Cert, now: int)
    ensures InOrder(WarningsOf(objs, o, c, now), 6)
    ensures forall x :: x in WarningsOf(objs, o, c, now) <==> Deserved(x, objs, o, c, now)
  {
    hide KeyMismatch, Warned, InOrder, OwnWarnings;
    OwnWarningsMeaning(objs, o, c, now);
    var w4 := OwnWarnings(c, now);
    WarnedStep(w4, KeyMismatch(objs, o), MismatchedKey);
    WarnedStep(Warned(w4, KeyMismatch(objs, o), MismatchedKey), c.chainUnverified, ChainUnverified);
  }

  lemma NoneWarned()
    ensures InOrder([], 0)
  {
  }

  /** Every certificate is listed, most urgent first. */
  lemma EntriesMeaning(inv: Inventory, now: int, warnDays: int)
    ensures Sorted(Entries(inv, now, warnDays), ExpiryLe)
    ensures multiset(Entries(inv, now, warnDays))
         == multiset(Map(Filter(inv.objects, IsCertificate), EntryOf(inv.objects, now, warnDays)))
  {
    var list := Map(Filter(inv.objects, IsCertificate), EntryOf(inv.objects, now, warnDays));
    assert TotalPreorder(ExpiryLe);
    SortSorts(list, ExpiryLe);
    SortPermutes(list, ExpiryLe);
  }
}
