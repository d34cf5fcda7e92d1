/** The drift engine of internal/snapshot/diff.go: a keyed multiset diff of two
    inventories of the same token. */
module Snapshot {
  import opened Seqs
  import opened Order
  import opened Decimal
  import opened Inventory

  datatype FieldChange = FieldChange(ref: string, field: string, oldValue: string, newValue: string)

  datatype Diff = Diff(
    oldAt: int, newAt: int,
    tokenChanges: seq<FieldChange>,
    mechanismsAdded: seq<string>, mechanismsRemoved: seq<string>,
    objectsAdded: seq<string>, objectsRemoved: seq<string>,
    objectChanges: seq<FieldChange>)
  {
    predicate Empty() {
      tokenChanges == [] && mechanismsAdded == [] && mechanismsRemoved == [] &&
      objectsAdded == [] && objectsRemoved == [] && objectChanges == []
    }

    function Count(): nat {
      |tokenChanges| + |mechanismsAdded| + |mechanismsRemoved| + |objectsAdded| + |objectsRemoved| + |objectChanges|
    }
  }

  // ---- object identity ----

  const NUL := 0 as char

  predicate NulFree(s: string) { NUL !in s }

  /** Classes are fixed names and IDs are hexadecimal; labels are arbitrary. */
  predicate Keyable(o: Object) { NulFree(o.class_) && NulFree(o.id) }

  function ObjectKey(o: Object): string { o.class_ + [NUL] + o.name + [NUL] + o.id }

  lemma CutAt(a: string, x: string)
    ensures (a + [NUL] + x)[|a|] == NUL
    ensures NulFree(a) ==> forall i :: 0 <= i < |a| ==> (a + [NUL] + x)[i] != NUL
    ensures NulFree(x) ==> forall i :: |a| < i < |a + [NUL] + x| ==> (a + [NUL] + x)[i] != NUL
    ensures (a + [NUL] + x)[..|a|] == a && (a + [NUL] + x)[|a| + 1..] == x
  {
    var s := a + [NUL] + x;
    assert forall i :: 0 <= i < |a| ==> s[i] == a[i];
    assert forall i :: |a| < i < |s| ==> s[i] == x[i - |a| - 1];
  }

  /** A separator cuts a string at its first, and at its last, occurrence in one
      way only. */
  lemma FirstCut(a: string, x: string, b: string, y: string)
    requires NulFree(a) && NulFree(b) && a + [NUL] + x == b + [NUL] + y
    ensures a == b && x == y
  {
    CutAt(a, x);
    CutAt(b, y);
  }

  lemma LastCut(x: string, a: string, y: string, b: string)
    requires NulFree(a) && NulFree(b) && x + [NUL] + a == y + [NUL] + b
    ensures a == b && x == y
  {
    CutAt(x, a);
    CutAt(y, b);
  }

  /** Labels may contain NUL bytes and keys still tell objects apart. */
  lemma ObjectKeyInjective(o: Object, p: Object)
    requires Keyable(o) && Keyable(p) && ObjectKey(o) == ObjectKey(p)
    ensures o.class_ == p.class_ && o.name == p.name && o.id == p.id
    ensures ObjectRef(o) == ObjectRef(p)
  {
    assert ObjectKey(o) == o.class_ + [NUL] + (o.name + [NUL] + o.id);
    assert ObjectKey(p) == p.class_ + [NUL] + (p.name + [NUL] + p.id);
    FirstCut(o.class_, o.name + [NUL] + o.id, p.class_, p.name + [NUL] + p.id);
    LastCut(o.name, o.id, p.name, p.id);
  }

  function HasKey(k: string): Object -> bool { (o: Object) => ObjectKey(o) == k }

  function Group(objs: seq<Object>, k: string): seq<Object> { Filter(objs, HasKey(k)) }

  ghost predicate AllKeyable(objs: seq<Object>) { forall o :: o in objs ==> Keyable(o) }

  // ---- field comparison ----

  datatype Pair = Pair(field: string, oldValue: string, newValue: string)

  predicate Differs(p: Pair) { p.oldValue != p.newValue }

  function AsChange(ref: string): Pair -> FieldChange {
    (p: Pair) => FieldChange(ref, p.field, p.oldValue, p.newValue)
  }

  function Changes(ref: string, pairs: seq<Pair>): seq<FieldChange> { Map(Filter(pairs, Differs), AsChange(ref)) }

  function TriState(b: Option<bool>): string {
    match b
    case None => "(not exposed)"
    case Some(v) => if v then "true" else "false"
  }

  function BoolPair(field: string, o: Option<bool>, n: Option<bool>): Pair { Pair(field, TriState(o), TriState(n)) }

  function BoolPairs(o: Object, n: Object): seq<Pair> {
    [BoolPair("CKA_SENSITIVE", o.sensitive, n.sensitive),
     BoolPair("CKA_EXTRACTABLE", o.extractable, n.extractable),
     BoolPair("CKA_SIGN", o.sign, n.sign),
     BoolPair("CKA_VERIFY", o.verify, n.verify),
     BoolPair("CKA_ENCRYPT", o.encrypt, n.encrypt),
     BoolPair("CKA_DECRYPT", o.decrypt, n.decrypt),
     BoolPair("CKA_WRAP", o.wrap, n.wrap),
     BoolPair("CKA_UNWRAP", o.unwrap, n.unwrap),
     BoolPair("CKA_DERIVE", o.derive, n.derive),
     BoolPair("CKA_MODIFIABLE", o.modifiable, n.modifiable)]
  }

  function CertPairs(o: Object, n: Object): seq<Pair> {
    if o.cert.Some? && n.cert.Some? then
      [Pair("certificate subject", o.cert.value.subject, n.cert.value.subject),
       Pair("certificate expiry", o.cert.value.expiryDate, n.cert.value.expiryDate),
       Pair("certificate serial", o.cert.value.serial, n.cert.value.serial)]
    else []
  }

  function AttrPairs(o: Object, n: Object): seq<Pair> {
    [Pair("key type", o.keyType, n.keyType),
     Pair("key size", Digits(o.keyBits), Digits(n.keyBits)),
     Pair("curve", o.curve, n.curve)]
    + BoolPairs(o, n) + CertPairs(o, n)
  }

  function TokenPairs(a: Inventory, b: Inventory): seq<Pair> {
    if a.token.None? || b.token.None? then []
    else
      var o, n := a.token.value, b.token.value;
      [Pair("token label", o.name, n.name),
       Pair("serial number", o.serial, n.serial),
       Pair("model", o.model, n.model),
       Pair("firmware version", o.firmware, n.firmware),
       Pair("hardware version", o.hardware, n.hardware)]
  }

  predicate SameToken(a: Inventory, b: Inventory) {
    a.token.Some? && b.token.Some? ==>
      var o, n := a.token.value, b.token.value;
      o.name == n.name && o.serial == n.serial && o.model == n.model && o.firmware == n.firmware && o.hardware == n.hardware
  }

  predicate AllSame(pairs: seq<Pair>) { forall p :: p in pairs ==> !Differs(p) }

  lemma NoChanges(ref: string, pairs: seq<Pair>)
    ensures Changes(ref, pairs) == [] <==> AllSame(pairs)
  {
    FilterLength(pairs, Differs);
    CountIfPositive(pairs, Differs);
  }

  lemma AllSameAppend(a: seq<Pair>, b: seq<Pair>)
    ensures AllSame(a + b) <==> AllSame(a) && AllSame(b)
  {
  }

  lemma SameKeyShape(o: Object, n: Object)
    ensures AllSame([Pair("key type", o.keyType, n.keyType),
                     Pair("key size", Digits(o.keyBits), Digits(n.keyBits)),
                     Pair("curve", o.curve, n.curve)])
       <==> o.keyType == n.keyType && o.keyBits == n.keyBits && o.curve == n.curve
  {
    var ps := [Pair("key type", o.keyType, n.keyType), Pair("key size", Digits(o.keyBits), Digits(n.keyBits)),
               Pair("curve", o.curve, n.curve)];
    if Digits(o.keyBits) == Digits(n.keyBits) { DigitsInjective(o.keyBits, n.keyBits); }
    assert ps[0] in ps && ps[1] in ps && ps[2] in ps;
  }

  predicate SameCertFields(o: Object, n: Object) {
    o.cert.Some? && n.cert.Some? ==>
      o.cert.value.subject == n.cert.value.subject && o.cert.value.expiryDate == n.cert.value.expiryDate
      && o.cert.value.serial == n.cert.value.serial
  }

  lemma SameCert(o: Object, n: Object)
    ensures AllSame(CertPairs(o, n)) <==> SameCertFields(o, n)
  {
    var ps := CertPairs(o, n);
    if o.cert.Some? && n.cert.Some? { assert ps[0] in ps && ps[1] in ps && ps[2] in ps; }
  }

  /** The compared attributes of two objects carrying the same values. */
  predicate SameAttrs(o: Object, n: Object) {
    && o.keyType == n.keyType && o.keyBits == n.keyBits && o.curve == n.curve
    && SameFlags(o, n) && SameCertFields(o, n)
  }

  lemma SameAttrsIffNoChange(o: Object, n: Object, ref: string)
    ensures Changes(ref, AttrPairs(o, n)) == [] <==> SameAttrs(o, n)
  {
    hide AllSame, BoolPairs, CertPairs, Changes, Digits;
    var shape := [Pair("key type", o.keyType, n.keyType), Pair("key size", Digits(o.keyBits), Digits(n.keyBits)),
                  Pair("curve", o.curve, n.curve)];
    NoChanges(ref, AttrPairs(o, n));
    AllSameAppend(shape + BoolPairs(o, n), CertPairs(o, n));
    AllSameAppend(shape, BoolPairs(o, n));
    SameKeyShape(o, n);
    SameBools(o, n);
    SameCert(o, n);
  }

  lemma TriStateInjective(a: Option<bool>, b: Option<bool>)
    requires TriState(a) == TriState(b)
    ensures a == b
  {
    assert |"(not exposed)"| == 13 && |"true"| == 4 && |"false"| == 5;
  }

  predicate SameFlags(o: Object, n: Object) {
    && o.sensitive == n.sensitive && o.extractable == n.extractable && o.sign == n.sign && o.verify == n.verify
    && o.encrypt == n.encrypt && o.decrypt == n.decrypt && o.wrap == n.wrap && o.unwrap == n.unwrap
    && o.derive == n.derive && o.modifiable == n.modifiable
  }

  lemma SameBool(field: string, a: Option<bool>, b: Option<bool>)
    ensures !Differs(BoolPair(field, a, b)) <==> a == b
  {
    if TriState(a) == TriState(b) { TriStateInjective(a, b); }
  }

  lemma SameBools(o: Object, n: Object)
    ensures AllSame(BoolPairs(o, n)) <==> SameFlags(o, n)
  {
    hide BoolPair, Differs;
    var bs := BoolPairs(o, n);
    assert bs[0] in bs && bs[1] in bs && bs[2] in bs && bs[3] in bs && bs[4] in bs;
    assert bs[5] in bs && bs[6] in bs && bs[7] in bs && bs[8] in bs && bs[9] in bs;
    SameBool("CKA_SENSITIVE", o.sensitive, n.sensitive);
    SameBool("CKA_EXTRACTABLE", o.extractable, n.extractable);
    SameBool("CKA_SIGN", o.sign, n.sign);
    SameBool("CKA_VERIFY", o.verify, n.verify);
    SameBool("CKA_ENCRYPT", o.encrypt, n.encrypt);
    SameBool("CKA_DECRYPT", o.decrypt, n.decrypt);
    SameBool("CKA_WRAP", o.wrap, n.wrap);
    SameBool("CKA_UNWRAP", o.unwrap, n.unwrap);
    SameBool("CKA_DERIVE", o.derive, n.derive);
    SameBool("CKA_MODIFIABLE", o.modifiable, n.modifiable);
  }

  // ---- one key ----

  function DuplicateRef(o: Object): string { ObjectRef(o) + " (duplicate)" }

  /** What appears under a key: everything when it is new, else the surplus. */
  function GroupAdded(olds: seq<Object>, news: seq<Object>): seq<string> {
    if olds == [] then Map(news, ObjectRef)
    else if |olds| < |news| then Map(news[|olds|..], DuplicateRef)
    else []
  }

  /** Attributes are comparable only for an unambiguous pair. */
  function GroupChanges(olds: seq<Object>, news: seq<Object>): seq<FieldChange> {
    if |olds| == 1 && |news| == 1 then Changes(ObjectRef(news[0]), AttrPairs(olds[0], news[0])) else []
  }

  // ---- all keys, in ascending order ----

  function AddedOver(keys: seq<string>, a: seq<Object>, b: seq<Object>): seq<string> {
    if keys == [] then []
    else
      var k := keys[|keys| - 1];
      AddedOver(keys[..|keys| - 1], a, b) + GroupAdded(Group(a, k), Group(b, k))
  }

  function ChangesOver(keys: seq<string>, a: seq<Object>, b: seq<Object>): seq<FieldChange> {
    if keys == [] then []
    else
      var k := keys[|keys| - 1];
      ChangesOver(keys[..|keys| - 1], a, b) + GroupChanges(Group(a, k), Group(b, k))
  }

  ghost function KeySet(a: seq<Object>): set<string> { set o | o in a :: ObjectKey(o) }

  ghost function Names(mechs: seq<string>): set<string> { set m | m in mechs }

  ghost function Keys(a: seq<Object>, b: seq<Object>): seq<string> { AscendingStrings(KeySet(a) + KeySet(b)) }

  /** The drift from a to b. */
  ghost function DiffOf(a: Inventory, b: Inventory): Diff {
    var ks := Keys(a.objects, b.objects);
    Diff(a.scannedAt, b.scannedAt,
         Changes("", TokenPairs(a, b)),
         AscendingStrings(Names(b.mechanisms) - Names(a.mechanisms)),
         AscendingStrings(Names(a.mechanisms) - Names(b.mechanisms)),
         AddedOver(ks, a.objects, b.objects),
         AddedOver(ks, b.objects, a.objects),
         ChangesOver(ks, a.objects, b.objects))
  }

  // ---- order independence ----

  lemma GroupUniform(objs: seq<Object>, k: string, o: Object, p: Object)
    requires AllKeyable(objs) && o in Group(objs, k) && p in Group(objs, k)
    ensures ObjectRef(o) == ObjectRef(p)
  {
    FilterMembers(objs, HasKey(k));
    ObjectKeyInjective(o, p);
  }

  lemma GroupPermutes(a: seq<Object>, a': seq<Object>, k: string)
    requires multiset(a) == multiset(a')
    ensures multiset(Group(a, k)) == multiset(Group(a', k)) && |Group(a, k)| == |Group(a', k)|
    ensures |Group(a, k)| == 1 ==> Group(a, k) == Group(a', k)
  {
    FilterPermutation(a, a', HasKey(k));
    PermutationLength(Group(a, k), Group(a', k));
    if |Group(a, k)| == 1 {
      assert Group(a, k)[0] in Group(a', k);
    }
  }

  /** Groups of equal length under one key render the same additions. */
  lemma GroupAddedSame(olds: seq<Object>, news: seq<Object>, olds': seq<Object>, news': seq<Object>)
    requires |olds| == |olds'| && |news| == |news'|
    requires forall o, p :: o in news && p in news' ==> ObjectRef(o) == ObjectRef(p)
    ensures GroupAdded(olds, news) == GroupAdded(olds', news')
  {
    forall i | 0 <= i < |news| ensures ObjectRef(news[i]) == ObjectRef(news'[i]) {
      assert news[i] in news && news'[i] in news';
    }
  }

  lemma {:induction false} OverPermuted(keys: seq<string>, a: seq<Object>, b: seq<Object>, a': seq<Object>, b': seq<Object>)
    requires AllKeyable(a) && AllKeyable(b) && multiset(a) == multiset(a') && multiset(b) == multiset(b')
    ensures AddedOver(keys, a, b) == AddedOver(keys, a', b')
    ensures ChangesOver(keys, a, b) == ChangesOver(keys, a', b')
  {
    if keys != [] {
      var k := keys[|keys| - 1];
      OverPermuted(keys[..|keys| - 1], a, b, a', b');
      GroupPermutes(a, a', k);
      GroupPermutes(b, b', k);
      forall o, p | o in Group(b, k) && p in Group(b', k) ensures ObjectRef(o) == ObjectRef(p) {
        PermutationLength(Group(b, k), Group(b', k));
        GroupUniform(b, k, o, p);
      }
      GroupAddedSame(Group(a, k), Group(b, k), Group(a', k), Group(b', k));
    }
  }

  lemma SameMembers<T>(a: seq<T>, b: seq<T>)
    requires multiset(a) == multiset(b)
    ensures forall x :: x in a <==> x in b
  {
    PermutationLength(a, b);
  }

  /** The diff depends on neither the order in which objects were enumerated nor
      the order of the mechanism list. */
  lemma DiffIgnoresOrder(a: Inventory, b: Inventory, a': Inventory, b': Inventory)
    requires AllKeyable(a.objects) && AllKeyable(b.objects)
    requires a' == a.(objects := a'.objects, mechanisms := a'.mechanisms)
    requires b' == b.(objects := b'.objects, mechanisms := b'.mechanisms)
    requires multiset(a.objects) == multiset(a'.objects) && multiset(b.objects) == multiset(b'.objects)
    requires multiset(a.mechanisms) == multiset(a'.mechanisms) && multiset(b.mechanisms) == multiset(b'.mechanisms)
    ensures DiffOf(a, b) == DiffOf(a', b')
  {
    SameMembers(a.objects, a'.objects);
    SameMembers(b.objects, b'.objects);
    SameMembers(a.mechanisms, a'.mechanisms);
    SameMembers(b.mechanisms, b'.mechanisms);
    assert KeySet(a.objects) == KeySet(a'.objects) && KeySet(b.objects) == KeySet(b'.objects);
    assert Names(a.mechanisms) == Names(a'.mechanisms) && Names(b.mechanisms) == Names(b'.mechanisms);
    var ks := Keys(a.objects, b.objects);
    OverPermuted(ks, a.objects, b.objects, a'.objects, b'.objects);
    OverPermuted(ks, b.objects, a.objects, b'.objects, a'.objects);
  }

  // ---- mirror symmetry ----

  function SwapPair(p: Pair): Pair { Pair(p.field, p.newValue, p.oldValue) }

  function SwapChange(c: FieldChange): FieldChange { FieldChange(c.ref, c.field, c.newValue, c.oldValue) }

  /** The same drift told backwards. */
  function Mirror(d: Diff): Diff {
    Diff(d.newAt, d.oldAt, Map(d.tokenChanges, SwapChange),
         d.mechanismsRemoved, d.mechanismsAdded, d.objectsRemoved, d.objectsAdded,
         Map(d.objectChanges, SwapChange))
  }

  lemma {:induction false} ChangesMirror(ref: string, pairs: seq<Pair>)
    ensures Changes(ref, Map(pairs, SwapPair)) == Map(Changes(ref, pairs), SwapChange)
  {
    if pairs == [] {
      assert Map(pairs, SwapPair) == [];
    } else {
      var init, p := pairs[..|pairs| - 1], pairs[|pairs| - 1];
      ChangesMirror(ref, init);
      assert Map(pairs, SwapPair) == Map(init, SwapPair) + [SwapPair(p)];
      FilterSnoc(Map(init, SwapPair), SwapPair(p), Differs);
      if Differs(p) {
        MapSnoc(Filter(init, Differs), p, AsChange(ref));
        MapSnoc(Filter(Map(init, SwapPair), Differs), SwapPair(p), AsChange(ref));
        MapSnoc(Changes(ref, init), AsChange(ref)(p), SwapChange);
      }
    }
  }

  lemma AttrPairsMirror(o: Object, n: Object)
    ensures AttrPairs(n, o) == Map(AttrPairs(o, n), SwapPair)
  {
    assert BoolPairs(n, o) == Map(BoolPairs(o, n), SwapPair);
    assert CertPairs(n, o) == Map(CertPairs(o, n), SwapPair);
  }

  lemma GroupChangesMirror(k: string, a: seq<Object>, b: seq<Object>)
    requires AllKeyable(a) && AllKeyable(b)
    ensures GroupChanges(Group(b, k), Group(a, k)) == Map(GroupChanges(Group(a, k), Group(b, k)), SwapChange)
  {
    var olds, news := Group(a, k), Group(b, k);
    if |olds| == 1 && |news| == 1 {
      FilterMembers(a, HasKey(k));
      FilterMembers(b, HasKey(k));
      assert olds[0] in olds && news[0] in news;
      ObjectKeyInjective(olds[0], news[0]);
      AttrPairsMirror(olds[0], news[0]);
      ChangesMirror(ObjectRef(news[0]), AttrPairs(olds[0], news[0]));
    }
  }

  lemma {:induction false} ChangesOverMirror(keys: seq<string>, a: seq<Object>, b: seq<Object>)
    requires AllKeyable(a) && AllKeyable(b)
    ensures ChangesOver(keys, b, a) == Map(ChangesOver(keys, a, b), SwapChange)
  {
    if keys == [] {
      assert Map(ChangesOver(keys, a, b), SwapChange) == [];
    } else {
      var init, k := keys[..|keys| - 1], keys[|keys| - 1];
      ChangesOverMirror(init, a, b);
      GroupChangesMirror(k, a, b);
      MapAppend(ChangesOver(init, a, b), GroupChanges(Group(a, k), Group(b, k)), SwapChange);
    }
  }

  lemma TokenMirror(a: Inventory, b: Inventory)
    ensures Changes("", TokenPairs(b, a)) == Map(Changes("", TokenPairs(a, b)), SwapChange)
  {
    assert TokenPairs(b, a) == Map(TokenPairs(a, b), SwapPair);
    ChangesMirror("", TokenPairs(a, b));
  }

  /** Comparing the other way round is exactly the mirrored diff. */
  lemma DiffMirrors(a: Inventory, b: Inventory)
    requires AllKeyable(a.objects) && AllKeyable(b.objects)
    ensures DiffOf(b, a) == Mirror(DiffOf(a, b))
  {
    assert KeySet(b.objects) + KeySet(a.objects) == KeySet(a.objects) + KeySet(b.objects);
    ChangesOverMirror(Keys(a.objects, b.objects), a.objects, b.objects);
    TokenMirror(a, b);
  }

  // ---- conservation ----

  function InKeys(ks: set<string>): Object -> bool { (o: Object) => ObjectKey(o) in ks }

  lemma GroupBalance(olds: seq<Object>, news: seq<Object>)
    ensures |GroupAdded(olds, news)| - |GroupAdded(news, olds)| == |news| - |olds|
  {
  }

  lemma OneMoreKey(init: seq<string>, k: string, objs: seq<Object>)
    requires k !in init
    ensures CountIf(objs, InKeys(set x | x in init + [k])) == CountIf(objs, InKeys(set x | x in init)) + |Group(objs, k)|
  {
    CountIfSplit(objs, InKeys(set x | x in init), HasKey(k), InKeys(set x | x in init + [k]));
    FilterLength(objs, HasKey(k));
  }

  lemma {:induction false} OverBalance(keys: seq<string>, a: seq<Object>, b: seq<Object>)
    requires forall i, j :: 0 <= i < j < |keys| ==> keys[i] != keys[j]
    ensures |AddedOver(keys, a, b)| - |AddedOver(keys, b, a)|
         == CountIf(b, InKeys(set k | k in keys)) - CountIf(a, InKeys(set k | k in keys))
  {
    if keys == [] {
      CountIfPositive(a, InKeys(set k | k in keys));
      CountIfPositive(b, InKeys(set k | k in keys));
    } else {
      var init, k := keys[..|keys| - 1], keys[|keys| - 1];
      assert keys == init + [k];
      OverBalance(init, a, b);
      OneMoreKey(init, k, a);
      OneMoreKey(init, k, b);
      GroupBalance(Group(a, k), Group(b, k));
    }
  }

  lemma {:induction false} CountAll(objs: seq<Object>, p: Object -> bool)
    requires forall o :: o in objs ==> p(o)
    ensures CountIf(objs, p) == |objs|
  {
    if objs != [] { CountAll(objs[..|objs| - 1], p); }
  }

  lemma DiffObjects(a: Inventory, b: Inventory)
    ensures DiffOf(a, b).objectsAdded == AddedOver(Keys(a.objects, b.objects), a.objects, b.objects)
    ensures DiffOf(a, b).objectsRemoved == AddedOver(Keys(a.objects, b.objects), b.objects, a.objects)
  {
  }

  /** Additions minus removals is the growth of the inventory. */
  lemma DiffConserves(a: Inventory, b: Inventory)
    ensures |DiffOf(a, b).objectsAdded| - |DiffOf(a, b).objectsRemoved| == |b.objects| - |a.objects|
  {
    hide KeySet, DiffOf, AddedOver;
    var ks := Keys(a.objects, b.objects);
    EnumeratesMembers(ks, KeySet(a.objects) + KeySet(b.objects), StringLe);
    OverBalance(ks, a.objects, b.objects);
    DiffObjects(a, b);
    assert KeySet(a.objects) <= set k | k in ks;
    assert KeySet(b.objects) <= set k | k in ks;
    CountKeyed(a.objects, set k | k in ks);
    CountKeyed(b.objects, set k | k in ks);
  }

  lemma CountKeyed(objs: seq<Object>, ks: set<string>)
    requires KeySet(objs) <= ks
    ensures CountIf(objs, InKeys(ks)) == |objs|
  {
    forall o | o in objs ensures InKeys(ks)(o) { assert ObjectKey(o) in KeySet(objs); }
    CountAll(objs, InKeys(ks));
  }

  // ---- emptiness ----

  lemma {:induction false} KeyCount(objs: seq<Object>, k: string)
    ensures multiset(Map(objs, ObjectKey))[k] == |Group(objs, k)|
  {
    if objs != [] {
      var init, o := objs[..|objs| - 1], objs[|objs| - 1];
      KeyCount(init, k);
      assert Map(objs, ObjectKey) == Map(init, ObjectKey) + [ObjectKey(o)];
    }
  }

  /** Nothing under any of the keys appeared, disappeared or changed. */
  ghost predicate GroupsAgree(keys: seq<string>, a: seq<Object>, b: seq<Object>) {
    forall k :: k in keys ==>
      && |Group(a, k)| == |Group(b, k)|
      && (|Group(a, k)| == 1 ==> SameAttrs(Group(a, k)[0], Group(b, k)[0]))
  }

  lemma {:induction false} NothingOver(keys: seq<string>, a: seq<Object>, b: seq<Object>)
    ensures AddedOver(keys, a, b) == [] && AddedOver(keys, b, a) == [] && ChangesOver(keys, a, b) == []
       <==> GroupsAgree(keys, a, b)
  {
    if keys != [] {
      var init, k := keys[..|keys| - 1], keys[|keys| - 1];
      assert keys == init + [k];
      NothingOver(init, a, b);
      var olds, news := Group(a, k), Group(b, k);
      if |olds| == 1 && |news| == 1 { SameAttrsIffNoChange(olds[0], news[0], ObjectRef(news[0])); }
      assert GroupAdded(olds, news) == [] && GroupAdded(news, olds) == [] && GroupChanges(olds, news) == []
        <==> |olds| == |news| && (|olds| == 1 ==> SameAttrs(olds[0], news[0]));
    }
  }

  lemma SetListEmpty(s: set<string>)
    ensures AscendingStrings(s) == [] <==> s == {}
  {
    EnumeratesMembers(AscendingStrings(s), s, StringLe);
  }

  lemma SameTokenIffNoChange(a: Inventory, b: Inventory)
    ensures Changes("", TokenPairs(a, b)) == [] <==> SameToken(a, b)
  {
    var ps := TokenPairs(a, b);
    NoChanges("", ps);
    if ps != [] {
      assert (forall i :: 0 <= i < |ps| ==> !Differs(ps[i]))
        <==> !Differs(ps[0]) && !Differs(ps[1]) && !Differs(ps[2]) && !Differs(ps[3]) && !Differs(ps[4]);
    }
  }

  /** o and n are the only objects of their inventories under one key. */
  predicate Matched(a: seq<Object>, b: seq<Object>, o: Object, n: Object) {
    ObjectKey(o) == ObjectKey(n) && |Group(a, ObjectKey(o))| == 1 && |Group(b, ObjectKey(o))| == 1
  }

  ghost predicate MatchedAgree(a: seq<Object>, b: seq<Object>) {
    forall o, n :: o in a && n in b && Matched(a, b, o, n) ==> SameAttrs(o, n)
  }

  /** What drift detection tracks. */
  ghost predicate TrackedAgree(a: Inventory, b: Inventory) {
    && SameToken(a, b)
    && Names(a.mechanisms) == Names(b.mechanisms)
    && multiset(Map(a.objects, ObjectKey)) == multiset(Map(b.objects, ObjectKey))
    && MatchedAgree(a.objects, b.objects)
  }

  lemma NotAKey(objs: seq<Object>, k: string)
    requires k !in KeySet(objs)
    ensures Group(objs, k) == []
  {
    FilterLength(objs, HasKey(k));
    CountIfPositive(objs, HasKey(k));
    assert forall i :: 0 <= i < |objs| ==> ObjectKey(objs[i]) in KeySet(objs);
  }

  lemma AgreeByKey(a: seq<Object>, b: seq<Object>)
    requires GroupsAgree(Keys(a, b), a, b)
    ensures multiset(Map(a, ObjectKey)) == multiset(Map(b, ObjectKey)) && MatchedAgree(a, b)
  {
    var ks := Keys(a, b);
    EnumeratesMembers(ks, KeySet(a) + KeySet(b), StringLe);
    forall k ensures multiset(Map(a, ObjectKey))[k] == multiset(Map(b, ObjectKey))[k] {
      KeyCount(a, k);
      KeyCount(b, k);
      if k !in ks { NotAKey(a, k); NotAKey(b, k); }
    }
    forall o, n | o in a && n in b && Matched(a, b, o, n) ensures SameAttrs(o, n) {
      OnlyMember(a, o);
      OnlyMember(b, n);
      assert ObjectKey(o) in ks;
    }
  }

  lemma AgreeAsMultisets(a: seq<Object>, b: seq<Object>, k: string)
    requires multiset(Map(a, ObjectKey)) == multiset(Map(b, ObjectKey)) && MatchedAgree(a, b)
    ensures |Group(a, k)| == |Group(b, k)|
    ensures |Group(a, k)| == 1 ==> SameAttrs(Group(a, k)[0], Group(b, k)[0])
  {
    KeyCount(a, k);
    KeyCount(b, k);
    if |Group(a, k)| == 1 {
      var o, n := Group(a, k)[0], Group(b, k)[0];
      FilterMembers(a, HasKey(k));
      FilterMembers(b, HasKey(k));
      assert o in Group(a, k) && n in Group(b, k);
      assert Matched(a, b, o, n);
    }
  }

  lemma GroupsAgreeMeaning(a: seq<Object>, b: seq<Object>)
    ensures GroupsAgree(Keys(a, b), a, b)
       <==> multiset(Map(a, ObjectKey)) == multiset(Map(b, ObjectKey)) && MatchedAgree(a, b)
  {
    if GroupsAgree(Keys(a, b), a, b) { AgreeByKey(a, b); }
    if multiset(Map(a, ObjectKey)) == multiset(Map(b, ObjectKey)) && MatchedAgree(a, b) {
      forall k | k in Keys(a, b)
        ensures |Group(a, k)| == |Group(b, k)|
        ensures |Group(a, k)| == 1 ==> SameAttrs(Group(a, k)[0], Group(b, k)[0])
      {
        AgreeAsMultisets(a, b, k);
      }
    }
  }

  lemma OnlyMember(objs: seq<Object>, o: Object)
    requires o in objs && |Group(objs, ObjectKey(o))| == 1
    ensures Group(objs, ObjectKey(o))[0] == o
  {
    FilterMembers(objs, HasKey(ObjectKey(o)));
    assert o in Group(objs, ObjectKey(o));
  }

  /** No drift is reported exactly when everything drift detection tracks agrees:
      compared token fields, mechanism names, the multiset of object keys, and
      the compared attributes of uniquely keyed objects. */
  lemma EmptyExactly(a: Inventory, b: Inventory)
    ensures DiffOf(a, b).Empty() <==> TrackedAgree(a, b)
  {
    SameTokenIffNoChange(a, b);
    SetListEmpty(Names(b.mechanisms) - Names(a.mechanisms));
    SetListEmpty(Names(a.mechanisms) - Names(b.mechanisms));
    NothingOver(Keys(a.objects, b.objects), a.objects, b.objects);
    GroupsAgreeMeaning(a.objects, b.objects);
  }

  // ---- the program ----

  method CompareToken(a: Inventory, b: Inventory) returns (changes: seq<FieldChange>)
    ensures changes == Changes("", TokenPairs(a, b))
  {
    changes := [];
    var pairs := TokenPairs(a, b);
    for i := 0 to |pairs|
      invariant changes == Changes("", pairs[..i])
    {
      var p := pairs[i];
      assert pairs[..i + 1] == pairs[..i] + [p];
      FilterSnoc(pairs[..i], p, Differs);
      if p.oldValue != p.newValue {
        MapSnoc(Filter(pairs[..i], Differs), p, AsChange(""));
        changes := changes + [FieldChange("", p.field, p.oldValue, p.newValue)];
      }
    }
    assert pairs[..|pairs|] == pairs;
  }

  method NameSet(mechs: seq<string>) returns (names: set<string>)
    ensures names == Names(mechs)
  {
    names := {};
    for i := 0 to |mechs|
      invariant names == Names(mechs[..i])
    {
      assert mechs[..i + 1] == mechs[..i] + [mechs[i]];
      names := names + {mechs[i]};
    }
    assert mechs[..|mechs|] == mechs;
  }

  method CompareMechanisms(a: Inventory, b: Inventory) returns (added: seq<string>, removed: seq<string>)
    ensures added == AscendingStrings(Names(b.mechanisms) - Names(a.mechanisms))
    ensures removed == AscendingStrings(Names(a.mechanisms) - Names(b.mechanisms))
  {
    var oldSet := NameSet(a.mechanisms);
    var newSet := NameSet(b.mechanisms);
    added := SortedNames(newSet - oldSet);
    removed := SortedNames(oldSet - newSet);
  }

  ghost predicate IsByKey(m: map<string, seq<Object>>, objs: seq<Object>) {
    && m.Keys == KeySet(objs)
    && (forall k :: k in m ==> m[k] == Group(objs, k))
  }

  lemma GroupSnoc(objs: seq<Object>, o: Object, k: string)
    ensures Group(objs + [o], k) == if ObjectKey(o) == k then Group(objs, k) + [o] else Group(objs, k)
  {
    FilterSnoc(objs, o, HasKey(k));
  }

  lemma KeySetSnoc(objs: seq<Object>, o: Object)
    ensures KeySet(objs + [o]) == KeySet(objs) + {ObjectKey(o)}
  {
    hide ObjectKey;
    assert o in objs + [o];
  }

  method ByKey(objs: seq<Object>) returns (m: map<string, seq<Object>>)
    ensures IsByKey(m, objs)
  {
    hide Group, ObjectKey;
    m := map[];
    for i := 0 to |objs|
      invariant IsByKey(m, objs[..i])
    {
      var o := objs[i];
      var k := ObjectKey(o);
      assert objs[..i + 1] == objs[..i] + [o];
      forall x ensures Group(objs[..i] + [o], x) == if x == k then Group(objs[..i], x) + [o] else Group(objs[..i], x) {
        GroupSnoc(objs[..i], o, x);
      }
      KeySetSnoc(objs[..i], o);
      if k !in m { NotAKey(objs[..i], k); }
      m := m[k := (if k in m then m[k] else []) + [o]];
    }
    assert objs[..|objs|] == objs;
  }

  /** The loop over one key's objects that appends their references. */
  method CompareGroup(olds: seq<Object>, news: seq<Object>)
    returns (added: seq<string>, removed: seq<string>, changes: seq<FieldChange>)
    ensures added == GroupAdded(olds, news) && removed == GroupAdded(news, olds) && changes == GroupChanges(olds, news)
  {
    added, removed, changes := [], [], [];
    if |olds| == 0 {
      for i := 0 to |news|
        invariant added == Map(news[..i], ObjectRef)
      {
        added := added + [ObjectRef(news[i])];
      }
      assert news[..|news|] == news;
    } else if |news| == 0 {
      for i := 0 to |olds|
        invariant removed == Map(olds[..i], ObjectRef)
      {
        removed := removed + [ObjectRef(olds[i])];
      }
      assert olds[..|olds|] == olds;
    } else {
      if |olds| == 1 && |news| == 1 {
        changes := CompareAttrs(olds[0], news[0]);
      }
      added := Surplus(|olds|, news);
      removed := Surplus(|news|, olds);
    }
  }

  method Surplus(from: nat, objs: seq<Object>) returns (refs: seq<string>)
    ensures refs == if from < |objs| then Map(objs[from..], DuplicateRef) else []
  {
    refs := [];
    var i := from;
    while i < |objs|
      invariant from <= i && (i <= |objs| || i == from)
      invariant refs == if from < |objs| then Map(objs[from..i], DuplicateRef) else []
    {
      MapSnoc(objs[from..i], objs[i], DuplicateRef);
      assert objs[from..i + 1] == objs[from..i] + [objs[i]];
      refs := refs + [DuplicateRef(objs[i])];
      i := i + 1;
    }
    assert from < |objs| ==> objs[from..i] == objs[from..];
  }

  method CompareAttrs(o: Object, n: Object) returns (changes: seq<FieldChange>)
    ensures changes == Changes(ObjectRef(n), AttrPairs(o, n))
  {
    var ref, pairs := ObjectRef(n), AttrPairs(o, n);
    changes := [];
    for i := 0 to |pairs|
      invariant changes == Changes(ref, pairs[..i])
    {
      var p := pairs[i];
      assert pairs[..i + 1] == pairs[..i] + [p];
      FilterSnoc(pairs[..i], p, Differs);
      if p.oldValue != p.newValue {
        MapSnoc(Filter(pairs[..i], Differs), p, AsChange(ref));
        changes := changes + [FieldChange(ref, p.field, p.oldValue, p.newValue)];
      }
    }
    assert pairs[..|pairs|] == pairs;
  }

  lemma OverNothing(a: seq<Object>, b: seq<Object>)
    ensures AddedOver([], a, b) == [] && AddedOver([], b, a) == [] && ChangesOver([], a, b) == []
  {
  }

  lemma OverSnoc(keys: seq<string>, k: string, a: seq<Object>, b: seq<Object>)
    ensures AddedOver(keys + [k], a, b) == AddedOver(keys, a, b) + GroupAdded(Group(a, k), Group(b, k))
    ensures AddedOver(keys + [k], b, a) == AddedOver(keys, b, a) + GroupAdded(Group(b, k), Group(a, k))
    ensures ChangesOver(keys + [k], a, b) == ChangesOver(keys, a, b) + GroupChanges(Group(a, k), Group(b, k))
  {
    assert (keys + [k])[..|keys|] == keys;
  }

  method CompareObjects(a: seq<Object>, b: seq<Object>)
    returns (added: seq<string>, removed: seq<string>, changes: seq<FieldChange>)
    ensures added == AddedOver(Keys(a, b), a, b)
    ensures removed == AddedOver(Keys(a, b), b, a)
    ensures changes == ChangesOver(Keys(a, b), a, b)
  {
    hide AddedOver, ChangesOver, GroupAdded, GroupChanges, Group, ObjectKey, KeySet;
    var oldByKey := ByKey(a);
    var newByKey := ByKey(b);
    OverNothing(a, b);
    var sorted := SortedNames(oldByKey.Keys + newByKey.Keys);
    added, removed, changes := [], [], [];
    for i := 0 to |sorted|
      invariant added == AddedOver(sorted[..i], a, b)
      invariant removed == AddedOver(sorted[..i], b, a)
      invariant changes == ChangesOver(sorted[..i], a, b)
    {
      var k := sorted[i];
      OverSnoc(sorted[..i], k, a, b);
      assert sorted[..i + 1] == sorted[..i] + [k];
      if k !in oldByKey { NotAKey(a, k); }
      if k !in newByKey { NotAKey(b, k); }
      var olds := if k in oldByKey then oldByKey[k] else [];
      var news := if k in newByKey then newByKey[k] else [];
      var plus, minus, changed := CompareGroup(olds, news);
      added, removed, changes := added + plus, removed + minus, changes + changed;
    }
    assert sorted[..|sorted|] == sorted;
  }

  method Compare(a: Inventory, b: Inventory) returns (d: Diff)
    ensures d == DiffOf(a, b)
  {
    var tokenChanges := CompareToken(a, b);
    var mechanismsAdded, mechanismsRemoved := CompareMechanisms(a, b);
    var objectsAdded, objectsRemoved, objectChanges := CompareObjects(a.objects, b.objects);
    d := Diff(a.scannedAt, b.scannedAt, tokenChanges, mechanismsAdded, mechanismsRemoved,
              objectsAdded, objectsRemoved, objectChanges);
  }
}
