/** What a diff says about the two inventories (internal/snapshot/diff.go): which
    side each entry comes from, entry by entry and in order. */
module SnapshotMeaning {
  import opened Seqs
  import opened Order
  import opened Decimal
  import opened Inventory
  import opened Snapshot

  // ---- times, mechanisms, the token ----

  /** A mechanism is listed as added exactly if the second inventory has it and
      the first has not, as removed exactly the other way round; each list is
      strictly ascending. */
  lemma MechanismsMeaning(a: Inventory, b: Inventory)
    ensures var d := DiffOf(a, b);
            && d.oldAt == a.scannedAt && d.newAt == b.scannedAt
            && (forall m :: m in d.mechanismsAdded <==> m in b.mechanisms && m !in a.mechanisms)
            && (forall m :: m in d.mechanismsRemoved <==> m in a.mechanisms && m !in b.mechanisms)
            && (forall i, j :: 0 <= i < j < |d.mechanismsAdded| ==> Before(d.mechanismsAdded[i], d.mechanismsAdded[j]))
            && (forall i, j :: 0 <= i < j < |d.mechanismsRemoved| ==> Before(d.mechanismsRemoved[i], d.mechanismsRemoved[j]))
  {
    hide Before, Keys, AddedOver, ChangesOver, TokenPairs;
    AscendingStringsMeaning(Names(b.mechanisms) - Names(a.mechanisms));
    AscendingStringsMeaning(Names(a.mechanisms) - Names(b.mechanisms));
  }

  /** c tells that a field went from x to y. */
  predicate Tells(c: FieldChange, field: string, x: string, y: string) {
    c.field == field && c.oldValue == x && c.newValue == y && x != y
  }

  predicate TokenChange(o: TokenInfo, n: TokenInfo, c: FieldChange) {
    && c.ref == ""
    && (Tells(c, "token label", o.name, n.name) || Tells(c, "serial number", o.serial, n.serial)
        || Tells(c, "model", o.model, n.model) || Tells(c, "firmware version", o.firmware, n.firmware)
        || Tells(c, "hardware version", o.hardware, n.hardware))
  }

  lemma ChangesMembers(ref: string, pairs: seq<Pair>, c: FieldChange)
    ensures c in Changes(ref, pairs) <==> c.ref == ref && c.oldValue != c.newValue && Pair(c.field, c.oldValue, c.newValue) in pairs
  {
    FilterMembers(pairs, Differs);
    MapMembers(Filter(pairs, Differs), AsChange(ref), c);
    var p := Pair(c.field, c.oldValue, c.newValue);
    if c.ref == ref && c.oldValue != c.newValue && p in pairs {
      assert p in Filter(pairs, Differs) && AsChange(ref)(p) == c;
    }
  }

  /** A token change is listed exactly if both tokens are known and the named
      field differs, with the first token's value as the old one. */
  lemma TokenChangesMeaning(a: Inventory, b: Inventory, c: FieldChange)
    ensures c in DiffOf(a, b).tokenChanges
       <==> a.token.Some? && b.token.Some? && TokenChange(a.token.value, b.token.value, c)
  {
    hide Keys, AddedOver, ChangesOver, Changes, Tells;
    ChangesMembers("", TokenPairs(a, b), c);
    if a.token.Some? && b.token.Some? {
      var o, n := a.token.value, b.token.value;
      FiveMembers(TokenPairs(a, b), Pair(c.field, c.oldValue, c.newValue));
      PairTells(c, "token label", o.name, n.name);
      PairTells(c, "serial number", o.serial, n.serial);
      PairTells(c, "model", o.model, n.model);
      PairTells(c, "firmware version", o.firmware, n.firmware);
      PairTells(c, "hardware version", o.hardware, n.hardware);
    }
  }

  lemma PairTells(c: FieldChange, field: string, x: string, y: string)
    ensures Tells(c, field, x, y) <==> c.oldValue != c.newValue && Pair(c.field, c.oldValue, c.newValue) == Pair(field, x, y)
  {
  }

  lemma FiveMembers<T>(s: seq<T>, x: T)
    requires |s| == 5
    ensures x in s <==> x == s[0] || x == s[1] || x == s[2] || x == s[3] || x == s[4]
  {
  }

  // ---- objects ----

  /** The same class, label and ID. */
  function Alike(o: Object): Object -> bool {
    (p: Object) => p.class_ == o.class_ && p.name == o.name && p.id == o.id
  }

  lemma AlikeIsKey(o: Object, p: Object)
    requires Keyable(o) && Keyable(p)
    ensures Alike(o)(p) <==> ObjectKey(p) == ObjectKey(o)
  {
    if ObjectKey(p) == ObjectKey(o) { ObjectKeyInjective(o, p); }
  }

  lemma AlikeCount(objs: seq<Object>, o: Object)
    requires AllKeyable(objs) && Keyable(o)
    ensures CountIf(objs, Alike(o)) == |Group(objs, ObjectKey(o))|
  {
    forall p | p in objs ensures Alike(o)(p) == HasKey(ObjectKey(o))(p) { AlikeIsKey(o, p); }
    CountIfCongruent(objs, Alike(o), HasKey(ObjectKey(o)));
    FilterLength(objs, HasKey(ObjectKey(o)));
  }

  /** The text an object goes by. */
  lemma RefMeaning(o: Object)
    ensures o.name == "" && o.id == "" ==> ObjectRef(o) == o.class_
    ensures o.name != "" && o.id == "" ==> ObjectRef(o) == o.class_ + " " + o.name
    ensures o.name == "" && o.id != "" ==> ObjectRef(o) == o.class_ + " (id " + o.id + ")"
    ensures o.name != "" && o.id != "" ==> ObjectRef(o) == o.class_ + " " + o.name + " (id " + o.id + ")"
  {
    assert o.class_ + "" == o.class_;
    assert o.class_ + (" " + o.name) == o.class_ + " " + o.name;
    var head := o.class_ + " " + o.name;
    assert head + (" (id " + o.id + ")") == head + " (id " + o.id + ")";
    assert o.class_ + (" (id " + o.id + ")") == o.class_ + " (id " + o.id + ")";
    assert head + "" == head;
  }

  /** r is what is listed for an object of news that olds lacks: its reference
      when olds has none like it, marked when olds has fewer. */
  predicate AddedAs(olds: seq<Object>, news: seq<Object>, o: Object, r: string) {
    && o in news
    && (if CountIf(olds, Alike(o)) == 0 then r == ObjectRef(o)
        else CountIf(olds, Alike(o)) < CountIf(news, Alike(o)) && r == ObjectRef(o) + " (duplicate)")
  }

  lemma GroupMember(objs: seq<Object>, k: string, o: Object)
    ensures o in Group(objs, k) <==> o in objs && ObjectKey(o) == k
  {
    FilterMembers(objs, HasKey(k));
  }

  lemma GroupAddedMeaning(olds: seq<Object>, news: seq<Object>, k: string, r: string)
    requires AllKeyable(olds) && AllKeyable(news)
    ensures r in GroupAdded(Group(olds, k), Group(news, k))
       <==> exists o :: AddedAs(olds, news, o, r) && ObjectKey(o) == k
  {
    hide ObjectKey, ObjectRef, Seqs.CountIf, Group;
    var theirs, mine := Group(olds, k), Group(news, k);
    MapMembers(mine, ObjectRef, r);
    if |theirs| < |mine| { MapMembers(mine[|theirs|..], DuplicateRef, r); }
    if r in GroupAdded(theirs, mine) {
      var o :| o in mine && (if theirs == [] then r == ObjectRef(o) else |theirs| < |mine| && r == DuplicateRef(o));
      GroupMember(news, k, o);
      AlikeCount(olds, o);
      AlikeCount(news, o);
      assert AddedAs(olds, news, o, r);
    }
    if o :| AddedAs(olds, news, o, r) && ObjectKey(o) == k {
      GroupMember(news, k, o);
      AlikeCount(olds, o);
      AlikeCount(news, o);
      if theirs != [] {
        var x := mine[|theirs|];
        assert x in mine && x in mine[|theirs|..];
        GroupMember(news, k, x);
        ObjectKeyInjective(o, x);
        assert DuplicateRef(x) == r;
      }
    }
  }

  lemma {:induction false} AddedOverMembers(keys: seq<string>, a: seq<Object>, b: seq<Object>, r: string)
    ensures r in AddedOver(keys, a, b) <==> exists k :: k in keys && r in GroupAdded(Group(a, k), Group(b, k))
  {
    hide GroupAdded, Group;
    if keys != [] {
      var init, last := keys[..|keys| - 1], keys[|keys| - 1];
      AddedOverMembers(init, a, b, r);
      assert keys == init + [last];
      if k :| k in keys && r in GroupAdded(Group(a, k), Group(b, k)) { assert k in init || k == last; }
      assert last in keys;
    }
  }

  lemma KeysCover(a: seq<Object>, b: seq<Object>, o: Object)
    requires o in a || o in b
    ensures ObjectKey(o) in Keys(a, b)
  {
    EnumeratesMembers(Keys(a, b), KeySet(a) + KeySet(b), StringLe);
  }

  lemma AddedMeaning(a: seq<Object>, b: seq<Object>, olds: seq<Object>, news: seq<Object>, r: string)
    requires AllKeyable(olds) && AllKeyable(news) && ((olds == a && news == b) || (olds == b && news == a))
    ensures r in AddedOver(Keys(a, b), olds, news) <==> exists o :: AddedAs(olds, news, o, r)
  {
    hide GroupAdded, Group, Keys, ObjectKey, AddedAs, AddedOver;
    AddedOverMembers(Keys(a, b), olds, news, r);
    if k :| k in Keys(a, b) && r in GroupAdded(Group(olds, k), Group(news, k)) { GroupAddedMeaning(olds, news, k, r); }
    if o :| AddedAs(olds, news, o, r) {
      AddedIsThere(olds, news, o, r);
      KeysCover(a, b, o);
      GroupAddedMeaning(olds, news, ObjectKey(o), r);
    }
  }

  lemma AddedIsThere(olds: seq<Object>, news: seq<Object>, o: Object, r: string)
    requires AddedAs(olds, news, o, r)
    ensures o in news
  {
  }

  /** Objects listed as added are those of the second inventory that the first
      lacks, under class, label and ID; objects listed as removed the other way
      round. */
  lemma ObjectsMeaning(a: Inventory, b: Inventory, r: string)
    requires AllKeyable(a.objects) && AllKeyable(b.objects)
    ensures r in DiffOf(a, b).objectsAdded <==> exists o :: AddedAs(a.objects, b.objects, o, r)
    ensures r in DiffOf(a, b).objectsRemoved <==> exists o :: AddedAs(b.objects, a.objects, o, r)
  {
    hide AddedAs, AddedOver, Keys;
    DiffObjects(a, b);
    AddedMeaning(a.objects, b.objects, a.objects, b.objects, r);
    AddedMeaning(a.objects, b.objects, b.objects, a.objects, r);
  }

  // ---- changed attributes ----

  function Flag(b: Option<bool>): string {
    match b
    case Some(true) => "true"
    case Some(false) => "false"
    case None => "(not exposed)"
  }

  predicate FlagChange(o: Object, n: Object, c: FieldChange) {
    || Tells(c, "CKA_SENSITIVE", Flag(o.sensitive), Flag(n.sensitive))
    || Tells(c, "CKA_EXTRACTABLE", Flag(o.extractable), Flag(n.extractable))
    || Tells(c, "CKA_SIGN", Flag(o.sign), Flag(n.sign))
    || Tells(c, "CKA_VERIFY", Flag(o.verify), Flag(n.verify))
    || Tells(c, "CKA_ENCRYPT", Flag(o.encrypt), Flag(n.encrypt))
    || Tells(c, "CKA_DECRYPT", Flag(o.decrypt), Flag(n.decrypt))
    || Tells(c, "CKA_WRAP", Flag(o.wrap), Flag(n.wrap))
    || Tells(c, "CKA_UNWRAP", Flag(o.unwrap), Flag(n.unwrap))
    || Tells(c, "CKA_DERIVE", Flag(o.derive), Flag(n.derive))
    || Tells(c, "CKA_MODIFIABLE", Flag(o.modifiable), Flag(n.modifiable))
  }

  predicate ShapeChange(o: Object, n: Object, c: FieldChange) {
    || Tells(c, "key type", o.keyType, n.keyType)
    || Tells(c, "key size", Digits(o.keyBits), Digits(n.keyBits))
    || Tells(c, "curve", o.curve, n.curve)
  }

  predicate CertChange(o: Object, n: Object, c: FieldChange) {
    o.cert.Some? && n.cert.Some? &&
    var x, y := o.cert.value, n.cert.value;
    || Tells(c, "certificate subject", x.subject, y.subject)
    || Tells(c, "certificate expiry", x.expiryDate, y.expiryDate)
    || Tells(c, "certificate serial", x.serial, y.serial)
  }

  /** c tells of an attribute that differs between o and n, o's value first. */
  predicate ChangeOf(o: Object, n: Object, c: FieldChange) {
    c.ref == ObjectRef(n) && (ShapeChange(o, n, c) || FlagChange(o, n, c) || CertChange(o, n, c))
  }

  lemma FlagIsTriState(b: Option<bool>)
    ensures TriState(b) == Flag(b)
  {
  }

  lemma BoolPairMembers(o: Object, n: Object, c: FieldChange)
    requires c.oldValue != c.newValue
    ensures Pair(c.field, c.oldValue, c.newValue) in BoolPairs(o, n) <==> FlagChange(o, n, c)
  {
    hide TriState, Flag, Tells;
    var ps, p := BoolPairs(o, n), Pair(c.field, c.oldValue, c.newValue);
    forall b ensures TriState(b) == Flag(b) { FlagIsTriState(b); }
    assert ps == ps[..5] + ps[5..];
    FiveMembers(ps[..5], p);
    FiveMembers(ps[5..], p);
    PairTells(c, "CKA_SENSITIVE", Flag(o.sensitive), Flag(n.sensitive));
    PairTells(c, "CKA_EXTRACTABLE", Flag(o.extractable), Flag(n.extractable));
    PairTells(c, "CKA_SIGN", Flag(o.sign), Flag(n.sign));
    PairTells(c, "CKA_VERIFY", Flag(o.verify), Flag(n.verify));
    PairTells(c, "CKA_ENCRYPT", Flag(o.encrypt), Flag(n.encrypt));
    PairTells(c, "CKA_DECRYPT", Flag(o.decrypt), Flag(n.decrypt));
    PairTells(c, "CKA_WRAP", Flag(o.wrap), Flag(n.wrap));
    PairTells(c, "CKA_UNWRAP", Flag(o.unwrap), Flag(n.unwrap));
    PairTells(c, "CKA_DERIVE", Flag(o.derive), Flag(n.derive));
    PairTells(c, "CKA_MODIFIABLE", Flag(o.modifiable), Flag(n.modifiable));
  }

  lemma CertPairMembers(o: Object, n: Object, c: FieldChange)
    requires c.oldValue != c.newValue
    ensures Pair(c.field, c.oldValue, c.newValue) in CertPairs(o, n) <==> CertChange(o, n, c)
  {
    var ps := CertPairs(o, n);
    if o.cert.Some? && n.cert.Some? { assert ps[0] in ps && ps[1] in ps && ps[2] in ps; }
  }

  lemma ShapePairMembers(o: Object, n: Object, c: FieldChange)
    requires c.oldValue != c.newValue
    ensures Pair(c.field, c.oldValue, c.newValue)
              in [Pair("key type", o.keyType, n.keyType), Pair("key size", Digits(o.keyBits), Digits(n.keyBits)),
                  Pair("curve", o.curve, n.curve)]
       <==> ShapeChange(o, n, c)
  {
    hide Digits;
    var ps := [Pair("key type", o.keyType, n.keyType), Pair("key size", Digits(o.keyBits), Digits(n.keyBits)),
               Pair("curve", o.curve, n.curve)];
    assert ps[0] in ps && ps[1] in ps && ps[2] in ps;
  }

  lemma ChangeOfMeaning(o: Object, n: Object, c: FieldChange)
    ensures c in Changes(ObjectRef(n), AttrPairs(o, n)) <==> ChangeOf(o, n, c)
  {
    hide BoolPairs, CertPairs, ShapeChange, FlagChange, CertChange, Changes, Digits, ObjectRef;
    ChangesMembers(ObjectRef(n), AttrPairs(o, n), c);
    if c.oldValue != c.newValue {
      BoolPairMembers(o, n, c);
      CertPairMembers(o, n, c);
      ShapePairMembers(o, n, c);
    } else {
      NoSilentChange(o, n, c);
    }
  }

  lemma NoSilentChange(o: Object, n: Object, c: FieldChange)
    requires c.oldValue == c.newValue
    ensures !ChangeOf(o, n, c)
  {
  }

  /** o is the only object of a, and n of b, with its class, label and ID. */
  predicate OnlyPair(a: seq<Object>, b: seq<Object>, o: Object, n: Object) {
    && o in a && n in b && Alike(o)(n) && CountIf(a, Alike(o)) == 1 && CountIf(b, Alike(o)) == 1
  }

  lemma GroupChangesMeaning(a: seq<Object>, b: seq<Object>, k: string, c: FieldChange)
    requires AllKeyable(a) && AllKeyable(b)
    ensures c in GroupChanges(Group(a, k), Group(b, k))
       <==> exists o, n :: OnlyPair(a, b, o, n) && ChangeOf(o, n, c) && ObjectKey(o) == k
  {
    hide ObjectKey, ObjectRef, Seqs.CountIf, Group, ChangeOf, AttrPairs, Changes, Alike;
    var olds, news := Group(a, k), Group(b, k);
    if |olds| == 1 && |news| == 1 {
      var o, n := olds[0], news[0];
      assert o in olds && n in news;
      GroupMember(a, k, o);
      GroupMember(b, k, n);
      AlikeIsKey(o, n);
      AlikeCount(a, o);
      AlikeCount(b, o);
      ChangeOfMeaning(o, n, c);
      assert OnlyPair(a, b, o, n);
    }
    if o, n :| OnlyPair(a, b, o, n) && ChangeOf(o, n, c) && ObjectKey(o) == k {
      GroupMember(a, k, o);
      AlikeIsKey(o, n);
      GroupMember(b, k, n);
      AlikeCount(a, o);
      AlikeCount(b, o);
      assert olds == [o] && news == [n];
      ChangeOfMeaning(o, n, c);
    }
  }

  lemma {:induction false} ChangesOverMembers(keys: seq<string>, a: seq<Object>, b: seq<Object>, c: FieldChange)
    ensures c in ChangesOver(keys, a, b) <==> exists k :: k in keys && c in GroupChanges(Group(a, k), Group(b, k))
  {
    hide GroupChanges, Group;
    if keys != [] {
      var init, last := keys[..|keys| - 1], keys[|keys| - 1];
      ChangesOverMembers(init, a, b, c);
      assert keys == init + [last];
      if k :| k in keys && c in GroupChanges(Group(a, k), Group(b, k)) { assert k in init || k == last; }
      assert last in keys;
    }
  }

  /** An object change is listed exactly if the only objects of the two
      inventories with a class, label and ID differ in that attribute, the first
      inventory's value being the old one. */
  lemma ObjectChangesMeaning(a: Inventory, b: Inventory, c: FieldChange)
    requires AllKeyable(a.objects) && AllKeyable(b.objects)
    ensures c in DiffOf(a, b).objectChanges <==> exists o, n :: OnlyPair(a.objects, b.objects, o, n) && ChangeOf(o, n, c)
  {
    hide GroupChanges, Group, Keys, ObjectKey, OnlyPair, ChangeOf, ChangesOver, AddedOver;
    var ks := Keys(a.objects, b.objects);
    ChangesOverMembers(ks, a.objects, b.objects, c);
    if k :| k in ks && c in GroupChanges(Group(a.objects, k), Group(b.objects, k)) {
      GroupChangesMeaning(a.objects, b.objects, k, c);
    }
    if o, n :| OnlyPair(a.objects, b.objects, o, n) && ChangeOf(o, n, c) {
      PairIsThere(a.objects, b.objects, o, n);
      KeysCover(a.objects, b.objects, o);
      GroupChangesMeaning(a.objects, b.objects, ObjectKey(o), c);
    }
  }

  lemma PairIsThere(a: seq<Object>, b: seq<Object>, o: Object, n: Object)
    requires OnlyPair(a, b, o, n)
    ensures o in a && n in b
  {
  }

  // ---- the order of objects ----

  lemma {:induction false} Origins(keys: seq<string>, a: seq<Object>, b: seq<Object>, i: nat, j: nat) returns (m: nat, n: nat)
    requires i < j < |AddedOver(keys, a, b)|
    ensures m <= n < |keys|
    ensures AddedOver(keys, a, b)[i] in GroupAdded(Group(a, keys[m]), Group(b, keys[m]))
    ensures AddedOver(keys, a, b)[j] in GroupAdded(Group(a, keys[n]), Group(b, keys[n]))
  {
    hide GroupAdded, Group;
    var init, last := keys[..|keys| - 1], |keys| - 1;
    var before := AddedOver(init, a, b);
    if j < |before| {
      m, n := Origins(init, a, b, i, j);
    } else {
      n := last;
      m := last;
      if i < |before| { m := Origin(init, a, b, i); }
    }
  }

  lemma {:induction false} Origin(keys: seq<string>, a: seq<Object>, b: seq<Object>, i: nat) returns (m: nat)
    requires i < |AddedOver(keys, a, b)|
    ensures m < |keys| && AddedOver(keys, a, b)[i] in GroupAdded(Group(a, keys[m]), Group(b, keys[m]))
  {
    hide GroupAdded, Group;
    var init := keys[..|keys| - 1];
    if i < |AddedOver(init, a, b)| { m := Origin(init, a, b, i); } else { m := |keys| - 1; }
  }

  /** The key the objects are sorted by: class, label and ID with NULs between. */
  function SortKey(o: Object): string { o.class_ + [0 as char] + o.name + [0 as char] + o.id }

  ghost predicate NotAfter(olds: seq<Object>, news: seq<Object>, r: string, s: string) {
    exists o, p :: AddedAs(olds, news, o, r) && AddedAs(olds, news, p, s) && (SortKey(o) == SortKey(p) || Before(SortKey(o), SortKey(p)))
  }

  lemma AddedAscend(a: seq<Object>, b: seq<Object>, olds: seq<Object>, news: seq<Object>, i: nat, j: nat)
    requires AllKeyable(olds) && AllKeyable(news) && ((olds == a && news == b) || (olds == b && news == a))
    requires i < j < |AddedOver(Keys(a, b), olds, news)|
    ensures NotAfter(olds, news, AddedOver(Keys(a, b), olds, news)[i], AddedOver(Keys(a, b), olds, news)[j])
  {
    hide GroupAdded, Group, AddedAs, AddedOver, Before, Keys, NotAfter, ObjectKey, SortKey;
    var ks, list := Keys(a, b), AddedOver(Keys(a, b), olds, news);
    var m, n := Origins(ks, olds, news, i, j);
    GroupAddedMeaning(olds, news, ks[m], list[i]);
    GroupAddedMeaning(olds, news, ks[n], list[j]);
    var o :| AddedAs(olds, news, o, list[i]) && ObjectKey(o) == ks[m];
    var p :| AddedAs(olds, news, p, list[j]) && ObjectKey(p) == ks[n];
    KeysAscend(a, b, m, n);
    KeyIsSortKey(o);
    KeyIsSortKey(p);
    InOrder(olds, news, o, p, list[i], list[j]);
  }

  lemma KeyIsSortKey(o: Object)
    ensures SortKey(o) == ObjectKey(o)
  {
  }

  lemma KeysAscend(a: seq<Object>, b: seq<Object>, m: nat, n: nat)
    requires m <= n < |Keys(a, b)|
    ensures m == n || Before(Keys(a, b)[m], Keys(a, b)[n])
  {
    AscendingStringsMeaning(KeySet(a) + KeySet(b));
  }

  lemma InOrder(olds: seq<Object>, news: seq<Object>, o: Object, p: Object, r: string, s: string)
    requires AddedAs(olds, news, o, r) && AddedAs(olds, news, p, s) && (SortKey(o) == SortKey(p) || Before(SortKey(o), SortKey(p)))
    ensures NotAfter(olds, news, r, s)
  {
  }

  /** Both lists of objects are in ascending order of class, label and ID. */
  lemma ObjectsInOrder(a: Inventory, b: Inventory, i: nat, j: nat)
    requires AllKeyable(a.objects) && AllKeyable(b.objects) && i < j
    ensures var l := DiffOf(a, b).objectsAdded; j < |l| ==> NotAfter(a.objects, b.objects, l[i], l[j])
    ensures var l := DiffOf(a, b).objectsRemoved; j < |l| ==> NotAfter(b.objects, a.objects, l[i], l[j])
  {
    hide NotAfter, AddedOver, Keys;
    DiffObjects(a, b);
    if j < |DiffOf(a, b).objectsAdded| { AddedAscend(a.objects, b.objects, a.objects, b.objects, i, j); }
    if j < |DiffOf(a, b).objectsRemoved| { AddedAscend(a.objects, b.objects, b.objects, a.objects, i, j); }
  }
}
