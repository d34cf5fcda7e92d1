/** The shared-key report in the words of the inventories
    (internal/sharedkeys/sharedkeys.go). */
module SharedKeysMeaning {
  import opened Seqs
  import opened Order
  import I = Inventory
  import opened SharedKeys

  /** l is where source s holds the private key o. */
  predicate LocationOn(s: Source, o: I.Object, fp: string, l: Location) {
    && s.inventory != None && o in s.inventory.value.objects
    && o.class_ == "private-key" && o.fingerprint == fp && fp != ""
    && l.hsmID == s.hsmID && l.hsmLabel == s.hsmLabel && l.serial == s.serial && l.source == s.source
    && l.ref == (if o.name != "" then o.name else if o.id != "" then "id " + o.id else "(unnamed)")
    && l.keyType == o.keyType
  }

  ghost predicate HeldAt(sources: seq<Source>, fp: string, l: Location) {
    exists s, o :: s in sources && LocationOn(s, o, fp, l)
  }

  lemma SightingIsLocation(s: Source, o: I.Object, fp: string, l: Location)
    requires s.inventory.Some?
    ensures o in s.inventory.value.objects && IsPrivateKey(o) && Sighting(fp, l) == SightingOf(s)(o) <==> LocationOn(s, o, fp, l)
  {
  }

  lemma PlacesMeaning(sources: seq<Source>, fp: string, l: Location)
    ensures l in Places(Sightings(sources), fp) <==> HeldAt(sources, fp, l)
  {
    hide Sightings, SightingsOn, LocationOn, IsPrivateKey, SightingOf;
    var g := Sighting(fp, l);
    PlaceMeaning(Sightings(sources), fp, l);
    SightingMeaning(sources, g);
    if s :| s in sources && g in SightingsOn(s) {
      SightingOnMeaning(s, g);
      var o :| o in s.inventory.value.objects && IsPrivateKey(o) && g == SightingOf(s)(o);
      SightingIsLocation(s, o, fp, l);
    }
    if s, o :| s in sources && LocationOn(s, o, fp, l) {
      LocationNeedsInventory(s, o, fp, l);
      SightingIsLocation(s, o, fp, l);
      SightingOnMeaning(s, g);
    }
  }

  lemma LocationNeedsInventory(s: Source, o: I.Object, fp: string, l: Location)
    requires LocationOn(s, o, fp, l)
    ensures s.inventory.Some?
  {
  }

  /** Private keys of the source with the fingerprint. */
  function KeysOn(s: Source, fp: string): nat {
    if s.inventory == None then 0
    else CountIf(s.inventory.value.objects, (o: I.Object) => o.class_ == "private-key" && o.fingerprint == fp && fp != "")
  }

  function KeysOnAll(sources: seq<Source>, fp: string): nat {
    if sources == [] then 0 else KeysOnAll(sources[..|sources| - 1], fp) + KeysOn(sources[|sources| - 1], fp)
  }

  lemma {:induction false} SightedOn(objs: seq<I.Object>, s: Source, fp: string)
    ensures CountIf(Map(Filter(objs, IsPrivateKey), SightingOf(s)), OfKey(fp))
         == CountIf(objs, (o: I.Object) => o.class_ == "private-key" && o.fingerprint == fp && fp != "")
  {
    if objs != [] {
      var init, o := objs[..|objs| - 1], objs[|objs| - 1];
      SightedOn(init, s, fp);
      if IsPrivateKey(o) {
        MapSnoc(Filter(init, IsPrivateKey), o, SightingOf(s));
        CountIfAppend(Map(Filter(init, IsPrivateKey), SightingOf(s)), SightingOf(s)(o), OfKey(fp));
      }
    }
  }

  lemma {:induction false} SightedCount(sources: seq<Source>, fp: string)
    ensures CountIf(Sightings(sources), OfKey(fp)) == KeysOnAll(sources, fp)
  {
    hide Seqs.CountIf;
    if sources == [] {
      assert CountIf([], OfKey(fp)) == 0 by { NoneSighted(fp); }
    } else {
      var init, s := sources[..|sources| - 1], sources[|sources| - 1];
      SightedCount(init, fp);
      CountBoth(Sightings(init), SightingsOn(s), OfKey(fp));
      if s.inventory.Some? { SightedOn(s.inventory.value.objects, s, fp); } else { NoneSighted(fp); }
    }
  }

  lemma NoneSighted(fp: string)
    ensures CountIf([], OfKey(fp)) == 0
  {
  }

  lemma {:induction false} CountBoth<T>(a: seq<T>, b: seq<T>, p: T -> bool)
    ensures CountIf(a + b, p) == CountIf(a, p) + CountIf(b, p)
  {
    FilterAppend(a, b, p);
    FilterLength(a + b, p);
    FilterLength(a, p);
    FilterLength(b, p);
  }

  lemma {:induction false} FirstTypeMeaning(ls: seq<Location>)
    ensures FirstType(ls) == "" ==> forall i :: 0 <= i < |ls| ==> ls[i].keyType == ""
    ensures FirstType(ls) != "" ==> exists i: nat :: FirstTyped(ls, i) && ls[i].keyType == FirstType(ls)
  {
    if ls != [] {
      var init, n := ls[..|ls| - 1], |ls| - 1;
      FirstTypeMeaning(init);
      assert forall j :: 0 <= j < n ==> init[j] == ls[j];
      if FirstType(init) != "" {
        var i: nat :| FirstTyped(init, i) && init[i].keyType == FirstType(init);
        assert FirstTyped(ls, i);
      } else if ls[n].keyType != "" {
        assert FirstTyped(ls, n);
      }
    }
  }

  predicate FirstTyped(ls: seq<Location>, i: nat) { i < |ls| && ls[i].keyType != "" && forall j :: 0 <= j < i ==> ls[j].keyType == "" }

  /** An entry lists the places of its key, every private key with the fingerprint
      once, by HSM and then by name, and shows a key type if one of them has one. */
  lemma EntryMeaning(sources: seq<Source>, out: seq<SharedKey>, k: SharedKey)
    requires IsResult(out, Sightings(sources)) && k in out
    ensures forall l :: l in k.locations <==> HeldAt(sources, k.fingerprint, l)
    ensures |k.locations| == KeysOnAll(sources, k.fingerprint)
    ensures forall i, j :: 0 <= i < j < |k.locations| ==> InPlace(k.locations[i], k.locations[j])
    ensures k.keyType == "" <==> forall l :: l in k.locations ==> l.keyType == ""
    ensures k.keyType != "" ==> exists l :: l in k.locations && l.keyType == k.keyType
  {
    hide Sightings, Places, HeldAt, InPlace;
    var places := Places(Sightings(sources), k.fingerprint);
    Described(out, Sightings(sources), k);
    PermutationLength(k.locations, places);
    forall l ensures l in k.locations <==> HeldAt(sources, k.fingerprint, l) { PlacesMeaning(sources, k.fingerprint, l); }
    SightedCount(sources, k.fingerprint);
    PlacesCount(Sightings(sources), k.fingerprint);
    forall i, j | 0 <= i < j < |k.locations| ensures InPlace(k.locations[i], k.locations[j]) {
      assert LocationLe(k.locations[i], k.locations[j]);
      LeIsInPlace(k.locations[i], k.locations[j]);
    }
    FirstTypeMeaning(places);
    if k.keyType == "" {
      forall l | l in k.locations ensures l.keyType == "" {
        var i :| 0 <= i < |places| && places[i] == l;
      }
    } else {
      var i: nat :| FirstTyped(places, i) && places[i].keyType == FirstType(places);
      assert places[i] in places;
    }
  }

  lemma Described(out: seq<SharedKey>, all: seq<Sighting>, k: SharedKey)
    requires IsResult(out, all) && k in out
    ensures k.keyType == FirstType(Places(all, k.fingerprint))
    ensures multiset(k.locations) == multiset(Places(all, k.fingerprint)) && Sorted(k.locations, LocationLe)
  {
    assert Describes(k, all);
  }

  lemma PlacesCount(all: seq<Sighting>, fp: string)
    ensures |Places(all, fp)| == CountIf(all, OfKey(fp))
  {
    FilterLength(all, OfKey(fp));
  }

  /** Smaller HSM numbers first, then names in ascending order. */
  ghost predicate InPlace(a: Location, b: Location) {
    a.hsmID < b.hsmID || (a.hsmID == b.hsmID && (a.ref == b.ref || Before(a.ref, b.ref)))
  }

  lemma LeIsInPlace(a: Location, b: Location)
    requires LocationLe(a, b)
    ensures InPlace(a, b)
  {
    BeforeMeaning(a.ref, b.ref);
  }

  /** The key type shown is the first one met, in the order of the sources and of
      their objects. */
  lemma TypeIsFirst(sources: seq<Source>, out: seq<SharedKey>, k: SharedKey)
    requires IsResult(out, Sightings(sources)) && k in out && k.keyType != ""
    ensures var places := Places(Sightings(sources), k.fingerprint);
            exists i: nat :: FirstTyped(places, i) && places[i].keyType == k.keyType
  {
    hide Sightings, Places, IsResult;
    Described(out, Sightings(sources), k);
    FirstTypeMeaning(Places(Sightings(sources), k.fingerprint));
  }

  /** The order of the entries: more HSMs first, then fingerprints ascending. */
  lemma EntriesInOrder(sources: seq<Source>, out: seq<SharedKey>, i: nat, j: nat)
    requires IsResult(out, Sightings(sources)) && i < j < |out|
    ensures out[i].hsmCount > out[j].hsmCount
            || (out[i].hsmCount == out[j].hsmCount && Before(out[i].fingerprint, out[j].fingerprint))
  {
    hide Sightings;
    StrictlyRanked(out, Sightings(sources), i, j);
    BeforeMeaning(out[i].fingerprint, out[j].fingerprint);
  }
}
