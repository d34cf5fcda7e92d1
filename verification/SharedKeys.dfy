/** Private keys found on more than one HSM (internal/sharedkeys/sharedkeys.go). */
module SharedKeys {
  import opened Bytes
  import opened Seqs
  import opened Order
  import I = Inventory
  import F = Fingerprint

  datatype Location = Location(hsmID: int, hsmLabel: string, serial: string, source: string, ref: string, keyType: string)

  datatype SharedKey = SharedKey(fingerprint: string, keyType: string, hsmCount: nat, locations: seq<Location>)

  /** One HSM's identity and, if it could be read, its inventory. */
  datatype Source = Source(hsmID: int, hsmLabel: string, serial: string, source: string, inventory: Option<I.Inventory>)

  /** A private key seen somewhere. */
  datatype Sighting = Sighting(fingerprint: string, location: Location)

  function ObjectName(o: I.Object): string {
    if o.name != "" then o.name else if o.id != "" then "id " + o.id else "(unnamed)"
  }

  predicate IsPrivateKey(o: I.Object) { o.class_ == I.PRIVATE_KEY && o.fingerprint != "" }

  function SightingOf(s: Source): I.Object -> Sighting {
    (o: I.Object) => Sighting(o.fingerprint, Location(s.hsmID, s.hsmLabel, s.serial, s.source, ObjectName(o), o.keyType))
  }

  function SightingsOn(s: Source): seq<Sighting> {
    if s.inventory.None? then [] else Map(Filter(s.inventory.value.objects, IsPrivateKey), SightingOf(s))
  }

  /** All private keys of all HSMs, in the order they are met. */
  function Sightings(sources: seq<Source>): seq<Sighting> {
    if sources == [] then [] else Sightings(sources[..|sources| - 1]) + SightingsOn(sources[|sources| - 1])
  }

  // ---- the groups ----

  function OfKey(fp: string): Sighting -> bool { (g: Sighting) => g.fingerprint == fp }

  function LocationOf(g: Sighting): Location { g.location }

  function Places(all: seq<Sighting>, fp: string): seq<Location> { Map(Filter(all, OfKey(fp)), LocationOf) }

  function Hsms(ls: seq<Location>): set<int> { set l | l in ls :: l.hsmID }

  /** The first key type that is not empty. */
  function FirstType(ls: seq<Location>): string {
    if ls == [] then ""
    else
      var t := FirstType(ls[..|ls| - 1]);
      if t != "" then t else ls[|ls| - 1].keyType
  }

  datatype Rank = Rank(count: nat, fingerprint: string)

  /** More HSMs first, then by fingerprint. */
  predicate RankLe(a: Rank, b: Rank) {
    a.count > b.count || (a.count == b.count && StringLe(a.fingerprint, b.fingerprint))
  }

  function RankOf(k: SharedKey): Rank { Rank(k.hsmCount, k.fingerprint) }

  predicate KeyLe(a: SharedKey, b: SharedKey) { RankLe(RankOf(a), RankOf(b)) }

  predicate LocationLe(a: Location, b: Location) {
    a.hsmID < b.hsmID || (a.hsmID == b.hsmID && StringLe(a.ref, b.ref))
  }

  /** Fingerprints met so far. */
  function Fingerprints(all: seq<Sighting>): set<string> { set g | g in all :: g.fingerprint }

  function CountOf(all: seq<Sighting>, fp: string): nat { |Hsms(Places(all, fp))| }

  function RanksAmong(all: seq<Sighting>, fps: set<string>): set<Rank> {
    set fp | fp in fps && CountOf(all, fp) >= 2 :: Rank(CountOf(all, fp), fp)
  }

  /** k describes the group of its fingerprint; locations that agree in HSM and
      object name may come in either order. */
  ghost predicate Describes(k: SharedKey, all: seq<Sighting>) {
    && k.keyType == FirstType(Places(all, k.fingerprint))
    && k.hsmCount == CountOf(all, k.fingerprint)
    && multiset(k.locations) == multiset(Places(all, k.fingerprint))
    && Sorted(k.locations, LocationLe)
  }

  /** out lists exactly the fingerprints on two or more HSMs, in rank order. */
  ghost predicate IsResult(out: seq<SharedKey>, all: seq<Sighting>) {
    && Enumerates(Map(out, RankOf), RanksAmong(all, Fingerprints(all)), RankLe)
    && forall k :: k in out ==> Describes(k, all)
  }

  lemma RankOrder()
    ensures TotalOrder(RankLe)
  {
    StringOrder();
  }

  lemma LocationOrder()
    ensures TotalPreorder(LocationLe)
  {
    StringOrder();
  }

  /** The result is determined: any two agree in everything but the order of
      locations that tie. */
  lemma ResultUnique(a: seq<SharedKey>, b: seq<SharedKey>, all: seq<Sighting>)
    requires IsResult(a, all) && IsResult(b, all)
    ensures |a| == |b|
    ensures forall i :: 0 <= i < |a| ==>
              && a[i].fingerprint == b[i].fingerprint && a[i].keyType == b[i].keyType && a[i].hsmCount == b[i].hsmCount
              && multiset(a[i].locations) == multiset(b[i].locations)
  {
    RankOrder();
    SortedUnique(Map(a, RankOf), Map(b, RankOf), RankLe);
    forall i | 0 <= i < |a|
      ensures a[i].fingerprint == b[i].fingerprint && a[i].keyType == b[i].keyType && a[i].hsmCount == b[i].hsmCount
      ensures multiset(a[i].locations) == multiset(b[i].locations)
    {
      assert Map(a, RankOf)[i] == Map(b, RankOf)[i];
      assert Describes(a[i], all) && Describes(b[i], all);
    }
  }

  // ---- the program ----

  datatype Agg = Agg(keyType: string, locations: seq<Location>, hsms: set<int>)

  ghost predicate IsGroup(g: Agg, ls: seq<Location>) {
    g.keyType == FirstType(ls) && g.locations == ls && g.hsms == Hsms(ls)
  }

  ghost predicate Grouped(groups: map<string, Agg>, all: seq<Sighting>) {
    && groups.Keys == Fingerprints(all)
    && forall fp :: fp in groups ==> IsGroup(groups[fp], Places(all, fp))
  }

  lemma PlacesSnoc(all: seq<Sighting>, g: Sighting, fp: string)
    ensures Places(all + [g], fp) == if g.fingerprint == fp then Places(all, fp) + [g.location] else Places(all, fp)
  {
    FilterSnoc(all, g, OfKey(fp));
    MapSnoc(Filter(all, OfKey(fp)), g, LocationOf);
  }

  lemma GroupSnoc(a: Agg, ls: seq<Location>, l: Location)
    requires IsGroup(a, ls)
    ensures IsGroup(Agg(if a.keyType == "" then l.keyType else a.keyType, a.locations + [l], a.hsms + {l.hsmID}), ls + [l])
  {
    assert (ls + [l])[..|ls|] == ls;
    assert l in ls + [l];
  }

  lemma NoPlaces(all: seq<Sighting>, fp: string)
    requires fp !in Fingerprints(all)
    ensures Places(all, fp) == []
  {
    FilterMembers(all, OfKey(fp));
    if Filter(all, OfKey(fp)) != [] {
      var g := Filter(all, OfKey(fp))[0];
      assert g in Filter(all, OfKey(fp));
      assert g in all && g.fingerprint == fp ==> fp in Fingerprints(all);
    }
  }

  method Add(groups: map<string, Agg>, g: Sighting, ghost all: seq<Sighting>) returns (r: map<string, Agg>)
    requires Grouped(groups, all)
    ensures Grouped(r, all + [g])
  {
    hide IsGroup, Places;
    var a := Agg("", [], {});
    if g.fingerprint in groups { a := groups[g.fingerprint]; } else { EmptyGroup(all, g.fingerprint); }
    GroupSnoc(a, Places(all, g.fingerprint), g.location);
    r := groups[g.fingerprint := Agg(if a.keyType == "" then g.location.keyType else a.keyType,
                                     a.locations + [g.location], a.hsms + {g.location.hsmID})];
    assert g in all + [g];
    assert Fingerprints(all + [g]) == Fingerprints(all) + {g.fingerprint};
    forall fp | fp in r ensures IsGroup(r[fp], Places(all + [g], fp)) { PlacesSnoc(all, g, fp); }
  }

  lemma EmptyGroup(all: seq<Sighting>, fp: string)
    requires fp !in Fingerprints(all)
    ensures IsGroup(Agg("", [], {}), Places(all, fp))
  {
    NoPlaces(all, fp);
  }

  method AddObject(groups: map<string, Agg>, s: Source, o: I.Object, ghost all: seq<Sighting>) returns (r: map<string, Agg>)
    requires Grouped(groups, all)
    ensures Grouped(r, if IsPrivateKey(o) then all + [SightingOf(s)(o)] else all)
  {
    hide Grouped;
    r := groups;
    if o.class_ == I.PRIVATE_KEY && o.fingerprint != "" {
      r := Add(r, Sighting(o.fingerprint, Location(s.hsmID, s.hsmLabel, s.serial, s.source, ObjectName(o), o.keyType)), all);
    }
  }

  method AddSource(groups: map<string, Agg>, s: Source, ghost all: seq<Sighting>) returns (r: map<string, Agg>)
    requires Grouped(groups, all)
    ensures Grouped(r, all + SightingsOn(s))
  {
    hide Grouped, SightingOf, IsPrivateKey;
    r := groups;
    ghost var seen: seq<Sighting> := [];
    assert all + seen == all;
    if s.inventory.None? { return; }
    var objs := s.inventory.value.objects;
    for i := 0 to |objs|
      invariant seen == Map(Filter(objs[..i], IsPrivateKey), SightingOf(s))
      invariant Grouped(r, all + seen)
    {
      var o := objs[i];
      assert objs[..i + 1] == objs[..i] + [o];
      FilterSnoc(objs[..i], o, IsPrivateKey);
      r := AddObject(r, s, o, all + seen);
      if IsPrivateKey(o) {
        MapSnoc(Filter(objs[..i], IsPrivateKey), o, SightingOf(s));
        assert all + seen + [SightingOf(s)(o)] == all + (seen + [SightingOf(s)(o)]);
        seen := seen + [SightingOf(s)(o)];
      }
    }
    assert objs[..|objs|] == objs;
  }

  /** An unstable sort: any sorted arrangement may come out. */
  method SortLocations(ls: seq<Location>) returns (r: seq<Location>)
    ensures multiset(r) == multiset(ls) && Sorted(r, LocationLe)
  {
    LocationOrder();
    SortPermutes(ls, LocationLe);
    SortSorts(ls, LocationLe);
    r := Sort(ls, LocationLe);
  }

  /** The unsorted result for the groups handled so far. */
  ghost predicate Collected(out: seq<SharedKey>, done: set<string>, all: seq<Sighting>) {
    && multiset(Map(out, RankOf)) == multiset(RanksAmong(all, done))
    && forall k :: k in out ==> Describes(k, all)
  }

  lemma RanksStep(all: seq<Sighting>, done: set<string>, fp: string)
    requires fp !in done
    ensures RanksAmong(all, done + {fp})
         == RanksAmong(all, done) + (if CountOf(all, fp) >= 2 then {Rank(CountOf(all, fp), fp)} else {})
    ensures Rank(CountOf(all, fp), fp) !in RanksAmong(all, done)
  {
  }

  lemma CollectedStep(out: seq<SharedKey>, done: set<string>, all: seq<Sighting>, k: SharedKey)
    requires Collected(out, done, all) && Describes(k, all) && k.fingerprint !in done && k.hsmCount >= 2
    ensures Collected(out + [k], done + {k.fingerprint}, all)
  {
    hide Describes, CountOf, RanksAmong;
    RanksStep(all, done, k.fingerprint);
    assert k.hsmCount == CountOf(all, k.fingerprint) by { DescribedCount(k, all); }
    MapSnoc(out, k, RankOf);
    assert multiset(RanksAmong(all, done) + {RankOf(k)}) == multiset(RanksAmong(all, done)) + multiset{RankOf(k)};
  }

  lemma DescribedCount(k: SharedKey, all: seq<Sighting>)
    requires Describes(k, all)
    ensures k.hsmCount == CountOf(all, k.fingerprint)
  {
  }

  method CollectShared(groups: map<string, Agg>, ghost all: seq<Sighting>) returns (out: seq<SharedKey>)
    requires Grouped(groups, all)
    ensures Collected(out, Fingerprints(all), all)
  {
    hide Collected, Places, Fingerprints;
    out := [];
    var rest := groups.Keys;
    NothingCollected(all);
    assert groups.Keys - rest == {};
    while rest != {}
      invariant rest <= groups.Keys && Collected(out, groups.Keys - rest, all)
      decreases |rest|
    {
      var fp :| fp in rest;
      var g := groups[fp];
      assert groups.Keys - (rest - {fp}) == (groups.Keys - rest) + {fp};
      if |g.hsms| >= 2 {
        var locs := SortLocations(g.locations);
        var k := SharedKey(fp, g.keyType, |g.hsms|, locs);
        CollectedStep(out, groups.Keys - rest, all, k);
        out := out + [k];
      } else {
        SkipStep(out, groups.Keys - rest, all, fp);
      }
      rest := rest - {fp};
    }
    assert groups.Keys - rest == groups.Keys;
  }

  lemma NothingCollected(all: seq<Sighting>)
    ensures Collected([], {}, all)
  {
    assert RanksAmong(all, {}) == {};
  }

  lemma SkipStep(out: seq<SharedKey>, done: set<string>, all: seq<Sighting>, fp: string)
    requires Collected(out, done, all) && fp !in done && CountOf(all, fp) < 2
    ensures Collected(out, done + {fp}, all)
  {
    RanksStep(all, done, fp);
  }

  lemma SortedIsResult(out: seq<SharedKey>, all: seq<Sighting>)
    requires Collected(out, Fingerprints(all), all)
    ensures IsResult(Sort(out, KeyLe), all)
  {
    hide Describes, RanksAmong, Fingerprints;
    var sorted := Sort(out, KeyLe);
    RankOrder();
    SortPermutes(out, KeyLe);
    assert TotalPreorder(KeyLe);
    SortSorts(out, KeyLe);
    MapPermutation(sorted, out, RankOf);
    assert Sorted(Map(sorted, RankOf), RankLe);
    PermutationLength(sorted, out);
  }

  /** Groups by fingerprint, ranges over the groups in an arbitrary order, and
      sorts; every run gives the one result there is. */
  method Detect(sources: seq<Source>) returns (out: seq<SharedKey>)
    ensures IsResult(out, Sightings(sources))
  {
    hide Grouped, IsResult, Collected;
    var groups: map<string, Agg> := map[];
    NoGroups();
    for i := 0 to |sources|
      invariant Grouped(groups, Sightings(sources[..i]))
    {
      assert sources[..i + 1][..i] == sources[..i];
      groups := AddSource(groups, sources[i], Sightings(sources[..i]));
    }
    assert sources[..|sources|] == sources;
    var unsorted := CollectShared(groups, Sightings(sources));
    SortedIsResult(unsorted, Sightings(sources));
    out := Sort(unsorted, KeyLe);
  }

  lemma NoGroups()
    ensures Grouped(map[], [])
  {
  }

  // ---- what the result says about the sources ----

  predicate Holds(s: Source, fp: string) {
    s.inventory.Some? && exists o :: o in s.inventory.value.objects && IsPrivateKey(o) && o.fingerprint == fp
  }

  /** The HSMs on which some private key has this fingerprint. */
  function Holders(sources: seq<Source>, fp: string): set<int> { set s | s in sources && Holds(s, fp) :: s.hsmID }

  lemma {:induction false} SightingMeaning(sources: seq<Source>, g: Sighting)
    ensures g in Sightings(sources) <==> exists s :: s in sources && g in SightingsOn(s)
  {
    if sources != [] {
      var init, last := sources[..|sources| - 1], sources[|sources| - 1];
      SightingMeaning(init, g);
      assert sources == init + [last];
      if s :| s in sources && g in SightingsOn(s) { assert s in init || s == last; }
      assert last in sources;
    }
  }

  lemma SightingOnMeaning(s: Source, g: Sighting)
    ensures g in SightingsOn(s)
       <==> s.inventory.Some? && exists o :: o in s.inventory.value.objects && IsPrivateKey(o) && g == SightingOf(s)(o)
  {
    if s.inventory.Some? {
      var objs := s.inventory.value.objects;
      FilterMembers(objs, IsPrivateKey);
      MapMembers(Filter(objs, IsPrivateKey), SightingOf(s), g);
      if o :| o in objs && IsPrivateKey(o) && g == SightingOf(s)(o) { assert o in Filter(objs, IsPrivateKey); }
    }
  }

  lemma PlaceMeaning(all: seq<Sighting>, fp: string, l: Location)
    ensures l in Places(all, fp) <==> Sighting(fp, l) in all
  {
    FilterMembers(all, OfKey(fp));
    MapMembers(Filter(all, OfKey(fp)), LocationOf, l);
    if Sighting(fp, l) in all { assert LocationOf(Sighting(fp, l)) == l && OfKey(fp)(Sighting(fp, l)); }
  }

  /** The HSMs of a group are those holding the key. */
  lemma GroupHsms(sources: seq<Source>, fp: string)
    ensures Hsms(Places(Sightings(sources), fp)) == Holders(sources, fp)
  {
    var all := Sightings(sources);
    forall h | h in Hsms(Places(all, fp)) ensures h in Holders(sources, fp) {
      var l :| l in Places(all, fp) && l.hsmID == h;
      PlaceMeaning(all, fp, l);
      SightingMeaning(sources, Sighting(fp, l));
      var s :| s in sources && Sighting(fp, l) in SightingsOn(s);
      SightingOnMeaning(s, Sighting(fp, l));
      assert Holds(s, fp);
    }
    forall h | h in Holders(sources, fp) ensures h in Hsms(Places(all, fp)) {
      var s :| s in sources && Holds(s, fp) && s.hsmID == h;
      var o :| o in s.inventory.value.objects && IsPrivateKey(o) && o.fingerprint == fp;
      var g := SightingOf(s)(o);
      SightingOnMeaning(s, g);
      SightingMeaning(sources, g);
      PlaceMeaning(all, fp, g.location);
    }
  }

  lemma HeldIsSeen(sources: seq<Source>, fp: string)
    ensures fp in Fingerprints(Sightings(sources)) <==> Holders(sources, fp) != {}
  {
    hide Sightings, Holders, Hsms, Places;
    GroupHsms(sources, fp);
    var all := Sightings(sources);
    if fp in Fingerprints(all) {
      var g :| g in all && g.fingerprint == fp;
      PlaceMeaning(all, fp, g.location);
      HsmOf(Places(all, fp), g.location);
    } else {
      NoPlaces(all, fp);
      assert Hsms([]) == {} by { NoHsms(); }
    }
  }

  lemma HsmOf(ls: seq<Location>, l: Location)
    requires l in ls
    ensures l.hsmID in Hsms(ls)
  {
  }

  lemma NoHsms()
    ensures Hsms([]) == {}
  {
  }

  predicate Listed(out: seq<SharedKey>, fp: string) { exists k :: k in out && k.fingerprint == fp }

  lemma TwoOf<T>(s: set<T>) returns (a: T, b: T)
    requires |s| >= 2
    ensures a in s && b in s && a != b
  {
    a :| a in s;
    var rest := s - {a};
    assert |rest| == |s| - 1;
    b :| b in rest;
  }

  lemma TwoMembers<T(!new)>(s: set<T>)
    ensures |s| >= 2 <==> exists a, b :: a in s && b in s && a != b
  {
    if |s| >= 2 { var a, b := TwoOf(s); }
    if a, b :| a in s && b in s && a != b {
      var rest := s - {a};
      assert |rest| == |s| - 1;
      assert b in rest && |rest| >= 1;
    }
  }

  lemma ListedMeansRanked(out: seq<SharedKey>, all: seq<Sighting>, fp: string)
    requires IsResult(out, all)
    ensures Listed(out, fp) <==> fp in Fingerprints(all) && CountOf(all, fp) >= 2
  {
    hide Fingerprints, CountOf, Describes;
    var ranks := RanksAmong(all, Fingerprints(all));
    EnumeratesMembers(Map(out, RankOf), ranks, RankLe);
    if k :| k in out && k.fingerprint == fp {
      MapMembers(out, RankOf, RankOf(k));
      assert RankOf(k) in ranks;
    }
    if fp in Fingerprints(all) && CountOf(all, fp) >= 2 {
      var r := Rank(CountOf(all, fp), fp);
      assert r in ranks;
      MapMembers(out, RankOf, r);
    }
  }

  /** A fingerprint is reported exactly when private keys with it are on two
      HSMs; the count is the number of such HSMs. */
  lemma SharedExactly(sources: seq<Source>, out: seq<SharedKey>, fp: string)
    requires IsResult(out, Sightings(sources))
    ensures Listed(out, fp)
       <==> exists s, t :: s in sources && t in sources && s.hsmID != t.hsmID && Holds(s, fp) && Holds(t, fp)
    ensures forall k :: k in out ==> k.hsmCount == |Holders(sources, k.fingerprint)|
  {
    hide IsResult, Sightings, Holds, Listed;
    ListedMeansRanked(out, Sightings(sources), fp);
    HeldIsSeen(sources, fp);
    GroupHsms(sources, fp);
    TwoMembers(Holders(sources, fp));
    if s, t :| s in sources && t in sources && s.hsmID != t.hsmID && Holds(s, fp) && Holds(t, fp) {
      assert s.hsmID in Holders(sources, fp) && t.hsmID in Holders(sources, fp);
    }
    if a, b :| a in Holders(sources, fp) && b in Holders(sources, fp) && a != b {
      var s :| s in sources && Holds(s, fp) && s.hsmID == a;
      var t :| t in sources && Holds(t, fp) && t.hsmID == b;
    }
    forall k | k in out ensures k.hsmCount == |Holders(sources, k.fingerprint)| {
      ResultCounts(out, Sightings(sources), k);
      GroupHsms(sources, k.fingerprint);
    }
  }

  lemma ResultCounts(out: seq<SharedKey>, all: seq<Sighting>, k: SharedKey)
    requires IsResult(out, all) && k in out
    ensures k.hsmCount == |Hsms(Places(all, k.fingerprint))|
  {
    assert Describes(k, all);
  }

  /** Each fingerprint once, most widely shared first, then by fingerprint. */
  lemma StrictlyRanked(out: seq<SharedKey>, all: seq<Sighting>, i: nat, j: nat)
    requires IsResult(out, all) && i < j < |out|
    ensures out[i].fingerprint != out[j].fingerprint
    ensures out[i].hsmCount > out[j].hsmCount
            || (out[i].hsmCount == out[j].hsmCount && StringLe(out[i].fingerprint, out[j].fingerprint))
  {
    var ranks := Map(out, RankOf);
    EnumeratesMembers(ranks, RanksAmong(all, Fingerprints(all)), RankLe);
    assert ranks[i] != ranks[j] && RankLe(ranks[i], ranks[j]);
    assert Describes(out[i], all) && Describes(out[j], all);
  }

  /** Which fingerprints are listed, with which counts and in which order, does
      not depend on the order of the sources. */
  lemma SourceOrderIsImmaterial(a: seq<Source>, b: seq<Source>, outA: seq<SharedKey>, outB: seq<SharedKey>)
    requires multiset(a) == multiset(b)
    requires IsResult(outA, Sightings(a)) && IsResult(outB, Sightings(b))
    ensures Map(outA, RankOf) == Map(outB, RankOf)
  {
    PermutationLength(a, b);
    SameRanks(a, b);
    RankOrder();
    SortedUnique(Map(outA, RankOf), Map(outB, RankOf), RankLe);
  }

  lemma SameRanks(a: seq<Source>, b: seq<Source>)
    requires forall s :: s in a <==> s in b
    ensures RanksAmong(Sightings(a), Fingerprints(Sightings(a))) == RanksAmong(Sightings(b), Fingerprints(Sightings(b)))
  {
    hide Sightings, Fingerprints, Hsms, Places;
    var x, y := Sightings(a), Sightings(b);
    forall fp ensures fp in Fingerprints(x) <==> fp in Fingerprints(y)
              ensures CountOf(x, fp) == CountOf(y, fp)
    {
      GroupHsms(a, fp);
      GroupHsms(b, fp);
      HeldIsSeen(a, fp);
      HeldIsSeen(b, fp);
      assert Holders(a, fp) == Holders(b, fp);
    }
    assert Fingerprints(x) == Fingerprints(y);
  }

  /** RSA private keys on two HSMs are reported as shared when their moduli are
      the same integer, and fall in different groups when they are not. */
  lemma SameModulusIsShared(sources: seq<Source>, out: seq<SharedKey>, s: Source, t: Source, o: I.Object, p: I.Object,
                            v: seq<byte>, w: seq<byte>, hash: seq<byte> -> string)
    requires IsResult(out, Sightings(sources)) && F.Injective(hash) && v != [] && w != []
    requires s in sources && t in sources && s.hsmID != t.hsmID && s.inventory.Some? && t.inventory.Some?
    requires o in s.inventory.value.objects && o.class_ == I.PRIVATE_KEY && o.fingerprint == F.OfModulus(v, hash)
    requires p in t.inventory.value.objects && p.class_ == I.PRIVATE_KEY && p.fingerprint == F.OfModulus(w, hash)
    ensures if F.BigEndian(v) == F.BigEndian(w) then o.fingerprint == p.fingerprint && Listed(out, o.fingerprint)
            else o.fingerprint != p.fingerprint
  {
    hide IsResult, Sightings, Listed;
    F.SameModulusExactly(v, w, hash);
    F.SameModulusExactly(w, v, hash);
    SharedExactly(sources, out, o.fingerprint);
    if F.BigEndian(v) == F.BigEndian(w) { assert Holds(s, o.fingerprint) && Holds(t, o.fingerprint); }
  }
}
