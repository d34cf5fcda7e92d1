/** The key-usage report read off the trace itself: which calls are uses, which
    key each of them is a use of, and what the entries of the report say about
    them (internal/trace/keys.go). */
module KeyUsageMeaning {
  import opened Seqs
  import opened Order
  import opened Trace
  import opened KeyUsage

  // ---- uses, and the keys they are of ----

  /** The functions that put a key to work. */
  const USE_FUNCTIONS: set<Function> := {SignInit, VerifyInit, EncryptInit, DecryptInit, WrapKey, UnwrapKey}

  /** Event j is a find of handle h on session s, and the search it belongs to,
      the latest one begun on the session, was for this label and ID. */
  ghost predicate FoundAs(t: seq<Event>, j: nat, s: nat, h: nat, id: Identity) {
    && j < |t| && t[j].fn == FindObjects && SessionOf(t[j]) == s && t[j].handle == Some(h)
    && (id.keyLabel != "" || id.keyID != "")
    && exists i :: SearchedAs(t, i, j, s, id)
  }

  ghost predicate SearchedAs(t: seq<Event>, i: nat, j: nat, s: nat, id: Identity) {
    && i < j <= |t| && t[i].fn == FindObjectsInit && SessionOf(t[i]) == s
    && t[i].keyLabel == id.keyLabel && t[i].keyID == id.keyID
    && forall l :: i < l < j && SessionOf(t[l]) == s ==> t[l].fn != FindObjectsInit
  }

  /** Before event k, handle h of session s last came out of a search for id. */
  ghost predicate NamedBy(t: seq<Event>, k: nat, s: nat, h: nat, id: Identity) {
    exists j: nat :: j < k && FoundAs(t, j, s, h, id) && forall l: nat, other :: j < l < k ==> !FoundAs(t, l, s, h, other)
  }

  ghost predicate Unnamed(t: seq<Event>, k: nat, s: nat, h: nat) {
    forall j: nat, id :: j < k ==> !FoundAs(t, j, s, h, id)
  }

  lemma {:induction false} PendingIsSearched(t: seq<Event>, j: nat, s: nat, id: Identity)
    requires j <= |t| && id.Named()
    ensures PendingOf(t[..j], s) == id <==> exists i :: SearchedAs(t, i, j, s, id)
  {
    if j > 0 {
      var n := j - 1;
      assert t[..j][..n] == t[..n];
      PendingIsSearched(t, n, s, id);
      var e := t[n];
      if e.fn == FindObjectsInit && SessionOf(e) == s {
        if PendingOf(t[..j], s) == id { assert SearchedAs(t, n, j, s, id); }
        if i :| SearchedAs(t, i, j, s, id) { assert i == n; }
      } else {
        if i :| SearchedAs(t, i, n, s, id) { assert SearchedAs(t, i, j, s, id); }
        if i :| SearchedAs(t, i, j, s, id) { assert SearchedAs(t, i, n, s, id); }
      }
    }
  }

  lemma BindsIsFound(t: seq<Event>, k: nat, j: nat, s: nat, h: nat, id: Identity)
    requires j < k <= |t|
    ensures FoundAs(t, j, s, h, id) <==> Binds(t[..k], j, s, h) && PendingOf(t[..k][..j], s) == id
  {
    PrefixOfPrefix(t, k, j);
    assert t[..k][j] == t[j];
    if id.Named() { PendingIsSearched(t, j, s, id); }
  }

  /** The binding in force at event k is the one NamedBy describes. */
  lemma BindingIsNamedBy(t: seq<Event>, k: nat, s: nat, h: nat)
    requires k <= |t|
    ensures forall id :: BindingOf(t[..k], s, h) == Some(id) <==> NamedBy(t, k, s, h, id)
    ensures BindingOf(t[..k], s, h) == None <==> Unnamed(t, k, s, h)
  {
    hide PendingOf, Binds, BindingOf, FoundAs;
    BindingIsLatest(t[..k], s, h);
    forall j: nat, id | j < k ensures FoundAs(t, j, s, h, id) <==> Binds(t[..k], j, s, h) && PendingOf(t[..k][..j], s) == id {
      BindsIsFound(t, k, j, s, h, id);
    }
    if BindingOf(t[..k], s, h).Some? {
      var id := BindingOf(t[..k], s, h).value;
      var j: nat :| LastBinds(t[..k], j, s, h) && id == PendingOf(t[..k][..j], s);
      assert FoundAs(t, j, s, h, id);
      OnlyName(t, k, j, s, h, id);
    } else {
      forall j: nat, id | j < k ensures !FoundAs(t, j, s, h, id) { assert !Binds(t[..k], j, s, h); }
    }
  }

  lemma OnlyName(t: seq<Event>, k: nat, j: nat, s: nat, h: nat, id: Identity)
    requires k <= |t| && j < k && FoundAs(t, j, s, h, id) && forall l: nat, other :: j < l < k ==> !FoundAs(t, l, s, h, other)
    requires forall other :: FoundAs(t, j, s, h, other) ==> other == id
    ensures forall other :: NamedBy(t, k, s, h, other) <==> other == id
  {
    hide FoundAs;
    assert NamedBy(t, k, s, h, id);
    forall other | NamedBy(t, k, s, h, other) ensures other == id {
      var l: nat :| l < k && FoundAs(t, l, s, h, other) && forall m: nat, x :: l < m < k ==> !FoundAs(t, m, s, h, x);
      assert !(l < j) && !(j < l);
    }
  }

  // ---- the entries ----

  /** The uses of a named key by one function, as positions in the trace. */
  ghost function NamedUses(t: seq<Event>, id: Identity, fn: Function): set<nat> {
    set k: nat | k < |t| && t[k].fn == fn && fn in USE_FUNCTIONS && t[k].handle.Some?
                 && NamedBy(t, k, SessionOf(t[k]), t[k].handle.value, id)
  }

  /** The uses of a handle that no search had named on its session. */
  ghost function BareUses(t: seq<Event>, h: nat, fn: Function): set<nat> {
    set k: nat | k < |t| && t[k].fn == fn && fn in USE_FUNCTIONS && t[k].handle == Some(h)
                 && Unnamed(t, k, SessionOf(t[k]), h)
  }

  ghost function UsesOf(t: seq<Event>, key: UsageKey, fn: Function): set<nat> {
    match key
    case Resolved(id) => NamedUses(t, id, fn)
    case Bare(h) => BareUses(t, h, fn)
  }

  ghost predicate IsUseOf(t: seq<Event>, k: nat, key: UsageKey, fn: Function)
    requires k < |t|
  {
    && t[k].fn == fn && fn in USE_FUNCTIONS && t[k].handle.Some?
    && match key
       case Resolved(id) => NamedBy(t, k, SessionOf(t[k]), t[k].handle.value, id)
       case Bare(h) => t[k].handle == Some(h) && Unnamed(t, k, SessionOf(t[k]), h)
  }

  lemma UseIsRecord(t: seq<Event>, k: nat, key: UsageKey, fn: Function)
    requires k < |t|
    ensures IsUseOf(t, k, key, fn) <==> IsUse(t[k]) && RecordOf(t[..k], t[k]).key == key && RecordOf(t[..k], t[k]).fn == fn
  {
    hide NamedBy, Unnamed, BindingOf;
    if t[k].handle.Some? { BindingIsNamedBy(t, k, SessionOf(t[k]), t[k].handle.value); }
  }

  predicate Counted(t: seq<Event>, k: nat, p: Record -> bool)
    requires k < |t|
  {
    IsUse(t[k]) && p(RecordOf(t[..k], t[k]))
  }

  /** The events whose records satisfy p. */
  lemma {:induction false} UsesAreCounted(t: seq<Event>, n: nat, p: Record -> bool) returns (uses: set<nat>)
    requires n <= |t|
    ensures forall k: nat :: k in uses <==> k < n && Counted(t, k, p)
    ensures |uses| == CountIf(RecordsOf(t[..n]), p)
  {
    hide Seqs.CountIf, RecordsOf, RecordOf, Counted;
    if n == 0 {
      uses := {};
      NoneCounted(t[..0], p);
    } else {
      var m := n - 1;
      var earlier := UsesAreCounted(t, m, p);
      assert t[..n] == t[..m] + [t[m]];
      CountStep(t, m, p);
      uses := if Counted(t, m, p) then earlier + {m} else earlier;
    }
  }

  lemma CountStep(t: seq<Event>, m: nat, p: Record -> bool)
    requires m < |t|
    ensures CountIf(RecordsOf(t[..m] + [t[m]]), p) == CountIf(RecordsOf(t[..m]), p) + if Counted(t, m, p) then 1 else 0
  {
    hide Seqs.CountIf;
    RecordsSnoc(t[..m], t[m]);
    if IsUse(t[m]) { CountIfAppend(RecordsOf(t[..m]), RecordOf(t[..m], t[m]), p); }
  }

  lemma NoneCounted(t: seq<Event>, p: Record -> bool)
    requires t == []
    ensures CountIf(RecordsOf(t), p) == 0
  {
  }

  lemma UseCount(t: seq<Event>, key: UsageKey, fn: Function)
    ensures |UsesOf(t, key, fn)| == CountIf(RecordsOf(t), ForKeyFn(key, fn))
    ensures forall k: nat :: k in UsesOf(t, key, fn) <==> k < |t| && IsUseOf(t, k, key, fn)
  {
    hide NamedBy, Unnamed, RecordsOf, RecordOf, Seqs.CountIf;
    var uses := UsesAreCounted(t, |t|, ForKeyFn(key, fn));
    assert t[..|t|] == t;
    forall k: nat | k < |t| ensures Counted(t, k, ForKeyFn(key, fn)) <==> IsUseOf(t, k, key, fn) { UseIsRecord(t, k, key, fn); }
    assert uses == UsesOf(t, key, fn);
  }

  /** The entry of a key, if the report has one. */
  ghost predicate EntryOf(r: Report, u: Usage, key: UsageKey) {
    u in r.keys && match key
                   case Resolved(id) => u.resolved && u.keyLabel == id.keyLabel && u.keyID == id.keyID
                   case Bare(h) => !u.resolved && u.handle == h
  }

  /** A report has an entry for a key exactly if some event is a use of it, only
      one, and its operation counts are the numbers of those events, function by
      function. */
  lemma EntriesMeaning(t: seq<Event>, r: Report, key: UsageKey)
    requires IsReport(r, RecordsOf(t))
    ensures (exists u :: EntryOf(r, u, key)) <==> exists fn :: UsesOf(t, key, fn) != {}
    ensures forall u, fn :: EntryOf(r, u, key) ==>
              && (fn in u.ops <==> UsesOf(t, key, fn) != {})
              && (fn in u.ops ==> u.ops[fn] == |UsesOf(t, key, fn)|)
    ensures forall i, j :: 0 <= i < j < |r.keys| && EntryOf(r, r.keys[i], key) ==> !EntryOf(r, r.keys[j], key)
  {
    hide UsesOf, RecordsOf, Seqs.CountIf;
    var recs := RecordsOf(t);
    EnumeratesMembers(Map(r.keys, KeyFor), KeysIn(recs), KeyLe);
    forall fn ensures |UsesOf(t, key, fn)| == CountIf(recs, ForKeyFn(key, fn)) { UseCount(t, key, fn); }
    forall u | EntryOf(r, u, key) ensures KeyFor(u) == key && IsUsage(u, recs, key) {
    }
    KeyInReport(t, r, key);
    forall i, j | 0 <= i < j < |r.keys| && EntryOf(r, r.keys[i], key) ensures !EntryOf(r, r.keys[j], key) {
      assert Map(r.keys, KeyFor)[i] != Map(r.keys, KeyFor)[j];
    }
  }

  lemma KeyInReport(t: seq<Event>, r: Report, key: UsageKey)
    requires IsReport(r, RecordsOf(t))
    ensures (exists u :: EntryOf(r, u, key)) <==> exists fn :: UsesOf(t, key, fn) != {}
  {
    hide UsesOf, RecordsOf, Seqs.CountIf;
    KeyHasUses(t, key);
    KeyHasEntry(t, r, key);
  }

  lemma KeyHasUses(t: seq<Event>, key: UsageKey)
    ensures key in KeysIn(RecordsOf(t)) <==> exists fn :: UsesOf(t, key, fn) != {}
  {
    hide UsesOf, RecordsOf, Seqs.CountIf;
    var recs := RecordsOf(t);
    if x :| x in recs && x.key == key {
      UseCount(t, key, x.fn);
      CountIfPositive(recs, ForKeyFn(key, x.fn));
      var i :| 0 <= i < |recs| && recs[i] == x;
      assert ForKeyFn(key, x.fn)(recs[i]);
    }
    if fn :| UsesOf(t, key, fn) != {} {
      UseCount(t, key, fn);
      CountIfPositive(recs, ForKeyFn(key, fn));
      var i :| 0 <= i < |recs| && ForKeyFn(key, fn)(recs[i]);
      assert recs[i] in recs;
    }
  }

  lemma KeyHasEntry(t: seq<Event>, r: Report, key: UsageKey)
    requires IsReport(r, RecordsOf(t))
    ensures (exists u :: EntryOf(r, u, key)) <==> key in KeysIn(RecordsOf(t))
  {
    hide RecordsOf, KeysIn;
    EnumeratesMembers(Map(r.keys, KeyFor), KeysIn(RecordsOf(t)), KeyLe);
    MapMembers(r.keys, KeyFor, key);
    if u :| EntryOf(r, u, key) { assert KeyFor(u) == key; }
    if key in KeysIn(RecordsOf(t)) {
      var u :| u in r.keys && KeyFor(u) == key;
      assert IsUsage(u, RecordsOf(t), KeyFor(u));
      assert EntryOf(r, u, key);
    }
  }

  /** All uses of a key, whatever the function. */
  ghost function AllUses(t: seq<Event>, key: UsageKey): set<nat> {
    set k: nat | k < |t| && IsUseOf(t, k, key, t[k].fn)
  }

  lemma AllUsesCounted(t: seq<Event>, key: UsageKey)
    ensures |AllUses(t, key)| == CountIf(RecordsOf(t), ForKey(key))
  {
    hide IsUseOf, RecordsOf, RecordOf, Seqs.CountIf;
    var uses := UsesAreCounted(t, |t|, ForKey(key));
    assert t[..|t|] == t;
    forall k: nat | k < |t| ensures Counted(t, k, ForKey(key)) <==> IsUseOf(t, k, key, t[k].fn) {
      UseIsRecord(t, k, key, t[k].fn);
      if IsUse(t[k]) { RecordKeepsFn(t, k); }
    }
    assert uses == AllUses(t, key);
  }

  lemma RecordKeepsFn(t: seq<Event>, k: nat)
    requires k < |t| && IsUse(t[k])
    ensures RecordOf(t[..k], t[k]).fn == t[k].fn
  {
  }

  lemma EntryIsUsage(t: seq<Event>, r: Report, u: Usage, key: UsageKey)
    requires IsReport(r, RecordsOf(t)) && EntryOf(r, u, key)
    ensures KeyFor(u) == key && IsUsage(u, RecordsOf(t), key)
  {
  }

  lemma {:induction false} RecordFrom(t: seq<Event>, n: nat, x: Record) returns (k: nat)
    requires n <= |t| && x in RecordsOf(t[..n])
    ensures k < n && IsUse(t[k]) && x == RecordOf(t[..k], t[k])
  {
    assert t[..n] == t[..n - 1] + [t[n - 1]];
    RecordsSnoc(t[..n - 1], t[n - 1]);
    if x in RecordsOf(t[..n - 1]) { k := RecordFrom(t, n - 1, x); } else { k := n - 1; }
  }

  lemma {:induction false} RecordThere(t: seq<Event>, n: nat, k: nat)
    requires k < n <= |t| && IsUse(t[k])
    ensures RecordOf(t[..k], t[k]) in RecordsOf(t[..n])
  {
    assert t[..n] == t[..n - 1] + [t[n - 1]];
    RecordsSnoc(t[..n - 1], t[n - 1]);
    if k < n - 1 { RecordThere(t, n - 1, k); }
  }

  ghost predicate UsedWith(t: seq<Event>, key: UsageKey, mech: string) {
    exists k: nat :: k < |t| && IsUseOf(t, k, key, t[k].fn) && t[k].mechanism == mech
  }

  /** An entry's total is the number of all uses of its key; its mechanisms are
      those named by some use, each once, ascending. */
  lemma EntryTotals(t: seq<Event>, r: Report, u: Usage, key: UsageKey)
    requires IsReport(r, RecordsOf(t)) && EntryOf(r, u, key)
    ensures u.total == |AllUses(t, key)|
    ensures forall m :: m in u.mechanisms <==> m != "" && UsedWith(t, key, m)
    ensures forall i, j :: 0 <= i < j < |u.mechanisms| ==> Before(u.mechanisms[i], u.mechanisms[j])
  {
    hide IsUseOf, RecordsOf, Seqs.CountIf, IsReport;
    EntryIsUsage(t, r, u, key);
    AllUsesCounted(t, key);
    StringOrder();
    EnumeratesUnique(u.mechanisms, MechsOf(RecordsOf(t), key), StringLe);
    assert u.mechanisms == AscendingStrings(MechsOf(RecordsOf(t), key)) by {
      AscendingStringsUnique(u.mechanisms, MechsOf(RecordsOf(t), key));
    }
    AscendingStringsMeaning(MechsOf(RecordsOf(t), key));
    forall m ensures m in MechsOf(RecordsOf(t), key) <==> m != "" && UsedWith(t, key, m) { MechanismUsed(t, key, m); }
  }

  lemma MechanismUsed(t: seq<Event>, key: UsageKey, m: string)
    ensures m in MechsOf(RecordsOf(t), key) <==> m != "" && UsedWith(t, key, m)
  {
    hide IsUseOf, RecordsOf;
    assert t[..|t|] == t;
    if m in MechsOf(RecordsOf(t), key) {
      var x :| x in RecordsOf(t) && x.key == key && x.mech == m;
      var k := RecordFrom(t, |t|, x);
      UseIsRecord(t, k, key, t[k].fn);
    }
    if m != "" && UsedWith(t, key, m) {
      var k: nat :| k < |t| && IsUseOf(t, k, key, t[k].fn) && t[k].mechanism == m;
      UseIsRecord(t, k, key, t[k].fn);
      RecordThere(t, |t|, k);
    }
  }

  /** The totals add up to the number of events with a handle whose function is
      one of the six; the unresolved count is the number of entries without a
      name. */
  lemma TotalsAreUses(t: seq<Event>, r: Report)
    requires IsReport(r, RecordsOf(t))
    ensures SumTotals(r.keys) == CountIf(t, (e: Event) => e.fn in USE_FUNCTIONS && e.handle.Some?)
    ensures r.unresolved == CountIf(r.keys, (u: Usage) => !u.resolved)
  {
    hide Seqs.CountIf;
    TotalsAddUp(t, r);
    CountIfCongruent(t, IsUse, (e: Event) => e.fn in USE_FUNCTIONS && e.handle.Some?);
    BareEntries(r.keys);
  }

  lemma {:induction false} BareEntries(us: seq<Usage>)
    ensures CountIf(Map(us, KeyFor), IsBare) == CountIf(us, (u: Usage) => !u.resolved)
  {
    hide Seqs.CountIf;
    if us == [] {
      assert Map([], KeyFor) == [];
      NoneBare();
    } else {
      var init, u := us[..|us| - 1], us[|us| - 1];
      BareEntries(init);
      assert us == init + [u];
      MapSnoc(init, u, KeyFor);
      CountIfAppend(Map(init, KeyFor), KeyFor(u), IsBare);
      CountIfAppend(init, u, (v: Usage) => !v.resolved);
    }
  }

  lemma NoneBare()
    ensures CountIf([], IsBare) == 0 && CountIf([], (u: Usage) => !u.resolved) == 0
  {
  }

  /** The order of the entries: named keys before bare handles, named ones by
      label and then ID, handles by number. */
  lemma EntriesInOrder(t: seq<Event>, r: Report, i: nat, j: nat)
    requires IsReport(r, RecordsOf(t)) && i < j < |r.keys|
    ensures var u, v := r.keys[i], r.keys[j];
            && (v.resolved ==> u.resolved)
            && (u.resolved && v.resolved ==>
                  Before(u.keyLabel, v.keyLabel) || (u.keyLabel == v.keyLabel && Before(u.keyID, v.keyID)))
            && (!u.resolved ==> u.handle < v.handle)
  {
    hide RecordsOf, IsUsage;
    var keys := Map(r.keys, KeyFor);
    EnumeratesMembers(keys, KeysIn(RecordsOf(t)), KeyLe);
    assert keys[i] != keys[j] && KeyLe(keys[i], keys[j]);
    var u, v := r.keys[i], r.keys[j];
    BeforeMeaning(u.keyLabel, v.keyLabel);
    BeforeMeaning(u.keyID, v.keyID);
  }

  /** Event k is a use of a key with the candidate's non-empty ID or label. */
  ghost predicate PutsToWork(t: seq<Event>, k: nat, id: Identity, c: KeyRef) {
    && k < |t| && IsUseOf(t, k, Resolved(id), t[k].fn)
    && ((c.keyID != "" && id.keyID == c.keyID) || (c.keyLabel != "" && id.keyLabel == c.keyLabel))
  }

  /** A candidate counts as used exactly if some event of the trace does so. */
  lemma IdleMeaning(t: seq<Event>, r: Report, c: KeyRef)
    requires IsReport(r, RecordsOf(t))
    ensures UsedIn(r, c) <==> exists k: nat, id :: PutsToWork(t, k, id, c)
  {
    hide IsUseOf, RecordsOf, IsReport, UsedIn;
    UsedMeansOperated(t, r, c);
    assert t[..|t|] == t;
    if UsedIn(r, c) {
      var x :| x in RecordsOf(t) && x.key.Resolved? && Matches(x.key.id, c);
      var k := RecordFrom(t, |t|, x);
      UseIsRecord(t, k, x.key, t[k].fn);
      assert PutsToWork(t, k, x.key.id, c);
    }
    if k: nat, id :| PutsToWork(t, k, id, c) {
      UseIsRecord(t, k, Resolved(id), t[k].fn);
      RecordThere(t, |t|, k);
      assert Matches(RecordOf(t[..k], t[k]).key.id, c);
    }
  }
}
