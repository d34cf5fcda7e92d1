/** Per-key usage of a trace (internal/trace/keys.go). The specification first
    says, for each operation-init event, which key it is attributed to; the
    report is then a function of the resulting bag of records. */
module KeyUsage {
  import opened Seqs
  import opened Order
  import opened Trace

  datatype Identity = Identity(keyLabel: string, keyID: string) {
    predicate Named() { keyLabel != "" || keyID != "" }
  }

  datatype UsageKey = Resolved(id: Identity) | Bare(handle: nat)

  /** One use of one key. */
  datatype Record = Record(key: UsageKey, fn: Function, mech: string)

  datatype Usage = Usage(
    resolved: bool, keyLabel: string, keyID: string, handle: nat,
    ops: map<Function, nat>, mechanisms: seq<string>, total: nat)

  datatype Report = Report(keys: seq<Usage>, unresolved: nat)

  predicate IsOperationInit(fn: Function) {
    fn.SignInit? || fn.VerifyInit? || fn.EncryptInit? || fn.DecryptInit? || fn.WrapKey? || fn.UnwrapKey?
  }

  predicate IsUse(e: Event) { IsOperationInit(e.fn) && e.handle.Some? }

  // ---- attribution, read off the trace backwards ----

  /** The search values of the session's latest C_FindObjectsInit. */
  function PendingOf(t: seq<Event>, s: nat): Identity {
    if t == [] then Identity("", "")
    else
      var e := t[|t| - 1];
      if e.fn.FindObjectsInit? && SessionOf(e) == s then Identity(e.keyLabel, e.keyID)
      else PendingOf(t[..|t| - 1], s)
  }

  /** Event i of t ties handle h of session s to a named identity. */
  predicate Binds(t: seq<Event>, i: nat, s: nat, h: nat)
    requires i < |t|
  {
    t[i].fn.FindObjects? && SessionOf(t[i]) == s && t[i].handle == Some(h) && PendingOf(t[..i], s).Named()
  }

  function BindingOf(t: seq<Event>, s: nat, h: nat): Option<Identity> {
    if t == [] then None
    else if Binds(t, |t| - 1, s, h) then Some(PendingOf(t[..|t| - 1], s))
    else BindingOf(t[..|t| - 1], s, h)
  }

  /** The key an operation on handle h of session s is attributed to. */
  function KeyOf(t: seq<Event>, s: nat, h: nat): UsageKey {
    match BindingOf(t, s, h)
    case Some(id) => Resolved(id)
    case None => Bare(h)
  }

  function RecordOf(t: seq<Event>, e: Event): Record
    requires IsUse(e)
  {
    Record(KeyOf(t, SessionOf(e), e.handle.value), e.fn, e.mechanism)
  }

  function RecordsOf(t: seq<Event>): seq<Record> {
    if t == [] then []
    else
      var init, e := t[..|t| - 1], t[|t| - 1];
      if IsUse(e) then RecordsOf(init) + [RecordOf(init, e)] else RecordsOf(init)
  }

  /** Event i is the last one that ties h of session s to a named identity. */
  ghost predicate LastBinds(t: seq<Event>, i: nat, s: nat, h: nat) {
    i < |t| && Binds(t, i, s, h) && forall j :: i < j < |t| ==> !Binds(t, j, s, h)
  }

  lemma BindsPrefix(t: seq<Event>, i: nat, s: nat, h: nat)
    requires i < |t| - 1
    ensures Binds(t[..|t| - 1], i, s, h) == Binds(t, i, s, h)
    ensures t[..|t| - 1][..i] == t[..i]
  {
  }

  /** The binding in force is the latest named one for that session and handle. */
  lemma {:induction false} BindingIsLatest(t: seq<Event>, s: nat, h: nat)
    ensures BindingOf(t, s, h).None? ==> forall i :: 0 <= i < |t| ==> !Binds(t, i, s, h)
    ensures BindingOf(t, s, h).Some? ==>
              exists i: nat :: LastBinds(t, i, s, h) && BindingOf(t, s, h).value == PendingOf(t[..i], s)
  {
    if t != [] {
      var n := |t| - 1;
      forall i | 0 <= i < n ensures Binds(t[..n], i, s, h) == Binds(t, i, s, h) {
        BindsPrefix(t, i, s, h);
      }
      if Binds(t, n, s, h) {
        assert LastBinds(t, n, s, h);
      } else {
        BindingIsLatest(t[..n], s, h);
        if BindingOf(t, s, h).Some? {
          var i: nat :| LastBinds(t[..n], i, s, h) && BindingOf(t[..n], s, h).value == PendingOf(t[..n][..i], s);
          BindsPrefix(t, i, s, h);
          assert LastBinds(t, i, s, h);
        }
      }
    }
  }

  // ---- the report as a function of the records ----

  function ForKey(k: UsageKey): Record -> bool { (r: Record) => r.key == k }
  function ForKeyFn(k: UsageKey, fn: Function): Record -> bool { (r: Record) => r.key == k && r.fn == fn }
  function ForKeyFns(k: UsageKey, fns: set<Function>): Record -> bool { (r: Record) => r.key == k && r.fn in fns }
  function ForKeys(ks: set<UsageKey>): Record -> bool { (r: Record) => r.key in ks }

  ghost function KeysIn(recs: seq<Record>): set<UsageKey> { set r | r in recs :: r.key }

  ghost function MechsOf(recs: seq<Record>, k: UsageKey): set<string> {
    set r | r in recs && r.key == k && r.mech != "" :: r.mech
  }

  ghost predicate IsOps(ops: map<Function, nat>, recs: seq<Record>, k: UsageKey) {
    forall fn :: && (fn in ops <==> CountIf(recs, ForKeyFn(k, fn)) > 0)
                 && (fn in ops ==> ops[fn] == CountIf(recs, ForKeyFn(k, fn)))
  }

  function KeyFor(u: Usage): UsageKey {
    if u.resolved then Resolved(Identity(u.keyLabel, u.keyID)) else Bare(u.handle)
  }

  /** u is the summary of key k over recs, in canonical form. */
  ghost predicate IsUsage(u: Usage, recs: seq<Record>, k: UsageKey) {
    && (k.Resolved? ==> u.resolved && u.keyLabel == k.id.keyLabel && u.keyID == k.id.keyID && u.handle == 0)
    && (k.Bare? ==> !u.resolved && u.keyLabel == "" && u.keyID == "" && u.handle == k.handle)
    && IsOps(u.ops, recs, k)
    && Enumerates(u.mechanisms, MechsOf(recs, k), StringLe)
    && u.total == CountIf(recs, ForKey(k))
  }

  /** The report's order: named keys in the order of their names, then bare handles. */
  predicate KeyLe(a: UsageKey, b: UsageKey) {
    match (a, b)
    case (Resolved(x), Resolved(y)) =>
      if x.keyLabel != y.keyLabel then StringLe(x.keyLabel, y.keyLabel) else StringLe(x.keyID, y.keyID)
    case (Bare(h), Bare(g)) => h <= g
    case (Resolved(_), Bare(_)) => true
    case (Bare(_), Resolved(_)) => false
  }

  lemma KeyOrder()
    ensures TotalOrder(KeyLe)
  {
    StringOrder();
    forall a, b, c | KeyLe(a, b) && KeyLe(b, c) ensures KeyLe(a, c) {
    }
  }

  predicate UsageLe(u: Usage, v: Usage) { KeyLe(KeyFor(u), KeyFor(v)) }

  predicate IsBare(k: UsageKey) { k.Bare? }

  ghost predicate IsReport(r: Report, recs: seq<Record>) {
    && Enumerates(Map(r.keys, KeyFor), KeysIn(recs), KeyLe)
    && (forall u :: u in r.keys ==> IsUsage(u, recs, KeyFor(u)))
    && r.unresolved == CountIf(Map(r.keys, KeyFor), IsBare)
  }

  lemma UsageUnique(u: Usage, v: Usage, recs: seq<Record>, k: UsageKey)
    requires IsUsage(u, recs, k) && IsUsage(v, recs, k)
    ensures u == v
  {
    StringOrder();
    EnumeratesUnique(u.mechanisms, MechsOf(recs, k), StringLe);
    EnumeratesUnique(v.mechanisms, MechsOf(recs, k), StringLe);
    assert u.ops == v.ops;
  }

  /** The records determine the whole report, order included. */
  lemma ReportUnique(r: Report, r': Report, recs: seq<Record>)
    requires IsReport(r, recs) && IsReport(r', recs)
    ensures r == r'
  {
    KeyOrder();
    EnumeratesUnique(Map(r.keys, KeyFor), KeysIn(recs), KeyLe);
    EnumeratesUnique(Map(r'.keys, KeyFor), KeysIn(recs), KeyLe);
    forall i | 0 <= i < |r.keys| ensures r.keys[i] == r'.keys[i] {
      assert KeyFor(r.keys[i]) == Map(r.keys, KeyFor)[i] == KeyFor(r'.keys[i]);
      UsageUnique(r.keys[i], r'.keys[i], recs, KeyFor(r.keys[i]));
    }
  }

  lemma UsagePermutes(u: Usage, recs: seq<Record>, recs': seq<Record>, k: UsageKey)
    requires IsUsage(u, recs, k) && multiset(recs) == multiset(recs')
    ensures IsUsage(u, recs', k)
  {
    PermutationLength(recs, recs');
    forall fn ensures CountIf(recs, ForKeyFn(k, fn)) == CountIf(recs', ForKeyFn(k, fn)) {
      CountIfPermutation(recs, recs', ForKeyFn(k, fn));
    }
    CountIfPermutation(recs, recs', ForKey(k));
    assert MechsOf(recs, k) == MechsOf(recs', k);
  }

  lemma ReportPermutes(r: Report, recs: seq<Record>, recs': seq<Record>)
    requires IsReport(r, recs) && multiset(recs) == multiset(recs')
    ensures IsReport(r, recs')
  {
    PermutationLength(recs, recs');
    assert KeysIn(recs) == KeysIn(recs');
    forall u | u in r.keys ensures IsUsage(u, recs', KeyFor(u)) {
      UsagePermutes(u, recs, recs', KeyFor(u));
    }
  }

  // ---- independence from thread interleaving ----

  lemma PendingSnoc(t: seq<Event>, e: Event, s: nat)
    ensures PendingOf(t + [e], s)
         == if e.fn.FindObjectsInit? && SessionOf(e) == s then Identity(e.keyLabel, e.keyID) else PendingOf(t, s)
  {
    assert (t + [e])[..|t|] == t;
  }

  lemma BindingSnoc(t: seq<Event>, e: Event, s: nat, h: nat)
    ensures BindingOf(t + [e], s, h)
         == if e.fn.FindObjects? && SessionOf(e) == s && e.handle == Some(h) && PendingOf(t, s).Named()
            then Some(PendingOf(t, s)) else BindingOf(t, s, h)
  {
    assert (t + [e])[..|t|] == t;
  }

  lemma {:induction false} PendingIsLocal(t: seq<Event>, s: nat)
    ensures PendingOf(t, s) == PendingOf(Filter(t, OnSession(s)), s)
  {
    if t != [] {
      var init, e := t[..|t| - 1], t[|t| - 1];
      PendingIsLocal(init, s);
      PendingSnoc(Filter(init, OnSession(s)), e, s);
      if SessionOf(e) == s {
        assert Filter(t, OnSession(s)) == Filter(init, OnSession(s)) + [e];
      }
    }
  }

  lemma {:induction false} BindingIsLocal(t: seq<Event>, s: nat, h: nat)
    ensures BindingOf(t, s, h) == BindingOf(Filter(t, OnSession(s)), s, h)
  {
    if t != [] {
      var init, e := t[..|t| - 1], t[|t| - 1];
      BindingIsLocal(init, s, h);
      PendingIsLocal(init, s);
      assert t == init + [e];
      BindingSnoc(init, e, s, h);
      BindingSnoc(Filter(init, OnSession(s)), e, s, h);
      if SessionOf(e) == s {
        assert Filter(t, OnSession(s)) == Filter(init, OnSession(s)) + [e];
      }
    }
  }

  lemma RecordIsLocal(t: seq<Event>, t': seq<Event>, e: Event)
    requires Filter(t, OnSession(SessionOf(e))) == Filter(t', OnSession(SessionOf(e)))
    ensures IsUse(e) ==> RecordOf(t, e) == RecordOf(t', e)
  {
    if IsUse(e) {
      BindingIsLocal(t, SessionOf(e), e.handle.value);
      BindingIsLocal(t', SessionOf(e), e.handle.value);
    }
  }

  lemma RecordsSnoc(t: seq<Event>, e: Event)
    ensures RecordsOf(t + [e]) == if IsUse(e) then RecordsOf(t) + [RecordOf(t, e)] else RecordsOf(t)
  {
    assert (t + [e])[..|t|] == t;
  }

  /** An event of another session is attributed alike with or without e. */
  lemma OtherSessionRecord(a: seq<Event>, e: Event, b: seq<Event>, x: Event)
    requires SessionOf(x) != SessionOf(e)
    ensures IsUse(x) ==> RecordOf(a + [e] + b, x) == RecordOf(a + b, x)
  {
    var p := OnSession(SessionOf(x));
    FilterMiddle(a, e, b, p);
    FilterAppend(a, b, p);
    RecordIsLocal(a + [e] + b, a + b, x);
  }

  /** Taking an event out of the middle only removes its own record, as long as
      its session has no later event. */
  lemma {:induction false} RecordsWithout(a: seq<Event>, e: Event, b: seq<Event>)
    requires Filter(b, OnSession(SessionOf(e))) == []
    ensures multiset(RecordsOf(a + [e] + b))
         == multiset(RecordsOf(a + b)) + (if IsUse(e) then multiset{RecordOf(a, e)} else multiset{})
  {
    if b == [] {
      assert a + [e] + b == a + [e] && a + b == a;
      RecordsSnoc(a, e);
    } else {
      var init, x := b[..|b| - 1], b[|b| - 1];
      assert SessionOf(x) != SessionOf(e);
      RecordsWithout(a, e, init);
      OtherSessionRecord(a, e, init, x);
      RecordsSnoc(a + [e] + init, x);
      RecordsSnoc(a + init, x);
      assert a + [e] + b == (a + [e] + init) + [x] && a + b == (a + init) + [x];
    }
  }

  lemma {:induction false} RecordsInterleave(t: seq<Event>, t': seq<Event>)
    requires SameEvents(t, t')
    ensures multiset(RecordsOf(t)) == multiset(RecordsOf(t'))
    decreases |t|
  {
    if t == [] {
      SameEventsEmpty(t');
    } else {
      var a, b := DropLast(t, t');
      var e := t[|t| - 1];
      RecordsInterleave(t[..|t| - 1], a + b);
      RecordsWithout(a, e, b);
      RecordIsLocal(t[..|t| - 1], a, e);
    }
  }

  lemma {:induction false} PendingOfCalls(t: seq<Event>, s: nat)
    ensures PendingOf(Calls(t), s) == PendingOf(t, s)
  {
    if t != [] {
      PendingOfCalls(t[..|t| - 1], s);
      assert Calls(t)[..|t| - 1] == Calls(t[..|t| - 1]);
    }
  }

  lemma {:induction false} BindingOfCalls(t: seq<Event>, s: nat, h: nat)
    ensures BindingOf(Calls(t), s, h) == BindingOf(t, s, h)
  {
    if t != [] {
      BindingOfCalls(t[..|t| - 1], s, h);
      PendingOfCalls(t[..|t| - 1], s);
      assert Calls(t)[..|t| - 1] == Calls(t[..|t| - 1]);
    }
  }

  /** Attribution does not read the sequence numbers. */
  lemma {:induction false} RecordsOfCalls(t: seq<Event>)
    ensures RecordsOf(Calls(t)) == RecordsOf(t)
  {
    if t != [] {
      var init, e := t[..|t| - 1], t[|t| - 1];
      RecordsOfCalls(init);
      assert Calls(t)[..|t| - 1] == Calls(init);
      if IsUse(e) { BindingOfCalls(init, SessionOf(e), e.handle.value); }
    }
  }

  /** The report is the same, entry by entry and in the same order, for any two
      interleavings of the same per-session calls, numbered as they may be, and
      for whatever order the maps were ranged over. */
  lemma ReportIgnoresInterleaving(t: seq<Event>, t': seq<Event>, r: Report, r': Report)
    requires SameSessions(t, t')
    requires IsReport(r, RecordsOf(t)) && IsReport(r', RecordsOf(t'))
    ensures r == r'
  {
    SameCallsAreSameEvents(t, t');
    RecordsInterleave(Calls(t), Calls(t'));
    RecordsOfCalls(t);
    RecordsOfCalls(t');
    ReportPermutes(r, RecordsOf(t), RecordsOf(t'));
    ReportUnique(r, r', RecordsOf(t'));
  }

  // ---- every use is counted once ----

  function SumTotals(us: seq<Usage>): nat {
    if us == [] then 0 else SumTotals(us[..|us| - 1]) + us[|us| - 1].total
  }

  lemma {:induction false} RecordsCountUses(t: seq<Event>)
    ensures |RecordsOf(t)| == CountIf(t, IsUse)
  {
    if t != [] { RecordsCountUses(t[..|t| - 1]); }
  }

  lemma {:induction false} TotalsOver(us: seq<Usage>, recs: seq<Record>)
    requires forall u :: u in us ==> IsUsage(u, recs, KeyFor(u))
    requires forall i, j :: 0 <= i < j < |us| ==> KeyFor(us[i]) != KeyFor(us[j])
    ensures SumTotals(us) == CountIf(recs, ForKeys(set u | u in us :: KeyFor(u)))
  {
    hide Seqs.CountIf;
    if us == [] {
      CountIfPositive(recs, ForKeys(set u | u in us :: KeyFor(u)));
    } else {
      var init, last := us[..|us| - 1], us[|us| - 1];
      assert us == init + [last];
      TotalsOver(init, recs);
      CountIfSplit(recs, ForKeys(set u | u in init :: KeyFor(u)), ForKey(KeyFor(last)),
                   ForKeys(set u | u in us :: KeyFor(u)));
    }
  }

  lemma {:induction false} CountAll(recs: seq<Record>, p: Record -> bool)
    requires forall r :: r in recs ==> p(r)
    ensures CountIf(recs, p) == |recs|
  {
    if recs != [] { CountAll(recs[..|recs| - 1], p); }
  }

  /** Every operation-init event that carries a handle is counted in exactly one
      entry: the totals add up to the number of such events. */
  lemma TotalsAddUp(t: seq<Event>, r: Report)
    requires IsReport(r, RecordsOf(t))
    ensures SumTotals(r.keys) == CountIf(t, IsUse)
  {
    hide Seqs.CountIf;
    var recs, us := RecordsOf(t), r.keys;
    EnumeratesMembers(Map(us, KeyFor), KeysIn(recs), KeyLe);
    forall i, j | 0 <= i < j < |us| ensures KeyFor(us[i]) != KeyFor(us[j]) {
      assert Map(us, KeyFor)[i] != Map(us, KeyFor)[j];
    }
    TotalsOver(us, recs);
    var ks := set u | u in us :: KeyFor(u);
    forall x | x in recs ensures ForKeys(ks)(x) {
      assert x.key in KeysIn(recs) && x.key in Map(us, KeyFor);
      var i :| 0 <= i < |us| && Map(us, KeyFor)[i] == x.key;
      assert us[i] in us;
    }
    CountAll(recs, ForKeys(ks));
    RecordsCountUses(t);
  }

  // ---- the one-pass program ----

  datatype Agg = Agg(ops: map<Function, nat>, mechs: set<string>)

  const EMPTY_AGG := Agg(map[], {})

  function Find(bindings: map<nat, map<nat, Identity>>, s: nat, h: nat): Option<Identity> {
    if s in bindings && h in bindings[s] then Some(bindings[s][h]) else None
  }

  function Bump(a: Agg, fn: Function, mech: string): Agg {
    Agg(a.ops[fn := (if fn in a.ops then a.ops[fn] else 0) + 1],
        if mech != "" then a.mechs + {mech} else a.mechs)
  }

  ghost predicate IsAgg(a: Agg, recs: seq<Record>, k: UsageKey) {
    IsOps(a.ops, recs, k) && a.mechs == MechsOf(recs, k)
  }

  ghost predicate FindsOk(pending: map<nat, Identity>, bindings: map<nat, map<nat, Identity>>, t: seq<Event>) {
    && (forall s: nat :: (if s in pending then pending[s] else Identity("", "")) == PendingOf(t, s))
    && (forall s: nat, h: nat :: Find(bindings, s, h) == BindingOf(t, s, h))
  }

  ghost predicate IdentitiesOk(byIdentity: map<Identity, Agg>, recs: seq<Record>) {
    forall id :: && (id in byIdentity <==> Resolved(id) in KeysIn(recs))
                 && (id in byIdentity ==> IsAgg(byIdentity[id], recs, Resolved(id)))
  }

  ghost predicate HandlesOk(byHandle: map<nat, Agg>, recs: seq<Record>) {
    forall h: nat :: && (h in byHandle <==> Bare(h) in KeysIn(recs))
                     && (h in byHandle ==> IsAgg(byHandle[h], recs, Bare(h)))
  }

  lemma KeysSnoc(recs: seq<Record>, r: Record)
    ensures KeysIn(recs + [r]) == KeysIn(recs) + {r.key}
  {
    assert r in recs + [r];
    forall k | k in KeysIn(recs) ensures k in KeysIn(recs + [r]) {
      var x :| x in recs && x.key == k;
      assert x in recs + [r];
    }
  }

  lemma AggUntouched(a: Agg, recs: seq<Record>, r: Record, k: UsageKey)
    requires IsAgg(a, recs, k) && r.key != k
    ensures IsAgg(a, recs + [r], k)
  {
    forall fn ensures CountIf(recs + [r], ForKeyFn(k, fn)) == CountIf(recs, ForKeyFn(k, fn)) {
      CountIfAppend(recs, r, ForKeyFn(k, fn));
    }
    assert MechsOf(recs + [r], k) == MechsOf(recs, k);
  }

  lemma AggBumped(a: Agg, recs: seq<Record>, r: Record)
    requires IsAgg(a, recs, r.key)
    ensures IsAgg(Bump(a, r.fn, r.mech), recs + [r], r.key)
  {
    var k := r.key;
    forall fn ensures CountIf(recs + [r], ForKeyFn(k, fn)) == CountIf(recs, ForKeyFn(k, fn)) + (if fn == r.fn then 1 else 0) {
      CountIfAppend(recs, r, ForKeyFn(k, fn));
    }
    assert r in recs + [r];
    assert MechsOf(recs + [r], k) == MechsOf(recs, k) + (if r.mech != "" then {r.mech} else {});
  }

  lemma UnseenIsEmpty(recs: seq<Record>, k: UsageKey)
    requires k !in KeysIn(recs)
    ensures IsAgg(EMPTY_AGG, recs, k)
  {
    assert forall i :: 0 <= i < |recs| ==> recs[i].key in KeysIn(recs);
    forall fn ensures CountIf(recs, ForKeyFn(k, fn)) == 0 {
      CountIfPositive(recs, ForKeyFn(k, fn));
    }
  }

  /** What the tables hold for the key of r, or a fresh record. */
  lemma AggStep(a: Option<Agg>, recs: seq<Record>, r: Record)
    requires a.Some? <==> r.key in KeysIn(recs)
    requires a.Some? ==> IsAgg(a.value, recs, r.key)
    ensures IsAgg(Bump(if a.Some? then a.value else EMPTY_AGG, r.fn, r.mech), recs + [r], r.key)
  {
    if a.None? { UnseenIsEmpty(recs, r.key); }
    AggBumped(if a.Some? then a.value else EMPTY_AGG, recs, r);
  }

  lemma IdentitiesStep(byIdentity: map<Identity, Agg>, recs: seq<Record>, r: Record)
    requires IdentitiesOk(byIdentity, recs)
    ensures r.key.Bare? ==> IdentitiesOk(byIdentity, recs + [r])
    ensures r.key.Resolved? ==>
      IdentitiesOk(byIdentity[r.key.id := Bump(if r.key.id in byIdentity then byIdentity[r.key.id] else EMPTY_AGG, r.fn, r.mech)],
                   recs + [r])
  {
    KeysSnoc(recs, r);
    forall id | id in byIdentity && Resolved(id) != r.key ensures IsAgg(byIdentity[id], recs + [r], Resolved(id)) {
      AggUntouched(byIdentity[id], recs, r, Resolved(id));
    }
    if r.key.Resolved? {
      AggStep(if r.key.id in byIdentity then Some(byIdentity[r.key.id]) else None, recs, r);
    }
  }

  lemma HandlesStep(byHandle: map<nat, Agg>, recs: seq<Record>, r: Record)
    requires HandlesOk(byHandle, recs)
    ensures r.key.Resolved? ==> HandlesOk(byHandle, recs + [r])
    ensures r.key.Bare? ==>
      HandlesOk(byHandle[r.key.handle := Bump(if r.key.handle in byHandle then byHandle[r.key.handle] else EMPTY_AGG, r.fn, r.mech)],
                recs + [r])
  {
    KeysSnoc(recs, r);
    forall h | h in byHandle && Bare(h) != r.key ensures IsAgg(byHandle[h], recs + [r], Bare(h)) {
      AggUntouched(byHandle[h], recs, r, Bare(h));
    }
    if r.key.Bare? {
      AggStep(if r.key.handle in byHandle then Some(byHandle[r.key.handle]) else None, recs, r);
    }
  }

  lemma FindsStep(pending: map<nat, Identity>, bindings: map<nat, map<nat, Identity>>, t: seq<Event>, e: Event)
    requires FindsOk(pending, bindings, t)
    ensures var s := SessionOf(e);
            var id := if s in pending then pending[s] else Identity("", "");
            FindsOk(if e.fn.FindObjectsInit? then pending[s := Identity(e.keyLabel, e.keyID)] else pending,
                    if e.fn.FindObjects? && e.handle.Some? && id.Named()
                    then bindings[s := (if s in bindings then bindings[s] else map[])[e.handle.value := id]]
                    else bindings, t + [e])
  {
    forall x: nat ensures PendingOf(t + [e], x)
      == if e.fn.FindObjectsInit? && SessionOf(e) == x then Identity(e.keyLabel, e.keyID) else PendingOf(t, x)
    {
      PendingSnoc(t, e, x);
    }
    forall x: nat, h: nat ensures BindingOf(t + [e], x, h)
      == if e.fn.FindObjects? && SessionOf(e) == x && e.handle == Some(h) && PendingOf(t, x).Named()
         then Some(PendingOf(t, x)) else BindingOf(t, x, h)
    {
      BindingSnoc(t, e, x, h);
    }
  }

  lemma OpsCoverKey(ops: map<Function, nat>, recs: seq<Record>, k: UsageKey)
    requires IsOps(ops, recs, k)
    ensures CountIf(recs, ForKeyFns(k, ops.Keys)) == CountIf(recs, ForKey(k))
  {
    forall r | r in recs && r.key == k ensures r.fn in ops {
      CountIfPositive(recs, ForKeyFn(k, r.fn));
      var i :| 0 <= i < |recs| && recs[i] == r;
      assert ForKeyFn(k, r.fn)(recs[i]);
    }
    CountIfCongruent(recs, ForKey(k), ForKeyFns(k, ops.Keys));
  }

  /** Sums the per-function counts in whatever order the map yields them. */
  method Total(ops: map<Function, nat>, ghost recs: seq<Record>, ghost k: UsageKey) returns (total: nat)
    requires IsOps(ops, recs, k)
    ensures total == CountIf(recs, ForKey(k))
  {
    hide Seqs.CountIf;
    total := 0;
    var rest := ops.Keys;
    OpsCoverKey(ops, recs, k);
    while rest != {}
      invariant rest <= ops.Keys
      invariant total + CountIf(recs, ForKeyFns(k, rest)) == CountIf(recs, ForKey(k))
      decreases |rest|
    {
      var fn :| fn in rest;
      CountIfSplit(recs, ForKeyFns(k, rest - {fn}), ForKeyFn(k, fn), ForKeyFns(k, rest));
      total := total + ops[fn];
      rest := rest - {fn};
    }
    CountIfPositive(recs, ForKeyFns(k, {}));
  }

  method MakeUsage(a: Agg, k: UsageKey, ghost recs: seq<Record>) returns (u: Usage)
    requires IsAgg(a, recs, k)
    ensures IsUsage(u, recs, k) && KeyFor(u) == k
  {
    var mechanisms := SortedNames(a.mechs);
    var total := Total(a.ops, recs, k);
    u := match k
      case Resolved(id) => Usage(true, id.keyLabel, id.keyID, 0, a.ops, mechanisms, total)
      case Bare(h) => Usage(false, "", "", h, a.ops, mechanisms, total);
  }

  /** keys lists one usage for each member of done. */
  ghost predicate Lists(keys: seq<Usage>, done: set<UsageKey>, recs: seq<Record>) {
    && multiset(Map(keys, KeyFor)) == multiset(done)
    && (forall u :: u in keys ==> IsUsage(u, recs, KeyFor(u)))
  }

  lemma NothingListed(recs: seq<Record>)
    ensures Lists([], {}, recs) && CountIf(Map([], KeyFor), IsBare) == 0
  {
  }

  lemma ListsSnoc(keys: seq<Usage>, done: set<UsageKey>, u: Usage, recs: seq<Record>)
    requires Lists(keys, done, recs) && IsUsage(u, recs, KeyFor(u)) && KeyFor(u) !in done
    ensures Lists(keys + [u], done + {KeyFor(u)}, recs)
    ensures CountIf(Map(keys + [u], KeyFor), IsBare) == CountIf(Map(keys, KeyFor), IsBare) + (if u.resolved then 0 else 1)
  {
    hide Seqs.CountIf;
    assert Map(keys + [u], KeyFor) == Map(keys, KeyFor) + [KeyFor(u)];
    CountIfAppend(Map(keys, KeyFor), KeyFor(u), IsBare);
  }

  method AppendResolved(byIdentity: map<Identity, Agg>, ghost recs: seq<Record>)
    returns (keys: seq<Usage>, ghost done: set<UsageKey>)
    requires IdentitiesOk(byIdentity, recs)
    ensures Lists(keys, done, recs) && CountIf(Map(keys, KeyFor), IsBare) == 0
    ensures forall k :: k in done <==> k.Resolved? && k.id in byIdentity
  {
    hide IsUsage, Lists, IsAgg;
    keys, done := [], {};
    NothingListed(recs);
    var ids := byIdentity.Keys;
    while ids != {}
      invariant ids <= byIdentity.Keys
      invariant forall k :: k in done <==> k.Resolved? && k.id in byIdentity && k.id !in ids
      invariant Lists(keys, done, recs) && CountIf(Map(keys, KeyFor), IsBare) == 0
      decreases |ids|
    {
      var id :| id in ids;
      var u := MakeUsage(byIdentity[id], Resolved(id), recs);
      ListsSnoc(keys, done, u, recs);
      keys, ids, done := keys + [u], ids - {id}, done + {Resolved(id)};
    }
  }

  method AppendBare(before: seq<Usage>, ghost known: set<UsageKey>, byHandle: map<nat, Agg>, ghost recs: seq<Record>)
    returns (keys: seq<Usage>, unresolved: nat, ghost done: set<UsageKey>)
    requires HandlesOk(byHandle, recs) && Lists(before, known, recs) && CountIf(Map(before, KeyFor), IsBare) == 0
    requires forall k :: k in known ==> k.Resolved?
    ensures Lists(keys, done, recs) && unresolved == CountIf(Map(keys, KeyFor), IsBare)
    ensures forall k :: k in done <==> k in known || (k.Bare? && k.handle in byHandle)
  {
    hide IsUsage, Lists, IsAgg;
    keys, done, unresolved := before, known, 0;
    var handles := byHandle.Keys;
    while handles != {}
      invariant handles <= byHandle.Keys
      invariant forall k :: k in done <==> k in known || (k.Bare? && k.handle in byHandle && k.handle !in handles)
      invariant Lists(keys, done, recs) && unresolved == CountIf(Map(keys, KeyFor), IsBare)
      decreases |handles|
    {
      var h :| h in handles;
      var u := MakeUsage(byHandle[h], Bare(h), recs);
      ListsSnoc(keys, done, u, recs);
      keys, handles, done, unresolved := keys + [u], handles - {h}, done + {Bare(h)}, unresolved + 1;
    }
  }

  lemma SortedIsReport(keys: seq<Usage>, unresolved: nat, recs: seq<Record>)
    requires Lists(keys, KeysIn(recs), recs) && unresolved == CountIf(Map(keys, KeyFor), IsBare)
    ensures IsReport(Report(Sort(keys, UsageLe), unresolved), recs)
  {
    var sorted := Sort(keys, UsageLe);
    KeyOrder();
    SortPermutes(keys, UsageLe);
    assert TotalPreorder(UsageLe);
    SortSorts(keys, UsageLe);
    MapPermutation(sorted, keys, KeyFor);
    CountIfPermutation(Map(sorted, KeyFor), Map(keys, KeyFor), IsBare);
    assert Sorted(Map(sorted, KeyFor), KeyLe);
  }

  lemma TablesCoverKeys(byIdentity: map<Identity, Agg>, byHandle: map<nat, Agg>, recs: seq<Record>, done: set<UsageKey>)
    requires IdentitiesOk(byIdentity, recs) && HandlesOk(byHandle, recs)
    requires forall k :: k in done <==> (k.Resolved? && k.id in byIdentity) || (k.Bare? && k.handle in byHandle)
    ensures done == KeysIn(recs)
  {
    hide KeysIn, IsAgg;
    forall k ensures k in done <==> k in KeysIn(recs) {
      match k
      case Resolved(id) => assert id in byIdentity <==> Resolved(id) in KeysIn(recs);
      case Bare(h) => assert h in byHandle <==> Bare(h) in KeysIn(recs);
    }
  }

  lemma NoRecords()
    ensures RecordsOf([]) == [] && IdentitiesOk(map[], []) && HandlesOk(map[], [])
  {
  }

  /** The two usage tables, turned into the sorted report. */
  method BuildReport(byIdentity: map<Identity, Agg>, byHandle: map<nat, Agg>, ghost recs: seq<Record>)
    returns (report: Report)
    requires IdentitiesOk(byIdentity, recs) && HandlesOk(byHandle, recs)
    ensures IsReport(report, recs)
  {
    hide IsUsage, Lists, IsAgg, IsReport;
    var keys, done := AppendResolved(byIdentity, recs);
    var all, unresolved, done' := AppendBare(keys, done, byHandle, recs);
    TablesCoverKeys(byIdentity, byHandle, recs, done');
    SortedIsReport(all, unresolved, recs);
    report := Report(Sort(all, UsageLe), unresolved);
  }

  /** KeyUsageOf: one pass over the events, then a sort. The report it returns
      is the one report that IsReport admits for the attributed records. */
  method KeyUsageOf(events: seq<Event>) returns (report: Report)
    ensures IsReport(report, RecordsOf(events))
  {
    hide IdentitiesOk, HandlesOk, IsReport;
    var pending: map<nat, Identity>, bindings: map<nat, map<nat, Identity>> := map[], map[];
    var byIdentity: map<Identity, Agg>, byHandle: map<nat, Agg> := map[], map[];
    NoRecords();
    for i := 0 to |events|
      invariant FindsOk(pending, bindings, events[..i])
      invariant IdentitiesOk(byIdentity, RecordsOf(events[..i]))
      invariant HandlesOk(byHandle, RecordsOf(events[..i]))
    {
      var e := events[i];
      ghost var t := events[..i];
      assert events[..i + 1] == t + [e];
      var s := SessionOf(e);
      FindsStep(pending, bindings, t, e);
      RecordsSnoc(t, e);
      if e.fn.FindObjectsInit? {
        pending := pending[s := Identity(e.keyLabel, e.keyID)];
      } else if e.fn.FindObjects? {
        var id := if s in pending then pending[s] else Identity("", "");
        if e.handle.Some? && id.Named() {
          var known := if s in bindings then bindings[s] else map[];
          bindings := bindings[s := known[e.handle.value := id]];
        }
      } else if IsOperationInit(e.fn) && e.handle.Some? {
        IdentitiesStep(byIdentity, RecordsOf(t), RecordOf(t, e));
        HandlesStep(byHandle, RecordsOf(t), RecordOf(t, e));
        var h := e.handle.value;
        var found := Find(bindings, s, h);
        if found.Some? {
          var a := if found.value in byIdentity then byIdentity[found.value] else EMPTY_AGG;
          byIdentity := byIdentity[found.value := Bump(a, e.fn, e.mechanism)];
        } else {
          var a := if h in byHandle then byHandle[h] else EMPTY_AGG;
          byHandle := byHandle[h := Bump(a, e.fn, e.mechanism)];
        }
      }
    }
    assert events[..|events|] == events;
    report := BuildReport(byIdentity, byHandle, RecordsOf(events));
  }

  // ---- idle keys ----

  datatype KeyRef = KeyRef(class_: string, keyLabel: string, keyID: string)

  predicate Matches(id: Identity, c: KeyRef) {
    (c.keyID != "" && id.keyID == c.keyID) || (c.keyLabel != "" && id.keyLabel == c.keyLabel)
  }

  /** A candidate is used when its non-empty ID or its non-empty label is that
      of a resolved key of the report. */
  predicate UsedIn(r: Report, c: KeyRef) {
    exists u :: u in r.keys && u.resolved && Matches(Identity(u.keyLabel, u.keyID), c)
  }

  function Unused(r: Report): KeyRef -> bool { (c: KeyRef) => !UsedIn(r, c) }

  /** A candidate counts as used exactly when some operation of the trace was
      attributed to an identity that matches it. */
  lemma UsedMeansOperated(t: seq<Event>, r: Report, c: KeyRef)
    requires IsReport(r, RecordsOf(t))
    ensures UsedIn(r, c) <==> exists x :: x in RecordsOf(t) && x.key.Resolved? && Matches(x.key.id, c)
  {
    hide Matches, RecordsOf, IsUsage;
    var recs := RecordsOf(t);
    EnumeratesMembers(Map(r.keys, KeyFor), KeysIn(recs), KeyLe);
    if u :| u in r.keys && u.resolved && Matches(Identity(u.keyLabel, u.keyID), c) {
      MapMembers(r.keys, KeyFor, KeyFor(u));
      assert KeyFor(u) in KeysIn(recs);
    }
    if x :| x in recs && x.key.Resolved? && Matches(x.key.id, c) {
      assert x.key in KeysIn(recs);
      MapMembers(r.keys, KeyFor, x.key);
    }
  }

  /** The IDs and labels of the resolved keys. */
  method UsedNames(r: Report) returns (usedID: set<string>, usedLabel: set<string>)
    ensures forall x :: x in usedID <==> exists u :: u in r.keys && u.resolved && u.keyID == x && x != ""
    ensures forall x :: x in usedLabel <==> exists u :: u in r.keys && u.resolved && u.keyLabel == x && x != ""
  {
    usedID, usedLabel := {}, {};
    for i := 0 to |r.keys|
      invariant forall x :: x in usedID <==> exists u :: u in r.keys[..i] && u.resolved && u.keyID == x && x != ""
      invariant forall x :: x in usedLabel <==> exists u :: u in r.keys[..i] && u.resolved && u.keyLabel == x && x != ""
    {
      var k := r.keys[i];
      assert r.keys[..i + 1] == r.keys[..i] + [k];
      if k.resolved {
        if k.keyID != "" { usedID := usedID + {k.keyID}; }
        if k.keyLabel != "" { usedLabel := usedLabel + {k.keyLabel}; }
      }
    }
    assert r.keys[..|r.keys|] == r.keys;
  }

  /** The idle keys are exactly the candidates that are not used, in order. */
  method IdleKeys(r: Report, candidates: seq<KeyRef>) returns (idle: seq<KeyRef>)
    ensures idle == Filter(candidates, Unused(r))
  {
    var usedID, usedLabel := UsedNames(r);
    idle := [];
    for i := 0 to |candidates|
      invariant idle == Filter(candidates[..i], Unused(r))
    {
      var c := candidates[i];
      assert candidates[..i + 1] == candidates[..i] + [c];
      FilterSnoc(candidates[..i], c, Unused(r));
      var used := (c.keyID != "" && c.keyID in usedID) || (c.keyLabel != "" && c.keyLabel in usedLabel);
      assert used <==> UsedIn(r, c);
      if !used { idle := idle + [c]; }
    }
    assert candidates[..|candidates|] == candidates;
  }
}
