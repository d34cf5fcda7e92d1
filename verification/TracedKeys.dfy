/** From a key on the token to the trace and back: a key found by its CKA_ID
    through the shim (shim/shim.c) and then used, against the inventory's IDs
    (internal/inventory/collect.go) the idle-key report matches on
    (internal/trace/keys.go). */
module TracedKeys {
  import opened Bytes
  import opened Seqs
  import opened Trace
  import opened KeyUsage
  import opened Shim

  function AsChar(b: byte): char { (b as int) as char }

  function AsText(b: seq<byte>): string { Map(b, AsChar) }

  /** A key's ID as the inventory has it. */
  function InventoryId(id: seq<byte>): string { AsText(Hex(id)) }

  /** The identity a search leaves in the trace. */
  function SearchedIdentity(template: seq<Attribute>): Identity {
    Identity(AsText(LabelText(template, LABEL_SIZE)), AsText(IdText(template, KEYID_SIZE)))
  }

  lemma TextInjective(a: seq<byte>, b: seq<byte>)
    ensures AsText(a) == AsText(b) <==> a == b
  {
    if AsText(a) == AsText(b) {
      forall i | 0 <= i < |a| ensures a[i] == b[i] { assert AsText(a)[i] == AsText(b)[i]; }
    }
  }

  lemma {:induction false} PendingStays(a: seq<Event>, b: seq<Event>, s: nat)
    requires forall e :: e in b ==> !(e.fn.FindObjectsInit? && SessionOf(e) == s)
    ensures PendingOf(a + b, s) == PendingOf(a, s)
  {
    if b == [] {
      assert a + b == a;
    } else {
      var init, last := b[..|b| - 1], b[|b| - 1];
      assert b == init + [last] && last in b;
      PendingStays(a, init, s);
      PendingSnoc(a + init, last, s);
      assert a + b == a + init + [last];
    }
  }

  /** A search and the find that follows it on the session tie the handle to the
      searched identity, whatever other sessions do meanwhile. */
  lemma FindBinds(a: seq<Event>, search: Event, b: seq<Event>, find: Event, template: seq<Attribute>, h: nat)
    requires search.fn.FindObjectsInit? && find.fn.FindObjects? && SessionOf(find) == SessionOf(search) && find.handle == Some(h)
    requires Identity(search.keyLabel, search.keyID) == SearchedIdentity(template) && SearchedIdentity(template).Named()
    requires forall e :: e in b ==> !(e.fn.FindObjectsInit? && SessionOf(e) == SessionOf(search))
    ensures BindingOf(a + [search] + b + [find], SessionOf(search), h) == Some(SearchedIdentity(template))
  {
    PendingSnoc(a, search, SessionOf(search));
    PendingStays(a + [search], b, SessionOf(search));
    BindingSnoc(a + [search] + b, find, SessionOf(search), h);
  }

  /** From there the binding stays until a later find on the session rebinds the
      handle. */
  lemma {:induction false} BindingStays(a: seq<Event>, b: seq<Event>, s: nat, h: nat)
    requires forall j :: |a| <= j < |a + b| ==> !Binds(a + b, j, s, h)
    ensures BindingOf(a + b, s, h) == BindingOf(a, s, h)
  {
    hide Binds;
    if b == [] {
      assert a + b == a;
    } else {
      var t, init := a + b, b[..|b| - 1];
      assert t[..|t| - 1] == a + init;
      forall j | |a| <= j < |a + init| ensures !Binds(a + init, j, s, h) { BindsPrefix(t, j, s, h); }
      BindingStays(a, init, s, h);
    }
  }

  lemma {:induction false} RecordIsThere(t: seq<Event>, k: nat)
    requires k < |t| && IsUse(t[k])
    ensures RecordOf(t[..k], t[k]) in RecordsOf(t)
  {
    var init := t[..|t| - 1];
    if k < |t| - 1 {
      RecordIsThere(init, k);
      assert init[..k] == t[..k] && init[k] == t[k];
    }
  }

  /** The identity of a search by CKA_ID matches a key without label exactly when
      the key's CKA_ID is the searched one cut after 64 bytes. */
  lemma IdentityMatchesExactly(template: seq<Attribute>, id: seq<byte>, class_: string)
    requires LastUsable(template, CKA_ID).Some? && id != []
    ensures Matches(SearchedIdentity(template), KeyRef(class_, "", InventoryId(id)))
       <==> id == Prefix(LastUsable(template, CKA_ID).value, 64)
  {
    SearchNamesKey(template, id);
    TextInjective(IdText(template, KEYID_SIZE), Hex(id));
    assert InventoryId(id) != "";
  }

  lemma BoundKeyIsUsed(t: seq<Event>, k: nat, r: Report, template: seq<Attribute>, c: KeyRef)
    requires k < |t| && IsUse(t[k]) && IsReport(r, RecordsOf(t))
    requires BindingOf(t[..k], SessionOf(t[k]), t[k].handle.value) == Some(SearchedIdentity(template))
    requires LastUsable(template, CKA_ID).Some? && |LastUsable(template, CKA_ID).value| <= 64
    requires c.keyID == InventoryId(LastUsable(template, CKA_ID).value)
    ensures UsedIn(r, c)
  {
    var id := LastUsable(template, CKA_ID).value;
    LastUsableIsUsable(template, CKA_ID);
    IdentityMatchesExactly(template, id, c.class_);
    var x := RecordOf(t[..k], t[k]);
    RecordIsThere(t, k);
    UsedMeansOperated(t, r, c);
    assert x.key.Resolved? && Matches(x.key.id, c);
  }

  /** A search by CKA_ID, the find after it, and a use of the handle found: what
      the session's thread did, whatever other events lie between. */
  datatype Story = Story(before: seq<Event>, search: Event, during: seq<Event>, find: Event,
                         between: seq<Event>, use: Event, later: seq<Event>)
  {
    function Found(): seq<Event> { before + [search] + during + [find] }

    function Trace(): seq<Event> { Found() + between + [use] + later }

    /** No new search before the find, no rebinding of the handle before the use. */
    ghost predicate Holds(template: seq<Attribute>) {
      && search.fn.FindObjectsInit? && Identity(search.keyLabel, search.keyID) == SearchedIdentity(template)
      && (forall e :: e in during ==> !(e.fn.FindObjectsInit? && SessionOf(e) == SessionOf(search)))
      && find.fn.FindObjects? && SessionOf(find) == SessionOf(search) && find.handle.Some?
      && (forall j :: |Found()| <= j < |Found() + between| ==> !Binds(Found() + between, j, SessionOf(search), find.handle.value))
      && IsUse(use) && SessionOf(use) == SessionOf(search) && use.handle == find.handle
    }
  }

  lemma SearchIsNamed(template: seq<Attribute>)
    requires LastUsable(template, CKA_ID).Some?
    ensures SearchedIdentity(template).Named()
  {
    SearchNamesKey(template, []);
  }

  /** A key whose CKA_ID was searched for, found, and used is not reported as
      idle if its ID has at most 64 bytes. */
  lemma UsedKeyIsNotIdle(y: Story, r: Report, template: seq<Attribute>, c: KeyRef)
    requires y.Holds(template) && IsReport(r, RecordsOf(y.Trace()))
    requires LastUsable(template, CKA_ID).Some? && |LastUsable(template, CKA_ID).value| <= 64
    requires c.keyID == InventoryId(LastUsable(template, CKA_ID).value)
    ensures UsedIn(r, c)
  {
    hide RecordsOf, IsReport, SearchedIdentity, LabelText, IdText, Binds, PendingOf, BindingOf;
    var s, h := SessionOf(y.search), y.find.handle.value;
    SearchIsNamed(template);
    FindBinds(y.before, y.search, y.during, y.find, template, h);
    BindingStays(y.Found(), y.between, s, h);
    var k := |y.Found() + y.between|;
    assert y.Trace()[..k] == y.Found() + y.between && y.Trace()[k] == y.use;
    BoundKeyIsUsed(y.Trace(), k, r, template, c);
  }

  /** When all resolved uses of a trace go back to one search by CKA_ID, a key
      without label counts as used exactly when its CKA_ID is the searched one
      cut after 64 bytes; so the key searched for itself does exactly when its ID
      has at most 64. */
  lemma FoundKeyExactly(t: seq<Event>, r: Report, template: seq<Attribute>, id: seq<byte>, class_: string)
    requires IsReport(r, RecordsOf(t)) && LastUsable(template, CKA_ID).Some? && id != []
    requires exists x :: x in RecordsOf(t) && x.key.Resolved?
    requires forall x :: x in RecordsOf(t) && x.key.Resolved? ==> x.key.id == SearchedIdentity(template)
    ensures var searched := LastUsable(template, CKA_ID).value;
            && (UsedIn(r, KeyRef(class_, "", InventoryId(id))) <==> id == Prefix(searched, 64))
            && (id == searched ==> (UsedIn(r, KeyRef(class_, "", InventoryId(id))) <==> |id| <= 64))
  {
    IdentityMatchesExactly(template, id, class_);
    UsedMeansOperated(t, r, KeyRef(class_, "", InventoryId(id)));
  }

  function SearchById(id: seq<byte>): seq<Attribute> { [Attribute(CKA_ID, Bytes(id))] }

  function SearchEvent(template: seq<Attribute>): Event {
    Event(1, FindObjectsInit, Some(1), None, SearchedIdentity(template).keyLabel, SearchedIdentity(template).keyID, "", 0)
  }

  const FOUND: Event := Event(2, FindObjects, Some(1), Some(5), "", "", "", 0)
  const USED: Event := Event(3, SignInit, Some(1), Some(5), "", "", "CKM_ECDSA", 0)

  lemma SearchByIdText(id: seq<byte>)
    requires id != []
    ensures LastUsable(SearchById(id), CKA_ID) == Some(id) && SearchedIdentity(SearchById(id)).Named()
  {
    assert SearchById(id)[..0] == [];
    SearchIsNamed(SearchById(id));
  }

  /** One search by a 65-byte CKA_ID, the key found, and a signature with it: the
      key is reported as idle. */
  lemma LongIdIsReportedIdle(id: seq<byte>, r: Report, class_: string)
    requires |id| == 65 && IsReport(r, RecordsOf([SearchEvent(SearchById(id)), FOUND, USED]))
    ensures !UsedIn(r, KeyRef(class_, "", InventoryId(id)))
  {
    hide IsReport, SearchedIdentity, UsedIn;
    var template := SearchById(id);
    var search := SearchEvent(template);
    var t := [search, FOUND, USED];
    SearchByIdText(id);
    FindBinds([], search, [], FOUND, template, 5);
    assert [] + [search] + [] + [FOUND] == t[..2] == [search, FOUND];
    UseOnly(search, FOUND, USED);
    FoundKeyExactly(t, r, template, id, class_);
  }

  lemma UseOnly(a: Event, b: Event, use: Event)
    requires !IsUse(a) && !IsUse(b) && IsUse(use)
    ensures RecordsOf([a, b, use]) == [RecordOf([a, b], use)]
  {
    assert RecordsOf([a]) == [] by { assert [a][..0] == []; }
    assert RecordsOf([a, b]) == [] by { assert [a, b][..1] == [a]; }
    assert [a, b, use][..2] == [a, b];
  }
}
