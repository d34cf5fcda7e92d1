/** Sorting as the program uses it. `Sort` is the stable insertion sort that
    `sort.SliceStable` and the hand-written insertion loop both implement; a
    sort over an antisymmetric order needs no stability, because its result is
    unique. */
module Order {
  import opened Seqs

  ghost predicate TotalPreorder<T(!new)>(le: (T, T) -> bool) {
    && (forall a, b :: le(a, b) || le(b, a))
    && (forall a, b, c :: le(a, b) && le(b, c) ==> le(a, c))
  }

  ghost predicate TotalOrder<T(!new)>(le: (T, T) -> bool) {
    && TotalPreorder(le)
    && (forall a, b :: le(a, b) && le(b, a) ==> a == b)
  }

  ghost predicate Sorted<T>(s: seq<T>, le: (T, T) -> bool) {
    forall i, j :: 0 <= i < j < |s| ==> le(s[i], s[j])
  }

  /** Inserts x behind every element that is not strictly above it. */
  function Insert<T>(s: seq<T>, x: T, le: (T, T) -> bool): seq<T> {
    if s == [] || le(s[|s| - 1], x) then s + [x]
    else Insert(s[..|s| - 1], x, le) + [s[|s| - 1]]
  }

  /** Stable insertion sort. */
  function Sort<T>(s: seq<T>, le: (T, T) -> bool): seq<T> {
    if s == [] then [] else Insert(Sort(s[..|s| - 1], le), s[|s| - 1], le)
  }

  lemma {:induction false} InsertPermutes<T>(s: seq<T>, x: T, le: (T, T) -> bool)
    ensures multiset(Insert(s, x, le)) == multiset(s) + multiset{x}
  {
    if !(s == [] || le(s[|s| - 1], x)) {
      InsertPermutes(s[..|s| - 1], x, le);
      assert s == s[..|s| - 1] + [s[|s| - 1]];
    }
  }

  /** Sorting neither loses, adds nor changes an element. */
  lemma {:induction false} SortPermutes<T>(s: seq<T>, le: (T, T) -> bool)
    ensures multiset(Sort(s, le)) == multiset(s)
    ensures |Sort(s, le)| == |s|
    ensures forall x :: x in Sort(s, le) <==> x in s
  {
    if s != [] {
      SortPermutes(s[..|s| - 1], le);
      InsertPermutes(Sort(s[..|s| - 1], le), s[|s| - 1], le);
      assert s == s[..|s| - 1] + [s[|s| - 1]];
    }
    PermutationLength(Sort(s, le), s);
  }

  lemma InsertMember<T>(s: seq<T>, x: T, le: (T, T) -> bool, y: T)
    requires y in Insert(s, x, le)
    ensures y == x || exists k :: 0 <= k < |s| && s[k] == y
  {
    InsertPermutes(s, x, le);
    assert y in multiset(Insert(s, x, le));
  }

  lemma {:induction false} InsertSorts<T(!new)>(s: seq<T>, x: T, le: (T, T) -> bool)
    requires TotalPreorder(le) && Sorted(s, le)
    ensures Sorted(Insert(s, x, le), le)
  {
    var n := |s| - 1;
    if s == [] {
    } else if le(s[n], x) {
      forall i | 0 <= i < |s| ensures le(s[i], x) {
        assert le(s[i], s[n]);
      }
    } else {
      InsertSorts(s[..n], x, le);
      var r := Insert(s[..n], x, le);
      forall i | 0 <= i < |r| ensures le(r[i], s[n]) {
        InsertMember(s[..n], x, le, r[i]);
        assert le(x, s[n]);
        if k :| 0 <= k < n && s[..n][k] == r[i] { assert le(s[k], s[n]); }
      }
    }
  }

  lemma {:induction false} SortSorts<T(!new)>(s: seq<T>, le: (T, T) -> bool)
    requires TotalPreorder(le)
    ensures Sorted(Sort(s, le), le)
  {
    if s != [] {
      SortSorts(s[..|s| - 1], le);
      InsertSorts(Sort(s[..|s| - 1], le), s[|s| - 1], le);
    }
  }

  /** The elements the order does not separate from y. */
  function TiedTo<T>(y: T, le: (T, T) -> bool): T -> bool {
    z => le(y, z) && le(z, y)
  }

  lemma {:induction false} InsertStable<T>(s: seq<T>, x: T, le: (T, T) -> bool, y: T)
    requires forall z :: z in s && TiedTo(y, le)(z) && TiedTo(y, le)(x) ==> le(z, x)
    ensures Filter(Insert(s, x, le), TiedTo(y, le)) == Filter(s + [x], TiedTo(y, le))
  {
    var p := TiedTo(y, le);
    if !(s == [] || le(s[|s| - 1], x)) {
      var init, last := s[..|s| - 1], s[|s| - 1];
      InsertStable(init, x, le, y);
      FilterSnoc(Insert(init, x, le), last, p);
      FilterSnoc(init, x, p);
      FilterSnoc(s, x, p);
      assert last in s && !(p(x) && p(last));
    }
  }

  lemma TiedOrdered<T(!new)>(y: T, z: T, x: T, le: (T, T) -> bool)
    requires TotalPreorder(le) && TiedTo(y, le)(z) && TiedTo(y, le)(x)
    ensures le(z, x)
  {
    assert le(z, y) && le(y, x);
  }

  /** Stability: within every class of tied elements the order is untouched. */
  lemma {:induction false} SortStable<T(!new)>(s: seq<T>, le: (T, T) -> bool, y: T)
    requires TotalPreorder(le)
    ensures Filter(Sort(s, le), TiedTo(y, le)) == Filter(s, TiedTo(y, le))
  {
    if s != [] {
      var p, init, x := TiedTo(y, le), s[..|s| - 1], s[|s| - 1];
      SortStable(init, le, y);
      forall z | z in Sort(init, le) && p(z) && p(x) ensures le(z, x) {
        TiedOrdered(y, z, x, le);
      }
      InsertStable(Sort(init, le), x, le, y);
      FilterSnoc(Sort(init, le), x, p);
    }
  }

  lemma {:induction false} SortFixpoint<T>(s: seq<T>, le: (T, T) -> bool)
    requires Sorted(s, le)
    ensures Sort(s, le) == s
  {
    if s != [] {
      var init := s[..|s| - 1];
      SortFixpoint(init, le);
      assert init != [] ==> le(s[|s| - 2], s[|s| - 1]);
    }
  }

  /** Sorting batch by batch is sorting once: re-sorting after each append
      gives the stable sort of the whole concatenation. */
  lemma {:induction false} SortBatches<T(!new)>(a: seq<T>, b: seq<T>, le: (T, T) -> bool)
    requires TotalPreorder(le)
    ensures Sort(Sort(a, le) + b, le) == Sort(a + b, le)
  {
    hide TotalPreorder, Insert, Sorted;
    if b == [] {
      SortSorts(a, le);
      SortFixpoint(Sort(a, le), le);
      assert Sort(a, le) + b == Sort(a, le) && a + b == a;
    } else {
      var init := b[..|b| - 1];
      SortBatches(a, init, le);
      assert (a + b)[..|a + b| - 1] == a + init;
      assert (Sort(a, le) + b)[..|Sort(a, le) + b| - 1] == Sort(a, le) + init;
    }
  }

  lemma SortedLast<T(!new)>(a: seq<T>, b: seq<T>, le: (T, T) -> bool)
    requires TotalOrder(le) && Sorted(a, le) && Sorted(b, le)
    requires a != [] && multiset(a) == multiset(b)
    ensures b != [] && a[|a| - 1] == b[|b| - 1]
  {
    PermutationLength(a, b);
    var x, y := a[|a| - 1], b[|b| - 1];
    assert x in b && y in a;
    assert le(x, y) by { BelowLast(b, x, le); }
    assert le(y, x) by { BelowLast(a, y, le); }
  }

  lemma BelowLast<T(!new)>(s: seq<T>, x: T, le: (T, T) -> bool)
    requires TotalOrder(le) && Sorted(s, le) && x in s
    ensures le(x, s[|s| - 1])
  {
    var i :| 0 <= i < |s| && s[i] == x;
  }

  lemma SortedInit<T>(s: seq<T>, le: (T, T) -> bool)
    requires Sorted(s, le) && s != []
    ensures Sorted(s[..|s| - 1], le)
  {
  }

  lemma MultisetInit<T>(s: seq<T>)
    requires s != []
    ensures multiset(s) == multiset(s[..|s| - 1]) + multiset{s[|s| - 1]}
  {
    assert s == s[..|s| - 1] + [s[|s| - 1]];
  }

  /** Over a total order a sorted arrangement of given elements is unique, so
      it cannot depend on the order in which they were collected. */
  lemma {:induction false} SortedUnique<T(!new)>(a: seq<T>, b: seq<T>, le: (T, T) -> bool)
    requires TotalOrder(le) && Sorted(a, le) && Sorted(b, le)
    requires multiset(a) == multiset(b)
    ensures a == b
  {
    hide TotalOrder, Sorted;
    PermutationLength(a, b);
    if a != [] {
      SortedLast(a, b, le);
      SortedInit(a, le);
      SortedInit(b, le);
      MultisetInit(a);
      MultisetInit(b);
      assert multiset(a[..|a| - 1]) == multiset(a) - multiset{a[|a| - 1]};
      assert multiset(b[..|b| - 1]) == multiset(b) - multiset{b[|b| - 1]};
      SortedUnique(a[..|a| - 1], b[..|b| - 1], le);
      assert a == a[..|a| - 1] + [a[|a| - 1]] && b == b[..|b| - 1] + [b[|b| - 1]];
    }
  }

  lemma SortUnique<T(!new)>(a: seq<T>, b: seq<T>, le: (T, T) -> bool)
    requires TotalOrder(le) && multiset(a) == multiset(b)
    ensures Sort(a, le) == Sort(b, le)
  {
    SortPermutes(a, le);
    SortPermutes(b, le);
    SortSorts(a, le);
    SortSorts(b, le);
    SortedUnique(Sort(a, le), Sort(b, le), le);
  }

  /** s lists the members of keys, each once, in ascending order. */
  ghost predicate Enumerates<T>(s: seq<T>, keys: set<T>, le: (T, T) -> bool) {
    && Sorted(s, le)
    && multiset(s) == multiset(keys)
  }

  lemma EnumeratesMembers<T>(s: seq<T>, keys: set<T>, le: (T, T) -> bool)
    requires Enumerates(s, keys, le)
    ensures forall x :: x in s <==> x in keys
    ensures forall i, j :: 0 <= i < j < |s| ==> s[i] != s[j]
    ensures |s| == |keys|
  {
    forall x ensures x in s <==> x in keys {
      assert x in s <==> x in multiset(s);
    }
    assert |s| == |multiset(s)| == |keys|;
    forall i, j | 0 <= i < j < |s| ensures s[i] != s[j] {
      if s[i] == s[j] { Repeats(s, i, j); }
    }
  }

  /** The ascending list of a finite set; ghost, because the program reaches it
      by ranging over a map in an arbitrary order and sorting. */
  ghost function SortedList<T(!new)>(keys: set<T>, le: (T, T) -> bool): (s: seq<T>)
    requires TotalOrder(le)
    ensures Enumerates(s, keys, le)
  {
    if keys == {} then []
    else
      var k :| k in keys;
      var rest := SortedList(keys - {k}, le);
      InsertSorts(rest, k, le);
      InsertPermutes(rest, k, le);
      assert multiset(keys) == multiset(keys - {k}) + multiset{k};
      Insert(rest, k, le)
  }

  lemma EnumeratesUnique<T(!new)>(s: seq<T>, keys: set<T>, le: (T, T) -> bool)
    requires TotalOrder(le) && Enumerates(s, keys, le)
    ensures s == SortedList(keys, le)
  {
    SortedUnique(s, SortedList(keys, le), le);
  }

  /** Byte-wise string order, as Go compares strings. */
  predicate StringLe(a: string, b: string) {
    if a == [] then true
    else if b == [] then false
    else a[0] < b[0] || (a[0] == b[0] && StringLe(a[1..], b[1..]))
  }

  lemma {:induction false} StringLeTotal(a: string, b: string)
    ensures StringLe(a, b) || StringLe(b, a)
    ensures StringLe(a, b) && StringLe(b, a) ==> a == b
  {
    if a != [] && b != [] {
      StringLeTotal(a[1..], b[1..]);
      assert a == [a[0]] + a[1..] && b == [b[0]] + b[1..];
    }
  }

  lemma {:induction false} StringLeTransitive(a: string, b: string, c: string)
    requires StringLe(a, b) && StringLe(b, c)
    ensures StringLe(a, c)
  {
    if a != [] && a[0] == b[0] && b[0] == c[0] {
      StringLeTransitive(a[1..], b[1..], c[1..]);
    }
  }

  lemma StringOrder()
    ensures TotalOrder(StringLe)
  {
    forall a, b ensures (StringLe(a, b) || StringLe(b, a)) && (StringLe(a, b) && StringLe(b, a) ==> a == b) {
      StringLeTotal(a, b);
    }
    forall a, b, c | StringLe(a, b) && StringLe(b, c) ensures StringLe(a, c) {
      StringLeTransitive(a, b, c);
    }
  }

  lemma FirstAgrees(a: string, b: string, i: int)
    requires FirstSmaller(a, b, i)
    ensures i == 0 || a[0] == b[0]
  {
    if i > 0 { assert a[..i][0] == a[0] && b[..i][0] == b[0]; }
  }

  /** What that means: a is a prefix of b, or smaller at the first difference. */
  lemma {:induction false} StringLeMeaning(a: string, b: string)
    ensures StringLe(a, b) <==> a <= b || exists i :: FirstSmaller(a, b, i)
  {
    if a != [] && b != [] {
      var c, d := a[1..], b[1..];
      if a[0] < b[0] {
        assert FirstSmaller(a, b, 0);
      } else if a[0] == b[0] {
        StringLeMeaning(c, d);
        assert a == [a[0]] + c && b == [b[0]] + d;
        if i :| FirstSmaller(c, d, i) {
          assert a[..i + 1] == [a[0]] + c[..i] && b[..i + 1] == [b[0]] + d[..i];
          assert FirstSmaller(a, b, i + 1);
        }
        if i :| FirstSmaller(a, b, i) {
          assert i > 0;
          assert c[..i - 1] == a[..i][1..] && d[..i - 1] == b[..i][1..];
          assert FirstSmaller(c, d, i - 1);
        }
      } else {
        forall i ensures !FirstSmaller(a, b, i) {
          if FirstSmaller(a, b, i) { FirstAgrees(a, b, i); }
        }
      }
    }
  }

  predicate FirstSmaller(a: string, b: string, i: int) {
    0 <= i < |a| && i < |b| && a[..i] == b[..i] && a[i] < b[i]
  }

  /** Strictly before: a proper prefix, or smaller at the first difference. */
  ghost predicate Before(a: string, b: string) { a < b || exists i :: FirstSmaller(a, b, i) }

  lemma BeforeMeaning(a: string, b: string)
    ensures Before(a, b) <==> StringLe(a, b) && a != b
  {
    StringLeMeaning(a, b);
    if a == b {
      forall i ensures !FirstSmaller(a, b, i) {
      }
    }
  }

  /** An ascending list of names: each once, each strictly before the next. */
  lemma AscendingStringsMeaning(keys: set<string>)
    ensures forall x :: x in AscendingStrings(keys) <==> x in keys
    ensures forall i, j :: 0 <= i < j < |AscendingStrings(keys)| ==> Before(AscendingStrings(keys)[i], AscendingStrings(keys)[j])
  {
    var s := AscendingStrings(keys);
    EnumeratesMembers(s, keys, StringLe);
    forall i, j | 0 <= i < j < |s| ensures Before(s[i], s[j]) { BeforeMeaning(s[i], s[j]); }
  }

  predicate NatLe(a: nat, b: nat) { a <= b }

  lemma NatOrder()
    ensures TotalOrder(NatLe)
  {
  }

  // The two orders the program sorts by most, packaged so that callers see
  // only the facts they need.

  function SortNats(s: seq<nat>): seq<nat> { Sort(s, NatLe) }

  lemma SortNatsFacts(s: seq<nat>)
    ensures multiset(SortNats(s)) == multiset(s) && |SortNats(s)| == |s|
    ensures forall x :: x in SortNats(s) <==> x in s
    ensures forall i, j :: 0 <= i < j < |s| ==> SortNats(s)[i] <= SortNats(s)[j]
  {
    SortPermutes(s, NatLe);
    assert Sorted(SortNats(s), NatLe) by {
      NatOrder();
      SortSorts(s, NatLe);
    }
    forall i, j | 0 <= i < j < |s| ensures SortNats(s)[i] <= SortNats(s)[j] {
      assert NatLe(SortNats(s)[i], SortNats(s)[j]);
    }
  }

  lemma SortNatsUnique(a: seq<nat>, b: seq<nat>)
    requires multiset(a) == multiset(b)
    ensures SortNats(a) == SortNats(b)
  {
    NatOrder();
    SortUnique(a, b, NatLe);
  }

  ghost function AscendingNats(keys: set<nat>): (s: seq<nat>)
    ensures multiset(s) == multiset(keys)
  {
    NatOrder();
    SortedList(keys, NatLe)
  }

  lemma AscendingNatsFacts(keys: set<nat>)
    ensures |AscendingNats(keys)| == |keys|
    ensures forall k :: k in AscendingNats(keys) <==> k in keys
  {
    var s := AscendingNats(keys);
    assert |multiset(s)| == |s|;
    forall k ensures k in s <==> k in keys {
      assert k in s <==> k in multiset(s);
    }
  }

  function SortStrings(s: seq<string>): seq<string> { Sort(s, StringLe) }

  lemma SortStringsFacts(s: seq<string>)
    ensures multiset(SortStrings(s)) == multiset(s) && Sorted(SortStrings(s), StringLe)
    ensures |SortStrings(s)| == |s| && forall x :: x in SortStrings(s) <==> x in s
  {
    StringOrder();
    SortPermutes(s, StringLe);
    SortSorts(s, StringLe);
  }

  ghost function AscendingStrings(keys: set<string>): (s: seq<string>)
    ensures Enumerates(s, keys, StringLe)
  {
    StringOrder();
    SortedList(keys, StringLe)
  }

  lemma AscendingStringsUnique(s: seq<string>, keys: set<string>)
    requires Enumerates(s, keys, StringLe)
    ensures s == AscendingStrings(keys)
  {
    StringOrder();
    EnumeratesUnique(s, keys, StringLe);
  }

  /** Ranging over a set of names in an arbitrary order and sorting always
      gives the same list. */
  method SortedNames(xs: set<string>) returns (r: seq<string>)
    ensures Enumerates(r, xs, StringLe) && r == AscendingStrings(xs)
  {
    r := [];
    var rest := xs;
    while rest != {}
      invariant rest <= xs && multiset(r) == multiset(xs - rest)
      decreases |rest|
    {
      var x :| x in rest;
      assert xs - (rest - {x}) == (xs - rest) + {x};
      r := r + [x];
      rest := rest - {x};
    }
    assert xs - rest == xs;
    SortStringsFacts(r);
    r := SortStrings(r);
    AscendingStringsUnique(r, xs);
  }
}
