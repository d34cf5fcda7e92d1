/** The leak findings in the words of the traced calls
    (internal/trace/analyze.go): which calls open and close, begin and end. */
module TraceMeaning {
  import opened Seqs
  import opened Order
  import opened Trace
  import opened TraceLeaks

  /** A call that names no session is put down to session 0. */
  lemma SessionMeaning(e: Event)
    ensures (e.session == None ==> SessionOf(e) == 0) && (e.session != None ==> SessionOf(e) == e.session.value)
  {
  }

  /** Call i opened session k successfully, and no later call opened it again
      successfully or closed it. */
  ghost predicate LeftOpen(t: seq<Event>, k: nat, i: nat) {
    && i < |t| && t[i].fn == OpenSession && t[i].rv == 0 && t[i].session == Some(k)
    && forall j :: i < j < |t| && t[j].session == Some(k) ==> t[j].fn != CloseSession && !(t[j].fn == OpenSession && t[j].rv == 0)
  }

  lemma LeftOpenMeaning(t: seq<Event>, k: nat, i: nat)
    ensures Dangles(t, SessionEffect, k, i) <==> LeftOpen(t, k, i)
  {
    if LeftOpen(t, k, i) {
      forall j | i < j < |t| && SessionOf(t[j]) == k ensures SessionEffect(t[j]).Nothing? {
      }
    }
    if Dangles(t, SessionEffect, k, i) {
      forall j | i < j < |t| && t[j].session == Some(k)
        ensures t[j].fn != CloseSession && !(t[j].fn == OpenSession && t[j].rv == 0)
      {
        assert SessionEffect(t[j]).Nothing?;
      }
    }
  }

  ghost predicate LeftOpenAs(t: seq<Event>, q: nat) { exists k: nat, i: nat :: LeftOpen(t, k, i) && t[i].seqNo == q }

  lemma StandsMeaning(t: seq<Event>, q: nat)
    ensures Stands(t, SessionEffect, q) <==> LeftOpenAs(t, q)
  {
    hide Standing;
    if k: nat :| Standing(t, SessionEffect, k) == Some(q) {
      StandingIsDangling(t, SessionEffect, k);
      var i: nat :| Dangles(t, SessionEffect, k, i) && t[i].seqNo == q;
      LeftOpenMeaning(t, k, i);
    }
    if k: nat, i: nat :| LeftOpen(t, k, i) && t[i].seqNo == q {
      LeftOpenMeaning(t, k, i);
      LeftIsInside(t, k, i);
      StandingIsDangling(t, SessionEffect, k);
      var j: nat :| Dangles(t, SessionEffect, k, j) && t[j].seqNo == Standing(t, SessionEffect, k).value;
      OnlyOneDangles(t, SessionEffect, k, i, j);
    }
  }

  lemma LeftIsInside(t: seq<Event>, k: nat, i: nat)
    requires LeftOpen(t, k, i)
    ensures i < |t|
  {
  }

  /** The session findings: nothing if C_CloseAllSessions was ever called, else the
      numbers of exactly the opens that were left open, ascending, one for each
      session. */
  lemma SessionFindingsMeaning(t: seq<Event>)
    ensures var found, closedAll := SessionFindings(t), exists e :: e in t && e.fn == CloseAllSessions;
            && (closedAll ==> found == [])
            && (!closedAll ==> forall q :: q in found <==> LeftOpenAs(t, q))
            && (forall i, j :: 0 <= i < j < |found| ==> found[i] <= found[j])
  {
    hide LeftOpenAs, Stands, Leaks;
    LeaksAreExactly(t, SessionEffect);
    forall q ensures Stands(t, SessionEffect, q) <==> LeftOpenAs(t, q) { StandsMeaning(t, q); }
    if e :| e in t && e.fn == CloseAllSessions { assert ClosesAll(e); }
  }

  /** The functions that end what initFn begins, for the six that begin something. */
  predicate Ends(initFn: Function, fn: Function) {
    match initFn
    case FindObjectsInit => fn == FindObjectsFinal
    case SignInit => fn == Sign || fn == SignFinal
    case VerifyInit => fn == Verify || fn == VerifyFinal
    case EncryptInit => fn == Encrypt || fn == EncryptFinal
    case DecryptInit => fn == Decrypt || fn == DecryptFinal
    case DigestInit => fn == Digest || fn == DigestFinal
    case _ => false
  }

  /** Call i on session k began something successfully, and no later call on the
      session began it again successfully or ended it, whatever it returned. */
  ghost predicate LeftPending(t: seq<Event>, initFn: Function, k: nat, i: nat) {
    && i < |t| && t[i].fn == initFn && t[i].rv == 0 && SessionOf(t[i]) == k
    && forall j :: i < j < |t| && SessionOf(t[j]) == k ==> !(t[j].fn == initFn && t[j].rv == 0) && !Ends(initFn, t[j].fn)
  }

  ghost predicate LeftPendingAs(t: seq<Event>, initFn: Function, q: nat) {
    exists k: nat, i: nat :: LeftPending(t, initFn, k, i) && t[i].seqNo == q
  }

  lemma PairMeaning(p: Pair)
    requires p in PAIRS
    ensures p.initFn in {FindObjectsInit, SignInit, VerifyInit, EncryptInit, DecryptInit, DigestInit}
    ensures forall fn :: fn in p.ops <==> Ends(p.initFn, fn)
    ensures p.initFn !in p.ops
  {
  }

  lemma PendingMeaning(t: seq<Event>, p: Pair, k: nat, i: nat)
    requires p in PAIRS
    ensures Dangles(t, PairEffect(p), k, i) <==> LeftPending(t, p.initFn, k, i)
  {
    hide Ends;
    PairMeaning(p);
    if LeftPending(t, p.initFn, k, i) {
      forall j | i < j < |t| && SessionOf(t[j]) == k ensures PairEffect(p)(t[j]).Nothing? {
      }
    }
    if Dangles(t, PairEffect(p), k, i) {
      forall j | i < j < |t| && SessionOf(t[j]) == k
        ensures !(t[j].fn == p.initFn && t[j].rv == 0) && !Ends(p.initFn, t[j].fn)
      {
        assert PairEffect(p)(t[j]).Nothing?;
      }
    }
  }

  lemma PendingStands(t: seq<Event>, p: Pair, q: nat)
    requires p in PAIRS
    ensures Stands(t, PairEffect(p), q) <==> LeftPendingAs(t, p.initFn, q)
  {
    hide Standing, PairEffect, Ends;
    if k: nat :| Standing(t, PairEffect(p), k) == Some(q) {
      StandingIsDangling(t, PairEffect(p), k);
      var i: nat :| Dangles(t, PairEffect(p), k, i) && t[i].seqNo == q;
      PendingMeaning(t, p, k, i);
    }
    if k: nat, i: nat :| LeftPending(t, p.initFn, k, i) && t[i].seqNo == q {
      PendingMeaning(t, p, k, i);
      StandingIsDangling(t, PairEffect(p), k);
      var j: nat :| Dangles(t, PairEffect(p), k, j) && t[j].seqNo == Standing(t, PairEffect(p), k).value;
      OnlyOneDangles(t, PairEffect(p), k, i, j);
    }
  }

  lemma {:induction false} LeaksMembers(t: seq<Event>, pairs: seq<Pair>, l: OperationLeak)
    ensures l in OperationLeaks(t, pairs) <==> l.pair in pairs && Stands(t, PairEffect(l.pair), l.seqNo)
  {
    hide Stands, Leaks, PairEffect;
    if pairs != [] {
      var init, p := pairs[..|pairs| - 1], pairs[|pairs| - 1];
      LeaksMembers(t, init, l);
      LeaksAreExactly(t, PairEffect(p));
      MapMembers(Leaks(t, PairEffect(p)), LeakOf(p), l);
      assert pairs == init + [p];
    }
  }

  ghost predicate FoundFor(t: seq<Event>, initFn: Function, q: nat) {
    exists l :: l in OperationLeaks(t, PAIRS) && l.pair.initFn == initFn && l.seqNo == q
  }

  lemma PairFor(initFn: Function) returns (p: Pair)
    requires initFn in {FindObjectsInit, SignInit, VerifyInit, EncryptInit, DecryptInit, DigestInit}
    ensures p in PAIRS && p.initFn == initFn
  {
    var n := match initFn
      case FindObjectsInit => 0
      case SignInit => 1
      case VerifyInit => 2
      case EncryptInit => 3
      case DecryptInit => 4
      case _ => 5;
    p := PAIRS[n];
  }

  /** The operation findings: for each of the six functions that begin an
      operation exactly the calls left pending, and for no other function any. */
  lemma OperationFindingsMeaning(t: seq<Event>, initFn: Function, q: nat)
    ensures FoundFor(t, initFn, q)
       <==> && initFn in {FindObjectsInit, SignInit, VerifyInit, EncryptInit, DecryptInit, DigestInit}
            && LeftPendingAs(t, initFn, q)
  {
    hide LeftPendingAs, Stands, Leaks, OperationLeaks, PAIRS;
    if l :| l in OperationLeaks(t, PAIRS) && l.pair.initFn == initFn && l.seqNo == q {
      LeaksMembers(t, PAIRS, l);
      PairMeaning(l.pair);
      PendingStands(t, l.pair, q);
    }
    if initFn in {FindObjectsInit, SignInit, VerifyInit, EncryptInit, DecryptInit, DigestInit} && LeftPendingAs(t, initFn, q) {
      var p := PairFor(initFn);
      PendingStands(t, p, q);
      LeaksMembers(t, PAIRS, OperationLeak(p, q));
    }
  }

  /** The place of an operation in the report. */
  function Place(initFn: Function): nat {
    match initFn
    case FindObjectsInit => 0
    case SignInit => 1
    case VerifyInit => 2
    case EncryptInit => 3
    case DecryptInit => 4
    case DigestInit => 5
    case _ => 6
  }

  lemma {:induction false} LeaksInOrder(t: seq<Event>, n: nat, i: nat, j: nat)
    requires n <= |PAIRS| && i < j < |OperationLeaks(t, PAIRS[..n])|
    ensures var ls := OperationLeaks(t, PAIRS[..n]);
            && ls[j].pair in PAIRS[..n]
            && Place(ls[i].pair.initFn) <= Place(ls[j].pair.initFn)
            && (ls[i].pair == ls[j].pair ==> ls[i].seqNo <= ls[j].seqNo)
  {
    hide Leaks, PAIRS;
    if n > 0 {
      var m := n - 1;
      var p, ls, before := PAIRS[m], OperationLeaks(t, PAIRS[..n]), OperationLeaks(t, PAIRS[..m]);
      assert PAIRS[..n][..m] == PAIRS[..m] && PAIRS[..n][m] == p;
      LeaksAreExactly(t, PairEffect(p));
      if j < |before| {
        LeaksInOrder(t, m, i, j);
      } else if i < |before| {
        LeaksMembers(t, PAIRS[..m], before[i]);
        EarlierPlace(m, before[i].pair);
      }
    }
  }

  lemma EarlierPlace(m: nat, p: Pair)
    requires m < |PAIRS| && p in PAIRS[..m]
    ensures Place(p.initFn) < Place(PAIRS[m].initFn)
  {
    var i :| 0 <= i < m && PAIRS[..m][i] == p;
    assert PAIRS[i] == p;
  }

  /** The findings come operation by operation, and for each in ascending order. */
  lemma OperationFindingsInOrder(t: seq<Event>, i: nat, j: nat)
    requires i < j < |OperationLeaks(t, PAIRS)|
    ensures var ls := OperationLeaks(t, PAIRS);
            && Place(ls[i].pair.initFn) <= Place(ls[j].pair.initFn)
            && (ls[i].pair == ls[j].pair ==> ls[i].seqNo <= ls[j].seqNo)
  {
    hide OperationLeaks, PAIRS;
    assert PAIRS[..|PAIRS|] == PAIRS;
    LeaksInOrder(t, |PAIRS|, i, j);
  }
}
