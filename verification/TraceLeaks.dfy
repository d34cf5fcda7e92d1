/** The leak detectors of internal/trace/analyze.go: sessions never closed and
    operations never terminated. Both are one-pass folds that keep, for every
    session, the sequence number of what is still standing. */
module TraceLeaks {
  import opened Seqs
  import opened Order
  import opened Trace

  /** What an event means to a detector, for the session it is on. */
  datatype Effect = Begins | Ends | Nothing

  /** C_OpenSession counts when it succeeded, C_CloseSession always. */
  function SessionEffect(e: Event): Effect {
    if e.fn.OpenSession? && e.OK() && e.session.Some? then Begins
    else if e.fn.CloseSession? && e.session.Some? then Ends
    else Nothing
  }

  datatype Pair = Pair(initFn: Function, ops: seq<Function>)

  const PAIRS: seq<Pair> := [
    Pair(FindObjectsInit, [FindObjectsFinal]),
    Pair(SignInit, [Sign, SignFinal]),
    Pair(VerifyInit, [Verify, VerifyFinal]),
    Pair(EncryptInit, [Encrypt, EncryptFinal]),
    Pair(DecryptInit, [Decrypt, DecryptFinal]),
    Pair(DigestInit, [Digest, DigestFinal])
  ]

  function PairEffect(p: Pair): Event -> Effect {
    (e: Event) => if e.fn == p.initFn && e.OK() then Begins else if e.fn in p.ops then Ends else Nothing
  }

  /** Event i of t begins something on session k that nothing later on the same
      session restarts or ends. */
  ghost predicate Dangles(t: seq<Event>, effect: Event -> Effect, k: nat, i: nat) {
    && i < |t| && SessionOf(t[i]) == k && effect(t[i]).Begins?
    && forall j :: i < j < |t| && SessionOf(t[j]) == k ==> effect(t[j]).Nothing?
  }

  /** The sequence number of what is still standing on session k, if anything. */
  function Standing(t: seq<Event>, effect: Event -> Effect, k: nat): Option<nat> {
    if t == [] then None
    else
      var e := t[|t| - 1];
      if SessionOf(e) != k || effect(e).Nothing? then Standing(t[..|t| - 1], effect, k)
      else if effect(e).Begins? then Some(e.seqNo)
      else None
  }

  /** Something stands on a session exactly when its last relevant event is a
      beginning, and then it is that event that is reported. */
  lemma {:induction false} StandingIsDangling(t: seq<Event>, effect: Event -> Effect, k: nat)
    ensures Standing(t, effect, k).Some? ==>
              exists i: nat :: Dangles(t, effect, k, i) && t[i].seqNo == Standing(t, effect, k).value
    ensures (exists i: nat :: Dangles(t, effect, k, i)) ==> Standing(t, effect, k).Some?
  {
    if t != [] {
      var n := |t| - 1;
      var e := t[n];
      StandingIsDangling(t[..n], effect, k);
      if SessionOf(e) != k || effect(e).Nothing? {
        forall i: nat ensures Dangles(t[..n], effect, k, i) <==> Dangles(t, effect, k, i) {
          DanglesPrefix(t, effect, k, i);
        }
        if Standing(t, effect, k).Some? {
          var i: nat :| Dangles(t[..n], effect, k, i) && t[..n][i].seqNo == Standing(t, effect, k).value;
          assert Dangles(t, effect, k, i);
        }
      } else if effect(e).Begins? {
        assert Dangles(t, effect, k, n);
      }
    }
  }

  lemma DanglesPrefix(t: seq<Event>, effect: Event -> Effect, k: nat, i: nat)
    requires t != [] && (SessionOf(t[|t| - 1]) != k || effect(t[|t| - 1]).Nothing?)
    ensures Dangles(t[..|t| - 1], effect, k, i) <==> Dangles(t, effect, k, i)
  {
    var init := t[..|t| - 1];
    if Dangles(init, effect, k, i) {
      forall j | i < j < |t| && SessionOf(t[j]) == k ensures effect(t[j]).Nothing? {
        if j < |init| { assert init[j] == t[j]; }
      }
    }
    if Dangles(t, effect, k, i) {
      forall j | i < j < |init| && SessionOf(init[j]) == k ensures effect(init[j]).Nothing? {
        assert init[j] == t[j];
      }
    }
  }

  ghost function StandingSessions(t: seq<Event>, effect: Event -> Effect): set<nat> {
    set e | e in t && Standing(t, effect, SessionOf(e)).Some? :: SessionOf(e)
  }

  function StandingAt(t: seq<Event>, effect: Event -> Effect): nat -> nat {
    (k: nat) => match Standing(t, effect, k) case Some(q) => q case None => 0
  }

  /** The sequence numbers of everything left standing, in ascending order. */
  ghost function Leaks(t: seq<Event>, effect: Event -> Effect): seq<nat> {
    SortNats(Map(AscendingNats(StandingSessions(t, effect)), StandingAt(t, effect)))
  }

  lemma {:induction false} StandingNeedsEvent(t: seq<Event>, effect: Event -> Effect, k: nat)
    requires Standing(t, effect, k).Some?
    ensures exists e :: e in t && SessionOf(e) == k
  {
    var n := |t| - 1;
    if SessionOf(t[n]) == k {
      assert t[n] in t;
    } else {
      StandingNeedsEvent(t[..n], effect, k);
      var e :| e in t[..n] && SessionOf(e) == k;
      assert e in t;
    }
  }

  lemma StandingSessionsExactly(t: seq<Event>, effect: Event -> Effect)
    ensures forall k :: k in StandingSessions(t, effect) <==> Standing(t, effect, k).Some?
  {
    forall k | Standing(t, effect, k).Some? ensures k in StandingSessions(t, effect) {
      StandingNeedsEvent(t, effect, k);
    }
  }

  /** q is the sequence number of what stands on some session. */
  ghost predicate Stands(t: seq<Event>, effect: Event -> Effect, q: nat) {
    exists k: nat :: Standing(t, effect, k) == Some(q)
  }

  lemma StandsOnSome(t: seq<Event>, effect: Event -> Effect, ks: seq<nat>, q: nat)
    requires forall k: nat :: k in ks <==> Standing(t, effect, k).Some?
    ensures q in Map(ks, StandingAt(t, effect)) <==> Stands(t, effect, q)
  {
    MapMembers(ks, StandingAt(t, effect), q);
  }

  /** Each session with something standing contributes one finding, and nothing
      else does; findings ascend. */
  lemma LeaksAreExactly(t: seq<Event>, effect: Event -> Effect)
    ensures |Leaks(t, effect)| == |StandingSessions(t, effect)|
    ensures forall i, j :: 0 <= i < j < |Leaks(t, effect)| ==> Leaks(t, effect)[i] <= Leaks(t, effect)[j]
    ensures forall q :: q in Leaks(t, effect) <==> Stands(t, effect, q)
  {
    var list := AscendingNats(StandingSessions(t, effect));
    AscendingNatsFacts(StandingSessions(t, effect));
    SortNatsFacts(Map(list, StandingAt(t, effect)));
    forall q: nat ensures q in Leaks(t, effect) <==> Stands(t, effect, q) {
      StandingSessionsExactly(t, effect);
      StandsOnSome(t, effect, list, q);
    }
  }

  // ---- independence from thread interleaving ----

  lemma StandingSnoc(t: seq<Event>, e: Event, effect: Event -> Effect, k: nat)
    ensures Standing(t + [e], effect, k)
         == if SessionOf(e) != k || effect(e).Nothing? then Standing(t, effect, k)
            else if effect(e).Begins? then Some(e.seqNo) else None
  {
    assert (t + [e])[..|t|] == t;
  }

  lemma {:induction false} StandingIsLocal(t: seq<Event>, effect: Event -> Effect, k: nat)
    ensures Standing(t, effect, k) == Standing(Filter(t, OnSession(k)), effect, k)
  {
    if t != [] {
      var init, e := t[..|t| - 1], t[|t| - 1];
      StandingIsLocal(init, effect, k);
      StandingSnoc(Filter(init, OnSession(k)), e, effect, k);
    }
  }

  /** The detector does not look at sequence numbers. */
  ghost predicate IgnoresNumbers(effect: Event -> Effect) {
    forall e :: effect(Unnumbered(e)) == effect(e)
  }

  /** Which of a session's calls, counting from 0, still stands. */
  function LastStanding(own: seq<Event>, effect: Event -> Effect): (n: Option<nat>)
    ensures n.Some? ==> n.value < |own| && effect(own[n.value]).Begins?
    ensures n.Some? ==> forall j :: n.value < j < |own| ==> effect(own[j]).Nothing?
  {
    if own == [] then None
    else if effect(own[|own| - 1]).Nothing? then LastStanding(own[..|own| - 1], effect)
    else if effect(own[|own| - 1]).Begins? then Some(|own| - 1)
    else None
  }

  lemma {:induction false} LastStandingOfCalls(own: seq<Event>, effect: Event -> Effect)
    requires IgnoresNumbers(effect)
    ensures LastStanding(Calls(own), effect) == LastStanding(own, effect)
  {
    if own != [] {
      LastStandingOfCalls(own[..|own| - 1], effect);
      assert Calls(own)[..|own| - 1] == Calls(own[..|own| - 1]);
      assert effect(Unnumbered(own[|own| - 1])) == effect(own[|own| - 1]);
    }
  }

  lemma {:induction false} StandingIsLast(own: seq<Event>, effect: Event -> Effect, k: nat)
    requires forall e :: e in own ==> SessionOf(e) == k
    ensures Standing(own, effect, k)
         == match LastStanding(own, effect) case None => None case Some(n) => Some(own[n].seqNo)
  {
    if own != [] {
      assert own[|own| - 1] in own;
      StandingIsLast(own[..|own| - 1], effect, k);
    }
  }

  /** The call of session k that a finding of the trace is about. */
  function StandingCall(t: seq<Event>, effect: Event -> Effect, k: nat): Option<nat> {
    LastStanding(Filter(t, OnSession(k)), effect)
  }

  /** A finding carries the number of that call. */
  lemma FindingIsCall(t: seq<Event>, effect: Event -> Effect, k: nat)
    ensures Standing(t, effect, k)
         == match StandingCall(t, effect, k) case None => None case Some(n) => Some(Filter(t, OnSession(k))[n].seqNo)
  {
    var own := Filter(t, OnSession(k));
    StandingIsLocal(t, effect, k);
    FilterMembers(t, OnSession(k));
    StandingIsLast(own, effect, k);
  }

  lemma SameStandingCall(t: seq<Event>, t': seq<Event>, effect: Event -> Effect, k: nat)
    requires SameSessions(t, t') && IgnoresNumbers(effect)
    ensures StandingCall(t, effect, k) == StandingCall(t', effect, k)
    ensures Standing(t, effect, k).Some? <==> Standing(t', effect, k).Some?
  {
    FindingIsCall(t, effect, k);
    FindingIsCall(t', effect, k);
    LastStandingOfCalls(Filter(t, OnSession(k)), effect);
    LastStandingOfCalls(Filter(t', OnSession(k)), effect);
    assert Calls(Filter(t, OnSession(k))) == Calls(Filter(t', OnSession(k)));
  }

  /** Two recordings of the same calls, interleaved and numbered as they may be,
      report the same sessions, and of each session the same call. */
  lemma LeaksIgnoreInterleaving(t: seq<Event>, t': seq<Event>, effect: Event -> Effect)
    requires SameSessions(t, t') && IgnoresNumbers(effect)
    ensures StandingSessions(t, effect) == StandingSessions(t', effect) && |Leaks(t, effect)| == |Leaks(t', effect)|
    ensures forall k :: StandingCall(t, effect, k) == StandingCall(t', effect, k)
    ensures forall q :: q in Leaks(t, effect)
              <==> exists k: nat :: CallNumber(t, k, StandingCall(t', effect, k)) == Some(q)
  {
    forall k: nat
      ensures StandingCall(t, effect, k) == StandingCall(t', effect, k)
      ensures Standing(t, effect, k).Some? <==> Standing(t', effect, k).Some?
      ensures Standing(t, effect, k) == CallNumber(t, k, StandingCall(t', effect, k))
    {
      SameStandingCall(t, t', effect, k);
      FindingIsCall(t, effect, k);
    }
    StandingSessionsExactly(t, effect);
    StandingSessionsExactly(t', effect);
    assert StandingSessions(t, effect) == StandingSessions(t', effect);
    LeaksAreExactly(t, effect);
    LeaksAreExactly(t', effect);
    forall q ensures q in Leaks(t, effect) <==> exists k: nat :: CallNumber(t, k, StandingCall(t', effect, k)) == Some(q) {
      if Stands(t, effect, q) {
        var k: nat :| Standing(t, effect, k) == Some(q);
        assert CallNumber(t, k, StandingCall(t', effect, k)) == Some(q);
      }
      if k: nat :| CallNumber(t, k, StandingCall(t', effect, k)) == Some(q) {
        assert Standing(t, effect, k) == Some(q);
      }
    }
  }

  /** The sequence number of the n-th call of session k in this recording. */
  function CallNumber(t: seq<Event>, k: nat, n: Option<nat>): Option<nat> {
    var own := Filter(t, OnSession(k));
    if n.Some? && n.value < |own| then Some(own[n.value].seqNo) else None
  }

  lemma SessionsIgnoreNumbers()
    ensures IgnoresNumbers(SessionEffect)
  {
  }

  lemma PairsIgnoreNumbers(p: Pair)
    ensures IgnoresNumbers(PairEffect(p))
  {
  }

  // ---- the one-pass programs ----

  ghost predicate Tracks(table: map<nat, nat>, t: seq<Event>, effect: Event -> Effect) {
    forall k: nat :: (if k in table then Some(table[k]) else None) == Standing(t, effect, k)
  }

  lemma TracksStep(table: map<nat, nat>, t: seq<Event>, e: Event, effect: Event -> Effect)
    requires Tracks(table, t, effect)
    ensures effect(e).Begins? ==> Tracks(table[SessionOf(e) := e.seqNo], t + [e], effect)
    ensures effect(e).Ends? ==> Tracks(table - {SessionOf(e)}, t + [e], effect)
    ensures effect(e).Nothing? ==> Tracks(table, t + [e], effect)
  {
    forall k: nat ensures Standing(t + [e], effect, k)
      == if SessionOf(e) != k || effect(e).Nothing? then Standing(t, effect, k)
         else if effect(e).Begins? then Some(e.seqNo) else None
    {
      StandingSnoc(t, e, effect, k);
    }
  }

  lemma AnyOrderGivesLeaks(picked: seq<nat>, keys: set<nat>, t: seq<Event>, effect: Event -> Effect)
    requires multiset(picked) == multiset(keys)
    requires forall k: nat :: k in keys <==> Standing(t, effect, k).Some?
    ensures SortNats(Map(picked, StandingAt(t, effect))) == Leaks(t, effect)
  {
    StandingSessionsExactly(t, effect);
    assert keys == StandingSessions(t, effect);
    MapPermutation(picked, AscendingNats(keys), StandingAt(t, effect));
    SortNatsUnique(Map(picked, StandingAt(t, effect)), Map(AscendingNats(keys), StandingAt(t, effect)));
  }

  function ValueAt(table: map<nat, nat>): nat -> nat { (k: nat) => if k in table then table[k] else 0 }

  /** Ranges over the table in whatever order the map yields its keys. */
  method ValuesInSomeOrder(table: map<nat, nat>) returns (values: seq<nat>, ghost picked: seq<nat>)
    ensures multiset(picked) == multiset(table.Keys) && values == Map(picked, ValueAt(table))
  {
    values, picked := [], [];
    var rest := table.Keys;
    while rest != {}
      invariant rest <= table.Keys
      invariant multiset(picked) == multiset(table.Keys - rest)
      invariant values == Map(picked, ValueAt(table))
      decreases |rest|
    {
      var k :| k in rest;
      assert table.Keys - (rest - {k}) == (table.Keys - rest) + {k};
      MapSnoc(picked, k, ValueAt(table));
      values, picked, rest := values + [table[k]], picked + [k], rest - {k};
    }
    assert table.Keys - rest == table.Keys;
  }

  lemma TrackedValues(table: map<nat, nat>, picked: seq<nat>, t: seq<Event>, effect: Event -> Effect)
    requires Tracks(table, t, effect) && multiset(picked) == multiset(table.Keys)
    ensures SortNats(Map(picked, ValueAt(table))) == Leaks(t, effect)
  {
    forall k | k in picked ensures ValueAt(table)(k) == StandingAt(t, effect)(k) {
      assert k in multiset(picked);
      assert Standing(t, effect, k) == Some(table[k]);
    }
    assert Map(picked, ValueAt(table)) == Map(picked, StandingAt(t, effect)) by {
      forall i | 0 <= i < |picked| ensures ValueAt(table)(picked[i]) == StandingAt(t, effect)(picked[i]) {
        assert picked[i] in picked;
      }
    }
    AnyOrderGivesLeaks(picked, table.Keys, t, effect);
  }

  /** Collects the table's values in whatever order the map yields them and
      sorts them: the result does not depend on that order. */
  method SortedValues(table: map<nat, nat>, ghost t: seq<Event>, ghost effect: Event -> Effect)
    returns (seqs: seq<nat>)
    requires Tracks(table, t, effect)
    ensures seqs == Leaks(t, effect)
  {
    ghost var picked;
    seqs, picked := ValuesInSomeOrder(table);
    TrackedValues(table, picked, t, effect);
    seqs := SortNats(seqs);
  }

  // ---- sessions left open ----

  predicate ClosesAll(e: Event) { e.fn.CloseAllSessions? }

  predicate ClosedAll(t: seq<Event>) { exists e :: e in t && ClosesAll(e) }

  lemma ClosedAllSnoc(t: seq<Event>, e: Event)
    ensures ClosedAll(t + [e]) <==> ClosedAll(t) || ClosesAll(e)
  {
    assert e in t + [e];
  }

  /** What the check finds: nothing at all once C_CloseAllSessions was called,
      with whatever result. */
  ghost function SessionFindings(t: seq<Event>): seq<nat> {
    if ClosedAll(t) then [] else Leaks(t, SessionEffect)
  }

  method CheckSessionLeaks(events: seq<Event>) returns (seqs: seq<nat>)
    ensures seqs == SessionFindings(events)
  {
    var open: map<nat, nat> := map[];
    var closedAll := false;
    NothingTracked(SessionEffect);
    for i := 0 to |events|
      invariant closedAll <==> ClosedAll(events[..i])
      invariant !closedAll ==> Tracks(open, events[..i], SessionEffect)
    {
      var e := events[i];
      assert events[..i + 1] == events[..i] + [e];
      if !closedAll { TracksStep(open, events[..i], e, SessionEffect); }
      ClosedAllSnoc(events[..i], e);
      if e.fn.OpenSession? {
        if e.OK() && e.session.Some? { open := open[e.session.value := e.seqNo]; }
      } else if e.fn.CloseSession? {
        if e.session.Some? { open := open - {e.session.value}; }
      } else if e.fn.CloseAllSessions? {
        closedAll, open := true, map[];
      }
    }
    assert events[..|events|] == events;
    if closedAll { return []; }
    seqs := SortedValues(open, events, SessionEffect);
  }

  lemma CloseAllRecurs(t: seq<Event>, t': seq<Event>)
    requires SameSessions(t, t') && ClosedAll(t)
    ensures ClosedAll(t')
  {
    var e :| e in t && ClosesAll(e);
    var s := SessionOf(e);
    var own, own' := Filter(t, OnSession(s)), Filter(t', OnSession(s));
    assert Calls(own) == Calls(own');
    FilterMembers(t, OnSession(s));
    FilterMembers(t', OnSession(s));
    var i :| 0 <= i < |own| && own[i] == e;
    assert Calls(own)[i].fn == e.fn && Calls(own')[i].fn == own'[i].fn && own'[i] in own';
  }

  /** Two recordings of the same calls, interleaved and numbered as they may be:
      C_CloseAllSessions occurs in both or in neither, and the check finds the
      same sessions, and of each session the same call. */
  lemma SessionFindingsIgnoreInterleaving(t: seq<Event>, t': seq<Event>)
    requires SameSessions(t, t')
    ensures (ClosedAll(t) <==> ClosedAll(t')) && |SessionFindings(t)| == |SessionFindings(t')|
    ensures forall q :: q in SessionFindings(t)
              <==> !ClosedAll(t') && exists k: nat :: CallNumber(t, k, StandingCall(t', SessionEffect, k)) == Some(q)
    ensures forall k :: StandingCall(t, SessionEffect, k) == StandingCall(t', SessionEffect, k)
  {
    hide SameSessions, ClosedAll, Leaks, StandingCall;
    if ClosedAll(t) { CloseAllRecurs(t, t'); }
    SameSessionsSwap(t, t');
    if ClosedAll(t') { CloseAllRecurs(t', t); }
    SessionsIgnoreNumbers();
    LeaksIgnoreInterleaving(t, t', SessionEffect);
  }

  lemma SameSessionsSwap(t: seq<Event>, t': seq<Event>)
    requires SameSessions(t, t')
    ensures SameSessions(t', t)
  {
  }

  /** Event i opened session k, and nothing after it reopened or closed the
      session, or closed all sessions successfully. A trace does not say which
      slot a session or a C_CloseAllSessions is on. */
  ghost predicate StillOpen(t: seq<Event>, k: nat, i: nat) {
    && Dangles(t, SessionEffect, k, i)
    && forall j :: i < j < |t| ==> !(ClosesAll(t[j]) && t[j].OK())
  }

  /** How many events end with the last successful C_CloseAllSessions. */
  function ClosedAllBefore(t: seq<Event>): (from: nat)
    ensures from <= |t|
    ensures forall j :: from <= j < |t| ==> !(ClosesAll(t[j]) && t[j].OK())
    ensures from > 0 ==> ClosesAll(t[from - 1]) && t[from - 1].OK()
  {
    if t == [] then 0
    else if ClosesAll(t[|t| - 1]) && t[|t| - 1].OK() then |t|
    else ClosedAllBefore(t[..|t| - 1])
  }

  /** The trace after its last successful C_CloseAllSessions. */
  function SinceClosedAll(t: seq<Event>): seq<Event> { t[ClosedAllBefore(t)..] }

  lemma DanglesSuffix(t: seq<Event>, from: nat, effect: Event -> Effect, k: nat, i: nat)
    requires from <= i <= |t|
    ensures Dangles(t[from..], effect, k, i - from) <==> Dangles(t, effect, k, i)
  {
    var u := t[from..];
    assert forall j :: from <= j < |t| ==> t[j] == u[j - from];
    assert forall j :: 0 <= j < |u| ==> u[j] == t[from + j];
  }

  lemma OnlyOneDangles(t: seq<Event>, effect: Event -> Effect, k: nat, i: nat, j: nat)
    requires Dangles(t, effect, k, i) && Dangles(t, effect, k, j)
    ensures i == j
  {
  }

  /** Event i opened session k under number q, and the session is still open. */
  ghost predicate OpenedAt(t: seq<Event>, k: nat, i: nat, q: nat) { i < |t| && StillOpen(t, k, i) && t[i].seqNo == q }

  lemma OpenIsDangling(t: seq<Event>, k: nat, i: nat)
    requires i < |t|
    ensures StillOpen(t, k, i) <==> ClosedAllBefore(t) <= i && Dangles(t, SessionEffect, k, i)
  {
    var from := ClosedAllBefore(t);
    if from > 0 && i == from - 1 { assert ClosesAll(t[i]); }
  }

  /** The sessions still open are those standing since then. */
  lemma StillOpenMeaning(t: seq<Event>, k: nat, q: nat)
    ensures Standing(SinceClosedAll(t), SessionEffect, k) == Some(q) <==> exists i: nat :: OpenedAt(t, k, i, q)
  {
    hide StillOpen, Standing, ClosedAllBefore, Dangles;
    if Standing(SinceClosedAll(t), SessionEffect, k) == Some(q) { StandingIsOpen(t, k, q); }
    if i: nat :| OpenedAt(t, k, i, q) { OpenIsStanding(t, k, i, q); }
  }

  lemma StandingIsOpen(t: seq<Event>, k: nat, q: nat)
    requires Standing(SinceClosedAll(t), SessionEffect, k) == Some(q)
    ensures exists i: nat :: OpenedAt(t, k, i, q)
  {
    hide StillOpen, Standing, ClosedAllBefore, Dangles;
    var u, from := SinceClosedAll(t), ClosedAllBefore(t);
    StandsAtEvent(u, k, q);
    var i: nat :| StandingAtEvent(u, k, i, q);
    DanglesSuffix(t, from, SessionEffect, k, from + i);
    OpenIsDangling(t, k, from + i);
    assert t[from + i] == u[i];
    assert OpenedAt(t, k, from + i, q);
  }

  lemma OpenIsStanding(t: seq<Event>, k: nat, i: nat, q: nat)
    requires OpenedAt(t, k, i, q)
    ensures Standing(SinceClosedAll(t), SessionEffect, k) == Some(q)
  {
    hide StillOpen, Standing, ClosedAllBefore, Dangles;
    var u, from := SinceClosedAll(t), ClosedAllBefore(t);
    OpenIsDangling(t, k, i);
    DanglesSuffix(t, from, SessionEffect, k, i);
    assert u[i - from] == t[i];
    DanglingStands(u, k, i - from, q);
  }

  ghost predicate StandingAtEvent(t: seq<Event>, k: nat, i: nat, q: nat) {
    i < |t| && Dangles(t, SessionEffect, k, i) && t[i].seqNo == q
  }

  lemma StandsAtEvent(t: seq<Event>, k: nat, q: nat)
    requires Standing(t, SessionEffect, k) == Some(q)
    ensures exists i: nat :: StandingAtEvent(t, k, i, q)
  {
    StandingIsDangling(t, SessionEffect, k);
    var i: nat :| Dangles(t, SessionEffect, k, i) && t[i].seqNo == q;
    assert StandingAtEvent(t, k, i, q);
  }

  lemma DanglingStands(t: seq<Event>, k: nat, i: nat, q: nat)
    requires i < |t| && Dangles(t, SessionEffect, k, i) && t[i].seqNo == q
    ensures Standing(t, SessionEffect, k) == Some(q)
  {
    StandingIsDangling(t, SessionEffect, k);
    var j: nat :| Dangles(t, SessionEffect, k, j) && t[j].seqNo == Standing(t, SessionEffect, k).value;
    OnlyOneDangles(t, SessionEffect, k, i, j);
  }

  /** The opening numbers of all sessions still open, in ascending order. */
  ghost function OpenNumbers(t: seq<Event>): seq<nat> { Leaks(SinceClosedAll(t), SessionEffect) }

  lemma OpenNumbersMeaning(t: seq<Event>, q: nat)
    ensures q in OpenNumbers(t) <==> exists k: nat, i: nat :: OpenedAt(t, k, i, q)
  {
    hide OpenedAt, Leaks, Standing, SinceClosedAll;
    LeaksAreExactly(SinceClosedAll(t), SessionEffect);
    if Stands(SinceClosedAll(t), SessionEffect, q) {
      var k: nat :| Standing(SinceClosedAll(t), SessionEffect, k) == Some(q);
      StillOpenMeaning(t, k, q);
    }
    if k: nat, i: nat :| OpenedAt(t, k, i, q) {
      StillOpenMeaning(t, k, q);
      assert Stands(SinceClosedAll(t), SessionEffect, q);
    }
  }

  ghost predicate NothingOpen(t: seq<Event>) { forall k: nat, i: nat :: !StillOpen(t, k, i) }

  lemma NoNumbersIfNothingOpen(t: seq<Event>)
    ensures OpenNumbers(t) == [] <==> NothingOpen(t)
  {
    if OpenNumbers(t) == [] {
      forall k: nat, i: nat ensures !StillOpen(t, k, i) {
        if StillOpen(t, k, i) {
          assert OpenedAt(t, k, i, t[i].seqNo);
          OpenNumbersMeaning(t, t[i].seqNo);
        }
      }
    } else {
      var q := OpenNumbers(t)[0];
      assert q in OpenNumbers(t);
      OpenNumbersMeaning(t, q);
    }
  }

  lemma {:induction false} NeverClosedAll(t: seq<Event>)
    requires !ClosedAll(t)
    ensures ClosedAllBefore(t) == 0
  {
    if t != [] {
      assert t == t[..|t| - 1] + [t[|t| - 1]];
      ClosedAllSnoc(t[..|t| - 1], t[|t| - 1]);
      NeverClosedAll(t[..|t| - 1]);
    }
  }

  /** The check finds exactly the sessions still open if and only if
      C_CloseAllSessions was never called or nothing is still open. */
  lemma SessionFindingsExactly(t: seq<Event>)
    ensures SessionFindings(t) == OpenNumbers(t) <==> !ClosedAll(t) || NothingOpen(t)
  {
    hide ClosedAll, NothingOpen, Leaks;
    NoNumbersIfNothingOpen(t);
    if !ClosedAll(t) {
      NeverClosedAll(t);
      assert t[0..] == t;
    }
  }

  function OpenedAs(seqNo: nat, k: nat): Event { Event(seqNo, OpenSession, Some(k), None, "", "", "", 0) }

  function ClosedAllAs(seqNo: nat, rv: nat): Event { Event(seqNo, CloseAllSessions, None, None, "", "", "", rv) }

  lemma HiddenLeak(t: seq<Event>, c: Event, k: nat, i: nat)
    requires c in t && ClosesAll(c) && StillOpen(t, k, i)
    ensures SessionFindings(t) == [] != OpenNumbers(t)
  {
    NoNumbersIfNothingOpen(t);
  }

  /** A session opened after a C_CloseAllSessions, or before one that failed, is
      still open and not found. */
  lemma CloseAllHidesLeaks(k: nat, rv: nat)
    requires rv != 0
    ensures var t := [ClosedAllAs(1, 0), OpenedAs(2, k)];
            StillOpen(t, k, 1) && SessionFindings(t) == [] != OpenNumbers(t)
    ensures var t := [OpenedAs(1, k), ClosedAllAs(2, rv)];
            StillOpen(t, k, 0) && SessionFindings(t) == [] != OpenNumbers(t)
  {
    hide SessionFindings, OpenNumbers;
    var t, u := [ClosedAllAs(1, 0), OpenedAs(2, k)], [OpenedAs(1, k), ClosedAllAs(2, rv)];
    assert StillOpen(t, k, 1) && StillOpen(u, k, 0);
    HiddenLeak(t, t[0], k, 1);
    HiddenLeak(u, u[1], k, 0);
  }

  datatype OperationLeak = OperationLeak(pair: Pair, seqNo: nat)

  function LeakOf(p: Pair): nat -> OperationLeak { (q: nat) => OperationLeak(p, q) }

  /** Pair by pair, the leaks of each in ascending order. */
  ghost function OperationLeaks(events: seq<Event>, pairs: seq<Pair>): seq<OperationLeak> {
    if pairs == [] then []
    else
      var p := pairs[|pairs| - 1];
      OperationLeaks(events, pairs[..|pairs| - 1]) + Map(Leaks(events, PairEffect(p)), LeakOf(p))
  }

  /** One pass for one pair: the sessions with an unterminated operation. */
  method PendingOperations(events: seq<Event>, p: Pair) returns (pending: map<nat, nat>)
    ensures Tracks(pending, events, PairEffect(p))
  {
    hide Tracks;
    pending := map[];
    NothingTracked(PairEffect(p));
    for i := 0 to |events|
      invariant Tracks(pending, events[..i], PairEffect(p))
    {
      var e := events[i];
      assert events[..i + 1] == events[..i] + [e];
      TracksStep(pending, events[..i], e, PairEffect(p));
      var sess := if e.session.Some? then e.session.value else 0;
      if e.fn == p.initFn && e.OK() {
        pending := pending[sess := e.seqNo];
      } else if e.fn in p.ops {
        pending := pending - {sess};
      }
    }
    assert events[..|events|] == events;
  }

  lemma NothingTracked(effect: Event -> Effect)
    ensures Tracks(map[], [], effect)
  {
  }

  method CheckOperationPairs(events: seq<Event>) returns (findings: seq<OperationLeak>)
    ensures findings == OperationLeaks(events, PAIRS)
  {
    findings := [];
    for n := 0 to |PAIRS|
      invariant findings == OperationLeaks(events, PAIRS[..n])
    {
      var p := PAIRS[n];
      assert PAIRS[..n + 1][..n] == PAIRS[..n];
      var pending := PendingOperations(events, p);
      var seqs := SortedValues(pending, events, PairEffect(p));
      findings := findings + Map(seqs, LeakOf(p));
    }
    assert PAIRS[..|PAIRS|] == PAIRS;
  }

  function PairOf(l: OperationLeak): Pair { l.pair }

  lemma {:induction false} SamePairs(ls: seq<nat>, ms: seq<nat>, p: Pair)
    requires |ls| == |ms|
    ensures Map(Map(ls, LeakOf(p)), PairOf) == Map(Map(ms, LeakOf(p)), PairOf)
  {
  }

  /** Both recordings have the same sessions with a pending operation, and of
      each session the same call is the pending one. */
  ghost predicate SamePending(t: seq<Event>, t': seq<Event>, effect: Event -> Effect) {
    && StandingSessions(t, effect) == StandingSessions(t', effect)
    && forall k: nat :: StandingCall(t, effect, k) == StandingCall(t', effect, k)
  }

  lemma OnePairAgrees(t: seq<Event>, t': seq<Event>, p: Pair)
    requires SameSessions(t, t')
    ensures SamePending(t, t', PairEffect(p))
    ensures Map(Map(Leaks(t, PairEffect(p)), LeakOf(p)), PairOf) == Map(Map(Leaks(t', PairEffect(p)), LeakOf(p)), PairOf)
  {
    hide SameSessions, Leaks;
    PairsIgnoreNumbers(p);
    LeaksIgnoreInterleaving(t, t', PairEffect(p));
    SamePairs(Leaks(t, PairEffect(p)), Leaks(t', PairEffect(p)), p);
  }

  /** The same for the operation pairs: in both recordings the findings are, one
      by one, about the same pairs, and for each pair about the same sessions
      and the same calls of them. */
  lemma {:induction false} OperationLeaksIgnoreInterleaving(t: seq<Event>, t': seq<Event>, pairs: seq<Pair>)
    requires SameSessions(t, t')
    ensures Map(OperationLeaks(t, pairs), PairOf) == Map(OperationLeaks(t', pairs), PairOf)
    ensures forall p :: p in pairs ==> SamePending(t, t', PairEffect(p))
  {
    hide SameSessions, Leaks, SamePending, PairEffect;
    if pairs != [] {
      var init, p := pairs[..|pairs| - 1], pairs[|pairs| - 1];
      OperationLeaksIgnoreInterleaving(t, t', init);
      OnePairAgrees(t, t', p);
      MapAppend(OperationLeaks(t, init), Map(Leaks(t, PairEffect(p)), LeakOf(p)), PairOf);
      MapAppend(OperationLeaks(t', init), Map(Leaks(t', PairEffect(p)), LeakOf(p)), PairOf);
      assert pairs == init + [p];
    }
  }
}
