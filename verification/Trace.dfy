/** The PKCS#11 call trace of internal/trace/event.go: metadata only. */
module Trace {
  import opened Seqs

  /** PKCS#11 function names the analysers look at; every other name is Other. */
  datatype Function =
    | OpenSession | CloseSession | CloseAllSessions
    | FindObjectsInit | FindObjects | FindObjectsFinal
    | SignInit | Sign | SignFinal
    | VerifyInit | Verify | VerifyFinal
    | EncryptInit | Encrypt | EncryptFinal
    | DecryptInit | Decrypt | DecryptFinal
    | DigestInit | Digest | DigestFinal
    | WrapKey | UnwrapKey
    | Other(name: string)

  datatype Event = Event(
    seqNo: nat,
    fn: Function,
    session: Option<nat>,
    handle: Option<nat>,
    keyLabel: string,
    keyID: string,
    mechanism: string,
    rv: nat)
  {
    predicate OK() { rv == 0 }
  }

  /** A call without a session handle is attributed to session 0. */
  function SessionOf(e: Event): nat {
    if e.session.Some? then e.session.value else 0
  }

  function OnSession(s: nat): Event -> bool {
    (e: Event) => SessionOf(e) == s
  }

  /** The call without its number. Numbers count the calls of the whole process,
      so another schedule of the same calls gives other numbers. */
  function Unnumbered(e: Event): Event { e.(seqNo := 0) }

  function Calls(t: seq<Event>): seq<Event> { Map(t, Unnumbered) }

  /** Two recordings of the same calls: every session made the same calls in the
      same order, whatever way the threads were interleaved and the events
      numbered. */
  ghost predicate SameSessions(t: seq<Event>, t': seq<Event>) {
    forall s: nat :: Calls(Filter(t, OnSession(s))) == Calls(Filter(t', OnSession(s)))
  }

  /** The same, event by event: what SameSessions says of unnumbered traces. */
  ghost predicate SameEvents(t: seq<Event>, t': seq<Event>) {
    forall s: nat :: Filter(t, OnSession(s)) == Filter(t', OnSession(s))
  }

  lemma {:induction false} FilterCalls(t: seq<Event>, s: nat)
    ensures Filter(Calls(t), OnSession(s)) == Calls(Filter(t, OnSession(s)))
  {
    if t != [] {
      var init, e := t[..|t| - 1], t[|t| - 1];
      FilterCalls(init, s);
      assert t == init + [e];
      MapSnoc(init, e, Unnumbered);
      FilterSnoc(Calls(init), Unnumbered(e), OnSession(s));
      FilterSnoc(init, e, OnSession(s));
      MapSnoc(Filter(init, OnSession(s)), e, Unnumbered);
    }
  }

  lemma SameCallsAreSameEvents(t: seq<Event>, t': seq<Event>)
    requires SameSessions(t, t')
    ensures SameEvents(Calls(t), Calls(t'))
  {
    forall s: nat ensures Filter(Calls(t), OnSession(s)) == Filter(Calls(t'), OnSession(s)) {
      FilterCalls(t, s);
      FilterCalls(t', s);
    }
  }

  /** Splits a trace at the last event of a session. */
  lemma {:induction false} LastOnSession(t: seq<Event>, s: nat) returns (a: seq<Event>, e: Event, b: seq<Event>)
    requires Filter(t, OnSession(s)) != []
    ensures t == a + [e] + b && SessionOf(e) == s
    ensures Filter(b, OnSession(s)) == [] && Filter(t, OnSession(s)) == Filter(a, OnSession(s)) + [e]
  {
    var init, last := t[..|t| - 1], t[|t| - 1];
    if SessionOf(last) == s {
      a, e, b := init, last, [];
    } else {
      a, e, b := LastOnSession(init, s);
      FilterSnoc(b, last, OnSession(s));
      b := b + [last];
    }
  }

  /** The other recording with the same event taken out: the induction step of
      every interleaving proof. */
  lemma DropLast(t: seq<Event>, t': seq<Event>) returns (a: seq<Event>, b: seq<Event>)
    requires SameEvents(t, t') && t != []
    ensures var e := t[|t| - 1];
            && t' == a + [e] + b
            && Filter(b, OnSession(SessionOf(e))) == []
            && SameEvents(t[..|t| - 1], a + b)
            && Filter(t[..|t| - 1], OnSession(SessionOf(e))) == Filter(a, OnSession(SessionOf(e)))
  {
    var init, e := t[..|t| - 1], t[|t| - 1];
    var s, e' := SessionOf(e), e;
    assert t == init + [e];
    FilterSnoc(init, e, OnSession(s));
    assert Filter(t, OnSession(s)) == Filter(t', OnSession(s));
    a, e', b := LastOnSession(t', s);
    SnocInjective(Filter(init, OnSession(s)), e, Filter(a, OnSession(s)), e');
    forall x: nat ensures Filter(init, OnSession(x)) == Filter(a + b, OnSession(x)) {
      FilterSnoc(init, e, OnSession(x));
      FilterMiddle(a, e, b, OnSession(x));
      FilterAppend(a, b, OnSession(x));
      assert Filter(t, OnSession(x)) == Filter(t', OnSession(x));
    }
  }

  lemma OwnSessionNonEmpty(t: seq<Event>)
    requires t != []
    ensures Filter(t, OnSession(SessionOf(t[|t| - 1]))) != []
  {
  }

  lemma SameEventsEmpty(t: seq<Event>)
    requires SameEvents([], t)
    ensures t == []
  {
    if t != [] { OwnSessionNonEmpty(t); }
  }
}
