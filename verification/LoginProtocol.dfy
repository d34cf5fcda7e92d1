/** The login reference count of internal/p11/session.go as interleaved atomic
    steps of any number of sessions and of calls closing them, over a token that
    shares one login between all sessions of the application (PKCS #11 Base
    Specification v2.40, section 5.6): closing the last session on a token logs
    it out.

    The mutex is `Client.mu`; every step below is one locked update, one call
    into the token, or one lock operation, so any interleaving of goroutines is
    some sequence of actions. */
module LoginProtocol {
  import opened Seqs

  type Slot = nat
  type Handle = nat

  /** Where OpenSession stands. */
  datatype Phase =
    | WantLogin   // has a handle and a PIN, waits for the mutex
    | LoggingIn   // holds the mutex, about to call C_Login
    | Counting    // holds the mutex, login accepted, about to count itself
    | Refused     // holds the mutex, login failed
    | Counted     // holds the mutex, counted
    | Abandoning  // login failed, about to close its handle
    | Abandoned   // login failed, never returned to the caller
    | Returned    // returned to the caller, who may close it

  /** Where a call of Close stands. */
  datatype Stage =
    | WantRelease // the session has loginRef, waits for the mutex
    | Releasing   // holds the mutex, about to drop the reference
    | LoggingOut  // holds the mutex, was the last one, about to call C_Logout
    | Released    // holds the mutex, reference dropped
    | Closing     // about to close the handle
    | Done

  /** loginRef is never cleared by the program; released and closed record that
      some Close has already dropped the reference and given up the handle. */
  datatype Session = Session(slot: Slot, handle: Handle, loginRef: bool, released: bool, closed: bool, phase: Phase)

  datatype Call = Call(session: nat, stage: Stage)

  datatype Token = Token(open: map<Handle, Slot>, loggedIn: set<Slot>)

  /** Who holds the mutex: an OpenSession or a Close. */
  datatype Holder = Opening(i: nat) | Calling(c: nat)

  datatype State = State(sessions: seq<Session>, calls: seq<Call>, mutex: Option<Holder>, logins: map<Slot, int>, token: Token)

  datatype Action =
    | Open(slot: Slot, handle: Handle, pin: bool)
    | Login(i: nat, accepted: bool)
    | Count(i: nat)
    | Abandon(i: nat, ok: bool)
    | Close(i: nat)
    | Release(c: nat)
    | Logout(c: nat, ok: bool)
    | CloseHandle(c: nat, ok: bool)
    | Lock(holder: Holder)
    | Unlock(holder: Holder)

  const INIT := State([], [], None, map[], Token(map[], {}))

  function Get(logins: map<Slot, int>, slot: Slot): int {
    if slot in logins then logins[slot] else 0
  }

  /** `logins[slot]--` followed by the deletion of a count that fell to zero. */
  function Decremented(logins: map<Slot, int>, slot: Slot): map<Slot, int> {
    if Get(logins, slot) - 1 <= 0 then logins - {slot} else logins[slot := logins[slot] - 1]
  }

  /** C_CloseSession: the slot loses its login with its last session. */
  function WithoutHandle(t: Token, h: Handle): Token
    requires h in t.open
  {
    var open := t.open - {h};
    Token(open, if t.open[h] in open.Values then t.loggedIn else t.loggedIn - {t.open[h]})
  }

  predicate PhaseHolds(p: Phase) { p.LoggingIn? || p.Counting? || p.Refused? || p.Counted? }

  predicate StageHolds(p: Stage) { p.Releasing? || p.LoggingOut? || p.Released? }

  predicate AtPhase(s: State, i: nat, p: Phase) { i < |s.sessions| && s.sessions[i].phase == p }

  predicate AtStage(s: State, c: nat, p: Stage) {
    c < |s.calls| && s.calls[c].session < |s.sessions| && s.calls[c].stage == p
  }

  /** The session a call is about. */
  function Of(s: State, c: nat): Session
    requires c < |s.calls| && s.calls[c].session < |s.sessions|
  {
    s.sessions[s.calls[c].session]
  }

  /** The token takes calls on open handles only. */
  predicate Enabled(s: State, a: Action) {
    match a
    case Open(_, h, _) => h !in s.token.open
    case Login(i, _) => AtPhase(s, i, LoggingIn)
    case Count(i) => AtPhase(s, i, Counting)
    case Abandon(i, ok) => AtPhase(s, i, Abandoning) && (ok ==> s.sessions[i].handle in s.token.open)
    // Any number of calls, one after the other or at the same time; see ClosedOnce.
    case Close(i) => AtPhase(s, i, Returned)
    case Release(c) => AtStage(s, c, Releasing)
    case Logout(c, ok) => AtStage(s, c, LoggingOut) && (ok ==> Of(s, c).handle in s.token.open)
    case CloseHandle(c, ok) => AtStage(s, c, Closing) && (ok ==> Of(s, c).handle in s.token.open)
    case Lock(Opening(i)) => s.mutex.None? && AtPhase(s, i, WantLogin)
    case Lock(Calling(c)) => s.mutex.None? && AtStage(s, c, WantRelease)
    case Unlock(Opening(i)) => AtPhase(s, i, Counted) || AtPhase(s, i, Refused)
    case Unlock(Calling(c)) => AtStage(s, c, Released)
  }

  function Move(s: State, i: nat, p: Phase): State
    requires i < |s.sessions|
  {
    s.(sessions := s.sessions[i := s.sessions[i].(phase := p)])
  }

  function MoveCall(s: State, c: nat, p: Stage): State
    requires c < |s.calls|
  {
    s.(calls := s.calls[c := s.calls[c].(stage := p)])
  }

  function Apply(s: State, a: Action): State
    requires Enabled(s, a)
  {
    match a
    case Open(slot, h, pin) =>
      s.(sessions := s.sessions + [Session(slot, h, false, false, false, if pin then WantLogin else Returned)],
         token := s.token.(open := s.token.open[h := slot]))
    case Login(i, accepted) =>
      if accepted then
        Move(s, i, Counting).(token := s.token.(loggedIn := s.token.loggedIn + {s.sessions[i].slot}))
      else
        Move(s, i, Refused)
    case Count(i) =>
      var me := s.sessions[i];
      s.(sessions := s.sessions[i := me.(loginRef := true, phase := Counted)],
         logins := s.logins[me.slot := Get(s.logins, me.slot) + 1])
    case Abandon(i, ok) =>
      var me := s.sessions[i];
      s.(sessions := s.sessions[i := me.(closed := true, phase := Abandoned)],
         token := if ok then WithoutHandle(s.token, me.handle) else s.token)
    case Close(i) =>
      s.(calls := s.calls + [Call(i, if s.sessions[i].loginRef then WantRelease else Closing)])
    case Release(c) =>
      var me := Of(s, c);
      var logins := Decremented(s.logins, me.slot);
      MoveCall(s, c, if me.slot in logins then Released else LoggingOut)
      .(sessions := s.sessions[s.calls[c].session := me.(released := true)], logins := logins)
    case Logout(c, ok) =>
      MoveCall(s, c, Released).(token :=
        if ok then s.token.(loggedIn := s.token.loggedIn - {s.token.open[Of(s, c).handle]}) else s.token)
    case CloseHandle(c, ok) =>
      var me := Of(s, c);
      MoveCall(s, c, Done)
      .(sessions := s.sessions[s.calls[c].session := me.(closed := true)],
        token := if ok then WithoutHandle(s.token, me.handle) else s.token)
    case Lock(Opening(i)) => Move(s, i, LoggingIn).(mutex := Some(a.holder))
    case Lock(Calling(c)) => MoveCall(s, c, Releasing).(mutex := Some(a.holder))
    case Unlock(Opening(i)) =>
      Move(s, i, if s.sessions[i].phase.Counted? then Returned else Abandoning).(mutex := None)
    case Unlock(Calling(c)) => MoveCall(s, c, Closing).(mutex := None)
  }

  /** Schedules: any interleaving of enabled actions. */
  predicate Possible(s: State, acts: seq<Action>)
    decreases |acts|
  {
    acts == [] || (Enabled(s, acts[0]) && Possible(Apply(s, acts[0]), acts[1..]))
  }

  function Exec(s: State, acts: seq<Action>): State
    requires Possible(s, acts)
    decreases |acts|
  {
    if acts == [] then s else Exec(Apply(s, acts[0]), acts[1..])
  }

  /** Nobody has called Close on the session. */
  predicate Uncalled(s: State, i: nat) { forall c :: 0 <= c < |s.calls| ==> s.calls[c].session != i }

  /** The schedule calls Close at most once for each session. */
  predicate ClosedOnce(s: State, acts: seq<Action>)
    requires Possible(s, acts)
    decreases |acts|
  {
    acts == [] || ((acts[0].Close? ==> Uncalled(s, acts[0].i)) && ClosedOnce(Apply(s, acts[0]), acts[1..]))
  }

  // ---- what should hold ----

  /** A session that relies on the login of its slot: counted, not yet released. */
  function HoldsLogin(slot: Slot): Session -> bool {
    (x: Session) => x.slot == slot && x.loginRef && !x.released
  }

  /** The count kept for every slot is the number of sessions relying on it. */
  ghost predicate CountsAgree(s: State) {
    forall slot: Slot :: Get(s.logins, slot) == CountIf(s.sessions, HoldsLogin(slot))
  }

  ghost predicate NoCountBelowOne(s: State) {
    forall slot: Slot :: slot in s.logins ==> s.logins[slot] >= 1
  }

  /** Whoever is counted, or about to be, still finds the token logged in. */
  ghost predicate LoginsHonoured(s: State) {
    && (forall slot: Slot :: slot in s.logins ==> slot in s.token.loggedIn)
    && (forall i :: 0 <= i < |s.sessions| && s.sessions[i].phase.Counting?
          ==> s.sessions[i].slot in s.token.loggedIn)
  }

  /** Every session not yet closed owns its handle, and owns it alone. */
  ghost predicate HandlesOwned(s: State) {
    && (forall i :: 0 <= i < |s.sessions| && !s.sessions[i].closed ==>
          s.sessions[i].handle in s.token.open && s.token.open[s.sessions[i].handle] == s.sessions[i].slot)
    && (forall i, j :: 0 <= i < j < |s.sessions| && !s.sessions[i].closed && !s.sessions[j].closed ==>
          s.sessions[i].handle != s.sessions[j].handle)
  }

  /** Counts, logins and handles are as they should be. */
  ghost predicate Sound(s: State) {
    CountsAgree(s) && NoCountBelowOne(s) && LoginsHonoured(s) && HandlesOwned(s)
  }

  predicate SessionOk(x: Session) {
    match x.phase
    case WantLogin | LoggingIn | Counting | Refused | Abandoning => !x.loginRef && !x.released && !x.closed
    case Counted => x.loginRef && !x.released && !x.closed
    case Returned => (x.released ==> x.loginRef) && (x.closed ==> x.loginRef == x.released)
    case Abandoned => x.closed && !x.loginRef && !x.released
  }

  predicate CallOk(sessions: seq<Session>, call: Call) {
    call.session < |sessions| && sessions[call.session].phase.Returned? &&
    var me := sessions[call.session];
    match call.stage
    case WantRelease | Releasing => me.loginRef
    case LoggingOut | Released => me.loginRef && me.released
    case Closing => me.loginRef == me.released
    case Done => me.closed && me.loginRef == me.released
  }

  ghost predicate MutexOk(s: State) {
    && (forall i :: 0 <= i < |s.sessions| ==> (PhaseHolds(s.sessions[i].phase) <==> s.mutex == Some(Opening(i))))
    && (forall c :: 0 <= c < |s.calls| ==> (StageHolds(s.calls[c].stage) <==> s.mutex == Some(Calling(c))))
    && (s.mutex.Some? ==> match s.mutex.value case Opening(i) => i < |s.sessions| case Calling(c) => c < |s.calls|)
  }

  /** Whoever is about to log a slot out has seen it uncounted. */
  ghost predicate LogoutsOk(s: State) {
    forall c :: 0 <= c < |s.calls| && AtStage(s, c, LoggingOut) ==> Of(s, c).slot !in s.logins
  }

  ghost predicate SessionsOk(s: State) {
    && (forall i :: 0 <= i < |s.sessions| ==> SessionOk(s.sessions[i]))
    && (forall c :: 0 <= c < |s.calls| ==> CallOk(s.sessions, s.calls[c]))
  }

  /** The bookkeeping of phases and the mutex, which no schedule can break. */
  ghost predicate Orderly(s: State) { SessionsOk(s) && MutexOk(s) && LogoutsOk(s) }

  ghost predicate Inv(s: State) { Orderly(s) && Sound(s) }

  lemma PhasesStep(s: State, a: Action, i: nat)
    requires MutexOk(s) && Enabled(s, a) && i < |Apply(s, a).sessions|
    ensures PhaseHolds(Apply(s, a).sessions[i].phase) <==> Apply(s, a).mutex == Some(Opening(i))
  {
  }

  lemma StagesStep(s: State, a: Action, c: nat)
    requires MutexOk(s) && Enabled(s, a) && c < |Apply(s, a).calls|
    ensures StageHolds(Apply(s, a).calls[c].stage) <==> Apply(s, a).mutex == Some(Calling(c))
  {
  }

  lemma MutexStep(s: State, a: Action)
    requires MutexOk(s) && Enabled(s, a)
    ensures MutexOk(Apply(s, a))
  {
    hide PhaseHolds, StageHolds;
    var s' := Apply(s, a);
    forall i | 0 <= i < |s'.sessions| ensures PhaseHolds(s'.sessions[i].phase) <==> s'.mutex == Some(Opening(i)) {
      PhasesStep(s, a, i);
    }
    forall c | 0 <= c < |s'.calls| ensures StageHolds(s'.calls[c].stage) <==> s'.mutex == Some(Calling(c)) {
      StagesStep(s, a, c);
    }
  }

  /** A session's flags only ever rise, and its slot and handle stay. */
  predicate Follows(x: Session, y: Session) {
    && y.slot == x.slot && y.handle == x.handle && (x.phase.Returned? ==> y.phase.Returned? && y.loginRef == x.loginRef)
    && (x.released ==> y.released) && (x.closed ==> y.closed) && SessionOk(y)
  }

  lemma SessionsStep(s: State, a: Action)
    requires SessionsOk(s) && Enabled(s, a)
    ensures var s' := Apply(s, a);
            && |s.sessions| <= |s'.sessions| && (forall i :: 0 <= i < |s.sessions| ==> Follows(s.sessions[i], s'.sessions[i]))
            && (forall i :: |s.sessions| <= i < |s'.sessions| ==> SessionOk(s'.sessions[i]))
  {
    if a.Release? { assert CallOk(s.sessions, s.calls[a.c]); }
    if a.CloseHandle? { assert CallOk(s.sessions, s.calls[a.c]); }
  }

  lemma CallFollows(sessions: seq<Session>, after: seq<Session>, call: Call)
    requires CallOk(sessions, call) && |sessions| <= |after| && Follows(sessions[call.session], after[call.session])
    ensures CallOk(after, call)
  {
  }

  lemma OwnCallStep(s: State, a: Action, c: nat)
    requires SessionsOk(s) && Enabled(s, a) && c < |Apply(s, a).calls|
    requires c >= |s.calls| || Apply(s, a).calls[c] != s.calls[c]
    ensures CallOk(Apply(s, a).sessions, Apply(s, a).calls[c])
  {
    if c < |s.calls| { assert CallOk(s.sessions, s.calls[c]); } else { assert SessionOk(s.sessions[a.i]); }
  }

  lemma CallsStep(s: State, a: Action)
    requires SessionsOk(s) && Enabled(s, a)
    ensures SessionsOk(Apply(s, a))
  {
    hide CallOk, SessionOk, Follows;
    var s' := Apply(s, a);
    SessionsStep(s, a);
    forall i | 0 <= i < |s'.sessions| ensures SessionOk(s'.sessions[i]) {
      if i < |s.sessions| { FollowerOk(s.sessions[i], s'.sessions[i]); }
    }
    forall c | 0 <= c < |s'.calls| ensures CallOk(s'.sessions, s'.calls[c]) {
      if c < |s.calls| && s'.calls[c] == s.calls[c] {
        CallHasSession(s.sessions, s.calls[c]);
        CallFollows(s.sessions, s'.sessions, s.calls[c]);
      } else {
        OwnCallStep(s, a, c);
      }
    }
  }

  lemma FollowerOk(x: Session, y: Session)
    requires Follows(x, y)
    ensures SessionOk(y)
  {
  }

  lemma CallHasSession(sessions: seq<Session>, call: Call)
    requires CallOk(sessions, call)
    ensures call.session < |sessions|
  {
  }

  lemma LogoutsStep(s: State, a: Action)
    requires Orderly(s) && Enabled(s, a)
    ensures LogoutsOk(Apply(s, a))
  {
    hide SessionOk, CallOk;
    var s' := Apply(s, a);
    SessionsStep(s, a);
    forall c | 0 <= c < |s'.calls| && AtStage(s', c, LoggingOut) ensures Of(s', c).slot !in s'.logins {
      if c < |s.calls| && s'.calls[c] == s.calls[c] {
        CallHasSession(s.sessions, s.calls[c]);
        assert AtStage(s, c, LoggingOut) && Of(s, c).slot !in s.logins;
        LogoutWaits(s, a, c);
        assert Follows(s.sessions[s.calls[c].session], s'.sessions[s.calls[c].session]);
        assert Of(s', c).slot == Of(s, c).slot;
      } else {
        LogoutBegins(s, a, c);
      }
    }
  }

  lemma LogoutBegins(s: State, a: Action, c: nat)
    requires Enabled(s, a) && AtStage(Apply(s, a), c, LoggingOut)
    requires c >= |s.calls| || Apply(s, a).calls[c] != s.calls[c]
    ensures Of(Apply(s, a), c).slot !in Apply(s, a).logins
  {
    hide Decremented;
  }

  /** While somebody is about to log out, nobody else touches the counts. */
  lemma LogoutWaits(s: State, a: Action, c: nat)
    requires MutexOk(s) && Enabled(s, a) && AtStage(s, c, LoggingOut)
    ensures Apply(s, a).logins == s.logins
  {
  }

  lemma OrderlyStep(s: State, a: Action)
    requires Orderly(s) && Enabled(s, a)
    ensures Orderly(Apply(s, a))
  {
    hide SessionsOk, MutexOk, LogoutsOk;
    MutexStep(s, a);
    CallsStep(s, a);
    LogoutsStep(s, a);
  }

  // ---- other slots ----

  function SlotOf(s: State, a: Action): Slot
    requires Enabled(s, a)
  {
    match a
    case Open(slot, _, _) => slot
    case Login(i, _) => s.sessions[i].slot
    case Count(i) => s.sessions[i].slot
    case Abandon(i, _) => s.sessions[i].slot
    case Close(i) => s.sessions[i].slot
    case Release(c) => Of(s, c).slot
    case Logout(c, _) => Of(s, c).slot
    case CloseHandle(c, _) => Of(s, c).slot
    case Lock(Opening(i)) => s.sessions[i].slot
    case Lock(Calling(c)) => Of(s, c).slot
    case Unlock(Opening(i)) => s.sessions[i].slot
    case Unlock(Calling(c)) => Of(s, c).slot
  }

  predicate OpenOn(t: Token, h: Handle, slot: Slot) { h in t.open && t.open[h] == slot }

  /** Nothing the program or the token keeps for a slot has changed. */
  ghost predicate SameFor(s: State, s': State, slot: Slot) {
    && Get(s'.logins, slot) == Get(s.logins, slot)
    && (slot in s'.token.loggedIn <==> slot in s.token.loggedIn)
    && (forall h: Handle :: OpenOn(s'.token, h, slot) <==> OpenOn(s.token, h, slot))
  }

  /** The step touches its own slot only. */
  ghost predicate Local(s: State, a: Action)
    requires Enabled(s, a)
  {
    forall other: Slot :: other != SlotOf(s, a) ==> SameFor(s, Apply(s, a), other)
  }

  // ---- which steps are harmless ----

  /** Some session that is not yet closed has this handle. */
  predicate Owned(s: State, h: Handle) {
    exists j :: 0 <= j < |s.sessions| && !s.sessions[j].closed && s.sessions[j].handle == h
  }

  /** A drop of a reference that is still held or of an uncounted slot, a logout
      of the session's own slot, a close of the session's own handle. */
  predicate Harmless(s: State, a: Action)
    requires Enabled(s, a)
  {
    match a
    case Release(c) => !Of(s, c).released || Of(s, c).slot !in s.logins
    case Logout(c, ok) =>
      ok ==> var slot := s.token.open[Of(s, c).handle]; slot == Of(s, c).slot || slot !in s.token.loggedIn
    case CloseHandle(c, ok) =>
      var me := Of(s, c);
      ok && me.closed ==> s.token.open[me.handle] == me.slot && !Owned(s, me.handle)
    case _ => true
  }

  lemma CountsSame(s: State, s': State, i: nat)
    requires CountsAgree(s) && i < |s.sessions| && s'.logins == s.logins
    requires |s'.sessions| == |s.sessions| && s'.sessions == s.sessions[i := s'.sessions[i]]
    requires s'.sessions[i].slot == s.sessions[i].slot
    requires (s'.sessions[i].loginRef && !s'.sessions[i].released)
          == (s.sessions[i].loginRef && !s.sessions[i].released)
    ensures CountsAgree(s')
  {
    forall slot: Slot ensures Get(s'.logins, slot) == CountIf(s'.sessions, HoldsLogin(slot)) {
      CountIfUpdate(s.sessions, i, s'.sessions[i], HoldsLogin(slot));
    }
  }

  lemma OpenKeepsCounts(s: State, slot: Slot, h: Handle, pin: bool)
    requires CountsAgree(s) && h !in s.token.open
    ensures CountsAgree(Apply(s, Open(slot, h, pin)))
  {
    var s' := Apply(s, Open(slot, h, pin));
    forall x: Slot ensures Get(s'.logins, x) == CountIf(s'.sessions, HoldsLogin(x)) {
      CountIfAppend(s.sessions, s'.sessions[|s.sessions|], HoldsLogin(x));
    }
  }

  lemma OpenKeepsSound(s: State, slot: Slot, h: Handle, pin: bool)
    requires Sound(s) && h !in s.token.open
    ensures Sound(Apply(s, Open(slot, h, pin)))
  {
    hide CountsAgree;
    OpenKeepsCounts(s, slot, h, pin);
  }

  lemma CountKeepsSound(s: State, i: nat)
    requires Inv(s) && Enabled(s, Count(i))
    ensures Sound(Apply(s, Count(i)))
  {
    hide Seqs.CountIf;
    var s' := Apply(s, Count(i));
    assert SessionOk(s.sessions[i]);
    forall slot: Slot
      ensures Get(s'.logins, slot) == CountIf(s'.sessions, HoldsLogin(slot))
      ensures slot in s'.logins ==> s'.logins[slot] >= 1
    {
      CountIfUpdate(s.sessions, i, s'.sessions[i], HoldsLogin(slot));
    }
  }

  /** Dropping a reference keeps every count right exactly when the session has
      not dropped it before, or nobody is counted on the slot any more. */
  lemma ReleaseKeepsCounts(s: State, c: nat)
    requires CountsAgree(s) && NoCountBelowOne(s) && Enabled(s, Release(c)) && Of(s, c).loginRef
    ensures CountsAgree(Apply(s, Release(c))) <==> !Of(s, c).released || Of(s, c).slot !in s.logins
    ensures NoCountBelowOne(Apply(s, Release(c)))
  {
    var s', i, me := Apply(s, Release(c)), s.calls[c].session, Of(s, c);
    forall slot: Slot
      ensures Get(s'.logins, slot) - CountIf(s'.sessions, HoldsLogin(slot))
           == if slot != me.slot || !me.released || slot !in s.logins then 0 else -1
    {
      CountIfUpdate(s.sessions, i, s'.sessions[i], HoldsLogin(slot));
      if slot == me.slot && !me.released {
        assert HoldsLogin(slot)(s.sessions[i]);
      }
    }
    assert Get(s'.logins, me.slot) - CountIf(s'.sessions, HoldsLogin(me.slot))
        == if !me.released || me.slot !in s.logins then 0 else -1;
  }

  lemma CallIsOk(s: State, c: nat)
    requires Orderly(s) && c < |s.calls|
    ensures CallOk(s.sessions, s.calls[c])
  {
  }

  lemma ReleaseKeepsSound(s: State, c: nat)
    requires Inv(s) && Enabled(s, Release(c)) && Harmless(s, Release(c))
    ensures Sound(Apply(s, Release(c)))
  {
    hide Seqs.CountIf, CountsAgree;
    CallIsOk(s, c);
    ReleaseKeepsCounts(s, c);
  }

  /** A counted slot has a session that relies on it and owns a handle there. */
  lemma CountedHasHandle(s: State, slot: Slot) returns (j: nat)
    requires Inv(s) && slot in s.logins
    ensures j < |s.sessions| && s.sessions[j].slot == slot
    ensures s.sessions[j].loginRef && !s.sessions[j].released && !s.sessions[j].closed
  {
    CountIfPositive(s.sessions, HoldsLogin(slot));
    assert CountIf(s.sessions, HoldsLogin(slot)) == s.logins[slot];
    j :| 0 <= j < |s.sessions| && HoldsLogin(slot)(s.sessions[j]);
    assert SessionOk(s.sessions[j]);
  }

  /** Session i may give its handle back: it is its own, or nobody's any more. */
  predicate MayGiveUp(s: State, i: nat)
    requires i < |s.sessions|
  {
    var me := s.sessions[i];
    && me.handle in s.token.open && me.loginRef == me.released && !me.phase.Counting?
    && (me.closed ==> s.token.open[me.handle] == me.slot && !Owned(s, me.handle))
  }

  /** Slots on which a login is needed keep it. */
  lemma GivingUpKeepsLogin(s: State, i: nat, slot: Slot)
    requires Inv(s) && i < |s.sessions| && MayGiveUp(s, i)
    requires slot in s.logins || (exists j :: 0 <= j < |s.sessions| && s.sessions[j].phase.Counting? && s.sessions[j].slot == slot)
    ensures slot in WithoutHandle(s.token, s.sessions[i].handle).loggedIn
  {
    var j: nat;
    if slot in s.logins {
      j := CountedHasHandle(s, slot);
    } else {
      j :| 0 <= j < |s.sessions| && s.sessions[j].phase.Counting? && s.sessions[j].slot == slot;
    }
    assert SessionOk(s.sessions[j]);
    assert i != j && s.sessions[i].handle != s.sessions[j].handle;
    var open := s.token.open - {s.sessions[i].handle};
    assert s.sessions[j].handle in open && open[s.sessions[j].handle] == slot;
  }

  /** s' is s after session i has given up its handle, or was refused to. */
  ghost predicate GivenUp(s: State, s': State, i: nat, ok: bool)
    requires i < |s.sessions| && (ok ==> s.sessions[i].handle in s.token.open)
  {
    && |s'.sessions| == |s.sessions| && s'.sessions == s.sessions[i := s'.sessions[i]] && s'.logins == s.logins
    && s'.sessions[i].closed && !s'.sessions[i].phase.Counting?
    && s'.sessions[i].(closed := false, phase := Returned) == s.sessions[i].(closed := false, phase := Returned)
    && s'.token == if ok then WithoutHandle(s.token, s.sessions[i].handle) else s.token
  }

  lemma GivingUpKeepsOwners(s: State, s': State, i: nat, ok: bool)
    requires Inv(s) && i < |s.sessions| && (ok ==> MayGiveUp(s, i)) && GivenUp(s, s', i, ok)
    ensures HandlesOwned(s')
  {
    forall j | 0 <= j < |s'.sessions| && !s'.sessions[j].closed
      ensures s'.sessions[j].handle in s'.token.open && s'.token.open[s'.sessions[j].handle] == s'.sessions[j].slot
    {
      assert j != i && s'.sessions[j] == s.sessions[j];
      assert ok ==> s.sessions[j].handle != s.sessions[i].handle;
    }
  }

  lemma GivingUpKeepsSound(s: State, s': State, i: nat, ok: bool)
    requires Inv(s) && i < |s.sessions| && (ok ==> MayGiveUp(s, i)) && GivenUp(s, s', i, ok)
    ensures Sound(s')
  {
    hide Seqs.CountIf;
    CountsSame(s, s', i);
    GivingUpKeepsOwners(s, s', i, ok);
    if ok {
      forall slot: Slot | slot in s'.logins ensures slot in s'.token.loggedIn {
        GivingUpKeepsLogin(s, i, slot);
      }
      forall j | 0 <= j < |s'.sessions| && s'.sessions[j].phase.Counting?
        ensures s'.sessions[j].slot in s'.token.loggedIn
      {
        GivingUpKeepsLogin(s, i, s.sessions[j].slot);
      }
    }
  }

  lemma CloseHandleKeepsSound(s: State, c: nat, ok: bool)
    requires Inv(s) && Enabled(s, CloseHandle(c, ok)) && Harmless(s, CloseHandle(c, ok))
    ensures Sound(Apply(s, CloseHandle(c, ok)))
  {
    hide Sound, Orderly;
    CallIsOk(s, c);
    GivingUpKeepsSound(s, Apply(s, CloseHandle(c, ok)), s.calls[c].session, ok);
  }

  lemma AbandonKeepsSound(s: State, i: nat, ok: bool)
    requires Inv(s) && Enabled(s, Abandon(i, ok))
    ensures Sound(Apply(s, Abandon(i, ok)))
  {
    hide Sound;
    assert SessionOk(s.sessions[i]);
    GivingUpKeepsSound(s, Apply(s, Abandon(i, ok)), i, ok);
  }

  lemma LogoutKeepsSound(s: State, c: nat, ok: bool)
    requires Inv(s) && Enabled(s, Logout(c, ok)) && Harmless(s, Logout(c, ok))
    ensures Sound(Apply(s, Logout(c, ok)))
  {
    hide Seqs.CountIf, SessionOk, CallOk;
    assert s.mutex == Some(Calling(c)) && Of(s, c).slot !in s.logins;
  }

  lemma OpeningStepKeepsSound(s: State, a: Action)
    requires Inv(s) && Enabled(s, a)
    requires a.Login? || ((a.Lock? || a.Unlock?) && a.holder.Opening?)
    ensures Sound(Apply(s, a))
  {
    hide Seqs.CountIf;
    CountsSame(s, Apply(s, a), if a.Login? then a.i else a.holder.i);
  }

  lemma CallStepKeepsSound(s: State, a: Action)
    requires Inv(s) && Enabled(s, a)
    requires a.Close? || ((a.Lock? || a.Unlock?) && a.holder.Calling?)
    ensures Sound(Apply(s, a))
  {
    hide Seqs.CountIf;
  }

  /** Every harmless step keeps the counts, the logins and the handles. */
  lemma StepKeepsInv(s: State, a: Action)
    requires Inv(s) && Enabled(s, a) && Harmless(s, a)
    ensures Inv(Apply(s, a))
  {
    hide Sound, Orderly;
    OrderlyStep(s, a);
    match a
    case Open(slot, h, pin) => OpenKeepsSound(s, slot, h, pin);
    case Count(i) => CountKeepsSound(s, i);
    case Abandon(i, ok) => AbandonKeepsSound(s, i, ok);
    case Release(c) => ReleaseKeepsSound(s, c);
    case CloseHandle(c, ok) => CloseHandleKeepsSound(s, c, ok);
    case Logout(c, ok) => LogoutKeepsSound(s, c, ok);
    case Login(_, _) => OpeningStepKeepsSound(s, a);
    case Close(_) => CallStepKeepsSound(s, a);
    case Lock(h) => if h.Opening? { OpeningStepKeepsSound(s, a); } else { CallStepKeepsSound(s, a); }
    case Unlock(h) => if h.Opening? { OpeningStepKeepsSound(s, a); } else { CallStepKeepsSound(s, a); }
  }

  /** Harmless steps of a session on one slot never disturb another slot. */
  lemma OtherSlotsUndisturbed(s: State, a: Action)
    requires Inv(s) && Enabled(s, a) && Harmless(s, a)
    ensures Local(s, a)
  {
    hide CountsAgree;
    if a.Abandon? { assert SessionOk(s.sessions[a.i]); }
    if a.CloseHandle? { CallIsOk(s, a.c); }
  }

  lemma HarmfulClose(s: State, c: nat)
    requires Inv(s) && Enabled(s, CloseHandle(c, true)) && !Harmless(s, CloseHandle(c, true))
    ensures !(HandlesOwned(Apply(s, CloseHandle(c, true))) && Local(s, CloseHandle(c, true)))
  {
    var me, s' := Of(s, c), Apply(s, CloseHandle(c, true));
    var y := s.token.open[me.handle];
    if y != me.slot {
      assert OpenOn(s.token, me.handle, y) && !OpenOn(s'.token, me.handle, y);
      assert !SameFor(s, s', y);
    } else {
      var j :| 0 <= j < |s.sessions| && !s.sessions[j].closed && s.sessions[j].handle == me.handle;
      assert j != s.calls[c].session && !s'.sessions[j].closed && s'.sessions[j].handle !in s'.token.open;
    }
  }

  /** A step that is not harmless breaks something at once. */
  lemma HarmfulBreaks(s: State, a: Action)
    requires Inv(s) && Enabled(s, a) && !Harmless(s, a)
    ensures !(Sound(Apply(s, a)) && Local(s, a))
  {
    match a
    case Release(c) =>
      CallIsOk(s, c);
      ReleaseKeepsCounts(s, c);
    case Logout(c, _) =>
      assert !SameFor(s, Apply(s, a), s.token.open[Of(s, c).handle]);
    case CloseHandle(c, _) =>
      HarmfulClose(s, c);
  }

  // ---- whole runs ----

  /** Every state the schedule passes through is sound, and no step of it touches
      another slot. */
  ghost predicate RightThroughout(s: State, acts: seq<Action>)
    requires Possible(s, acts)
    decreases |acts|
  {
    Sound(s) && (acts == [] || (Local(s, acts[0]) && RightThroughout(Apply(s, acts[0]), acts[1..])))
  }

  predicate HarmlessThroughout(s: State, acts: seq<Action>)
    requires Possible(s, acts)
    decreases |acts|
  {
    acts == [] || (Harmless(s, acts[0]) && HarmlessThroughout(Apply(s, acts[0]), acts[1..]))
  }

  lemma {:induction false} RightIffHarmless(s: State, acts: seq<Action>)
    requires Inv(s) && Possible(s, acts)
    ensures RightThroughout(s, acts) <==> HarmlessThroughout(s, acts)
    decreases |acts|
  {
    hide Orderly, Sound, Local, Harmless;
    if acts != [] {
      var a := acts[0];
      if Harmless(s, a) {
        StepKeepsInv(s, a);
        OtherSlotsUndisturbed(s, a);
        RightIffHarmless(Apply(s, a), acts[1..]);
      } else {
        HarmfulBreaks(s, a);
        RightStartsSound(Apply(s, a), acts[1..]);
      }
    }
  }

  lemma RightStartsSound(s: State, acts: seq<Action>)
    requires Possible(s, acts)
    ensures RightThroughout(s, acts) ==> Sound(s)
  {
  }

  lemma InitHolds()
    ensures Inv(INIT)
  {
  }

  /** For every schedule, with sessions closed any number of times, one call after
      another or at the same time: counts, logins and handles are right in every
      state it passes through and no session disturbs another slot, if and only
      if every step of it is harmless. */
  lemma RightExactly(acts: seq<Action>)
    requires Possible(INIT, acts)
    ensures RightThroughout(INIT, acts) <==> HarmlessThroughout(INIT, acts)
  {
    InitHolds();
    RightIffHarmless(INIT, acts);
  }

  /** A session's reference and handle are given up by its one call, and not
      before that has got there. */
  ghost predicate OneCallEach(s: State) {
    && (forall c, d :: 0 <= c < d < |s.calls| ==> s.calls[c].session != s.calls[d].session)
    && (forall c :: 0 <= c < |s.calls| && s.calls[c].session < |s.sessions| ==> NotAhead(Of(s, c), s.calls[c].stage))
    && (forall i :: 0 <= i < |s.sessions| && s.sessions[i].phase.Returned? && Uncalled(s, i) ==>
          !s.sessions[i].released && !s.sessions[i].closed)
  }

  predicate NotAhead(me: Session, stage: Stage) {
    && (stage.WantRelease? || stage.Releasing? ==> !me.released)
    && (!stage.Done? ==> !me.closed)
  }

  lemma SingleCloseIsHarmless(s: State, a: Action)
    requires Inv(s) && OneCallEach(s) && Enabled(s, a) && (a.Close? ==> Uncalled(s, a.i))
    ensures Harmless(s, a)
  {
    hide CountsAgree, NoCountBelowOne, LoginsHonoured;
    if a.Logout? || a.CloseHandle? || a.Release? { assert NotAhead(Of(s, a.c), s.calls[a.c].stage); }
  }

  lemma SingleCallsStay(s: State, a: Action)
    requires Orderly(s) && OneCallEach(s) && Enabled(s, a) && (a.Close? ==> Uncalled(s, a.i))
    ensures OneCallEach(Apply(s, a))
  {
    hide NotAhead, Orderly, Apply;
    var s' := Apply(s, a);
    forall c, d | 0 <= c < d < |s'.calls| ensures s'.calls[c].session != s'.calls[d].session {
      CallsKeepSessions(s, a, c, d);
    }
    forall c | 0 <= c < |s'.calls| && s'.calls[c].session < |s'.sessions|
      ensures NotAhead(Of(s', c), s'.calls[c].stage)
    {
      NotAheadStep(s, a, c);
    }
    forall i | 0 <= i < |s'.sessions| && s'.sessions[i].phase.Returned? && Uncalled(s', i)
      ensures !s'.sessions[i].released && !s'.sessions[i].closed
    {
      UncalledStep(s, a, i);
    }
  }

  lemma CallsKeepSessions(s: State, a: Action, c: nat, d: nat)
    requires OneCallEach(s) && Enabled(s, a) && (a.Close? ==> Uncalled(s, a.i)) && c < d < |Apply(s, a).calls|
    ensures Apply(s, a).calls[c].session != Apply(s, a).calls[d].session
  {
    if d < |s.calls| { assert s.calls[c].session != s.calls[d].session; }
  }

  lemma NotAheadStep(s: State, a: Action, c: nat)
    requires Orderly(s) && OneCallEach(s) && Enabled(s, a) && (a.Close? ==> Uncalled(s, a.i))
    requires c < |Apply(s, a).calls| && Apply(s, a).calls[c].session < |Apply(s, a).sessions|
    ensures NotAhead(Of(Apply(s, a), c), Apply(s, a).calls[c].stage)
  {
    if c < |s.calls| {
      CallIsOk(s, c);
      assert NotAhead(Of(s, c), s.calls[c].stage);
      if a.Release? || a.CloseHandle? {
        if c != a.c { OthersUntouched(s, a, c); }
      } else {
        FlagsStay(s, a, s.calls[c].session);
      }
    } else {
      assert s.sessions[a.i] == Of(Apply(s, a), c);
    }
  }

  lemma OthersUntouched(s: State, a: Action, c: nat)
    requires OneCallEach(s) && Enabled(s, a) && (a.Release? || a.CloseHandle?) && c < |s.calls| && c != a.c
    requires s.calls[c].session < |s.sessions|
    ensures Of(Apply(s, a), c) == Of(s, c) && Apply(s, a).calls[c] == s.calls[c]
  {
    assert s.calls[if c < a.c then c else a.c].session != s.calls[if c < a.c then a.c else c].session;
  }

  lemma FlagsStay(s: State, a: Action, i: nat)
    requires SessionsOk(s) && Enabled(s, a) && !a.Release? && !a.CloseHandle? && i < |s.sessions| && s.sessions[i].phase.Returned?
    ensures Apply(s, a).sessions[i] == s.sessions[i]
  {
  }

  lemma UncalledStep(s: State, a: Action, i: nat)
    requires Orderly(s) && OneCallEach(s) && Enabled(s, a)
    requires i < |Apply(s, a).sessions| && Apply(s, a).sessions[i].phase.Returned? && Uncalled(Apply(s, a), i)
    ensures !Apply(s, a).sessions[i].released && !Apply(s, a).sessions[i].closed
  {
    var s' := Apply(s, a);
    assert Uncalled(s, i) by {
      forall c | 0 <= c < |s.calls| ensures s.calls[c].session != i { assert s'.calls[c].session == s.calls[c].session; }
    }
    if i < |s.sessions| { assert SessionOk(s.sessions[i]); }
  }

  lemma {:induction false} RunKeepsInv(s: State, acts: seq<Action>)
    requires Inv(s) && OneCallEach(s) && Possible(s, acts) && ClosedOnce(s, acts)
    ensures Inv(Exec(s, acts)) && OneCallEach(Exec(s, acts)) && HarmlessThroughout(s, acts)
    decreases |acts|
  {
    hide Orderly, Sound, OneCallEach, Harmless;
    if acts != [] {
      SingleCloseIsHarmless(s, acts[0]);
      SingleCallsStay(s, acts[0]);
      StepKeepsInv(s, acts[0]);
      RunKeepsInv(Apply(s, acts[0]), acts[1..]);
    }
  }

  /** In every interleaving in which each session is closed at most once: the
      count of a slot is the number of its unreleased login-holding sessions,
      no stored count is below one, a slot with a positive count is still logged
      in on the token, and no step ever touched another slot. */
  lemma LoginCountIsExact(acts: seq<Action>)
    requires Possible(INIT, acts) && ClosedOnce(INIT, acts)
    ensures var s := Exec(INIT, acts);
            && (forall slot: Slot :: Get(s.logins, slot) == CountIf(s.sessions, HoldsLogin(slot)))
            && (forall slot: Slot :: slot in s.logins ==> s.logins[slot] >= 1 && slot in s.token.loggedIn)
    ensures RightThroughout(INIT, acts)
  {
    InitHolds();
    RunKeepsInv(INIT, acts);
    RightIffHarmless(INIT, acts);
  }

  /** While the mutex is free, the sessions counted on a slot are exactly those
      that OpenSession returned with a login and no Close has got the mutex for. */
  lemma FreeMutexMeaning(acts: seq<Action>, i: nat, slot: Slot)
    requires Possible(INIT, acts) && ClosedOnce(INIT, acts)
    requires Exec(INIT, acts).mutex.None? && i < |Exec(INIT, acts).sessions|
    ensures var s := Exec(INIT, acts);
            var x := s.sessions[i];
            HoldsLogin(slot)(x) <==>
              && x.slot == slot && x.loginRef && x.phase.Returned?
              && forall c :: 0 <= c < |s.calls| && s.calls[c].session == i ==> s.calls[c].stage.WantRelease?
  {
    InitHolds();
    RunKeepsInv(INIT, acts);
    FreeMutexState(Exec(INIT, acts), i);
  }

  lemma FreeMutexState(s: State, i: nat)
    requires Orderly(s) && OneCallEach(s) && s.mutex.None? && i < |s.sessions|
    ensures var x := s.sessions[i];
            x.loginRef && !x.released <==>
              && x.loginRef && x.phase.Returned?
              && forall c :: 0 <= c < |s.calls| && s.calls[c].session == i ==> s.calls[c].stage.WantRelease?
  {
    var x := s.sessions[i];
    assert SessionOk(x) && !PhaseHolds(x.phase);
    forall c | 0 <= c < |s.calls| && s.calls[c].session == i
      ensures x.loginRef ==> (s.calls[c].stage.WantRelease? <==> !x.released)
    {
      assert CallOk(s.sessions, s.calls[c]) && NotAhead(Of(s, c), s.calls[c].stage) && !StageHolds(s.calls[c].stage);
    }
  }

  // ---- the counts alone ----

  /** Every reference dropped by the schedule was still held, or was dropped
      while nobody was counted on its slot. */
  predicate Guarded(s: State, acts: seq<Action>)
    requires Possible(s, acts)
    decreases |acts|
  {
    acts == [] ||
    ((acts[0].Release? ==> Harmless(s, acts[0])) && Guarded(Apply(s, acts[0]), acts[1..]))
  }

  ghost predicate AgreesThroughout(s: State, acts: seq<Action>)
    requires Possible(s, acts)
    decreases |acts|
  {
    CountsAgree(s) && (acts == [] || AgreesThroughout(Apply(s, acts[0]), acts[1..]))
  }

  /** The session whose entry a step replaces. */
  function Touched(s: State, a: Action): nat
    requires Enabled(s, a) && !a.Open?
  {
    match a
    case Login(i, _) => i
    case Count(i) => i
    case Abandon(i, _) => i
    case Close(i) => i
    case Release(c) => s.calls[c].session
    case Logout(c, _) => s.calls[c].session
    case CloseHandle(c, _) => s.calls[c].session
    case Lock(Opening(i)) => i
    case Lock(Calling(c)) => s.calls[c].session
    case Unlock(Opening(i)) => i
    case Unlock(Calling(c)) => s.calls[c].session
  }

  lemma TouchesOne(s: State, a: Action)
    requires Enabled(s, a) && !a.Open? && !a.Release?
    ensures var s', i := Apply(s, a), Touched(s, a);
            && i < |s.sessions| == |s'.sessions| && s'.sessions == s.sessions[i := s'.sessions[i]]
            && s'.sessions[i].slot == s.sessions[i].slot && s'.sessions[i].released == s.sessions[i].released
            && s'.sessions[i].loginRef == (s.sessions[i].loginRef || a.Count?)
            && s'.logins == if a.Count? then s.logins[s.sessions[i].slot := Get(s.logins, s.sessions[i].slot) + 1] else s.logins
  {
  }

  lemma NonReleaseKeepsCounts(s: State, a: Action)
    requires CountsAgree(s) && NoCountBelowOne(s) && Enabled(s, a) && !a.Release? && Orderly(s)
    ensures CountsAgree(Apply(s, a)) && NoCountBelowOne(Apply(s, a))
  {
    hide Seqs.CountIf;
    var s' := Apply(s, a);
    if !a.Open? {
      TouchesOne(s, a);
      assert SessionOk(s.sessions[Touched(s, a)]);
    }
    forall slot: Slot
      ensures Get(s'.logins, slot) == CountIf(s'.sessions, HoldsLogin(slot))
      ensures slot in s'.logins ==> s'.logins[slot] >= 1
    {
      if a.Open? {
        CountIfAppend(s.sessions, s'.sessions[|s.sessions|], HoldsLogin(slot));
      } else {
        CountIfUpdate(s.sessions, Touched(s, a), s'.sessions[Touched(s, a)], HoldsLogin(slot));
      }
    }
  }

  lemma {:induction false} AgreesIffGuardedFrom(s: State, acts: seq<Action>)
    requires Possible(s, acts) && CountsAgree(s) && NoCountBelowOne(s) && Orderly(s)
    ensures AgreesThroughout(s, acts) <==> Guarded(s, acts)
    decreases |acts|
  {
    hide Orderly, CountsAgree, NoCountBelowOne;
    if acts != [] {
      var a := acts[0];
      OrderlyStep(s, a);
      if a.Release? {
        CallIsOk(s, a.c);
        ReleaseKeepsCounts(s, a.c);
      } else {
        NonReleaseKeepsCounts(s, a);
      }
      if CountsAgree(Apply(s, a)) {
        AgreesIffGuardedFrom(Apply(s, a), acts[1..]);
      } else {
        AgreesStarts(Apply(s, a), acts[1..]);
      }
    }
  }

  lemma AgreesStarts(s: State, acts: seq<Action>)
    requires Possible(s, acts)
    ensures AgreesThroughout(s, acts) ==> CountsAgree(s)
  {
  }

  /** The counts alone are right in every state of a schedule exactly when each
      dropped reference was either still held or dropped on a slot nobody was
      counted on; see ReusedHandleFails for what this leaves open. */
  lemma CountExactIffGuarded(acts: seq<Action>)
    requires Possible(INIT, acts)
    ensures AgreesThroughout(INIT, acts) <==> Guarded(INIT, acts)
  {
    InitHolds();
    AgreesIffGuardedFrom(INIT, acts);
  }

  // ---- one call of Close, uninterrupted ----

  lemma {:induction false} Append(s: State, a: seq<Action>, b: seq<Action>)
    requires Possible(s, a) && Possible(Exec(s, a), b)
    ensures Possible(s, a + b) && Exec(s, a + b) == Exec(Exec(s, a), b)
    ensures ClosedOnce(s, a + b) <==> ClosedOnce(s, a) && ClosedOnce(Exec(s, a), b)
    ensures HarmlessThroughout(s, a + b) <==> HarmlessThroughout(s, a) && HarmlessThroughout(Exec(s, a), b)
    ensures Guarded(s, a + b) <==> Guarded(s, a) && Guarded(Exec(s, a), b)
    decreases |a|
  {
    hide Harmless, Uncalled, Apply, Enabled;
    if a == [] {
      assert a + b == b;
    } else {
      assert (a + b)[1..] == a[1..] + b;
      Append(Apply(s, a[0]), a[1..], b);
    }
  }

  lemma OneStep(s: State, a: Action)
    requires Enabled(s, a)
    ensures Possible(s, [a]) && Exec(s, [a]) == Apply(s, a)
    ensures ClosedOnce(s, [a]) <==> (a.Close? ==> Uncalled(s, a.i))
    ensures HarmlessThroughout(s, [a]) <==> Harmless(s, a)
    ensures Guarded(s, [a]) <==> (a.Release? ==> Harmless(s, a))
  {
    hide Harmless, Uncalled, Apply, Enabled;
    assert [a][1..] == [];
  }

  lemma NothingRun(s: State)
    ensures Possible(s, []) && Exec(s, []) == s && ClosedOnce(s, []) && HarmlessThroughout(s, []) && Guarded(s, [])
  {
  }

  lemma RunOn(s: State, acts: seq<Action>, a: Action) returns (acts': seq<Action>)
    requires Possible(s, acts) && Enabled(Exec(s, acts), a)
    ensures acts' == acts + [a] && Possible(s, acts') && Exec(s, acts') == Apply(Exec(s, acts), a)
    ensures ClosedOnce(s, acts') <==> ClosedOnce(s, acts) && (a.Close? ==> Uncalled(Exec(s, acts), a.i))
    ensures HarmlessThroughout(s, acts') <==> HarmlessThroughout(s, acts) && Harmless(Exec(s, acts), a)
    ensures Guarded(s, acts') <==> Guarded(s, acts) && (a.Release? ==> Harmless(Exec(s, acts), a))
  {
    hide Possible, Exec, ClosedOnce, HarmlessThroughout, Guarded, Harmless, Uncalled, Apply, Enabled;
    OneStep(Exec(s, acts), a);
    Append(s, acts, [a]);
    acts' := acts + [a];
  }

  /** The caller holds the session, perhaps closed before, and the mutex is free. */
  predicate Closable(s: State, i: nat) { s.mutex.None? && AtPhase(s, i, Returned) }

  /** The token accepts calls on open handles only. */
  predicate Answers(s: State, i: nat, logoutOk: bool, closeOk: bool)
    requires i < |s.sessions|
  {
    logoutOk || closeOk ==> s.sessions[i].handle in s.token.open
  }

  /** The steps of a whole call, given the token's answers. */
  function CloseSteps(s: State, i: nat, logoutOk: bool, closeOk: bool): seq<Action>
    requires i < |s.sessions|
  {
    var me, c := s.sessions[i], |s.calls|;
    if !me.loginRef then [Close(i)] + [CloseHandle(c, closeOk)]
    else if me.slot in Decremented(s.logins, me.slot) then
      [Close(i)] + [Lock(Calling(c))] + [Release(c)] + [Unlock(Calling(c))] + [CloseHandle(c, closeOk)]
    else
      [Close(i)] + [Lock(Calling(c))] + [Release(c)] + [Logout(c, logoutOk)] + [Unlock(Calling(c))] + [CloseHandle(c, closeOk)]
  }

  function LoggedOut(s: State, i: nat, logoutOk: bool): Token
    requires Closable(s, i) && (logoutOk ==> s.sessions[i].handle in s.token.open)
  {
    var me := s.sessions[i];
    if me.loginRef && me.slot !in Decremented(s.logins, me.slot) && logoutOk
    then s.token.(loggedIn := s.token.loggedIn - {s.token.open[me.handle]}) else s.token
  }

  /** The state before the call gives up the handle. */
  function BeforeClosing(s: State, i: nat, logoutOk: bool): State
    requires Closable(s, i) && (logoutOk ==> s.sessions[i].handle in s.token.open)
  {
    var me := s.sessions[i];
    State(s.sessions[i := me.(released := me.released || me.loginRef)], s.calls + [Call(i, Closing)], None,
          if me.loginRef then Decremented(s.logins, me.slot) else s.logins, LoggedOut(s, i, logoutOk))
  }

  /** What a whole call leaves behind. */
  function CloseResult(s: State, i: nat, logoutOk: bool, closeOk: bool): State
    requires Closable(s, i) && Answers(s, i, logoutOk, closeOk)
  {
    var me, t := s.sessions[i], LoggedOut(s, i, logoutOk);
    State(s.sessions[i := me.(released := me.released || me.loginRef, closed := true)], s.calls + [Call(i, Done)], None,
          if me.loginRef then Decremented(s.logins, me.slot) else s.logins,
          if closeOk then WithoutHandle(t, me.handle) else t)
  }

  /** Every step of the call is harmless. */
  predicate HarmlessClose(s: State, i: nat, logoutOk: bool, closeOk: bool)
    requires Closable(s, i) && Answers(s, i, logoutOk, closeOk)
  {
    var me := s.sessions[i];
    && (me.loginRef ==> !me.released || me.slot !in s.logins)
    && (me.loginRef && me.slot !in Decremented(s.logins, me.slot) && logoutOk ==>
          s.token.open[me.handle] == me.slot || s.token.open[me.handle] !in s.token.loggedIn)
    && (closeOk && me.closed ==> s.token.open[me.handle] == me.slot && !Owned(s, me.handle))
  }

  lemma SameOwners(s: State, s': State, i: nat, h: Handle)
    requires i < |s.sessions| && |s'.sessions| == |s.sessions| && s'.sessions == s.sessions[i := s'.sessions[i]]
    requires s'.sessions[i].closed == s.sessions[i].closed && s'.sessions[i].handle == s.sessions[i].handle
    ensures Owned(s', h) <==> Owned(s, h)
  {
    if Owned(s, h) {
      var j :| 0 <= j < |s.sessions| && !s.sessions[j].closed && s.sessions[j].handle == h;
      assert !s'.sessions[j].closed && s'.sessions[j].handle == h;
    }
    if Owned(s', h) {
      var j :| 0 <= j < |s'.sessions| && !s'.sessions[j].closed && s'.sessions[j].handle == h;
      assert !s.sessions[j].closed && s.sessions[j].handle == h;
    }
  }

  lemma LastStep(s: State, acts: seq<Action>, i: nat, logoutOk: bool, closeOk: bool) returns (acts': seq<Action>)
    requires Closable(s, i) && Answers(s, i, logoutOk, closeOk) && Possible(s, acts)
    requires Exec(s, acts) == BeforeClosing(s, i, logoutOk)
    ensures acts' == acts + [CloseHandle(|s.calls|, closeOk)] && Possible(s, acts')
    ensures Exec(s, acts') == CloseResult(s, i, logoutOk, closeOk)
    ensures (ClosedOnce(s, acts') <==> ClosedOnce(s, acts)) && (Guarded(s, acts') <==> Guarded(s, acts))
    ensures HarmlessThroughout(s, acts')
       <==> HarmlessThroughout(s, acts)
            && (closeOk && s.sessions[i].closed ==>
                  s.token.open[s.sessions[i].handle] == s.sessions[i].slot && !Owned(s, s.sessions[i].handle))
  {
    hide Possible, Exec, ClosedOnce, HarmlessThroughout, Guarded, Owned, Decremented;
    acts' := RunOn(s, acts, CloseHandle(|s.calls|, closeOk));
    SameOwners(s, Exec(s, acts), i, s.sessions[i].handle);
  }

  lemma ReleaseSteps(s: State, i: nat) returns (acts: seq<Action>)
    requires Closable(s, i) && s.sessions[i].loginRef
    ensures acts == [Close(i)] + [Lock(Calling(|s.calls|))] + [Release(|s.calls|)] && Possible(s, acts)
    ensures var me, logins := s.sessions[i], Decremented(s.logins, s.sessions[i].slot);
            Exec(s, acts) == State(s.sessions[i := me.(released := true)],
                                   s.calls + [Call(i, if me.slot in logins then Released else LoggingOut)],
                                   Some(Calling(|s.calls|)), logins, s.token)
    ensures ClosedOnce(s, acts) <==> Uncalled(s, i)
    ensures HarmlessThroughout(s, acts) <==> !s.sessions[i].released || s.sessions[i].slot !in s.logins
    ensures Guarded(s, acts) <==> !s.sessions[i].released || s.sessions[i].slot !in s.logins
  {
    hide Possible, Exec, ClosedOnce, HarmlessThroughout, Guarded, Uncalled, Decremented;
    OneStep(s, Close(i));
    acts := RunOn(s, [Close(i)], Lock(Calling(|s.calls|)));
    acts := RunOn(s, acts, Release(|s.calls|));
  }

  /** The locked part of the call, up to giving up the handle. */
  lemma LockedSteps(s: State, i: nat, logoutOk: bool) returns (acts: seq<Action>)
    requires Closable(s, i) && s.sessions[i].loginRef && Answers(s, i, logoutOk, false)
    ensures var me, c := s.sessions[i], |s.calls|;
            acts == if me.slot in Decremented(s.logins, me.slot)
                    then [Close(i)] + [Lock(Calling(c))] + [Release(c)] + [Unlock(Calling(c))]
                    else [Close(i)] + [Lock(Calling(c))] + [Release(c)] + [Logout(c, logoutOk)] + [Unlock(Calling(c))]
    ensures Possible(s, acts) && (ClosedOnce(s, acts) <==> Uncalled(s, i))
    ensures Exec(s, acts) == BeforeClosing(s, i, logoutOk)
    ensures Guarded(s, acts) <==> !s.sessions[i].released || s.sessions[i].slot !in s.logins
    ensures HarmlessThroughout(s, acts) <==> HarmlessClose(s, i, logoutOk, false)
  {
    hide Possible, Exec, ClosedOnce, HarmlessThroughout, Guarded, Owned, Uncalled, Decremented;
    var me, c := s.sessions[i], |s.calls|;
    acts := ReleaseSteps(s, i);
    if me.slot !in Decremented(s.logins, me.slot) {
      acts := RunOn(s, acts, Logout(c, logoutOk));
    }
    acts := RunOn(s, acts, Unlock(Calling(c)));
  }

  lemma CloseRun(s: State, i: nat, logoutOk: bool, closeOk: bool)
    requires Closable(s, i) && Answers(s, i, logoutOk, closeOk)
    ensures Possible(s, CloseSteps(s, i, logoutOk, closeOk))
    ensures Exec(s, CloseSteps(s, i, logoutOk, closeOk)) == CloseResult(s, i, logoutOk, closeOk)
    ensures ClosedOnce(s, CloseSteps(s, i, logoutOk, closeOk)) <==> Uncalled(s, i)
    ensures HarmlessThroughout(s, CloseSteps(s, i, logoutOk, closeOk)) <==> HarmlessClose(s, i, logoutOk, closeOk)
    ensures Guarded(s, CloseSteps(s, i, logoutOk, closeOk))
       <==> (s.sessions[i].loginRef ==> !s.sessions[i].released || s.sessions[i].slot !in s.logins)
  {
    hide Possible, Exec, ClosedOnce, HarmlessThroughout, Guarded, Owned, CloseResult, Decremented, Uncalled;
    var acts: seq<Action>;
    if s.sessions[i].loginRef {
      acts := LockedSteps(s, i, logoutOk);
    } else {
      OneStep(s, Close(i));
      acts := [Close(i)];
    }
    acts := LastStep(s, acts, i, logoutOk, closeOk);
    assert acts == CloseSteps(s, i, logoutOk, closeOk);
  }

  /** What the caller must know before closing a session that may have been closed
      before, or be about to: its reference has not been dropped yet, or nobody is
      counted on its slot; and it is not closed yet, or its handle has not been
      taken over by another session. */
  predicate MayClose(s: State, i: nat)
    requires i < |s.sessions|
  {
    var me := s.sessions[i];
    && (me.loginRef && me.released ==> me.slot !in s.logins)
    && (me.closed && me.handle in s.token.open ==> s.token.open[me.handle] == me.slot && !Owned(s, me.handle))
  }

  ghost predicate ClosesRight(s: State, i: nat, logoutOk: bool, closeOk: bool)
    requires i < |s.sessions|
  {
    var acts := CloseSteps(s, i, logoutOk, closeOk);
    Possible(s, acts) && RightThroughout(s, acts)
  }

  lemma ClosesRightMeaning(s: State, i: nat, logoutOk: bool, closeOk: bool)
    requires Inv(s) && Closable(s, i) && Answers(s, i, logoutOk, closeOk)
    ensures ClosesRight(s, i, logoutOk, closeOk) <==> HarmlessClose(s, i, logoutOk, closeOk)
  {
    hide Inv, Possible, RightThroughout, HarmlessThroughout, HarmlessClose, CloseSteps;
    CloseRun(s, i, logoutOk, closeOk);
    RightIffHarmless(s, CloseSteps(s, i, logoutOk, closeOk));
  }

  lemma MayCloseIsHarmless(s: State, i: nat, logoutOk: bool, closeOk: bool)
    requires Inv(s) && Closable(s, i) && Answers(s, i, logoutOk, closeOk) && MayClose(s, i)
    ensures HarmlessClose(s, i, logoutOk, closeOk)
  {
    assert SessionOk(s.sessions[i]);
  }

  /** Whatever the token answers, closing a session, for the first time or
      again, and whatever other calls are under way, keeps counts, logins and
      handles right and other slots untouched, exactly when the caller may close
      it. */
  lemma CloseIsRightExactly(s: State, i: nat)
    requires Inv(s) && Closable(s, i)
    ensures (forall logoutOk, closeOk :: Answers(s, i, logoutOk, closeOk) ==> ClosesRight(s, i, logoutOk, closeOk))
       <==> MayClose(s, i)
  {
    hide Inv, ClosesRight;
    if MayClose(s, i) {
      forall logoutOk, closeOk | Answers(s, i, logoutOk, closeOk) ensures ClosesRight(s, i, logoutOk, closeOk) {
        MayCloseIsHarmless(s, i, logoutOk, closeOk);
        ClosesRightMeaning(s, i, logoutOk, closeOk);
      }
    } else {
      var closeOk := s.sessions[i].handle in s.token.open;
      assert Answers(s, i, false, closeOk) && !HarmlessClose(s, i, false, closeOk);
      ClosesRightMeaning(s, i, false, closeOk);
    }
  }

  /** A close in plain words: a session that logged in takes one off its slot's
      count and, being the last one, logs out the slot its handle is on; any
      session gives up its handle, and a slot without handles is logged out. */
  lemma CloseMeaning(s: State, i: nat, logoutOk: bool, closeOk: bool)
    requires Closable(s, i) && Answers(s, i, logoutOk, closeOk)
    ensures var me, s' := s.sessions[i], CloseResult(s, i, logoutOk, closeOk);
            var n := if me.slot in s.logins then s.logins[me.slot] else 0;
            && (me.loginRef && n > 1 ==> s'.logins == s.logins[me.slot := n - 1])
            && (me.loginRef && n <= 1 ==> s'.logins == s.logins - {me.slot})
            && (!me.loginRef ==> s'.logins == s.logins)
            && (closeOk ==> s'.token.open == s.token.open - {me.handle})
            && (!closeOk ==> s'.token.open == s.token.open)
            && (forall slot :: slot in s'.token.loggedIn <==>
                  && slot in s.token.loggedIn
                  && !(me.loginRef && n <= 1 && logoutOk && s.token.open[me.handle] == slot)
                  && !(closeOk && s.token.open[me.handle] == slot && slot !in s'.token.open.Values))
            && s'.sessions[i].closed && s'.sessions[i].released == (me.released || me.loginRef)
  {
  }

  /** The token keeps no login without a session: on every slot that is logged in
      some handle is open. */
  ghost predicate LoginsHaveHandles(s: State) {
    forall slot: Slot :: slot in s.token.loggedIn ==> exists h: Handle :: OpenOn(s.token, h, slot)
  }

  lemma HandlesStay(s: State, s': State, h: Handle)
    requires LoginsHaveHandles(s) && h in s.token.open && s'.token == WithoutHandle(s.token, h)
    ensures LoginsHaveHandles(s')
  {
    forall slot: Slot | slot in s'.token.loggedIn ensures exists g: Handle :: OpenOn(s'.token, g, slot) {
      var g: Handle :| OpenOn(s.token, g, slot);
      if g == h {
        assert slot in s'.token.open.Values;
        var k :| k in s'.token.open && s'.token.open[k] == slot;
        assert OpenOn(s'.token, k, slot);
      } else {
        assert OpenOn(s'.token, g, slot);
      }
    }
  }

  lemma LoginsHaveHandlesStep(s: State, a: Action)
    requires Inv(s) && LoginsHaveHandles(s) && Enabled(s, a)
    ensures LoginsHaveHandles(Apply(s, a))
  {
    hide CountsAgree, NoCountBelowOne, LoginsHonoured;
    var s' := Apply(s, a);
    match a
    case CloseHandle(c, ok) => if ok { HandlesStay(s, s', Of(s, c).handle); }
    case Abandon(i, ok) => if ok { HandlesStay(s, s', s.sessions[i].handle); }
    case Login(i, accepted) =>
      assert SessionOk(s.sessions[i]);
      assert OpenOn(s'.token, s.sessions[i].handle, s.sessions[i].slot);
      forall slot: Slot | slot in s'.token.loggedIn && slot != s.sessions[i].slot ensures exists h: Handle :: OpenOn(s'.token, h, slot) {
        var h: Handle :| OpenOn(s.token, h, slot);
        assert OpenOn(s'.token, h, slot);
      }
    case Open(slot, h, pin) =>
      forall x: Slot | x in s'.token.loggedIn ensures exists g: Handle :: OpenOn(s'.token, g, x) {
        var g: Handle :| OpenOn(s.token, g, x);
        assert OpenOn(s'.token, g, x);
      }
    case _ =>
      forall x: Slot | x in s'.token.loggedIn ensures exists g: Handle :: OpenOn(s'.token, g, x) {
        var g: Handle :| OpenOn(s.token, g, x);
        assert OpenOn(s'.token, g, x);
      }
  }

  lemma {:induction false} LoginsNeedSessions(s: State, acts: seq<Action>)
    requires Inv(s) && OneCallEach(s) && LoginsHaveHandles(s) && Possible(s, acts) && ClosedOnce(s, acts)
    ensures LoginsHaveHandles(Exec(s, acts))
    decreases |acts|
  {
    hide Orderly, Sound, OneCallEach, Harmless, LoginsHaveHandles;
    if acts != [] {
      SingleCloseIsHarmless(s, acts[0]);
      SingleCallsStay(s, acts[0]);
      StepKeepsInv(s, acts[0]);
      LoginsHaveHandlesStep(s, acts[0]);
      LoginsNeedSessions(Apply(s, acts[0]), acts[1..]);
    }
  }

  /** So once all handles of a run that closes each session at most once are
      closed, the token is logged in nowhere. */
  lemma NobodyLeftLoggedIn(acts: seq<Action>)
    requires Possible(INIT, acts) && ClosedOnce(INIT, acts) && Exec(INIT, acts).token.open == map[]
    ensures Exec(INIT, acts).token.loggedIn == {}
  {
    InitHolds();
    LoginsNeedSessions(INIT, acts);
    var t := Exec(INIT, acts).token;
    forall slot: Slot ensures slot !in t.loggedIn { assert forall h: Handle :: !OpenOn(t, h, slot); }
  }

  // ---- what goes wrong otherwise ----

  /** The five steps of an accepted login, from any state with a free mutex. */
  lemma LoginSteps(s: State, slot: Slot, h: Handle) returns (acts: seq<Action>)
    requires s.mutex.None? && h !in s.token.open
    ensures Possible(s, acts) && ClosedOnce(s, acts) && Guarded(s, acts) && HarmlessThroughout(s, acts)
    ensures Exec(s, acts) == State(s.sessions + [Session(slot, h, true, false, false, Returned)], s.calls, None,
                                   s.logins[slot := Get(s.logins, slot) + 1],
                                   Token(s.token.open[h := slot], s.token.loggedIn + {slot}))
  {
    hide Possible, Exec, ClosedOnce, HarmlessThroughout, Guarded;
    var n := |s.sessions|;
    var me := Session(slot, h, false, false, false, LoggingIn);
    OneStep(s, Open(slot, h, true));
    acts := RunOn(s, [Open(slot, h, true)], Lock(Opening(n)));
    var t := Token(s.token.open[h := slot], s.token.loggedIn);
    assert Exec(s, acts) == State(s.sessions + [me], s.calls, Some(Opening(n)), s.logins, t);
    acts := RunOn(s, acts, Login(n, true));
    acts := RunOn(s, acts, Count(n));
    acts := RunOn(s, acts, Unlock(Opening(n)));
  }

  /** The steps of a refused one. */
  lemma RefusalSteps(s: State, slot: Slot, h: Handle) returns (acts: seq<Action>)
    requires s.mutex.None? && h !in s.token.open
    ensures Possible(s, acts)
    ensures Exec(s, acts) == s.(sessions := s.sessions + [Session(slot, h, false, false, true, Abandoned)],
                                token := WithoutHandle(s.token.(open := s.token.open[h := slot]), h))
  {
    hide Possible, Exec, ClosedOnce, HarmlessThroughout, Guarded;
    var n := |s.sessions|;
    OneStep(s, Open(slot, h, true));
    acts := RunOn(s, [Open(slot, h, true)], Lock(Opening(n)));
    acts := RunOn(s, acts, Login(n, false));
    acts := RunOn(s, acts, Unlock(Opening(n)));
    acts := RunOn(s, acts, Abandon(n, true));
  }

  lemma RunLogin(acts: seq<Action>, slot: Slot, h: Handle) returns (acts': seq<Action>)
    requires Possible(INIT, acts) && Exec(INIT, acts).mutex.None? && h !in Exec(INIT, acts).token.open
    ensures Possible(INIT, acts')
    ensures var s, s' := Exec(INIT, acts), Exec(INIT, acts');
            s' == State(s.sessions + [Session(slot, h, true, false, false, Returned)], s.calls, None,
                        s.logins[slot := Get(s.logins, slot) + 1],
                        Token(s.token.open[h := slot], s.token.loggedIn + {slot}))
    ensures (ClosedOnce(INIT, acts') <==> ClosedOnce(INIT, acts)) && (Guarded(INIT, acts') <==> Guarded(INIT, acts))
  {
    hide Possible, Exec, ClosedOnce, HarmlessThroughout, Guarded;
    var steps := LoginSteps(Exec(INIT, acts), slot, h);
    Append(INIT, acts, steps);
    acts' := acts + steps;
  }

  lemma RunClose(acts: seq<Action>, i: nat, logoutOk: bool, closeOk: bool) returns (acts': seq<Action>)
    requires Possible(INIT, acts) && Closable(Exec(INIT, acts), i) && Answers(Exec(INIT, acts), i, logoutOk, closeOk)
    ensures Possible(INIT, acts') && Exec(INIT, acts') == CloseResult(Exec(INIT, acts), i, logoutOk, closeOk)
    ensures ClosedOnce(INIT, acts') <==> ClosedOnce(INIT, acts) && Uncalled(Exec(INIT, acts), i)
    ensures var me := Exec(INIT, acts).sessions[i];
            Guarded(INIT, acts')
            <==> Guarded(INIT, acts) && (me.loginRef ==> !me.released || me.slot !in Exec(INIT, acts).logins)
  {
    hide Possible, Exec, ClosedOnce, HarmlessThroughout, Guarded, CloseSteps, CloseResult, Uncalled;
    var s := Exec(INIT, acts);
    CloseRun(s, i, logoutOk, closeOk);
    Append(INIT, acts, CloseSteps(s, i, logoutOk, closeOk));
    acts' := acts + CloseSteps(s, i, logoutOk, closeOk);
  }

  /** Two logged-in sessions, the first closed twice: the count is gone while
      the second session still relies on the login. */
  lemma DoubleCloseFails() returns (acts: seq<Action>)
    ensures Possible(INIT, acts) && !ClosedOnce(INIT, acts)
    ensures var s := Exec(INIT, acts);
            && s.mutex.None? && |s.sessions| == 2 && HoldsLogin(0)(s.sessions[1]) && Uncalled(s, 1)
            && Get(s.logins, 0) == 0 && !CountsAgree(s)
  {
    hide Possible, Exec, ClosedOnce, Guarded, HarmlessThroughout, CountsAgree, Seqs.CountIf;
    NothingRun(INIT);
    acts := RunLogin([], 0, 0);
    acts := RunLogin(acts, 0, 1);
    acts := RunClose(acts, 0, false, true);
    assert Exec(INIT, acts).logins == map[0 := 1];
    assert !Uncalled(Exec(INIT, acts), 0) by { assert Exec(INIT, acts).calls[0].session == 0; }
    acts := RunClose(acts, 0, false, false);
    assert Exec(INIT, acts).logins == map[];
    LostCount(Exec(INIT, acts), 1);
  }

  lemma LostCount(s: State, i: nat)
    requires i < |s.sessions| && HoldsLogin(s.sessions[i].slot)(s.sessions[i]) && s.sessions[i].slot !in s.logins
    ensures !CountsAgree(s)
  {
    CountIfPositive(s.sessions, HoldsLogin(s.sessions[i].slot));
  }

  /** A session is closed, its handle is reused by a logged-in session on another
      slot, and it is closed again: all counts are right, but the other slot has
      been logged out under a live session. */
  lemma ReusedHandleFails() returns (acts: seq<Action>)
    ensures Possible(INIT, acts) && Guarded(INIT, acts) && AgreesThroughout(INIT, acts)
    ensures var s := Exec(INIT, acts);
            && s.mutex.None? && |s.sessions| == 2 && HoldsLogin(1)(s.sessions[1]) && Uncalled(s, 1)
            && s.logins == map[1 := 1] && 1 !in s.token.loggedIn && !LoginsHonoured(s)
  {
    hide Possible, Exec, ClosedOnce, Guarded, AgreesThroughout;
    NothingRun(INIT);
    acts := RunLogin([], 0, 7);
    acts := RunClose(acts, 0, true, true);
    assert Exec(INIT, acts).token.open == map[];
    acts := RunLogin(acts, 1, 7);
    acts := RunClose(acts, 0, true, false);
    var s := Exec(INIT, acts);
    assert s.logins == map[1 := 1];
    CountExactIffGuarded(acts);
  }

  /** The locked part of a call already begun. */
  lemma RunRelease(acts: seq<Action>, c: nat, logoutOk: bool) returns (acts': seq<Action>)
    requires Possible(INIT, acts)
    requires var s := Exec(INIT, acts);
             s.mutex.None? && AtStage(s, c, WantRelease) && (logoutOk ==> Of(s, c).handle in s.token.open)
    ensures acts <= acts' && Possible(INIT, acts')
    ensures var s := Exec(INIT, acts);
            var i, me, logins := s.calls[c].session, Of(s, c), Decremented(s.logins, Of(s, c).slot);
            Exec(INIT, acts') == State(s.sessions[i := me.(released := true)], s.calls[c := Call(i, Closing)], None, logins,
              if me.slot !in logins && logoutOk then s.token.(loggedIn := s.token.loggedIn - {s.token.open[me.handle]}) else s.token)
  {
    hide Possible, Exec, ClosedOnce, Guarded, HarmlessThroughout, Decremented;
    acts' := RunOn(INIT, acts, Lock(Calling(c)));
    acts' := RunOn(INIT, acts', Release(c));
    var me := Of(Exec(INIT, acts), c);
    if me.slot !in Decremented(Exec(INIT, acts).logins, me.slot) {
      acts' := RunOn(INIT, acts', Logout(c, logoutOk));
    }
    acts' := RunOn(INIT, acts', Unlock(Calling(c)));
  }

  /** A session that may be closed, and that nobody has tried to close yet. */
  ghost predicate Unclosed(acts: seq<Action>, i: nat) {
    Possible(INIT, acts) && Closable(Exec(INIT, acts), i) && MayClose(Exec(INIT, acts), i) && Uncalled(Exec(INIT, acts), i)
  }

  /** The schedule leaves session i, which nobody has tried to close, without its
      count and its slot logged out. */
  ghost predicate LosesLogin(acts: seq<Action>, i: nat) {
    Possible(INIT, acts) &&
    var s := Exec(INIT, acts);
    && s.mutex.None? && i < |s.sessions| && HoldsLogin(s.sessions[i].slot)(s.sessions[i]) && Uncalled(s, i)
    && s.sessions[i].slot !in s.logins && s.sessions[i].slot !in s.token.loggedIn && !CountsAgree(s)
  }

  /** From two logged-in sessions on a slot, two calls closing the first one at
      the same time, both begun while it was neither released nor closed: the
      second of them to get the mutex drops the other session's count and logs
      the slot out under it. */
  lemma OverlappingCloseFails() returns (begun: seq<Action>, rest: seq<Action>)
    ensures Unclosed(begun, 0) && LosesLogin(begun + [Close(0)] + [Close(0)] + rest, 1)
  {
    hide Possible, Exec, ClosedOnce, Guarded, HarmlessThroughout, CountsAgree, Seqs.CountIf;
    NothingRun(INIT);
    begun := RunLogin([], 0, 0);
    begun := RunLogin(begun, 0, 1);
    var acts := RunOn(INIT, begun, Close(0));
    acts := RunOn(INIT, acts, Close(0));
    var n := |acts|;
    assert Exec(INIT, acts).calls == [Call(0, WantRelease), Call(0, WantRelease)];
    assert Exec(INIT, acts).logins == map[0 := 2] && Exec(INIT, acts).token == Token(map[0 := 0, 1 := 0], {0});
    acts := RunRelease(acts, 0, true);
    assert Exec(INIT, acts).logins == map[0 := 1] && Exec(INIT, acts).calls[1] == Call(0, WantRelease);
    acts := RunRelease(acts, 1, true);
    assert Exec(INIT, acts).logins == map[];
    LostCount(Exec(INIT, acts), 1);
    rest := acts[n..];
    assert acts == begun + [Close(0)] + [Close(0)] + rest;
  }

  /** The code itself, run without interruption. Its fields are those of
      `Client` (the mutex is free between calls) and the token behind it. */
  class Client {
    var sessions: seq<Session>
    var calls: seq<Call>
    var logins: map<Slot, int>
    var token: Token

    function View(): State
      reads this
    {
      State(sessions, calls, None, logins, token)
    }

    constructor ()
      ensures View() == INIT
    {
      sessions, calls, logins, token := [], [], map[], Token(map[], {});
    }

    /** The token picks the handle and decides whether it accepts the login
        (accepting includes the answer "already logged in"). */
    method OpenSession(slot: Slot, pin: bool, h: Handle, accepted: bool)
      returns (r: Option<nat>, ghost acts: seq<Action>)
      requires h !in token.open
      modifies this
      ensures Possible(old(View()), acts) && View() == Exec(old(View()), acts)
      ensures r == if pin && !accepted then None else Some(old(|sessions|))
      ensures r.Some? ==> sessions == old(sessions) + [Session(slot, h, pin, false, false, Returned)]
      ensures logins == if pin && accepted then old(logins)[slot := Get(old(logins), slot) + 1] else old(logins)
      ensures r.Some? ==> token == Token(old(token.open)[h := slot],
                                         if pin then old(token.loggedIn) + {slot} else old(token.loggedIn))
      ensures r.None? ==> token.open == old(token.open)
      ensures calls == old(calls)
    {
      hide Possible, Exec, ClosedOnce, HarmlessThroughout, Guarded;
      ghost var s0 := View();
      var i := |sessions|;
      var me := Session(slot, h, false, false, false, if pin then WantLogin else Returned);
      token := token.(open := token.open[h := slot]);
      if !pin {
        OneStep(s0, Open(slot, h, pin));
        sessions := sessions + [me];
        return Some(i), [Open(slot, h, pin)];
      }
      if !accepted {
        acts := RefusalSteps(s0, slot, h);
        token := WithoutHandle(token, h);
        sessions := sessions + [me.(closed := true, phase := Abandoned)];
        return None, acts;
      }
      acts := LoginSteps(s0, slot, h);
      token := token.(loggedIn := token.loggedIn + {slot});
      logins := logins[slot := Get(logins, slot) + 1];
      sessions := sessions + [me.(loginRef := true, phase := Returned)];
      return Some(i), acts;
    }

    /** Release the reference, log out with the last one, close the handle; also
        for a session that was closed before, since loginRef is never cleared. */
    method Close(i: nat, logoutOk: bool, closeOk: bool) returns (ghost acts: seq<Action>)
      requires Closable(View(), i) && Answers(View(), i, logoutOk, closeOk)
      modifies this
      ensures acts == CloseSteps(old(View()), i, logoutOk, closeOk)
      ensures Possible(old(View()), acts) && View() == Exec(old(View()), acts)
      ensures View() == CloseResult(old(View()), i, logoutOk, closeOk)
      ensures ClosedOnce(old(View()), acts) <==> old(Uncalled(View(), i))
      ensures old(Inv(View())) && MayClose(old(View()), i) ==> RightThroughout(old(View()), acts)
    {
      hide Possible, Exec, ClosedOnce, HarmlessThroughout, Guarded, RightThroughout, CloseSteps, Inv, MayClose, Uncalled;
      acts := CloseSteps(View(), i, logoutOk, closeOk);
      CloseRun(View(), i, logoutOk, closeOk);
      if Inv(View()) && MayClose(View(), i) {
        CloseIsRightExactly(View(), i);
        assert ClosesRight(View(), i, logoutOk, closeOk);
      }
      var me := sessions[i];
      if me.loginRef {
        var left := Get(logins, me.slot) - 1;
        if left <= 0 {
          logins := logins - {me.slot};
          if logoutOk { token := token.(loggedIn := token.loggedIn - {token.open[me.handle]}); }
        } else {
          logins := logins[me.slot := left];
        }
      }
      sessions := sessions[i := me.(released := me.released || me.loginRef, closed := true)];
      calls := calls + [Call(i, Done)];
      if closeOk { token := WithoutHandle(token, me.handle); }
    }
  }
}
