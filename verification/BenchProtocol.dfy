/** The bounded benchmark of internal/bench/bench.go: any number of workers
    share one atomic operation budget, a done counter, a start stamp and a
    buffered error channel. Each action below is one atomic operation, one clock
    reading or one call into the token. */
module BenchProtocol {
  import opened Seqs

  const DEFAULT_DURATION := 3_000_000_000
  const MAX_DURATION := 60_000_000_000
  const DEFAULT_MAX_OPS := 5000
  const HARD_MAX_OPS := 1_000_000
  const DEFAULT_SESSIONS := 1
  const MAX_SESSIONS := 32

  datatype Options = Options(duration: int, maxOps: int, sessions: int)

  predicate WithinLimits(o: Options) {
    0 < o.duration <= MAX_DURATION && 0 < o.maxOps <= HARD_MAX_OPS && 0 < o.sessions <= MAX_SESSIONS
  }

  /** Every run is bounded: unset options get their default, excessive ones are
      clamped, and options already within the limits are left alone. */
  method Normalize(o: Options) returns (r: Options)
    ensures WithinLimits(r)
    ensures WithinLimits(o) ==> r == o
    ensures o.duration <= 0 ==> r.duration == DEFAULT_DURATION
    ensures o.maxOps <= 0 ==> r.maxOps == DEFAULT_MAX_OPS
    ensures o.sessions <= 0 ==> r.sessions == DEFAULT_SESSIONS
    ensures 0 < o.duration ==> r.duration <= o.duration && (r.duration == o.duration || r.duration == MAX_DURATION)
    ensures 0 < o.maxOps ==> r.maxOps <= o.maxOps && (r.maxOps == o.maxOps || r.maxOps == HARD_MAX_OPS)
    ensures 0 < o.sessions ==> r.sessions <= o.sessions && (r.sessions == o.sessions || r.sessions == MAX_SESSIONS)
  {
    r := o;
    if r.duration <= 0 { r := r.(duration := DEFAULT_DURATION); }
    if r.duration > MAX_DURATION { r := r.(duration := MAX_DURATION); }
    if r.maxOps <= 0 { r := r.(maxOps := DEFAULT_MAX_OPS); }
    if r.maxOps > HARD_MAX_OPS { r := r.(maxOps := HARD_MAX_OPS); }
    if r.sessions <= 0 { r := r.(sessions := DEFAULT_SESSIONS); }
    if r.sessions > MAX_SESSIONS { r := r.(sessions := MAX_SESSIONS); }
  }

  /** Where a worker stands in benchWorker. */
  datatype Worker =
    | Opening                  // about to open its session
    | Preparing                // about to run the primitive's setup
    | Stamping                 // about to stamp the start and fix its deadline
    | Checking(deadline: int)  // about to compare the clock with its deadline
    | Claiming(deadline: int)  // about to take one operation from the budget
    | Running(deadline: int)   // operation in flight
    | Tallying(deadline: int)  // operation succeeded, not yet counted
    | Failing(claimed: bool)   // has an error to send; claimed when an operation failed
    | Failed(claimed: bool)    // error sent
    | Refused                  // found the budget exhausted
    | TimedOut                 // found its window over

  datatype State = State(budget: int, done: nat, start: int, errs: seq<nat>, workers: seq<Worker>)

  datatype Action =
    | OpenSession(i: nat, ok: bool)
    | Setup(i: nat, ok: bool)
    | Stamp(i: nat, now: int)
    | Check(i: nat, now: int)
    | Claim(i: nat)
    | Operate(i: nat, ok: bool)
    | Tally(i: nat)
    | Send(i: nat)

  function Start(maxOps: nat, sessions: nat): State {
    State(maxOps, 0, 0, [], seq(sessions, _ => Opening))
  }

  predicate Enabled(s: State, a: Action) {
    a.i < |s.workers| &&
    var w := s.workers[a.i];
    match a
    case OpenSession(_, _) => w.Opening?
    case Setup(_, _) => w.Preparing?
    case Stamp(_, _) => w.Stamping?
    case Check(_, _) => w.Checking?
    case Claim(_) => w.Claiming?
    case Operate(_, _) => w.Running?
    case Tally(_) => w.Tallying?
    // The channel is buffered with one slot for each worker.
    case Send(_) => w.Failing? && |s.errs| < |s.workers|
  }

  function Apply(s: State, a: Action, window: int): State
    requires Enabled(s, a)
  {
    var w := s.workers[a.i];
    match a
    case OpenSession(i, ok) => s.(workers := s.workers[i := if ok then Preparing else Failing(false)])
    case Setup(i, ok) => s.(workers := s.workers[i := if ok then Stamping else Failing(false)])
    case Stamp(i, now) =>
      s.(start := if s.start == 0 then now else s.start, workers := s.workers[i := Checking(now + window)])
    case Check(i, now) =>
      s.(workers := s.workers[i := if now < w.deadline then Claiming(w.deadline) else TimedOut])
    case Claim(i) =>
      s.(budget := s.budget - 1,
         workers := s.workers[i := if s.budget - 1 < 0 then Refused else Running(w.deadline)])
    case Operate(i, ok) => s.(workers := s.workers[i := if ok then Tallying(w.deadline) else Failing(true)])
    case Tally(i) => s.(done := s.done + 1, workers := s.workers[i := Checking(w.deadline)])
    case Send(i) => s.(errs := s.errs + [i], workers := s.workers[i := Failed(w.claimed)])
  }

  predicate Possible(s: State, acts: seq<Action>, window: int)
    decreases |acts|
  {
    acts == [] || (Enabled(s, acts[0]) && Possible(Apply(s, acts[0], window), acts[1..], window))
  }

  function Exec(s: State, acts: seq<Action>, window: int): State
    requires Possible(s, acts, window)
    decreases |acts|
  {
    if acts == [] then s else Exec(Apply(s, acts[0], window), acts[1..], window)
  }

  predicate InFlight(w: Worker) { w.Running? || w.Tallying? }
  predicate OpFailed(w: Worker) { (w.Failing? || w.Failed?) && w.claimed }
  predicate WasRefused(w: Worker) { w.Refused? }
  predicate HasSent(w: Worker) { w.Failed? }
  predicate Finished(w: Worker) { w.Failed? || w.Refused? || w.TimedOut? }

  function Min(a: int, b: int): int { if a < b then a else b }
  function Max(a: int, b: int): int { if a < b then b else a }

  /** Operations that were granted by the budget and are accounted for. */
  function Accounted(s: State): nat {
    s.done + CountIf(s.workers, InFlight) + CountIf(s.workers, OpFailed)
  }

  ghost predicate Inv(s: State, maxOps: nat) {
    && Accounted(s) == Min(maxOps, maxOps - s.budget)
    && CountIf(s.workers, WasRefused) == Max(0, -s.budget)
    && s.budget <= maxOps
    && |s.errs| == CountIf(s.workers, HasSent)
  }

  /** Steps to go: each worker's remaining phases plus four for every operation
      still in the budget. */
  function Rank(w: Worker): nat {
    match w
    case Opening => 6
    case Preparing => 5
    case Stamping => 4
    case Checking(_) => 3
    case Claiming(_) => 2
    case Running(_) => 5
    case Tallying(_) => 4
    case Failing(_) => 1
    case _ => 0
  }

  function RankSum(ws: seq<Worker>): nat {
    if ws == [] then 0 else RankSum(ws[..|ws| - 1]) + Rank(ws[|ws| - 1])
  }

  function StepsLeft(s: State): nat { RankSum(s.workers) + 4 * Max(0, s.budget) }

  lemma {:induction false} RankSumUpdate(ws: seq<Worker>, i: nat, w: Worker)
    requires i < |ws|
    ensures RankSum(ws[i := w]) == RankSum(ws) - Rank(ws[i]) + Rank(w)
  {
    var n := |ws| - 1;
    if i == n {
      assert ws[i := w][..n] == ws[..n];
    } else {
      assert ws[i := w][..n] == ws[..n][i := w];
      RankSumUpdate(ws[..n], i, w);
    }
  }

  lemma StepKeepsInv(s: State, a: Action, window: int, maxOps: nat)
    requires Inv(s, maxOps) && Enabled(s, a)
    ensures Inv(Apply(s, a, window), maxOps)
  {
    hide Seqs.CountIf;
    var s' := Apply(s, a, window);
    var w := s'.workers[a.i];
    assert s'.workers == s.workers[a.i := w];
    CountIfUpdate(s.workers, a.i, w, InFlight);
    CountIfUpdate(s.workers, a.i, w, OpFailed);
    CountIfUpdate(s.workers, a.i, w, WasRefused);
    CountIfUpdate(s.workers, a.i, w, HasSent);
    match a
    case Claim(_) =>
    case Operate(_, _) =>
    case _ =>
  }

  /** Each step brings the run closer to its end. */
  lemma StepDescends(s: State, a: Action, window: int)
    requires Enabled(s, a)
    ensures StepsLeft(Apply(s, a, window)) < StepsLeft(s)
  {
    var s' := Apply(s, a, window);
    assert s'.workers == s.workers[a.i := s'.workers[a.i]];
    RankSumUpdate(s.workers, a.i, s'.workers[a.i]);
  }

  lemma {:induction false} RunKeepsInv(s: State, acts: seq<Action>, window: int, maxOps: nat)
    requires Inv(s, maxOps) && Possible(s, acts, window)
    ensures Inv(Exec(s, acts, window), maxOps)
    ensures |acts| + StepsLeft(Exec(s, acts, window)) <= StepsLeft(s)
    ensures |Exec(s, acts, window).workers| == |s.workers|
    decreases |acts|
  {
    if acts != [] {
      StepKeepsInv(s, acts[0], window, maxOps);
      StepDescends(s, acts[0], window);
      RunKeepsInv(Apply(s, acts[0], window), acts[1..], window, maxOps);
    }
  }

  lemma {:induction false} StartHolds(ws: seq<Worker>)
    requires forall i :: 0 <= i < |ws| ==> ws[i].Opening?
    ensures CountIf(ws, InFlight) == CountIf(ws, OpFailed) == CountIf(ws, WasRefused) == CountIf(ws, HasSent) == 0
    ensures RankSum(ws) == 6 * |ws|
  {
    if ws != [] { StartHolds(ws[..|ws| - 1]); }
  }

  /** Conservation, for any number of workers, any interleaving and any clock:
      operations done, in flight and failed add up to what the budget granted;
      the budget never falls below minus one per worker; the operations done
      never exceed the maximum. */
  lemma BudgetIsConserved(maxOps: nat, sessions: nat, acts: seq<Action>, window: int)
    requires Possible(Start(maxOps, sessions), acts, window)
    ensures var s := Exec(Start(maxOps, sessions), acts, window);
            && s.done + CountIf(s.workers, InFlight) + CountIf(s.workers, OpFailed) == Min(maxOps, maxOps - s.budget)
            && -(sessions as int) <= s.budget <= maxOps
            && s.done <= maxOps
  {
    StartHolds(Start(maxOps, sessions).workers);
    RunKeepsInv(Start(maxOps, sessions), acts, window, maxOps);
  }

  /** Every schedule is finite, whatever the clock says. */
  lemma RunsAreBounded(maxOps: nat, sessions: nat, acts: seq<Action>, window: int)
    requires Possible(Start(maxOps, sessions), acts, window)
    ensures |acts| <= 6 * sessions + 4 * maxOps
  {
    StartHolds(Start(maxOps, sessions).workers);
    RunKeepsInv(Start(maxOps, sessions), acts, window, maxOps);
  }

  lemma SomeWillSend(ws: seq<Worker>, i: nat)
    requires i < |ws| && ws[i].Failing?
    ensures CountIf(ws, HasSent) < |ws|
  {
    CountIfUpdate(ws, i, Failed(false), HasSent);
  }

  /** No worker ever waits: one that is not finished can always take its next
      step, and in particular a failed one never blocks on the error channel. */
  lemma NobodyBlocks(maxOps: nat, sessions: nat, acts: seq<Action>, window: int, i: nat, now: int)
    returns (a: Action)
    requires Possible(Start(maxOps, sessions), acts, window)
    requires i < sessions
    requires i < |Exec(Start(maxOps, sessions), acts, window).workers|
    requires !Finished(Exec(Start(maxOps, sessions), acts, window).workers[i])
    ensures a.i == i && Enabled(Exec(Start(maxOps, sessions), acts, window), a)
  {
    StartHolds(Start(maxOps, sessions).workers);
    RunKeepsInv(Start(maxOps, sessions), acts, window, maxOps);
    var s := Exec(Start(maxOps, sessions), acts, window);
    match s.workers[i]
    case Opening => a := OpenSession(i, true);
    case Preparing => a := Setup(i, true);
    case Stamping => a := Stamp(i, now);
    case Checking(_) => a := Check(i, now);
    case Claiming(_) => a := Claim(i);
    case Running(_) => a := Operate(i, true);
    case Tallying(_) => a := Tally(i);
    case Failing(_) =>
      SomeWillSend(s.workers, i);
      a := Send(i);
  }

  lemma {:induction false} NoneInFlight(ws: seq<Worker>)
    requires forall i :: 0 <= i < |ws| ==> Finished(ws[i])
    ensures CountIf(ws, InFlight) == 0
  {
    if ws != [] { NoneInFlight(ws[..|ws| - 1]); }
  }

  ghost predicate AllFinished(s: State) { forall i :: 0 <= i < |s.workers| ==> Finished(s.workers[i]) }

  ghost predicate SomeWorker(s: State, p: Worker -> bool) { exists i :: 0 <= i < |s.workers| && p(s.workers[i]) }

  lemma FinalState(s: State, maxOps: nat)
    requires Inv(s, maxOps) && AllFinished(s)
    ensures s.done + CountIf(s.workers, OpFailed) == Min(maxOps, maxOps - s.budget)
    ensures SomeWorker(s, WasRefused) && !SomeWorker(s, OpFailed) ==> s.done == maxOps
    ensures s.errs != [] <==> SomeWorker(s, HasSent)
  {
    NoneInFlight(s.workers);
    CountIfPositive(s.workers, WasRefused);
    CountIfPositive(s.workers, OpFailed);
    CountIfPositive(s.workers, HasSent);
  }

  /** What the run reports once every worker has returned: all granted
      operations either completed or failed; if the budget refused somebody and
      nothing failed, exactly the maximum was measured; and an error is on the
      channel exactly when some worker failed. */
  lemma FinalTally(maxOps: nat, sessions: nat, acts: seq<Action>, window: int)
    requires Possible(Start(maxOps, sessions), acts, window)
    requires AllFinished(Exec(Start(maxOps, sessions), acts, window))
    ensures var s := Exec(Start(maxOps, sessions), acts, window);
            && s.done + CountIf(s.workers, OpFailed) == Min(maxOps, maxOps - s.budget)
            && (SomeWorker(s, WasRefused) && !SomeWorker(s, OpFailed) ==> s.done == maxOps)
            && (s.errs != [] <==> SomeWorker(s, HasSent))
  {
    StartHolds(Start(maxOps, sessions).workers);
    RunKeepsInv(Start(maxOps, sessions), acts, window, maxOps);
    FinalState(Exec(Start(maxOps, sessions), acts, window), maxOps);
  }

  /** The start stamp is written once: by the first worker to finish its setup. */
  lemma {:induction false} StampIsFinal(s: State, acts: seq<Action>, window: int)
    requires Possible(s, acts, window) && s.start != 0
    ensures Exec(s, acts, window).start == s.start
    decreases |acts|
  {
    if acts != [] { StampIsFinal(Apply(s, acts[0], window), acts[1..], window); }
  }
}
