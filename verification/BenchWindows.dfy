/** What the workers of a benchmark run do, told from their own actions: each
    stays inside the window that its own stamp opens, and the counters count. */
module BenchWindows {
  import opened Seqs
  import opened BenchProtocol

  // ---- the actions of one worker ----

  function LastOwn(acts: seq<Action>, i: nat): Option<Action> {
    if acts == [] then None
    else if acts[|acts| - 1].i == i then Some(acts[|acts| - 1])
    else LastOwn(acts[..|acts| - 1], i)
  }

  /** The clock when worker i last compared it with its deadline. */
  function LastReading(acts: seq<Action>, i: nat): Option<int> {
    if acts == [] then None
    else
      var a := acts[|acts| - 1];
      if a.i == i && a.Check? then Some(a.now) else LastReading(acts[..|acts| - 1], i)
  }

  /** The clock when worker i finished its setup. */
  function StampOf(acts: seq<Action>, i: nat): Option<int> {
    if acts == [] then None
    else
      var a := acts[|acts| - 1];
      if a.i == i && a.Stamp? then Some(a.now) else StampOf(acts[..|acts| - 1], i)
  }

  /** Worker i's last clock reading was before its own stamp plus the window. */
  predicate InWindow(acts: seq<Action>, i: nat, window: int) {
    && StampOf(acts, i).Some? && LastReading(acts, i).Some?
    && LastReading(acts, i).value < StampOf(acts, i).value + window
  }

  lemma {:induction false} Snoc(s: State, acts: seq<Action>, window: int)
    requires acts != [] && Possible(s, acts, window)
    ensures var init, a := acts[..|acts| - 1], acts[|acts| - 1];
            && Possible(s, init, window) && Enabled(Exec(s, init, window), a)
            && Exec(s, acts, window) == Apply(Exec(s, init, window), a, window)
    decreases |acts|
  {
    hide Enabled, Apply;
    if |acts| > 1 {
      Snoc(Apply(s, acts[0], window), acts[1..], window);
      assert acts[1..][..|acts| - 2] == acts[..|acts| - 1][1..];
    }
  }

  lemma {:induction false} PossiblePrefix(s: State, acts: seq<Action>, window: int, k: nat)
    requires Possible(s, acts, window) && k <= |acts|
    ensures Possible(s, acts[..k], window)
    decreases |acts|
  {
    hide Enabled, Apply;
    if k == |acts| {
      assert acts[..k] == acts;
    } else {
      Snoc(s, acts, window);
      PossiblePrefix(s, acts[..|acts| - 1], window, k);
      PrefixOfPrefix(acts, |acts| - 1, k);
    }
  }

  lemma Prefix(s: State, acts: seq<Action>, window: int, k: nat)
    requires Possible(s, acts, window) && k < |acts|
    ensures Possible(s, acts[..k], window) && Possible(s, acts[..k + 1], window)
    ensures Enabled(Exec(s, acts[..k], window), acts[k])
    ensures Exec(s, acts[..k + 1], window) == Apply(Exec(s, acts[..k], window), acts[k], window)
  {
    hide Enabled, Apply;
    PossiblePrefix(s, acts, window, k + 1);
    Snoc(s, acts[..k + 1], window);
    PrefixOfPrefix(acts, k + 1, k);
  }

  /** Where a worker stands, told from its own actions. */
  predicate Fits(w: Worker, acts: seq<Action>, i: nat, window: int) {
    var last, stamp := LastOwn(acts, i), StampOf(acts, i);
    match w
    case Opening => last == None && stamp == None
    case Preparing => last == Some(OpenSession(i, true)) && stamp == None
    case Stamping => last == Some(Setup(i, true)) && stamp == None
    case Checking(d) => stamp == Some(d - window) && last.Some? && (last.value.Stamp? || last.value.Tally?)
    case Claiming(d) => stamp == Some(d - window) && InWindow(acts, i, window) && last.Some? && last.value.Check?
    case Running(d) => stamp == Some(d - window) && InWindow(acts, i, window) && last == Some(Claim(i))
    case Tallying(d) => stamp == Some(d - window) && InWindow(acts, i, window) && last == Some(Operate(i, true))
    case Failing(claimed) =>
      if claimed then last == Some(Operate(i, false)) else last == Some(OpenSession(i, false)) || last == Some(Setup(i, false))
    case Failed(_) => last == Some(Send(i))
    case Refused => last == Some(Claim(i)) && InWindow(acts, i, window)
    case TimedOut =>
      stamp.Some? && last.Some? && last.value.Check? && last.value.now >= stamp.value + window
  }

  lemma OwnSnoc(acts: seq<Action>, i: nat)
    requires acts != []
    ensures var init, a := acts[..|acts| - 1], acts[|acts| - 1];
            && LastOwn(acts, i) == (if a.i == i then Some(a) else LastOwn(init, i))
            && LastReading(acts, i) == (if a.i == i && a.Check? then Some(a.now) else LastReading(init, i))
            && StampOf(acts, i) == (if a.i == i && a.Stamp? then Some(a.now) else StampOf(init, i))
  {
  }

  lemma FitsStep(s: State, acts: seq<Action>, i: nat, window: int)
    requires acts != [] && i < |s.workers| && Enabled(s, acts[|acts| - 1])
    requires Fits(s.workers[i], acts[..|acts| - 1], i, window)
    ensures Fits(Apply(s, acts[|acts| - 1], window).workers[i], acts, i, window)
  {
    hide LastOwn, LastReading, StampOf;
    OwnSnoc(acts, i);
  }

  lemma NothingDone(i: nat)
    ensures LastOwn([], i) == None && LastReading([], i) == None && StampOf([], i) == None
  {
  }

  lemma {:induction false} RunFits(maxOps: nat, sessions: nat, acts: seq<Action>, window: int, i: nat)
    requires Possible(Start(maxOps, sessions), acts, window) && i < sessions
    ensures |Exec(Start(maxOps, sessions), acts, window).workers| == sessions
    ensures Fits(Exec(Start(maxOps, sessions), acts, window).workers[i], acts, i, window)
  {
    hide LastOwn, LastReading, StampOf, Fits;
    if acts == [] {
      StartFits(maxOps, sessions, i, window);
    } else {
      var init := acts[..|acts| - 1];
      Snoc(Start(maxOps, sessions), acts, window);
      RunFits(maxOps, sessions, init, window, i);
      FitsStep(Exec(Start(maxOps, sessions), init, window), acts, i, window);
    }
  }

  lemma StartFits(maxOps: nat, sessions: nat, i: nat, window: int)
    requires i < sessions
    ensures Fits(Start(maxOps, sessions).workers[i], [], i, window)
  {
  }

  lemma {:induction false} ActorExists(s: State, acts: seq<Action>, window: int, k: nat)
    requires Possible(s, acts, window) && k < |acts|
    ensures acts[k].i < |s.workers|
    decreases |acts|
  {
    if k > 0 { ActorExists(Apply(s, acts[0], window), acts[1..], window, k - 1); }
  }

  // ---- the window ----

  /** A worker takes an operation from the budget, runs it and counts it only if
      its last clock reading was before its own stamp plus the window. */
  lemma WorksInsideWindow(maxOps: nat, sessions: nat, acts: seq<Action>, window: int, k: nat)
    requires Possible(Start(maxOps, sessions), acts, window) && k < |acts|
    requires acts[k].Claim? || acts[k].Operate? || acts[k].Tally?
    ensures InWindow(acts[..k], acts[k].i, window)
  {
    hide LastOwn, LastReading, StampOf;
    ActorExists(Start(maxOps, sessions), acts, window, k);
    Prefix(Start(maxOps, sessions), acts, window, k);
    RunFits(maxOps, sessions, acts[..k], window, acts[k].i);
  }

  /** A worker has timed out exactly if the last thing it did was to read a clock
      that had reached its own stamp plus the window. */
  lemma TimedOutExactly(maxOps: nat, sessions: nat, acts: seq<Action>, window: int, i: nat)
    requires Possible(Start(maxOps, sessions), acts, window) && i < sessions
    requires i < |Exec(Start(maxOps, sessions), acts, window).workers|
    ensures Exec(Start(maxOps, sessions), acts, window).workers[i].TimedOut?
       <==> && LastOwn(acts, i).Some? && LastOwn(acts, i).value.Check? && StampOf(acts, i).Some?
            && LastOwn(acts, i).value.now >= StampOf(acts, i).value + window
  {
    hide LastReading, StampOf, LastOwn;
    RunFits(maxOps, sessions, acts, window, i);
    ReadingIsLast(acts, i);
  }

  lemma {:induction false} ReadingIsLast(acts: seq<Action>, i: nat)
    ensures LastOwn(acts, i).Some? && LastOwn(acts, i).value.Check? ==> LastReading(acts, i) == Some(LastOwn(acts, i).value.now)
  {
    if acts != [] { ReadingIsLast(acts[..|acts| - 1], i); }
  }

  /** No clock reading of the run reaches its worker's stamp plus the window. */
  ghost predicate NoneLate(acts: seq<Action>, window: int) {
    forall k :: 0 <= k < |acts| && acts[k].Check? ==>
      StampOf(acts[..k], acts[k].i).Some? && acts[k].now < StampOf(acts[..k], acts[k].i).value + window
  }

  lemma {:induction false} LastOwnIsSome(acts: seq<Action>, i: nat) returns (k: nat)
    requires LastOwn(acts, i).Some?
    ensures k < |acts| && acts[k] == LastOwn(acts, i).value && acts[k].i == i
    ensures !acts[k].Stamp? ==> StampOf(acts[..k], i) == StampOf(acts, i)
  {
    k := |acts| - 1;
    if acts[k].i != i {
      var n := k;
      k := LastOwnIsSome(acts[..n], i);
      PrefixOfPrefix(acts, n, k);
    }
  }

  lemma NobodyTimesOut(maxOps: nat, sessions: nat, acts: seq<Action>, window: int, i: nat)
    requires Possible(Start(maxOps, sessions), acts, window) && i < sessions && NoneLate(acts, window)
    requires i < |Exec(Start(maxOps, sessions), acts, window).workers|
    ensures !Exec(Start(maxOps, sessions), acts, window).workers[i].TimedOut?
  {
    hide LastOwn, StampOf;
    TimedOutExactly(maxOps, sessions, acts, window, i);
    if LastOwn(acts, i).Some? && LastOwn(acts, i).value.Check? {
      var k := LastOwnIsSome(acts, i);
    }
  }

  /** Nothing the workers call fails. */
  predicate NoFailures(acts: seq<Action>) {
    forall k :: 0 <= k < |acts| ==>
      OpenSession(acts[k].i, false) != acts[k] && Setup(acts[k].i, false) != acts[k] && Operate(acts[k].i, false) != acts[k]
  }

  lemma {:induction false} NobodyFails(maxOps: nat, sessions: nat, acts: seq<Action>, window: int, i: nat)
    requires Possible(Start(maxOps, sessions), acts, window) && i < sessions && NoFailures(acts)
    ensures |Exec(Start(maxOps, sessions), acts, window).workers| == sessions
    ensures var w := Exec(Start(maxOps, sessions), acts, window).workers[i]; !w.Failing? && !w.Failed?
  {
    if acts != [] {
      var init := acts[..|acts| - 1];
      Snoc(Start(maxOps, sessions), acts, window);
      assert forall k :: 0 <= k < |init| ==> init[k] == acts[k];
      NobodyFails(maxOps, sessions, init, window, i);
    }
  }

  /** If nothing fails and no reading comes too late, the finished workers, one
      or more, have done the maximum exactly. */
  lemma AllOperationsDone(maxOps: nat, sessions: nat, acts: seq<Action>, window: int)
    requires Possible(Start(maxOps, sessions), acts, window) && sessions >= 1
    requires AllFinished(Exec(Start(maxOps, sessions), acts, window)) && NoFailures(acts) && NoneLate(acts, window)
    ensures Exec(Start(maxOps, sessions), acts, window).done == maxOps
  {
    var s := Exec(Start(maxOps, sessions), acts, window);
    FinalTally(maxOps, sessions, acts, window);
    NobodyFails(maxOps, sessions, acts, window, 0);
    NobodyTimesOut(maxOps, sessions, acts, window, 0);
    assert Finished(s.workers[0]) && WasRefused(s.workers[0]);
    forall i | 0 <= i < |s.workers| ensures !OpFailed(s.workers[i]) { NobodyFails(maxOps, sessions, acts, window, i); }
  }

  // ---- the counters ----

  predicate IsClaim(a: Action) { a.Claim? }
  predicate IsTally(a: Action) { a.Tally? }

  /** The clocks of the stamps, in order. */
  function Stamps(acts: seq<Action>): seq<int> {
    if acts == [] then []
    else
      var a := acts[|acts| - 1];
      if a.Stamp? then Stamps(acts[..|acts| - 1]) + [a.now] else Stamps(acts[..|acts| - 1])
  }

  function Senders(acts: seq<Action>): seq<nat> {
    if acts == [] then []
    else
      var a := acts[|acts| - 1];
      if a.Send? then Senders(acts[..|acts| - 1]) + [a.i] else Senders(acts[..|acts| - 1])
  }

  function FirstNonZero(s: seq<int>): int {
    if s == [] then 0
    else if FirstNonZero(s[..|s| - 1]) != 0 then FirstNonZero(s[..|s| - 1])
    else s[|s| - 1]
  }

  lemma FirstSnoc(s: seq<int>, x: int)
    ensures FirstNonZero(s + [x]) == if FirstNonZero(s) != 0 then FirstNonZero(s) else x
  {
    assert (s + [x])[..|s|] == s;
  }

  lemma {:induction false} Counters(maxOps: nat, sessions: nat, acts: seq<Action>, window: int)
    requires Possible(Start(maxOps, sessions), acts, window)
    ensures var s := Exec(Start(maxOps, sessions), acts, window);
            && s.done == CountIf(acts, IsTally) && s.budget == maxOps - CountIf(acts, IsClaim)
            && s.start == FirstNonZero(Stamps(acts)) && s.errs == Senders(acts)
  {
    hide Enabled;
    if acts != [] {
      var init, a := acts[..|acts| - 1], acts[|acts| - 1];
      Snoc(Start(maxOps, sessions), acts, window);
      Counters(maxOps, sessions, init, window);
      if a.Stamp? { FirstSnoc(Stamps(init), a.now); }
    }
  }

  /** Of all claims exactly the first maxOps are granted: claim k of the schedule
      sends its worker to work if fewer came before it, and home if not. */
  lemma ClaimsGrantedExactly(maxOps: nat, sessions: nat, acts: seq<Action>, window: int, k: nat)
    requires Possible(Start(maxOps, sessions), acts, window) && k < |acts| && acts[k].Claim?
    ensures Possible(Start(maxOps, sessions), acts[..k + 1], window)
    ensures var s := Exec(Start(maxOps, sessions), acts[..k + 1], window);
            && acts[k].i < |s.workers|
            && (if CountIf(acts[..k], IsClaim) < maxOps then s.workers[acts[k].i].Running? else s.workers[acts[k].i].Refused?)
  {
    hide Seqs.CountIf;
    Prefix(Start(maxOps, sessions), acts, window, k);
    Counters(maxOps, sessions, acts[..k], window);
  }

  /** The limits in numbers: a minute, a million operations and 32 sessions at
      most; three seconds, 5000 operations and one session if not set. */
  lemma Limits(o: Options)
    ensures WithinLimits(o) <==>
              0 < o.duration <= 60 * 1_000_000_000 && 0 < o.maxOps <= 1_000_000 && 0 < o.sessions <= 32
    ensures DEFAULT_DURATION == 3 * 1_000_000_000 && DEFAULT_MAX_OPS == 5000 && DEFAULT_SESSIONS == 1
    ensures MAX_DURATION == 60 * 1_000_000_000 && HARD_MAX_OPS == 1_000_000 && MAX_SESSIONS == 32
  {
  }
}
