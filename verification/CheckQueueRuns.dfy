/** Every run of the script check queue: safety of each round, no lost wake-up, and termination of Wait. */
module CheckQueueRuns {
  import opened CheckQueueModel

  /** One event; an event that is not enabled changes nothing. */
  function Next(s: State, e: Event, batchSize: nat): State {
    if !Enabled(s, e) then s
    else
      match e
      case Arrives(i) => Locked(Enter(s, i), i, batchSize)
      case Reports(i) => Locked(Report(s, i), i, batchSize)
      case Wakes(i) => Locked(Wake(s, i), i, batchSize)
      case Executes(i) => With(s, i, Executed(s.threads[i]))
      case Adds(cs, w) => Add(s, cs, w)
  }

  /** The rest of a critical section. */
  function Locked(s: State, i: nat, batchSize: nat): State {
    if i < |s.threads| && 0 <= s.shared.nIdle && 0 <= s.shared.nTotal then Decide(s, i, batchSize) else s
  }

  /** The state after the first n events of es: any interleaving of any number of threads. */
  function After(s: State, es: seq<Event>, n: nat, batchSize: nat): State
    requires n <= |es|
    decreases n
  {
    if n == 0 then s else Next(After(s, es, n - 1, batchSize), es[n - 1], batchSize)
  }

  lemma {:induction false} StartSums(ts: seq<Thread>, n: nat)
    requires n <= |ts| && forall i :: 0 <= i < |ts| ==> ts[i].Outside?
    ensures Sum(ts, Counted, n) == 0 && Sum(ts, IdleThread, n) == 0 && AllHeld(ts, n) == multiset{}
    decreases n
  {
    if n > 0 { StartSums(ts, n - 1); }
  }

  lemma StartOk(workers: nat)
    ensures Inv(Start(workers)) && Unlocked(Start(workers))
  {
    StartSums(Start(workers).threads, workers + 1);
  }

  lemma LockedKeeps(s: State, i: nat, batchSize: nat)
    requires Inv(s) && i < |s.threads| && s.threads[i].Inside?
    requires forall j {:trigger s.threads[j]} :: 0 <= j < |s.threads| && j != i ==> !s.threads[j].Inside?
    ensures Inv(Locked(s, i, batchSize)) && Unlocked(Locked(s, i, batchSize))
    ensures |Locked(s, i, batchSize).threads| == |s.threads|
  {
    hide CountsOk, WorkOk, VerdictOk, ThreadsOk, RoundsOk, Taken, NowFor;
    CountsBounds(s);
    DecideKeeps(s, i, batchSize);
  }

  lemma NextKeeps(s: State, e: Event, batchSize: nat)
    requires Inv(s) && Unlocked(s)
    ensures Inv(Next(s, e, batchSize)) && Unlocked(Next(s, e, batchSize))
    ensures |Next(s, e, batchSize).threads| == |s.threads|
  {
    hide CountsOk, WorkOk, VerdictOk, ThreadsOk, RoundsOk, Locked;
    if Enabled(s, e) {
      match e
      case Arrives(i) => EnterKeeps(s, i); LockedKeeps(Enter(s, i), i, batchSize);
      case Reports(i) => ReportKeeps(s, i); LockedKeeps(Report(s, i), i, batchSize);
      case Wakes(i) => WakeKeeps(s, i); LockedKeeps(Wake(s, i), i, batchSize);
      case Executes(i) => ExecuteKeeps(s, i);
      case Adds(cs, w) => AddKeeps(s, cs, w);
    }
  }

  lemma {:induction false} RunKeeps(s: State, es: seq<Event>, n: nat, batchSize: nat)
    requires Inv(s) && Unlocked(s) && n <= |es|
    ensures var s' := After(s, es, n, batchSize); Inv(s') && Unlocked(s') && |s'.threads| == |s.threads|
    decreases n
  {
    hide Inv, Unlocked, Next;
    if n > 0 {
      RunKeeps(s, es, n - 1, batchSize);
      NextKeeps(After(s, es, n - 1, batchSize), es[n - 1], batchSize);
    }
  }

  // ----- Safety -----

  lemma {:induction false} AllIdle(ts: seq<Thread>, n: nat)
    requires n <= |ts| && forall i :: 0 <= i < |ts| ==> !ts[i].Working? && !ts[i].Inside?
    ensures Sum(ts, Counted, n) == Sum(ts, IdleThread, n)
    decreases n
  {
    if n > 0 { AllIdle(ts, n - 1); }
  }

  /** The assertion of CCheckQueueControl: before anything is added for the next round, the queue is idle. */
  lemma ControlFindsIdle(s: State)
    requires Inv(s) && Unlocked(s) && s.threads[0].Outside? && s.added == []
    ensures Idle(s.shared)
  {
    assert |multiset(s.added)| == |multiset(s.shared.queue)| + |AllHeld(s.threads, |s.threads|)| + |s.finished|;
    NothingHeld(s);
    NobodyWorks(s.threads, s.added, |s.threads|);
    AllIdle(s.threads, |s.threads|);
  }

  /**
   Every round of every run answers whether all its checks pass, whatever the number of workers, the
   batch size and the interleaving; between rounds the queue is idle; at any time every check of
   the round is queued, in one batch, or reported.
   */
  lemma EveryRunIsSafe(workers: nat, es: seq<Event>, n: nat, batchSize: nat)
    requires n <= |es|
    ensures var s := After(Start(workers), es, n, batchSize);
      && (forall k :: 0 <= k < |s.rounds| ==> s.rounds[k].ret == AllPass(s.rounds[k].added))
      && |s.threads| == workers + 1
      && (s.threads[0].Outside? && s.added == [] ==> Idle(s.shared))
      && multiset(s.added) == multiset(s.shared.queue) + AllHeld(s.threads, |s.threads|) + s.finished
      && s.shared.nTodo == |s.shared.queue| + |AllHeld(s.threads, |s.threads|)|
  {
    hide CountsOk, VerdictOk, ThreadsOk, AllPass, After, AllHeld, Idle;
    StartOk(workers);
    RunKeeps(Start(workers), es, n, batchSize);
    var s := After(Start(workers), es, n, batchSize);
    forall k | 0 <= k < |s.rounds| ensures s.rounds[k].ret == AllPass(s.rounds[k].added) {
      assert RoundOk(s.rounds[k]);
    }
    if s.threads[0].Outside? && s.added == [] { ControlFindsIdle(s); }
  }

  // ----- No lost wake-up -----

  lemma {:induction false} SomebodyWorks(ts: seq<Thread>, n: nat) returns (i: nat)
    requires n <= |ts| && |AllHeld(ts, n)| > 0
    ensures i < n && ts[i].Working?
    decreases n
  {
    assert n > 0;
    if ts[n - 1].Working? {
      i := n - 1;
    } else {
      i := SomebodyWorks(ts, n - 1);
    }
  }

  /** While the master sleeps and has not been notified, some worker has a batch it will report. */
  lemma NoLostWakeup(s: State) returns (i: nat)
    requires Inv(s) && s.threads[0] == Asleep(false)
    ensures 0 < i < |s.threads| && s.threads[i].Working? && s.shared.queue == []
  {
    i := SomebodyWorks(s.threads, |s.threads|);
  }

  // ----- Wait returns -----

  function Weight(t: Thread): int {
    match t
    case Outside => 1
    case Inside => 1
    case Asleep(notified) => if notified then 2 else 0
    case Working(batch, done, _) => 3 + |batch| - done
  }

  /** The work left. */
  function Measure(s: State): int {
    5 * |s.shared.queue| + Sum(s.threads, Weight, |s.threads|)
  }

  lemma {:induction false} WeightBound(ts: seq<Thread>, added: seq<Check>, n: nat)
    requires n <= |ts| && ThreadsOk(ts, added)
    ensures Sum(ts, Weight, n) >= 0
    decreases n
  {
    if n > 0 {
      assert ThreadOk(ts[n - 1], added);
      WeightBound(ts, added, n - 1);
    }
  }

  lemma DecideMeasure(s: State, i: nat, batchSize: nat)
    requires i < |s.threads| && s.threads[i].Inside? && 0 <= s.shared.nIdle && 0 <= s.shared.nTotal
    ensures var s' := Decide(s, i, batchSize);
      if s.shared.queue != [] then Measure(s') <= Measure(s) - 2
      else if i == 0 && s.shared.nTodo == 0 then Measure(s') == Measure(s) && s'.threads[0].Outside?
      else Measure(s') == Measure(s) - 1
  {
    hide Taken, NowFor;
    var s' := Decide(s, i, batchSize);
    SumWith(s.threads, i, s'.threads[i], Weight, |s.threads|);
  }

  lemma EntryMeasure(s: State, i: nat)
    requires i < |s.threads|
    ensures Measure(Enter(s, i)) == Measure(s) + 1 - Weight(s.threads[i])
    ensures Measure(Wake(s, i)) == Measure(s) + 1 - Weight(s.threads[i])
  {
    SumWith(s.threads, i, Inside, Weight, |s.threads|);
  }

  lemma ReportMeasure(s: State, i: nat)
    requires i < |s.threads| && s.threads[i].Working? && s.threads[i].done == |s.threads[i].batch|
    ensures Measure(Report(s, i)) <= Measure(s) - if i == 0 then 2 else 0
    ensures Report(s, i).shared.queue == s.shared.queue && |Report(s, i).threads| == |s.threads|
    ensures Report(s, i).threads[i].Inside?
  {
    SumWith(s.threads, i, Inside, Weight, |s.threads|);
    var ts := s.threads[i := Inside];
    SumWith(ts, 0, Asleep(true), Weight, |ts|);
  }

  /**
   An event other than Add or a call of Wait reduces the work left or changes nothing at all; it
   changes nothing only as a spurious wake-up that ends in the same wait.
   */
  lemma StepComesCloser(s: State, e: Event, batchSize: nat)
    requires Inv(s) && Enabled(s, e) && !e.Adds? && e != Arrives(0)
    ensures Measure(Next(s, e, batchSize)) < Measure(s) ||
            (e.Wakes? && s.threads[e.i] == Asleep(false) && Next(s, e, batchSize) == s)
  {
    hide CountsOk, WorkOk, VerdictOk, ThreadsOk, RoundsOk, Measure, NowFor, Taken, Sum;
    CountsBounds(s);
    match e
    case Arrives(i) =>
      EntryMeasure(s, i); EnterKeeps(s, i); CountsBounds(Enter(s, i)); DecideMeasure(Enter(s, i), i, batchSize);
    case Reports(i) =>
      ReportMeasure(s, i); ReportKeeps(s, i); CountsBounds(Report(s, i)); DecideMeasure(Report(s, i), i, batchSize);
    case Wakes(i) =>
      EntryMeasure(s, i); WakeKeeps(s, i); CountsBounds(Wake(s, i)); DecideMeasure(Wake(s, i), i, batchSize);
      if s.threads[i] == Asleep(false) && s.shared.queue == [] { BackToSleep(s, i, batchSize); }
    case Executes(i) =>
      ExecuteMeasure(s, i);
  }

  lemma BackToSleep(s: State, i: nat, batchSize: nat)
    requires Inv(s) && i < |s.threads| && s.threads[i] == Asleep(false) && s.shared.queue == []
    requires 0 <= s.shared.nIdle - 1 && 0 <= s.shared.nTotal
    ensures Decide(Wake(s, i), i, batchSize) == s
  {
    assert s.threads[i := Inside][i := Asleep(false)] == s.threads;
  }

  lemma ExecuteMeasure(s: State, i: nat)
    requires i < |s.threads| && s.threads[i].Working? && s.threads[i].done < |s.threads[i].batch|
    ensures Measure(With(s, i, Executed(s.threads[i]))) == Measure(s) - 1
  {
    SumWith(s.threads, i, Executed(s.threads[i]), Weight, |s.threads|);
  }

  /** Outside of Wait the master can add any checks, whichever workers are notified, and go on to Wait. */
  lemma RoundCanStart(s: State, cs: seq<Check>, w: set<nat>, batchSize: nat)
    requires Inv(s) && Unlocked(s) && s.threads[0].Outside?
    ensures Enabled(s, Adds(cs, w))
    ensures var s' := Next(s, Adds(cs, w), batchSize);
      s'.added == s.added + cs && s'.shared.queue == s.shared.queue + cs && Enabled(s', Arrives(0))
  {
  }

  /** The master has called Wait, and it has not returned. */
  predicate InWait(s: State) {
    |s.threads| > 0 && !s.threads[0].Outside?
  }

  /** Until Wait returns, somebody can take a step that does not depend on a spurious wake-up. */
  lemma SomethingCanHappen(s: State, batchSize: nat) returns (e: Event)
    requires Inv(s) && Unlocked(s) && InWait(s)
    ensures Enabled(s, e) && !e.Adds? && e != Arrives(0) && Measure(Next(s, e, batchSize)) < Measure(s)
  {
    hide CountsOk, WorkOk, VerdictOk, RoundsOk, Measure, Next;
    match s.threads[0]
    case Working(batch, done, _) =>
      assert ThreadOk(s.threads[0], s.added);
      e := if done < |batch| then Executes(0) else Reports(0);
      StepComesCloser(s, e, batchSize);
    case Asleep(true) =>
      e := Wakes(0);
      StepComesCloser(s, e, batchSize);
    case Asleep(false) =>
      var i := NoLostWakeup(s);
      assert ThreadOk(s.threads[i], s.added);
      e := if s.threads[i].done < |s.threads[i].batch| then Executes(i) else Reports(i);
      StepComesCloser(s, e, batchSize);
  }

  /** The number of events among the first n that changed the state. */
  ghost function Changes(s: State, es: seq<Event>, n: nat, batchSize: nat): nat
    requires n <= |es|
    decreases n
  {
    if n == 0 then 0
    else if After(s, es, n, batchSize) == After(s, es, n - 1, batchSize) then Changes(s, es, n - 1, batchSize)
    else Changes(s, es, n - 1, batchSize) + 1
  }

  /** While the master is inside Wait, no run has more effective steps than the work there was at the start. */
  lemma {:induction false} WaitIsBounded(s: State, es: seq<Event>, n: nat, batchSize: nat)
    requires Inv(s) && Unlocked(s) && n <= |es|
    requires forall k {:trigger After(s, es, k, batchSize)} :: 0 <= k < n ==> InWait(After(s, es, k, batchSize))
    ensures Changes(s, es, n, batchSize) <= Measure(s) - Measure(After(s, es, n, batchSize))
    ensures 0 <= Measure(After(s, es, n, batchSize))
    decreases n
  {
    hide CountsOk, WorkOk, VerdictOk, RoundsOk, Measure, Next, ThreadsOk;
    RunKeeps(s, es, n, batchSize);
    MeasureBound(After(s, es, n, batchSize));
    if n > 0 {
      WaitIsBounded(s, es, n - 1, batchSize);
      RunKeeps(s, es, n - 1, batchSize);
      var s1, e := After(s, es, n - 1, batchSize), es[n - 1];
      assert InWait(s1);
      if Enabled(s1, e) { StepComesCloser(s1, e, batchSize); } else { Disabled(s1, e, batchSize); }
    }
  }

  lemma Disabled(s: State, e: Event, batchSize: nat)
    requires !Enabled(s, e)
    ensures Next(s, e, batchSize) == s
  {
  }

  lemma MeasureBound(s: State)
    requires Inv(s)
    ensures Measure(s) >= 0
  {
    WeightBound(s.threads, s.added, |s.threads|);
  }
}
