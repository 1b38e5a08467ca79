/**
 The script check queue as a transition system (src/checkqueue.h): one master, any number of
 workers, and a step for every critical section, every check executed without the lock and every
 wake-up, notified or spurious.
 */
module CheckQueueModel {
  /** A check and the verdict it will give. */
  datatype Check = Check(id: nat, passes: bool)

  predicate AllPass(cs: seq<Check>) {
    forall i :: 0 <= i < |cs| ==> cs[i].passes
  }

  // ----- What the mutex protects -----

  datatype Shared = Shared(queue: seq<Check>, nIdle: int, nTotal: int, fAllOk: bool, nTodo: int)

  /** What a pass through the critical section ends in. */
  datatype Outcome = Return(ret: bool) | Sleep | Take(batch: seq<Check>, ok: bool)

  /** The units of work to take: smaller batches towards the end, at least one, at most nBatchSize. */
  function NowFor(s: Shared, batchSize: nat): (n: nat)
    requires 0 <= s.nIdle && 0 <= s.nTotal
    ensures n >= 1 && (s.queue != [] ==> n <= |s.queue|) && n <= if batchSize == 0 then 1 else batchSize
  {
    var share := |s.queue| / (s.nTotal + s.nIdle + 1);
    var capped := if batchSize < share then batchSize else share;
    if capped < 1 then 1 else capped
  }

  /** The last n of the queue, last first. */
  function Taken(q: seq<Check>, n: nat): (r: seq<Check>)
    requires n <= |q|
    ensures |r| == n
    decreases n
  {
    if n == 0 then [] else Taken(q, n - 1) + [q[|q| - n]]
  }

  /** The first iteration of Loop. */
  function Entered(s: Shared): Shared {
    s.(nTotal := s.nTotal + 1)
  }

  /** The clean-up of the previous iteration. */
  function CleanedUp(s: Shared, nNow: nat, fOk: bool): Shared {
    s.(fAllOk := s.fAllOk && fOk, nTodo := s.nTodo - nNow)
  }

  function Woken(s: Shared): Shared {
    s.(nIdle := s.nIdle - 1)
  }

  /** From the top of the inner loop to the next wait, return or release of the lock. */
  function Decided(s: Shared, fMaster: bool, batchSize: nat): (Shared, Outcome)
    requires 0 <= s.nIdle && 0 <= s.nTotal
  {
    if s.queue == [] then
      if fMaster && s.nTodo == 0 then (s.(nTotal := s.nTotal - 1, fAllOk := true), Return(s.fAllOk))
      else (s.(nIdle := s.nIdle + 1), Sleep)
    else
      var n := NowFor(s, batchSize);
      (s.(queue := s.queue[..|s.queue| - n]), Take(Taken(s.queue, n), s.fAllOk))
  }

  function Pushed(s: Shared, cs: seq<Check>): Shared {
    s.(queue := s.queue + cs, nTodo := s.nTodo + |cs|)
  }

  predicate Idle(s: Shared) {
    s.nTotal == s.nIdle && s.nTodo == 0 && s.fAllOk
  }

  // ----- Threads -----

  /**
   Outside of Loop, holding the lock inside it, waiting on its condition variable, or executing a
   batch of which `done` checks were passed.
   */
  datatype Thread = Outside | Inside | Asleep(notified: bool) | Working(batch: seq<Check>, done: nat, ok: bool)

  /** One Wait: the checks added before it, and its answer. */
  datatype Round = Round(added: seq<Check>, ret: bool)

  /**
   Thread 0 is the master.  The checks added for the current round, those of them that were taken
   and reported, and the finished rounds are history only.
   */
  datatype State = State(shared: Shared, threads: seq<Thread>, added: seq<Check>, finished: multiset<Check>,
                         rounds: seq<Round>)

  function Start(workers: nat): State {
    State(Shared([], 0, 0, true, 0), seq(workers + 1, _ => Outside), [], multiset{}, [])
  }

  function With(s: State, i: nat, t: Thread): State
    requires i < |s.threads|
  {
    s.(threads := s.threads[i := t])
  }

  // ----- Steps -----

  /** Thread i starts Loop: a worker thread arrives, or the master calls Wait. */
  function Enter(s: State, i: nat): State
    requires i < |s.threads|
  {
    With(s, i, Inside).(shared := Entered(s.shared))
  }

  /** notify_one on condMaster. */
  function NotifyMaster(s: State): State
    requires |s.threads| > 0
  {
    if s.threads[0].Asleep? then With(s, 0, Asleep(true)) else s
  }

  /** Thread i has executed its batch and takes the lock. */
  function Report(s: State, i: nat): State
    requires i < |s.threads| && s.threads[i].Working?
  {
    var t := s.threads[i];
    var s1 := With(s, i, Inside).(shared := CleanedUp(s.shared, |t.batch|, t.ok),
                                          finished := s.finished + multiset(t.batch));
    if s1.shared.nTodo == 0 && i != 0 then NotifyMaster(s1) else s1
  }

  /** Thread i leaves its wait, notified or not. */
  function Wake(s: State, i: nat): State
    requires i < |s.threads|
  {
    With(s, i, Inside).(shared := Woken(s.shared))
  }

  /** Thread i goes on to its next wait, batch or return. */
  function Decide(s: State, i: nat, batchSize: nat): State
    requires i < |s.threads| && 0 <= s.shared.nIdle && 0 <= s.shared.nTotal
  {
    var (sh, o) := Decided(s.shared, i == 0, batchSize);
    match o
    case Return(ret) =>
      With(s, i, Outside).(shared := sh, added := [], finished := multiset{},
                                rounds := s.rounds + [Round(s.added, ret)])
    case Sleep => With(s, i, Asleep(false)).(shared := sh)
    case Take(batch, ok) => With(s, i, Working(batch, 0, ok)).(shared := sh)
  }

  /** One check, skipped if the result is known already. */
  function Executed(t: Thread): Thread
    requires t.Working? && t.done < |t.batch|
  {
    t.(done := t.done + 1, ok := t.ok && t.batch[t.done].passes)
  }

  /** The threads asleep on condWorker that are in w have been notified. */
  function Notified(ts: seq<Thread>, w: set<nat>, n: nat): (r: seq<Thread>)
    requires n <= |ts|
    ensures |r| == n
    ensures forall i :: 0 <= i < n ==> r[i] == if i in w && i != 0 && ts[i].Asleep? then Asleep(true) else ts[i]
    decreases n
  {
    if n == 0 then []
    else
      var i := n - 1;
      Notified(ts, w, i) + [if i in w && i != 0 && ts[i].Asleep? then Asleep(true) else ts[i]]
  }

  /** Add.  w has the workers that notify_one or notify_all reached; whichever they are, the rest holds. */
  function Add(s: State, cs: seq<Check>, w: set<nat>): State {
    s.(shared := Pushed(s.shared, cs), added := s.added + cs, threads := Notified(s.threads, w, |s.threads|))
  }

  datatype Event = Arrives(i: nat) | Reports(i: nat) | Wakes(i: nat) | Executes(i: nat)
    | Adds(cs: seq<Check>, w: set<nat>)

  predicate Enabled(s: State, e: Event) {
    match e
    case Arrives(i) => i < |s.threads| && s.threads[i].Outside?
    case Reports(i) => i < |s.threads| && s.threads[i].Working? && s.threads[i].done == |s.threads[i].batch|
    case Wakes(i) => i < |s.threads| && s.threads[i].Asleep?
    case Executes(i) => i < |s.threads| && s.threads[i].Working? && s.threads[i].done < |s.threads[i].batch|
    case Adds(cs, w) => |s.threads| > 0 && s.threads[0].Outside?
  }

  // ----- Sums over threads -----

  function Sum(ts: seq<Thread>, f: Thread -> int, n: nat): int
    requires n <= |ts|
    decreases n
  {
    if n == 0 then 0 else Sum(ts, f, n - 1) + f(ts[n - 1])
  }

  lemma {:induction false} SumWith(ts: seq<Thread>, i: nat, t: Thread, f: Thread -> int, n: nat)
    requires i < |ts| && n <= |ts|
    ensures Sum(ts[i := t], f, n) == Sum(ts, f, n) + if i < n then f(t) - f(ts[i]) else 0
    decreases n
  {
    if n > 0 { SumWith(ts, i, t, f, n - 1); }
  }

  function Held(t: Thread): multiset<Check> {
    if t.Working? then multiset(t.batch) else multiset{}
  }

  /** What the first n threads hold in their batches. */
  function AllHeld(ts: seq<Thread>, n: nat): multiset<Check>
    requires n <= |ts|
    decreases n
  {
    if n == 0 then multiset{} else AllHeld(ts, n - 1) + Held(ts[n - 1])
  }

  lemma {:induction false} HeldWith(ts: seq<Thread>, i: nat, t: Thread, n: nat)
    requires i < |ts| && n <= |ts|
    ensures if i < n then AllHeld(ts[i := t], n) + Held(ts[i]) == AllHeld(ts, n) + Held(t)
            else AllHeld(ts[i := t], n) == AllHeld(ts, n)
    decreases n
  {
    hide Held;
    if n > 0 {
      HeldWith(ts, i, t, n - 1);
      var a, a', h := AllHeld(ts, n - 1), AllHeld(ts[i := t], n - 1), Held(ts[n - 1]);
      if i == n - 1 {
        Commute(a, Held(t), h);
      } else if i < n - 1 {
        Commute(a', h, Held(ts[i]));
        Commute(a, h, Held(t));
      }
    }
  }

  lemma Commute(a: multiset<Check>, b: multiset<Check>, c: multiset<Check>)
    ensures a + b + c == a + c + b
  {
  }

  function Counted(t: Thread): int { if t.Outside? then 0 else 1 }

  function IdleThread(t: Thread): int { if t.Asleep? then 1 else 0 }

  // ----- The invariant -----

  /** nIdle and nTotal. */
  ghost predicate CountsOk(s: State) {
    s.shared.nTotal == Sum(s.threads, Counted, |s.threads|) && s.shared.nIdle == Sum(s.threads, IdleThread, |s.threads|)
  }

  /** Every check added is queued, in exactly one batch or reported; nTodo counts the unreported ones. */
  ghost predicate WorkOk(s: State) {
    && multiset(s.added) == multiset(s.shared.queue) + AllHeld(s.threads, |s.threads|) + s.finished
    && s.shared.nTodo == |s.shared.queue| + |AllHeld(s.threads, |s.threads|)|
  }

  predicate ThreadOk(t: Thread, added: seq<Check>) {
    t.Working? ==>
      && |t.batch| > 0 && t.done <= |t.batch|
      && if t.ok then forall k :: 0 <= k < t.done ==> t.batch[k].passes else !AllPass(added)
  }

  /** A verdict of true was earned by everything reported; one of false by a check of this round. */
  ghost predicate VerdictOk(s: State) {
    if s.shared.fAllOk then forall c :: c in s.finished ==> c.passes else !AllPass(s.added)
  }

  /** The master sleeps only while there is something to wait for, or was notified. */
  predicate MasterOk(s: State) {
    && |s.threads| > 0
    && (s.threads[0].Asleep? ==> s.shared.queue == [])
    && (s.threads[0] == Asleep(false) ==> s.shared.nTodo != 0)
  }

  predicate RoundOk(r: Round) {
    r.ret == AllPass(r.added)
  }

  predicate ThreadsOk(ts: seq<Thread>, added: seq<Check>) {
    forall i {:trigger ThreadOk(ts[i], added)} :: 0 <= i < |ts| ==> ThreadOk(ts[i], added)
  }

  predicate RoundsOk(rs: seq<Round>) {
    forall i {:trigger RoundOk(rs[i])} :: 0 <= i < |rs| ==> RoundOk(rs[i])
  }

  ghost predicate Inv(s: State) {
    MasterOk(s) && CountsOk(s) && WorkOk(s) && VerdictOk(s) && ThreadsOk(s.threads, s.added) && RoundsOk(s.rounds)
  }

  /** Nobody holds the lock. */
  predicate Unlocked(s: State) {
    forall i {:trigger s.threads[i]} :: 0 <= i < |s.threads| ==> !s.threads[i].Inside?
  }

  // ----- Every part of a step keeps it -----

  lemma {:induction false} SumBounds(ts: seq<Thread>, n: nat)
    requires n <= |ts|
    ensures 0 <= Sum(ts, IdleThread, n) <= Sum(ts, Counted, n)
    decreases n
  {
    if n > 0 { SumBounds(ts, n - 1); }
  }

  lemma CountsBounds(s: State)
    requires CountsOk(s)
    ensures 0 <= s.shared.nIdle <= s.shared.nTotal
  {
    SumBounds(s.threads, |s.threads|);
  }

  lemma CountsWith(s: State, i: nat, t: Thread, s': State)
    requires CountsOk(s) && i < |s.threads| && s'.threads == s.threads[i := t]
    requires s'.shared.nTotal == s.shared.nTotal + Counted(t) - Counted(s.threads[i])
    requires s'.shared.nIdle == s.shared.nIdle + IdleThread(t) - IdleThread(s.threads[i])
    ensures CountsOk(s')
  {
    SumWith(s.threads, i, t, Counted, |s.threads|);
    SumWith(s.threads, i, t, IdleThread, |s.threads|);
  }

  /** A step that moves no checks. */
  lemma HeldSame(ts: seq<Thread>, i: nat, t: Thread)
    requires i < |ts| && Held(t) == Held(ts[i])
    ensures AllHeld(ts[i := t], |ts|) == AllHeld(ts, |ts|)
  {
    HeldWith(ts, i, t, |ts|);
    Cancel(AllHeld(ts[i := t], |ts|), AllHeld(ts, |ts|), Held(t));
  }

  lemma Cancel(a: multiset<Check>, b: multiset<Check>, c: multiset<Check>)
    requires a + c == b + c
    ensures a == b
  {
    forall x ensures a[x] == b[x] { assert (a + c)[x] == (b + c)[x]; }
  }

  lemma ThreadsWith(ts: seq<Thread>, added: seq<Check>, i: nat, t: Thread)
    requires ThreadsOk(ts, added) && i < |ts| && ThreadOk(t, added)
    ensures ThreadsOk(ts[i := t], added)
  {
  }

  lemma EnterKeeps(s: State, i: nat)
    requires Inv(s) && i < |s.threads| && s.threads[i].Outside?
    ensures Inv(Enter(s, i))
  {
    hide CountsOk, ThreadsOk, RoundsOk;
    CountsWith(s, i, Inside, Enter(s, i));
    HeldSame(s.threads, i, Inside);
    ThreadsWith(s.threads, s.added, i, Inside);
  }

  lemma WakeKeeps(s: State, i: nat)
    requires Inv(s) && i < |s.threads| && s.threads[i].Asleep?
    ensures Inv(Wake(s, i))
  {
    hide CountsOk, ThreadsOk, RoundsOk;
    CountsWith(s, i, Inside, Wake(s, i));
    HeldSame(s.threads, i, Inside);
    ThreadsWith(s.threads, s.added, i, Inside);
  }

  lemma ExecuteKeeps(s: State, i: nat)
    requires Inv(s) && i < |s.threads| && s.threads[i].Working? && s.threads[i].done < |s.threads[i].batch|
    ensures Inv(With(s, i, Executed(s.threads[i])))
  {
    hide CountsOk, ThreadsOk, RoundsOk;
    var t := Executed(s.threads[i]);
    CountsWith(s, i, t, With(s, i, t));
    HeldSame(s.threads, i, t);
    ExecutedOk(s, i);
    ThreadsWith(s.threads, s.added, i, t);
  }

  lemma HeldIsAdded(s: State, i: nat, c: Check)
    requires WorkOk(s) && i < |s.threads| && c in Held(s.threads[i])
    ensures c in s.added
  {
    HeldWith(s.threads, i, Inside, |s.threads|);
    assert AllHeld(s.threads, |s.threads|) + Held(Inside) == AllHeld(s.threads, |s.threads|);
    assert c in AllHeld(s.threads, |s.threads|);
    assert c in multiset(s.added);
  }

  lemma ExecutedOk(s: State, i: nat)
    requires WorkOk(s) && ThreadsOk(s.threads, s.added) && i < |s.threads| && s.threads[i].Working?
    requires s.threads[i].done < |s.threads[i].batch|
    ensures ThreadOk(Executed(s.threads[i]), s.added)
  {
    var t := s.threads[i];
    assert ThreadOk(t, s.added);
    var c := t.batch[t.done];
    HeldIsAdded(s, i, c);
    if !c.passes {
      var k :| 0 <= k < |s.added| && s.added[k] == c;
      assert !AllPass(s.added);
    }
  }

  lemma ReportedVerdict(s: State, i: nat)
    requires WorkOk(s) && VerdictOk(s) && i < |s.threads| && ThreadOk(s.threads[i], s.added)
    requires s.threads[i].Working? && s.threads[i].done == |s.threads[i].batch|
    ensures VerdictOk(Report(s, i))
  {
    var t := s.threads[i];
    if t.ok && s.shared.fAllOk {
      forall c | c in s.finished + multiset(t.batch) ensures c.passes {
        if c in multiset(t.batch) { assert c in t.batch; }
      }
    }
  }

  lemma ReportedWork(s: State, i: nat)
    requires WorkOk(s) && i < |s.threads| && s.threads[i].Working?
    ensures WorkOk(Report(s, i))
    ensures var t := s.threads[i];
      WorkOk(With(s, i, Inside).(shared := CleanedUp(s.shared, |t.batch|, t.ok),
                                 finished := s.finished + multiset(t.batch)))
  {
    hide AllHeld;
    var t := s.threads[i];
    var s1 := With(s, i, Inside).(shared := CleanedUp(s.shared, |t.batch|, t.ok),
                                          finished := s.finished + multiset(t.batch));
    var a, a', b := AllHeld(s.threads, |s.threads|), AllHeld(s1.threads, |s.threads|), multiset(t.batch);
    HeldWith(s.threads, i, Inside, |s.threads|);
    assert a' + b == a && |a' + b| == |a'| + |b|;
    assert multiset(s.shared.queue) + a + s.finished == multiset(s.shared.queue) + a' + (s.finished + b);
    if s1.threads[0].Asleep? { HeldSame(s1.threads, 0, Asleep(true)); }
  }

  lemma ReportKeeps(s: State, i: nat)
    requires Inv(s) && i < |s.threads| && s.threads[i].Working? && s.threads[i].done == |s.threads[i].batch|
    ensures Inv(Report(s, i)) && i < |Report(s, i).threads| && Report(s, i).threads[i] == Inside
  {
    hide CountsOk, ThreadsOk, RoundsOk, AllPass;
    var t := s.threads[i];
    var s1 := With(s, i, Inside).(shared := CleanedUp(s.shared, |t.batch|, t.ok),
                                          finished := s.finished + multiset(t.batch));
    CountsWith(s, i, Inside, s1);
    HeldWith(s.threads, i, Inside, |s.threads|);
    ThreadsWith(s.threads, s.added, i, Inside);
    AllThreadOk(s, i);
    ReportedVerdict(s, i);
    ReportedWork(s, i);
    if s1.shared.nTodo == 0 && i != 0 && s1.threads[0].Asleep? {
      var s2 := NotifyMaster(s1);
      CountsWith(s1, 0, Asleep(true), s2);
      HeldSame(s1.threads, 0, Asleep(true));
      ThreadsWith(s1.threads, s1.added, 0, Asleep(true));
    }
  }

  lemma AllThreadOk(s: State, i: nat)
    requires ThreadsOk(s.threads, s.added) && i < |s.threads|
    ensures ThreadOk(s.threads[i], s.added)
  {
  }

  lemma OneMore(a: seq<Check>, x: Check)
    ensures multiset(a + [x]) == multiset(a) + multiset{x}
  {
  }

  lemma {:induction false} TakenSplits(q: seq<Check>, n: nat)
    requires n <= |q|
    ensures multiset(q) == multiset(q[..|q| - n]) + multiset(Taken(q, n))
    decreases n
  {
    if n == 0 {
      assert q[..|q|] == q;
    } else {
      var a, x, t := q[..|q| - n], q[|q| - n], Taken(q, n - 1);
      assert Taken(q, n) == t + [x];
      hide Taken;
      calc {
        multiset(q);
        { TakenSplits(q, n - 1); assert q[..|q| - (n - 1)] == a + [x]; }
        multiset(a + [x]) + multiset(t);
        { OneMore(a, x); }
        multiset(a) + multiset{x} + multiset(t);
        { Commute(multiset(a), multiset{x}, multiset(t)); }
        multiset(a) + multiset(t) + multiset{x};
        { Associate(multiset(a), multiset(t), multiset{x}); OneMore(t, x); }
        multiset(a) + multiset(t + [x]);
      }
    }
  }

  lemma Associate(a: multiset<Check>, b: multiset<Check>, c: multiset<Check>)
    ensures a + b + c == a + (b + c)
  {
  }

  /** With nothing to do, everything added was reported and no thread has a batch. */
  lemma NothingHeld(s: State)
    requires WorkOk(s) && s.shared.nTodo == 0
    ensures s.shared.queue == [] && AllHeld(s.threads, |s.threads|) == multiset{} && multiset(s.added) == s.finished
  {
    assert multiset(s.shared.queue) == multiset{};
  }

  /** The answer of Wait is the conjunction of the round's checks. */
  lemma VerdictRight(s: State)
    requires WorkOk(s) && VerdictOk(s) && s.shared.nTodo == 0
    ensures s.shared.fAllOk == AllPass(s.added)
  {
    NothingHeld(s);
    if s.shared.fAllOk {
      forall i | 0 <= i < |s.added| ensures s.added[i].passes { assert s.added[i] in multiset(s.added); }
    }
  }

  lemma {:induction false} NobodyWorks(ts: seq<Thread>, added: seq<Check>, n: nat)
    requires n <= |ts| && ThreadsOk(ts, added) && AllHeld(ts, n) == multiset{}
    ensures forall i :: 0 <= i < n ==> !ts[i].Working?
    decreases n
  {
    if n > 0 {
      assert ThreadOk(ts[n - 1], added);
      assert Held(ts[n - 1]) == multiset{} && AllHeld(ts, n - 1) == multiset{};
      assert |Held(ts[n - 1])| == 0;
      NobodyWorks(ts, added, n - 1);
    }
  }

  lemma NextRoundThreads(ts: seq<Thread>, added: seq<Check>)
    requires ThreadsOk(ts, added) && AllHeld(ts, |ts|) == multiset{}
    ensures ThreadsOk(ts, [])
  {
    NobodyWorks(ts, added, |ts|);
  }

  lemma DecideKeeps(s: State, i: nat, batchSize: nat)
    requires Inv(s) && i < |s.threads| && s.threads[i].Inside? && 0 <= s.shared.nIdle && 0 <= s.shared.nTotal
    ensures Inv(Decide(s, i, batchSize))
  {
    hide CountsOk, ThreadsOk, AllPass, Taken, NowFor;
    var s' := Decide(s, i, batchSize);
    if s.shared.queue == [] {
      if i == 0 && s.shared.nTodo == 0 {
        ReturnKeeps(s, batchSize);
      } else {
        CountsWith(s, i, Asleep(false), s');
        HeldSame(s.threads, i, Asleep(false));
        ThreadsWith(s.threads, s.added, i, Asleep(false));
      }
    } else {
      TakeKeeps(s, i, batchSize);
    }
  }

  lemma ReturnKeeps(s: State, batchSize: nat)
    requires Inv(s) && s.threads[0].Inside? && 0 <= s.shared.nIdle && 0 <= s.shared.nTotal && s.shared.nTodo == 0
    ensures Inv(Decide(s, 0, batchSize))
  {
    hide CountsOk, ThreadsOk;
    var s' := Decide(s, 0, batchSize);
    VerdictRight(s);
    NothingHeld(s);
    CountsWith(s, 0, Outside, s');
    HeldSame(s.threads, 0, Outside);
    ThreadsWith(s.threads, s.added, 0, Outside);
    NextRoundThreads(s'.threads, s.added);
    assert RoundOk(Round(s.added, s.shared.fAllOk));
  }

  lemma TakenWork(s: State, i: nat, n: nat, t: Thread, s': State)
    requires WorkOk(s) && i < |s.threads| && s.threads[i].Inside? && n <= |s.shared.queue|
    requires t.Working? && t.batch == Taken(s.shared.queue, n)
    requires s'.threads == s.threads[i := t] && s'.added == s.added && s'.finished == s.finished
    requires s'.shared.queue == s.shared.queue[..|s.shared.queue| - n] && s'.shared.nTodo == s.shared.nTodo
    ensures WorkOk(s')
  {
    hide AllHeld, Taken;
    var a, a', b := AllHeld(s.threads, |s.threads|), AllHeld(s'.threads, |s.threads|), multiset(t.batch);
    TakenSplits(s.shared.queue, n);
    HeldWith(s.threads, i, t, |s.threads|);
    assert a' == a + b && |a + b| == |a| + |b|;
    var q := multiset(s'.shared.queue);
    assert q + b + a + s.finished == q + (a + b) + s.finished;
  }

  lemma TakeKeeps(s: State, i: nat, batchSize: nat)
    requires Inv(s) && i < |s.threads| && s.threads[i].Inside? && 0 <= s.shared.nIdle && 0 <= s.shared.nTotal
    requires s.shared.queue != []
    ensures Inv(Decide(s, i, batchSize))
  {
    hide CountsOk, ThreadsOk, RoundsOk, AllPass, Taken, NowFor, WorkOk;
    var s' := Decide(s, i, batchSize);
    var n := NowFor(s.shared, batchSize);
    var t := Working(Taken(s.shared.queue, n), 0, s.shared.fAllOk);
    CountsWith(s, i, t, s');
    TakenWork(s, i, n, t, s');
    ThreadsWith(s.threads, s.added, i, t);
  }

  lemma {:induction false} NotifiedSums(ts: seq<Thread>, w: set<nat>, n: nat)
    requires n <= |ts|
    ensures forall m {:trigger Notified(ts, w, m)} :: n <= m <= |ts| ==>
      Sum(Notified(ts, w, m), Counted, n) == Sum(ts, Counted, n) &&
      Sum(Notified(ts, w, m), IdleThread, n) == Sum(ts, IdleThread, n) &&
      AllHeld(Notified(ts, w, m), n) == AllHeld(ts, n)
    decreases n
  {
    if n > 0 { NotifiedSums(ts, w, n - 1); }
  }

  lemma MoreAdded(a: seq<Check>, b: seq<Check>)
    ensures multiset(a + b) == multiset(a) + multiset(b) && (!AllPass(a) ==> !AllPass(a + b))
  {
    if !AllPass(a) {
      var k :| 0 <= k < |a| && !a[k].passes;
      assert (a + b)[k] == a[k];
    }
  }

  lemma MoreThreads(ts: seq<Thread>, w: set<nat>, added: seq<Check>, cs: seq<Check>)
    requires ThreadsOk(ts, added)
    ensures ThreadsOk(Notified(ts, w, |ts|), added + cs)
  {
    hide AllPass;
    MoreAdded(added, cs);
    var r := Notified(ts, w, |ts|);
    forall i | 0 <= i < |r| ensures ThreadOk(r[i], added + cs) { assert ThreadOk(ts[i], added); }
  }

  lemma AddKeeps(s: State, cs: seq<Check>, w: set<nat>)
    requires Inv(s) && s.threads[0].Outside?
    ensures Inv(Add(s, cs, w))
  {
    hide ThreadsOk, RoundsOk, AllPass, Notified;
    NotifiedSums(s.threads, w, |s.threads|);
    MoreAdded(s.added, cs);
    MoreAdded(s.shared.queue, cs);
    MoreThreads(s.threads, w, s.added, cs);
  }
}
