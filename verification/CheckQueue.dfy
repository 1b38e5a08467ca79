/** CCheckQueue: what Loop, Add, Wait and IsIdle do between taking the mutex and letting it go (src/checkqueue.h). */
module CheckQueue {
  import opened CheckQueueModel
  import opened CheckQueueRuns

  class CCheckQueue {
    var queue: seq<Check>
    var nIdle: int
    var nTotal: int
    var fAllOk: bool
    var nTodo: int
    const nBatchSize: nat

    function S(): Shared
      reads this
    {
      Shared(queue, nIdle, nTotal, fAllOk, nTodo)
    }

    constructor (nBatchSizeIn: nat)
      ensures S() == Start(0).shared && Idle(S()) && nBatchSize == nBatchSizeIn
    {
      queue, nIdle, nTotal, fAllOk, nTodo := [], 0, 0, true, 0;
      nBatchSize := nBatchSizeIn;
    }

    /**
     The start of a critical section of Loop: nNow is 0 in the first iteration.  notify says that
     condMaster is notified.
     */
    method Begin(fMaster: bool, nNow: nat, fOk: bool) returns (notify: bool)
      modifies this
      ensures S() == if nNow == 0 then Entered(old(S())) else CleanedUp(old(S()), nNow, fOk)
      ensures notify <==> nNow != 0 && nTodo == 0 && !fMaster
    {
      notify := false;
      if nNow != 0 {
        fAllOk := fAllOk && fOk;
        nTodo := nTodo - nNow;
        if nTodo == 0 && !fMaster {
          notify := true;
        }
      } else {
        nTotal := nTotal + 1;
      }
    }

    /** After cond.wait. */
    method Resume()
      modifies this
      ensures S() == Woken(old(S()))
    {
      nIdle := nIdle - 1;
    }

    /** From the test of the inner loop to the next wait, the return or the batch to execute. */
    method Proceed(fMaster: bool) returns (o: Outcome)
      requires 0 <= nIdle && 0 <= nTotal
      modifies this
      ensures (S(), o) == Decided(old(S()), fMaster, nBatchSize)
    {
      if queue == [] {
        if fMaster && nTodo == 0 {
          nTotal := nTotal - 1;
          var fRet := fAllOk;
          if fMaster {
            fAllOk := true;
          }
          return Return(fRet);
        }
        nIdle := nIdle + 1;
        return Sleep;
      }
      var share := |queue| / (nTotal + nIdle + 1);
      var nNow := if nBatchSize < share then nBatchSize else share;
      nNow := if nNow < 1 then 1 else nNow;
      assert nNow == NowFor(S(), nBatchSize);
      ghost var q := queue;
      var vChecks: seq<Check> := [];
      var i := 0;
      while i < nNow
        invariant 0 <= i <= nNow <= |q|
        invariant queue == q[..|q| - i] && vChecks == Taken(q, i)
        invariant Shared(q, nIdle, nTotal, fAllOk, nTodo) == old(S())
      {
        vChecks := vChecks + [queue[|queue| - 1]];
        queue := queue[..|queue| - 1];
        i := i + 1;
      }
      o := Take(vChecks, fAllOk);
    }

    /** Add; the number of checks decides between notify_one and notify_all. */
    method Add(vChecks: seq<Check>) returns (one: bool, all: bool)
      modifies this
      ensures S() == Pushed(old(S()), vChecks)
      ensures one == (|vChecks| == 1) && all == (|vChecks| > 1)
    {
      ghost var q := queue;
      for i := 0 to |vChecks|
        invariant queue == q + vChecks[..i]
        invariant Shared(q, nIdle, nTotal, fAllOk, nTodo) == old(S())
      {
        queue := queue + [vChecks[i]];
      }
      assert vChecks[..|vChecks|] == vChecks;
      nTodo := nTodo + |vChecks|;
      one, all := |vChecks| == 1, |vChecks| > 1;
    }

    method IsIdle() returns (idle: bool)
      ensures idle == Idle(S())
    {
      idle := nTotal == nIdle && nTodo == 0 && fAllOk;
    }
  }

  /** What is left of a batch when its first k checks were passed. */
  function ExecutedUpTo(t: Thread, k: nat): (r: Thread)
    requires t.Working? && t.done == 0 && k <= |t.batch|
    ensures r.Working? && r == t.(done := k, ok := r.ok)
    decreases k
  {
    if k == 0 then t else Executed(ExecutedUpTo(t, k - 1))
  }

  /** The loop without the lock: as many Executes events of the thread as the batch has checks. */
  method Execute(vChecks: seq<Check>, fOkIn: bool) returns (fOk: bool)
    ensures Working(vChecks, |vChecks|, fOk) == ExecutedUpTo(Working(vChecks, 0, fOkIn), |vChecks|)
    ensures fOk <==> fOkIn && AllPass(vChecks)
  {
    fOk := fOkIn;
    for i := 0 to |vChecks|
      invariant Working(vChecks, i, fOk) == ExecutedUpTo(Working(vChecks, 0, fOkIn), i)
      invariant fOk <==> fOkIn && forall k :: 0 <= k < i ==> vChecks[k].passes
    {
      if fOk {
        fOk := vChecks[i].passes;
      }
    }
  }

  // ----- The object in a run -----

  lemma EnterBounds(s: State, i: nat)
    requires Inv(s) && Unlocked(s) && i < |s.threads| && s.threads[i].Outside?
    ensures 0 <= Enter(s, i).shared.nIdle && 0 <= Enter(s, i).shared.nTotal
  {
    EnterKeeps(s, i);
    CountsBounds(Enter(s, i));
  }

  lemma ReportBounds(s: State, i: nat)
    requires Inv(s) && Unlocked(s) && i < |s.threads|
    requires s.threads[i].Working? && s.threads[i].done == |s.threads[i].batch|
    ensures 0 <= Report(s, i).shared.nIdle && 0 <= Report(s, i).shared.nTotal && |s.threads[i].batch| > 0
  {
    assert ThreadOk(s.threads[i], s.added);
    ReportKeeps(s, i);
    CountsBounds(Report(s, i));
  }

  lemma WakeBounds(s: State, i: nat)
    requires Inv(s) && Unlocked(s) && i < |s.threads| && s.threads[i].Asleep?
    ensures 0 <= Wake(s, i).shared.nIdle && 0 <= Wake(s, i).shared.nTotal
  {
    WakeKeeps(s, i);
    CountsBounds(Wake(s, i));
  }

  /** Where the outcome of a critical section leaves its thread. */
  function Went(s: State, i: nat, o: Outcome): State
    requires i < |s.threads|
  {
    match o
    case Return(ret) =>
      With(s, i, Outside).(added := [], finished := multiset{}, rounds := s.rounds + [Round(s.added, ret)])
    case Sleep => With(s, i, Asleep(false))
    case Take(batch, ok) => With(s, i, Working(batch, 0, ok))
  }

  function Told(s: State, notify: bool): State
    requires |s.threads| > 0
  {
    if notify then NotifyMaster(s) else s
  }

  lemma DecideWent(s: State, s1: State, i: nat, batchSize: nat)
    requires i < |s.threads| && s1 == With(s, i, Inside).(shared := s1.shared)
    requires 0 <= s1.shared.nIdle && 0 <= s1.shared.nTotal
    ensures var (sh, o) := Decided(s1.shared, i == 0, batchSize);
      Locked(s1, i, batchSize) == Went(s, i, o).(shared := sh)
  {
    hide Decided;
    var (sh, o) := Decided(s1.shared, i == 0, batchSize);
    match o
    case Return(ret) =>
      assert s1.threads[i := Outside] == s.threads[i := Outside];
    case Sleep =>
      assert s1.threads[i := Asleep(false)] == s.threads[i := Asleep(false)];
    case Take(batch, ok) =>
      assert s1.threads[i := Working(batch, 0, ok)] == s.threads[i := Working(batch, 0, ok)];
  }

  lemma ReportTold(s: State, i: nat)
    requires i < |s.threads| && s.threads[i].Working?
    ensures var t := s.threads[i]; var sh := CleanedUp(s.shared, |t.batch|, t.ok);
      Report(s, i) ==
        With(Told(s.(finished := s.finished + multiset(t.batch)), sh.nTodo == 0 && i != 0), i, Inside).(shared := sh)
  {
    if i != 0 && s.threads[0].Asleep? {
      assert s.threads[i := Inside][0 := Asleep(true)] == s.threads[0 := Asleep(true)][i := Inside];
    }
  }

  /**
   One event of a run, carried out by the code of the critical sections.  The state after it has the
   object's fields, the master notified if the code says so, and the thread where its outcome leaves it.
   */
  method Perform(q: CCheckQueue, s: State, e: Event) returns (notify: bool, o: Outcome)
    requires Inv(s) && Unlocked(s) && q.S() == s.shared && Enabled(s, e)
    modifies q
    ensures q.S() == Next(s, e, q.nBatchSize).shared
    ensures e.Arrives? || e.Wakes? ==> !notify && Next(s, e, q.nBatchSize) == Went(s, e.i, o).(shared := q.S())
    ensures e.Reports? ==>
      var reported := s.(finished := s.finished + multiset(s.threads[e.i].batch));
      Next(s, e, q.nBatchSize) == Went(Told(reported, notify), e.i, o).(shared := q.S())
  {
    hide Inv, Unlocked, Decided, Went, Told, Report, NotifyMaster;
    notify, o := false, Sleep;
    match e
    case Arrives(i) =>
      EnterBounds(s, i);
      DecideWent(s, Enter(s, i), i, q.nBatchSize);
      notify := q.Begin(i == 0, 0, true);
      o := q.Proceed(i == 0);
    case Reports(i) =>
      ReportBounds(s, i);
      ReportTold(s, i);
      ghost var t := s.threads[i];
      ghost var last := CleanedUp(s.shared, |t.batch|, t.ok).nTodo == 0 && i != 0;
      TellKeeps(s.(finished := s.finished + multiset(t.batch)), last);
      DecideWent(Told(s.(finished := s.finished + multiset(t.batch)), last), Report(s, i), i, q.nBatchSize);
      notify := q.Begin(i == 0, |s.threads[i].batch|, s.threads[i].ok);
      o := q.Proceed(i == 0);
    case Wakes(i) =>
      WakeBounds(s, i);
      DecideWent(s, Wake(s, i), i, q.nBatchSize);
      q.Resume();
      o := q.Proceed(i == 0);
    case Executes(i) =>
    case Adds(cs, w) =>
      var _, _ := q.Add(cs);
  }

  lemma TellKeeps(s: State, notify: bool)
    requires |s.threads| > 0
    ensures |Told(s, notify).threads| == |s.threads|
  {
  }

  /** The constructor of CCheckQueueControl: its assertion holds between two rounds. */
  method Control(q: CCheckQueue, ghost s: State) returns (isIdle: bool)
    requires Inv(s) && Unlocked(s) && s.threads[0].Outside? && s.added == [] && q.S() == s.shared
    ensures isIdle
  {
    ControlFindsIdle(s);
    isIdle := q.IsIdle();
  }

  /**
   Any run on the object: its fields are those of the transition system all along, and whenever a
   control object is made between two rounds it finds the queue idle.
   */
  method RunOn(workers: nat, es: seq<Event>, batchSize: nat) returns (q: CCheckQueue)
    ensures q.nBatchSize == batchSize && q.S() == After(Start(workers), es, |es|, batchSize).shared
  {
    hide Inv, Unlocked, Next, Enabled, Idle;
    q := new CCheckQueue(batchSize);
    StartOk(workers);
    var s := Start(workers);
    for i := 0 to |es|
      invariant s == After(Start(workers), es, i, batchSize) && Inv(s) && Unlocked(s) && |s.threads| == workers + 1
      invariant fresh(q) && q.nBatchSize == batchSize && q.S() == s.shared
    {
      if s.threads[0].Outside? && s.added == [] {
        var isIdle := Control(q, s);
        assert isIdle;
      }
      NextKeeps(s, es[i], batchSize);
      if Enabled(s, es[i]) {
        var _, _ := Perform(q, s, es[i]);
      } else {
        NotEnabled(s, es[i], batchSize);
      }
      s := Next(s, es[i], batchSize);
    }
  }

  lemma NotEnabled(s: State, e: Event, batchSize: nat)
    requires !Enabled(s, e)
    ensures Next(s, e, batchSize) == s
  {
  }
}
