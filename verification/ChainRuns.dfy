/** Whole runs of the block index: any operations in any order, with CheckBlockIndex afterwards (src/main.cpp). */
module ChainRuns {
  import opened Wrappers
  import opened BlockTree
  import opened ChainModel
  import opened ChainSteps
  import opened FirstSeen
  import opened SearchCourse
  import opened SearchSteps
  import opened TipWalk
  import opened ChainState
  import opened CheckBlockIndex

  /**
   A header, a block's data, a block whose data proves invalid, the search for the best chain, a
   single round of it, after which other operations may come, and an invalidation.
   */
  datatype Op =
    | Header(b: BlockId, prev: BlockId, proof: nat)
    | Data(b: BlockId, nTx: nat)
    | BadData(b: BlockId)
    | Activate
    | Round
    | Invalidate(b: BlockId)

  /** AcceptBlock's own conditions: the entry is there and without data, and neither it nor its parent is flagged. */
  predicate TakesData(t: Tree, st: Statuses, b: BlockId) {
    && b in t && b in st && !st[b].haveData && !st[b].Failed()
    && (t[b].prev.Some? ==> t[b].prev.value in st && !st[t[b].prev.value].Failed())
  }

  /** An invalidation of x that could not take x off the active chain. */
  ghost predicate HalfInvalidated<C(!new)>(c: Chainstate<C>, x: BlockId)
    reads c, c.chain
  {
    c.Repr() && Unwinding(c.S(), x) && IsAncestor(c.tree, x, c.S().tip) && c.disconnect(c.coins, c.S().tip) == None
  }

  /**
   A search started after that.  Whatever block it aims at, either the way there leads on from the
   tip, and so from x, with nothing to disconnect; or the first step fails at once and changes
   nothing.  x stays on the active chain.
   */
  lemma NoWayOut<C(!new)>(c: Chainstate<C>, x: BlockId, m: BlockId, fork: BlockId)
    requires HalfInvalidated(c, x) && m in c.tree && LastShared(c.tree, fork, m, c.S().tip)
    ensures if IsAncestor(c.tree, c.S().tip, m) then fork == c.S().tip && IsAncestor(c.tree, x, m)
      else !Undoable(c.tree, c.disconnect, c.coins, c.S().tip, c.tree[fork].height)
           && Walk(c.tree, c.disconnect, c.coins, c.S().tip, c.tree[fork].height) == (c.coins, c.S().tip)
  {
    hide Core, Connected, Floor, c.Moved;
    var s := c.S();
    if IsAncestor(s.tree, s.tip, m) {
      AncestorTransitive(s.tree, x, s.tip, m);
      OnTheWay(s.tree, m, s.tip);
      ForkIsUnique(s.tree, fork, s.tip, m, s.tip);
    } else {
      c.StuckStep(s, c.coins, m, fork);
    }
  }

  /** Whatever the coins are, every block can be disconnected from them. */
  ghost predicate NeverUnclean<C(!new)>(c: Chainstate<C>) {
    forall coins: C, b: BlockId :: c.disconnect(coins, b).Some?
  }

  /** One operation.  What the node would turn down changes nothing. */
  method Apply<C(!new)>(c: Chainstate<C>, op: Op) returns (ok: bool)
    requires c.Valid()
    modifies c, c.chain
    ensures if op.Invalidate? && !ok then HalfInvalidated(c, op.b) else c.Valid()
    ensures NeverUnclean(c) ==> ok
    ensures ok && old(c.Settled()) && !op.Round? ==> c.Settled()
    ensures op.Activate? ==> c.tree == old(c.tree) && (!ok <==> c.Stuck())
    ensures op.Activate? ==> (ok <==> old(Succeeds(c.S(), c.coins, c.connect, c.disconnect)))
    ensures op.Activate? && ok ==> IsBest(c.S(), c.S().tip) && Leads(c.S(), c.S().tip)
    ensures op.Activate? && ok ==>
      c.Settled() && NoWorse(old(c.S()), c.S().tip, old(c.S().tip))
    ensures op.Invalidate? && ok && op.b in c.tree && op.b != c.genesis ==>
      c.Settled() && !IsAncestor(c.tree, op.b, c.S().tip)
  {
    hide Core, Connected, CandidatesOk, Unwinding, OffTarget, IsBest, IdsOk, Succeeds, Leads, c.Moved;
    ok := true;
    match op
    case Header(b, prev, proof) =>
      if prev in c.tree && proof > 0 {
        c.AddToBlockIndex(b, prev, proof);
      }
    case Data(b, nTx) =>
      if TakesData(c.tree, c.status, b) && nTx > 0 {
        ghost var linked := c.ReceivedBlockTransactions(b, nTx);
      }
    case BadData(b) =>
      if b in c.tree && b in c.status && !c.status[b].haveData {
        c.RejectBlock(b);
      }
    case Activate =>
      ok := c.ActivateBestChain();
    case Round =>
      ghost var before := c.status;
      var done: bool;
      done, ok := c.SearchRound();
      IdsKept(before, c.status, c.nextSequenceId);
    case Invalidate(b) =>
      if b in c.tree && b != c.genesis {
        ok := c.InvalidateBlock(b);
      }
  }

  /** After these answers no search is left half done: the last search succeeded, and no invalidation failed since. */
  predicate SettledAfter(ops: seq<Op>, oks: seq<bool>, n: nat)
    requires n <= |oks| <= |ops|
    decreases n
  {
    n == 0 ||
    match ops[n - 1]
    case Activate => oks[n - 1]
    case Round => false
    case _ => oks[n - 1] && SettledAfter(ops, oks, n - 1)
  }

  /** Later answers do not matter. */
  lemma {:induction false} SamePrefix(ops: seq<Op>, oks: seq<bool>, ok: bool, n: nat)
    requires n <= |oks| < |ops|
    ensures SettledAfter(ops, oks + [ok], n) == SettledAfter(ops, oks, n)
    decreases n
  {
    if n > 0 { SamePrefix(ops, oks, ok, n - 1); }
  }

  /** Only a failed invalidation ends a run early, and only as its last operation. */
  predicate RunThrough(ops: seq<Op>, oks: seq<bool>)
    requires |oks| <= |ops|
  {
    && (forall i :: 0 <= i < |oks| - 1 ==> ops[i].Invalidate? ==> oks[i])
    && (|oks| < |ops| ==> oks != [] && ops[|oks| - 1].Invalidate? && !oks[|oks| - 1])
  }

  /**
   Any sequence of operations, starting from any good state.  CheckBlockIndex passes on every block
   if and only if no candidate is missing, and always when the last search was not cut short.  A
   search that succeeds ends on the best block; one that fails ends stuck, and the run can go on; an
   invalidation that fails ends the run.
   */
  method Run<C(!new)>(c: Chainstate<C>, ops: seq<Op>) returns (oks: seq<bool>)
    requires c.Valid()
    modifies c, c.chain
    ensures |oks| <= |ops| && RunThrough(ops, oks)
    ensures NeverUnclean(c) ==> |oks| == |ops| && forall i :: 0 <= i < |oks| ==> oks[i]
    ensures if oks != [] && ops[|oks| - 1].Invalidate? && !oks[|oks| - 1]
      then HalfInvalidated(c, ops[|oks| - 1].b) else c.Valid()
    ensures (forall b :: b in c.tree ==> Passes(c.S(), b)) <==> CandidatesOk(c.S(), c.S().tip)
    ensures old(c.Settled()) && SettledAfter(ops, oks, |oks|) ==>
      c.Settled() && forall b :: b in c.tree ==> Passes(c.S(), b)
    ensures oks != [] && ops[|oks| - 1].Activate? ==>
      if oks[|oks| - 1] then IsBest(c.S(), c.S().tip) && Leads(c.S(), c.S().tip) else c.Stuck()
  {
    hide Core, Connected, CandidatesOk, Passes, IsBest, Unwinding, OffTarget, IdsOk, Floor, Succeeds, c.Moved;
    hide NeverUnclean, Leads, Rooted, SkipsBuilt;
    oks := [];
    while |oks| < |ops|
      invariant |oks| <= |ops| && c.Valid()
      invariant NeverUnclean(c) ==> forall i :: 0 <= i < |oks| ==> oks[i]
      invariant forall i :: 0 <= i < |oks| ==> ops[i].Invalidate? ==> oks[i]
      invariant old(c.Settled()) && SettledAfter(ops, oks, |oks|) ==> c.Settled()
      invariant oks != [] && ops[|oks| - 1].Activate? ==>
        if oks[|oks| - 1] then IsBest(c.S(), c.S().tip) && Leads(c.S(), c.S().tip) else c.Stuck()
    {
      var op := ops[|oks|];
      ghost var before := oks;
      var ok := Apply(c, op);
      oks := oks + [ok];
      SamePrefix(ops, before, ok, |before|);
      if op.Invalidate? && !ok {
        HalfHasFloor(c.S(), op.b);
        AllPassIffComplete(c.S());
        return;
      }
    }
    SearchingHasFloor(c.S(), c.base);
    AllPassIffComplete(c.S());
  }

  lemma HalfHasFloor(s: State, x: BlockId)
    requires Unwinding(s, x)
    ensures Shaped(s) && Core(s, []) && Floor(s)
  {
  }

  /** A run from the genesis block. */
  method RunFromGenesis<C(!new)>(genesis: BlockId, work: nat, nTx: nat, good: BlockId -> bool,
                           coins: C, connect: (C, BlockId) -> C, disconnect: (C, BlockId) -> Option<C>, ops: seq<Op>)
    returns (c: Chainstate<C>, oks: seq<bool>)
    requires nTx > 0 && good(genesis)
    ensures |oks| <= |ops| && RunThrough(ops, oks) && c.Repr() && Shaped(c.S())
    ensures c.genesis == genesis && c.good == good && c.start == coins
    ensures c.connect == connect && c.disconnect == disconnect
    ensures (forall b :: b in c.tree ==> Passes(c.S(), b)) <==> CandidatesOk(c.S(), c.S().tip)
    ensures SettledAfter(ops, oks, |oks|) ==> c.Settled() && forall b :: b in c.tree ==> Passes(c.S(), b)
    ensures oks != [] && ops[|oks| - 1].Activate? && oks[|oks| - 1] ==>
      IsBest(c.S(), c.S().tip) && Leads(c.S(), c.S().tip)
  {
    hide Core, Connected, CandidatesOk, Passes, IsBest, IdsOk, Leads;
    c := new Chainstate(genesis, work, nTx, good, coins, connect, disconnect);
    oks := Run(c, ops);
  }

  // ----- The first seen stays -----

  predicate Arrival(op: Op) {
    op.Header? || op.Data? || op.BadData?
  }

  /** A header, or the data of a block; what the node would turn down changes nothing. */
  method Arrive<C(!new)>(c: Chainstate<C>, op: Op)
    requires c.Valid() && Arrival(op)
    modifies c, c.chain
    ensures c.Valid() && Arrived(old(c.S()), old(c.nextSequenceId), c.S())
  {
    hide Core, Connected, CandidatesOk, IdsOk, IdsGiven, Invalid, c.Moved, Arrived;
    ghost var s, next := c.S(), c.nextSequenceId;
    ArrivedNone(s, c.base, next);
    match op
    case Header(b, prev, proof) =>
      if prev in c.tree && proof > 0 {
        c.AddToBlockIndex(b, prev, proof);
        ArrivedHeader(s, next, c.S(), c.base, b);
      }
    case Data(b, nTx) =>
      if TakesData(c.tree, c.status, b) && nTx > 0 {
        ghost var linked := c.ReceivedBlockTransactions(b, nTx);
        ArrivedData(s, next, c.S(), c.base, linked);
      }
    case BadData(b) =>
      if b in c.tree && b in c.status && !c.status[b].haveData {
        c.RejectBlock(b);
        ArrivedBad(s, next, c.S(), c.base, b);
      }
  }

  lemma TipNotInvalid(s: State, base: BlockId)
    requires Searching(s, base)
    ensures !Invalid(s, s.tip)
  {
    ConnectedNotInvalid(s, s.tip);
  }

  lemma ArrivedNone(s: State, base: BlockId, next: nat)
    requires Searching(s, base)
    ensures Arrived(s, next, s)
  {
    TipNotInvalid(s, base);
  }

  lemma ArrivedHeader(s: State, next: nat, s': State, base: BlockId, n: BlockId)
    requires Shaped(s) && Searching(s', base) && s'.tip == s.tip
    requires n in s.tree ==> s' == s
    requires n !in s.tree ==>
      n in s'.tree && s'.tree == s.tree[n := s'.tree[n]] && s'.status == s.status[n := FreshStatus()]
    ensures Arrived(s, next, s')
  {
    TipNotInvalid(s', base);
  }

  lemma ArrivedData(s: State, next: nat, s': State, base: BlockId, linked: seq<BlockId>)
    requires Shaped(s) && Searching(s', base) && s'.tree == s.tree && s'.tip == s.tip
    requires IdsGiven(s.status, s'.status, next, linked)
    requires forall a :: a in s.tree && s.status[a].failedValid ==> s'.status[a].failedValid
    ensures Arrived(s, next, s')
  {
    hide Invalid, Core, Connected, CandidatesOk;
    TipNotInvalid(s', base);
    forall a | NewlyLinked(s, s', a) ensures s'.status[a].sequenceId >= next {
      assert a in linked;
    }
  }

  lemma ArrivedBad(s: State, next: nat, s': State, base: BlockId, b: BlockId)
    requires Shaped(s) && b in s.tree && Searching(s', base) && s' == MarkedInvalid(s, b)
    ensures Arrived(s, next, s')
  {
    TipNotInvalid(s', base);
  }

  /**
   The first seen stays.  After a successful search headers come, and blocks with or without valid
   data.  If none of the blocks that got linked has more work than the tip, the next search succeeds
   and leaves the tip where it was, whatever can be disconnected.
   */
  method FirstSeenStays<C(!new)>(c: Chainstate<C>, ops: seq<Op>) returns (ok: bool)
    requires c.Valid() && Leads(c.S(), c.S().tip)
    requires forall i :: 0 <= i < |ops| ==> Arrival(ops[i])
    modifies c, c.chain
    ensures c.Valid() && (NoneHeavier(old(c.S()), c.S()) ==> ok && c.S().tip == old(c.S().tip))
  {
    hide Core, Connected, CandidatesOk, IdsOk, Leads, NoneHeavier, Arrived, c.Moved;
    ghost var s := c.S();
    var i := 0;
    while i < |ops|
      invariant 0 <= i <= |ops| && c.Valid() && LinksKept(s, c.S())
      invariant NoneHeavier(s, c.S()) ==> Leads(c.S(), s.tip)
    {
      ghost var s1, next := c.S(), c.nextSequenceId;
      Arrive(c, ops[i]);
      ArrivedOn(s, s1, next, c.S());
      i := i + 1;
    }
    ghost var s1 := c.S();
    if NoneHeavier(s, s1) { LeaderStays(s1, c.base, c.nextSequenceId, c.coins, c.connect, c.disconnect); }
    ok := c.ActivateBestChain();
    if NoneHeavier(s, c.S()) {
      SearchedSame(s, s1, c.S());
      BestIsUnique(s1, s1.tip, c.S().tip);
    }
  }
}
