/**
 The block index and the active chain, updated in place (src/main.cpp).

 `good` is ConnectBlock's verdict on a block; a rejection is a consensus violation and never
 "possibly corrupted".  The coins are any value that `connect` and `disconnect` work on; `disconnect`
 is None when DisconnectBlock is not clean, and DisconnectTip fails then.  Every operation is proved
 against the value model in ChainModel.
 */
module ChainState {
  import opened Wrappers
  import opened BlockTree
  import opened ActiveChain
  import opened ChainModel
  import opened ChainSteps
  import opened FirstSeen
  import opened SearchCourse
  import opened SearchSteps
  import opened TipWalk

  class Chainstate<C(!new)> {
    var tree: Tree
    var status: Statuses
    var candidates: set<BlockId>
    var unlinked: map<BlockId, seq<BlockId>>
    var nextSequenceId: nat
    const chain: CChain
    const genesis: BlockId
    const good: BlockId -> bool
    var coins: C
    const connect: (C, BlockId) -> C
    const disconnect: (C, BlockId) -> Option<C>
    /** The best tip since the last search that was not cut short; the tip itself after a complete one. */
    ghost var base: BlockId
    /** The coins at the start, and the moves of the tip since. */
    ghost const start: C
    ghost var trail: seq<Move>

    /** The active chain is the path of its tip, and the coins are what the moves of the tip made of them. */
    ghost predicate Repr()
      reads this, chain
    {
      && Rooted(tree) && chain.Tip().Some? && chain.Tip().value in tree
      && PathOf(tree, chain.vChain, chain.Tip().value)
      && Moved(chain.Tip().value)
    }

    ghost predicate Moved(tip: BlockId)
      reads this`tree, this`coins, this`trail
    {
      Replay(tree, good, connect, disconnect, (start, genesis), trail) == Some((coins, tip))
    }

    ghost function S(): State
      reads this, chain
      requires Repr()
    {
      State(tree, status, candidates, unlinked, chain.Tip().value, genesis, good)
    }

    /** What the operations require and keep. */
    ghost predicate Valid()
      reads this, chain
    {
      Hunting() && nextSequenceId > 0 && IdsOk(status, nextSequenceId)
    }

    /** The tip may be below `base`, because a search was cut short or is still going on. */
    ghost predicate Hunting()
      reads this, chain
    {
      Repr() && Searching(S(), base)
    }

    /** No search left the tip below where it was. */
    ghost predicate Settled()
      reads this, chain
    {
      Valid() && base == S().tip
    }

    /** InitBlockIndex: the genesis block is stored, linked and active. */
    constructor (genesis: BlockId, work: nat, nTx: nat, good: BlockId -> bool,
                 coins: C, connect: (C, BlockId) -> C, disconnect: (C, BlockId) -> Option<C>)
      requires nTx > 0 && good(genesis)
      ensures Settled() && fresh(chain)
      ensures this.coins == coins && this.connect == connect && this.disconnect == disconnect && start == coins
      ensures this.genesis == genesis && this.good == good && S().tip == genesis && tree.Keys == {genesis}
      ensures status == map[genesis := Status(3, true, false, false, nTx, nTx, 1)] && nextSequenceId == 2
    {
      this.genesis := genesis;
      this.good := good;
      this.coins, this.connect, this.disconnect := coins, connect, disconnect;
      start, trail := coins, [];
      base := genesis;
      tree := map[genesis := Node(None, 0, None, work)];
      status := map[genesis := Status(VALID_TRANSACTIONS, true, false, false, nTx, nTx, 1)];
      candidates := {genesis};
      unlinked := map[];
      nextSequenceId := 2;
      var c := new CChain();
      chain := c;
      new;
      assert RootedAt(tree, genesis) && SkipBuiltAt(tree, genesis);
      chain.SetTip(tree, Some(genesis));
      assert Shaped(S());
      assert BlockOk(S(), [], genesis);
      assert Connected(S(), genesis) && CandidateAt(S(), genesis, genesis);
      assert IdAt(status, nextSequenceId, genesis);
    }

    /** AddToBlockIndex: a header joins the tree under its parent. */
    method AddToBlockIndex(b: BlockId, prev: BlockId, proof: nat)
      requires Valid() && prev in tree && proof > 0
      modifies this`tree, this`status
      ensures Valid() && chain.vChain == old(chain.vChain)
      ensures b in old(tree) ==> S() == old(S())
      ensures b !in old(tree) ==>
        var node := Node(Some(prev), old(tree)[prev].height + 1,
                         Some(AncestorAt(old(tree), prev, GetSkipHeight(old(tree)[prev].height + 1))),
                         old(tree)[prev].work + proof);
        S() == WithEntry(old(S()), b, node)
    {
      hide Core, Connected, CandidatesOk, Replay, PathOf, SkipsBuilt, IdsOk, Rooted;
      if b in tree {
        return;
      }
      var skip := BuildSkip(tree, prev);
      var node := Node(Some(prev), tree[prev].height + 1, skip, tree[prev].work + proof);
      EntryKeepsSearching(S(), base, b, node);
      ghost var tip := chain.Tip().value;
      ghost var s' := WithEntry(S(), b, node);
      PathAfterInsert(tree, b, node, chain.vChain, tip);
      ReplayInTree(tree, b, node, good, connect, disconnect, (start, genesis), trail);
      IdsExtended(status, b, FreshStatus(), nextSequenceId);
      tree := tree[b := node];
      status := status[b := Status(0, false, false, false, 0, 0, 0).RaiseValidity(VALID_TREE)];
      assert S() == s';
    }

    /** AcceptBlock, when CheckBlock or ContextualCheckBlock finds the block itself invalid. */
    method RejectBlock(b: BlockId)
      requires Valid() && b in tree && !status[b].haveData
      modifies this`status, this`candidates
      ensures Valid() && S() == MarkedInvalid(old(S()), b)
    {
      ghost var s := S();
      assert BlockOk(s, [], b) && CandidateAt(s, base, b);
      UnlinkedIsOutside(s, b, s.tip);
      UnlinkedIsOutside(s, b, base);
      MarkInvalidKeeps(s, base, b);
      status := status[b := status[b].(failedValid := true)];
      assert S() == MarkedInvalid(s, b);
      IdsKept(s.status, status, nextSequenceId);
    }

    /** The children filed under p leave mapBlocksUnlinked for the work queue, in insertion order. */
    method TakeChildren(p: BlockId) returns (kids: seq<BlockId>)
      modifies this`unlinked
      ensures kids == Children(old(unlinked), p) && unlinked == old(unlinked) - {p}
    {
      kids := [];
      while p in unlinked
        invariant kids + Children(unlinked, p) == Children(old(unlinked), p)
        invariant unlinked - {p} == old(unlinked) - {p}
        decreases if p in unlinked then |unlinked[p]| + 1 else 0
      {
        if unlinked[p] == [] {
          unlinked := unlinked - {p};
        } else {
          kids := kids + [unlinked[p][0]];
          unlinked := unlinked[p := unlinked[p][1..]];
        }
      }
    }

    /** One round of the queue: link p, offer it as a candidate, fetch the children that waited for it. */
    method LinkBlock(p: BlockId) returns (kids: seq<BlockId>)
      requires Repr() && Shaped(S()) && p in tree
      modifies this`status, this`candidates, this`unlinked, this`nextSequenceId
      ensures Repr() && S() == WithLink(old(S()), p, old(nextSequenceId)) && kids == Children(old(unlinked), p)
      ensures nextSequenceId == old(nextSequenceId) + 1
    {
      assert RootedAt(tree, p);
      var parentTx := if tree[p].prev.Some? then status[tree[p].prev.value].chainTx else 0;
      status := status[p := status[p].(chainTx := parentTx + status[p].nTx, sequenceId := nextSequenceId)];
      nextSequenceId := nextSequenceId + 1;
      var tip := chain.Tip().value;
      if !Worse(tree, status, p, tip) {
        candidates := candidates + {p};
      }
      kids := TakeChildren(p);
    }

    ghost function UnlinkedBlocks(): set<BlockId>
      reads this
    {
      set b | b in tree && b in status && status[b].chainTx == 0
    }

    /**
     ReceivedBlockTransactions: a block's data arrives, and every descendant that only waited for
     it is linked with it, breadth first.  `linked` has the blocks linked, in that order.  AcceptBlock
     calls it only for an unflagged block that has no data yet.
     */
    method ReceivedBlockTransactions(b: BlockId, nTx: nat) returns (ghost linked: seq<BlockId>)
      requires Valid() && b in tree && !status[b].haveData && !status[b].Failed() && nTx > 0
      requires tree[b].prev.Some? ==> tree[b].prev.value in status && !status[tree[b].prev.value].Failed()
      modifies this`status, this`candidates, this`unlinked, this`nextSequenceId
      ensures Valid() && status[b].haveData && status[b].nTx == nTx
      ensures forall a :: a in tree && a != b ==>
        status[a] == old(status)[a].(chainTx := status[a].chainTx, sequenceId := status[a].sequenceId)
      ensures status[b].failedValid == old(status)[b].failedValid && !status[b].failedChild
      ensures linked == [] <==> tree[b].prev.Some? && old(status)[tree[b].prev.value].chainTx == 0
      ensures linked != [] ==> linked == [b] + Fetched(old(unlinked), linked)
      ensures IdsGiven(old(status), status, old(nextSequenceId), linked)
      ensures nextSequenceId == old(nextSequenceId) + |linked|
      ensures candidates == old(candidates) +
        set a | a in linked && a in tree && tree[a].work > tree[old(S()).tip].work
      ensures linked != [] ==> unlinked == old(unlinked) - set a | a in linked
      ensures linked == [] ==>
        var p := tree[b].prev.value;
        unlinked == old(unlinked)[p := Children(old(unlinked), p) + [b]]
    {
      hide Moved, PathOf, SkipsBuilt, Core, Connected, CandidatesOk, IdsOk, IdsGiven, Fetched, Invalid;
      ghost var s := S();
      ghost var s1 := WithData(s, b, nTx);
      DataArrives(s, base, b, nTx);
      IdsExtended(status, b, WithDataStatus(status[b], nTx), nextSequenceId);
      status := status[b := WithDataStatus(status[b], nTx)];
      assert S() == s1;
      if tree[b].prev == None || status[tree[b].prev.value].chainTx > 0 {
        DataOnQueue(s, base, b, nTx);
        linked := ProcessQueue(b);
        IdsSince(s, b, nTx, status, nextSequenceId - |linked|, linked);
      } else {
        var p := tree[b].prev.value;
        DataFiled(s, base, b, nTx, p);
        if status[p].IsValid(VALID_TREE) {
          unlinked := unlinked[p := Children(unlinked, p) + [b]];
        }
        assert S() == Filed(s1, b, p);
        linked := [];
        IdsSince(s, b, nTx, status, nextSequenceId, []);
      }
    }

    /** What ReceivedBlockTransactions is called with. */
    static lemma DataArrives(s: State, base: BlockId, b: BlockId, nTx: nat)
      requires Searching(s, base) && b in s.tree && !s.status[b].haveData && !s.status[b].Failed() && nTx > 0
      ensures s.status[b].chainTx == 0 && s.status[b].sequenceId == 0 && Shaped(WithData(s, b, nTx))
      ensures s.tree[b].prev.Some? ==> s.tree[b].prev.value in s.tree && s.tree[b].prev.value != b
      ensures s.tree[b].prev.Some? && !s.status[s.tree[b].prev.value].Failed() ==>
        s.status[s.tree[b].prev.value].IsValid(VALID_TREE)
    {
      assert RootedAt(s.tree, b) && BlockOk(s, [], b);
      if s.tree[b].prev.Some? { assert BlockOk(s, [], s.tree[b].prev.value); }
    }

    /** The data alone links nothing. */
    static lemma IdsSince(s: State, b: BlockId, nTx: nat, st: Statuses, next: nat, linked: seq<BlockId>)
      requires Shaped(s) && b in s.tree && s.status[b].chainTx == 0 && s.status[b].sequenceId == 0
      requires IdsGiven(WithData(s, b, nTx).status, st, next, linked)
        || (linked == [] && st == WithData(s, b, nTx).status)
      ensures IdsGiven(s.status, st, next, linked)
    {
    }

    /** The breadth-first loop of ReceivedBlockTransactions, started with one block. */
    method ProcessQueue(b: BlockId) returns (ghost linked: seq<BlockId>)
      requires Repr() && Linking(S(), [b], base) && nextSequenceId > 0 && IdsOk(status, nextSequenceId)
      modifies this`status, this`candidates, this`unlinked, this`nextSequenceId
      ensures Valid() && nextSequenceId == old(nextSequenceId) + |linked|
      ensures LinkedSince(old(S()), S(), old(nextSequenceId), linked) && linked == [b] + Fetched(old(unlinked), linked)
      ensures forall a :: a in tree && a in old(status) ==>
        status[a] == old(status)[a].(chainTx := status[a].chainTx, sequenceId := status[a].sequenceId)
    {
      hide Linking, Rooted, SkipsBuilt, PathOf, IdsOk, Moved, LinkedSince, Fetched, WithLink;
      ghost var s0, next := S(), nextSequenceId;
      assert Shaped(s0) by { LinkingIsShaped(s0, [b], base); }
      NothingLinked(s0, next);
      linked := [];
      FetchedNone(unlinked);
      var queue := [b];
      while queue != []
        invariant Repr() && Linking(S(), queue, base) && nextSequenceId > 0 && IdsOk(status, nextSequenceId)
        invariant LinkedSince(s0, S(), next, linked) && nextSequenceId == next + |linked|
        invariant linked + queue == [b] + Fetched(s0.unlinked, linked)
        invariant forall a :: a in tree && a in old(status) && a in status ==>
          status[a] == old(status)[a].(chainTx := status[a].chainTx, sequenceId := status[a].sequenceId)
        decreases UnlinkedBlocks()
      {
        QueueStep(s0, S(), queue, base, next, linked, b);
        LinkFrame(S(), queue[0], nextSequenceId);
        ghost var before := UnlinkedBlocks();
        var p := queue[0];
        var kids := LinkBlock(p);
        linked := linked + [p];
        queue := queue[1..] + kids;
        assert p in before && p !in UnlinkedBlocks();
      }
      LinkingIsShaped(S(), [], base);
    }

    // ----- The search for the best chain -----

    /**
     The search cannot go on: the way to its target leads off the active chain, whose tip cannot be
     disconnected.
     */
    ghost predicate Stuck()
      reads this, chain
    {
      Hunting() && disconnect(coins, S().tip) == None && OffTarget(S())
    }

    /**
     The walk of FindMostWorkChain from a candidate down to the active chain: the first unusable
     block.  It is unusable because it failed, never because its data is missing.
     */
    method FirstUnusable(m: BlockId) returns (test: Option<BlockId>)
      requires Hunting() && m in candidates
      ensures test.Some? ==>
        IsAncestor(tree, test.value, m) && status[test.value].Failed() && status[test.value].haveData
      ensures test == None <==> Clear(S(), m)
    {
      ghost var s := S();
      assert CandidateAt(s, base, m);
      test := Some(m);
      while test.Some? && !chain.Contains(tree, test.value)
        invariant test.Some? ==> IsAncestor(tree, test.value, m)
        invariant forall h {:trigger AncestorAt(tree, m, h)} ::
          (if test.Some? then tree[test.value].height else -1) < h <= tree[m].height ==>
          !status[AncestorAt(tree, m, h)].Failed()
        decreases if test.Some? then tree[test.value].height + 1 else 0
      {
        var b := test.value;
        LinkedAncestor(s, [], m, tree[b].height);
        var failed := status[b].Failed();
        var missing := !status[b].haveData;
        if failed || missing {
          return;
        }
        assert RootedAt(tree, b);
        if tree[b].height > 0 { PrevOfAncestor(tree, m, tree[b].height); }
        test := tree[b].prev;
      }
      if test.Some? {
        ActiveIsClear(s, m, test.value);
      }
      test := None;
    }

    /** From a block on the active chain downwards nothing is flagged. */
    static lemma ActiveIsClear(s: State, m: BlockId, b: BlockId)
      requires Shaped(s) && Connected(s, s.tip) && m in s.tree && IsAncestor(s.tree, b, m) &&
        IsAncestor(s.tree, b, s.tip)
      ensures forall h :: 0 <= h <= s.tree[b].height ==> !s.status[AncestorAt(s.tree, m, h)].Failed()
    {
      forall h | 0 <= h <= s.tree[b].height ensures !s.status[AncestorAt(s.tree, m, h)].Failed() {
        SharedBelow(s.tree, m, s.tip, s.tree[b].height, h);
        ConnectedAncestor(s, s.tip, h);
      }
    }

    /** A descendant of a failed block is flagged and leaves the candidates. */
    method FlagChild(b: BlockId)
      requires Hunting() && b in tree && Invalid(S(), b)
      modifies this`status, this`candidates
      ensures Hunting() && Progressed(old(status), status, good)
      ensures SameKeys(old(S()), S())
      ensures candidates == old(candidates) - {b}
      ensures forall a :: a in tree ==> Invalid(S(), a) == Invalid(old(S()), a)
    {
      ghost var s := S();
      FlagChildKeeps(s, base, b);
      status := status[b := status[b].(failedChild := true)];
      candidates := candidates - {b};
      assert S() == FlaggedChild(s, b);
    }

    /** A step of the removal walk: the block above the failed one has an invalid ancestor, and a parent to go on to. */
    static lemma BelowFailed(s: State, m: BlockId, failed: BlockId, test: BlockId)
      requires Shaped(s) && m in s.tree && IsAncestor(s.tree, failed, m) && IsAncestor(s.tree, test, m)
      requires failed != test && s.tree[test].height <= s.tree[failed].height && Invalid(s, test)
      ensures Invalid(s, failed) && s.tree[test].height < s.tree[failed].height
      ensures s.tree[failed].prev.Some? && IsAncestor(s.tree, s.tree[failed].prev.value, m)
      ensures s.tree[s.tree[failed].prev.value].height == s.tree[failed].height - 1
    {
      AncestorOfAncestor(s.tree, m, s.tree[failed].height, s.tree[test].height);
      InvalidDescends(s, failed, s.tree[test].height);
      PrevOfAncestor(s.tree, m, s.tree[failed].height);
    }

    /** The removal of a failed chain: everything from m down to test leaves the candidates, flagged on the way. */
    method RemoveFailedChain(m: BlockId, test: BlockId)
      requires Hunting() && m in candidates && IsAncestor(tree, test, m) && status[test].Failed()
      modifies this`status, this`candidates
      ensures Hunting() && Progressed(old(status), status, good)
      ensures SameKeys(old(S()), S())
      ensures candidates < old(candidates)
    {
      hide Moved, PathOf, SkipsBuilt, SameKeys, Connected, CandidatesOk;
      ghost var s0 := S();
      KeysStart(s0);
      assert BlockOk(s0, [], test);
      var failed := m;
      while failed != test
        invariant Hunting() && Progressed(old(status), status, good)
        invariant SameKeys(old(S()), S())
        invariant IsAncestor(tree, failed, m) && tree[test].height <= tree[failed].height
        invariant Invalid(S(), test)
        invariant candidates <= old(candidates) && (failed != m ==> m !in candidates)
        decreases tree[failed].height
      {
        BelowFailed(S(), m, failed, test);
        ghost var s1 := S();
        FlagChild(failed);
        KeysOn(s0, s1, S());
        failed := tree[failed].prev.value;
      }
      ghost var s := S();
      EraseKeeps(s, base, test);
      candidates := candidates - {test};
      assert S() == s.(candidates := s.candidates - {test});
      KeysWithout(s, test);
      KeysOn(s0, s, S());
    }

    /**
     FindMostWorkChain: the best candidate whose path to the active chain holds no failed block.
     Nothing changes when the best candidate is that at once.
     */
    method FindMostWorkChain() returns (m: Option<BlockId>)
      requires Hunting()
      modifies this`status, this`candidates
      ensures Hunting() && Progressed(old(status), status, good)
      ensures SameKeys(old(S()), S())
      ensures m.Some? && Target(S(), m.value)
      ensures forall b :: Target(old(S()), b) ==> S() == old(S())
    {
      hide Moved, SameKeys;
      hide Core, Connected, CandidatesOk, PathOf, SkipsBuilt, Clear;
      ghost var s := S();
      KeysStart(s);
      while true
        invariant Hunting() && Progressed(old(status), status, good)
        invariant SameKeys(old(S()), S())
        invariant forall b :: Target(s, b) ==> S() == s
        decreases candidates
      {
        SomethingLeft(S(), base);
        if candidates == {} {
          return None;
        }
        ghost var last := BestExists(tree, status, candidates);
        var best :| best in candidates && forall c :: c in candidates ==> !Worse(tree, status, best, c);
        var test := FirstUnusable(best);
        if test == None {
          return Some(best);
        }
        assert forall b :: !Target(s, b) by {
          forall b | Target(s, b) ensures false { TargetIsUnique(S(), b, best); }
        }
        ghost var s1 := S();
        RemoveFailedChain(best, test.value);
        KeysOn(s, s1, S());
      }
    }

    /** PruneBlockIndexCandidates; its closing assertion holds as long as one candidate is good enough. */
    method PruneBlockIndexCandidates()
      requires Repr() && Shaped(S())
      requires exists c :: c in candidates && NoWorse(S(), c, S().tip)
      modifies this`candidates
      ensures Repr() && S() == Pruned(old(S())) && candidates != {}
    {
      ghost var s := S();
      ghost var keep :| keep in candidates && NoWorse(s, keep, s.tip);
      var tip := chain.Tip().value;
      while candidates != {}
        invariant keep in candidates
        invariant candidates <= s.candidates && Pruned(s).candidates <= candidates
        decreases candidates
      {
        ghost var lowest := WorstExists(tree, status, candidates);
        var first :| first in candidates && forall c :: c in candidates ==> !Worse(tree, status, c, first);
        if !Worse(tree, status, first, tip) {
          NoneWorse(s, candidates, first);
          break;
        }
        candidates := candidates - {first};
      }
    }

    static lemma NoneWorse(s: State, cs: set<BlockId>, first: BlockId)
      requires Shaped(s) && cs <= s.tree.Keys && first in cs && NoWorse(s, first, s.tip)
      requires forall c :: c in cs ==> NoWorse(s, c, first)
      ensures forall c :: c in cs ==> NoWorse(s, c, s.tip)
    {
      forall c | c in cs ensures NoWorse(s, c, s.tip) {
        WorseIsStrictTotalOrder(s.tree, s.status, c, first, s.tip);
      }
    }

    /** DisconnectTip: the parent becomes the tip, unless the tip cannot be disconnected cleanly. */
    method DisconnectTip() returns (ok: bool)
      requires Repr() && tree[chain.Tip().value].prev.Some?
      modifies this`coins, this`trail, chain
      ensures Repr() && ok == disconnect(old(coins), old(S().tip)).Some?
      ensures S() == if ok then Disconnected(old(S())) else old(S())
      ensures coins == if ok then disconnect(old(coins), old(S().tip)).value else old(coins)
    {
      var tip := chain.Tip().value;
      var undone := disconnect(coins, tip);
      if undone == None {
        return false;
      }
      assert RootedAt(tree, tip);
      OneMove(tree, good, connect, disconnect, (start, genesis), trail, Down);
      coins := undone.value;
      trail := trail + [Down];
      chain.SetTip(tree, tree[tip].prev);
      ok := true;
    }

    /** ConnectTip: b becomes the tip, or is marked invalid (InvalidBlockFound). */
    method ConnectTip(b: BlockId) returns (ok: bool)
      requires Repr() && Shaped(S()) && b in tree && tree[b].prev == chain.Tip()
      modifies this`status, this`candidates, this`coins, this`trail, chain
      ensures ok == good(b) && Repr()
      ensures S() == if ok then WithTip(old(S()), b) else MarkedInvalid(old(S()), b)
      ensures coins == if ok then connect(old(coins), b) else old(coins)
    {
      ok := good(b);
      if ok {
        OneMove(tree, good, connect, disconnect, (start, genesis), trail, Up(b));
        coins := connect(coins, b);
        trail := trail + [Up(b)];
        status := status[b := status[b].RaiseValidity(VALID_SCRIPTS)];
        chain.SetTip(tree, Some(b));
      } else {
        status := status[b := status[b].(failedValid := true)];
        candidates := candidates - {b};
      }
    }

    /** The first loop of ActivateBestChainStep: back to the fork with the chain to be connected. */
    method DisconnectToFork(fork: BlockId) returns (ok: bool)
      requires Hunting() && IsAncestor(tree, fork, S().tip) && NoWorse(S(), base, S().tip)
      modifies this`coins, this`trail, chain
      ensures Hunting() && S() == old(S()).(tip := S().tip)
      ensures ok <==> Undoable(tree, disconnect, old(coins), old(S().tip), tree[fork].height)
      ensures (coins, S().tip) == Walk(tree, disconnect, old(coins), old(S().tip), tree[fork].height)
      ensures ok ==> S().tip == fork
    {
      ghost var h := tree[fork].height;
      while chain.Tip().Some? && chain.Tip() != Some(fork)
        invariant Hunting() && IsAncestor(tree, fork, S().tip) && NoWorse(S(), base, S().tip)
        invariant S() == old(S()).(tip := S().tip)
        invariant Undoable(tree, disconnect, old(coins), old(S().tip), h)
          == Undoable(tree, disconnect, coins, S().tip, h)
        invariant Walk(tree, disconnect, old(coins), old(S().tip), h) == Walk(tree, disconnect, coins, S().tip, h)
        decreases tree[S().tip].height
      {
        var tip := chain.Tip().value;
        assert RootedAt(tree, tip);
        DisconnectKeeps(S(), base);
        PrevOfAncestor(tree, tip, tree[tip].height);
        AncestorOfAncestor(tree, tip, tree[tip].height - 1, tree[fork].height);
        ok := DisconnectTip();
        if !ok {
          return;
        }
      }
      ok := true;
    }

    /** The next blocks to connect: the ancestors of m from height `to` down to just above height `from`. */
    method BuildSlice(m: BlockId, from: nat, to: nat) returns (slice: seq<BlockId>)
      requires Rooted(tree) && SkipsBuilt(tree) && m in tree && from < to <= tree[m].height
      ensures |slice| == to - from
      ensures forall i :: 0 <= i < |slice| ==> slice[i] == AncestorAt(tree, m, to - i)
    {
      slice := [];
      var iter := GetAncestor(tree, m, to);
      while iter.Some? && tree[iter.value].height != from
        invariant iter.Some? && IsAncestor(tree, iter.value, m) && from <= tree[iter.value].height == to - |slice|
        invariant forall i :: 0 <= i < |slice| ==> slice[i] == AncestorAt(tree, m, to - i)
        decreases tree[iter.value].height
      {
        slice := slice + [iter.value];
        PrevOfAncestor(tree, m, tree[iter.value].height);
        iter := tree[iter.value].prev;
      }
    }

    /** One block of the slice: connected and pruned, or found invalid. */
    method ConnectOne(b: BlockId, m: BlockId) returns (ok: bool)
      requires Hunting() && Clear(S(), m) && m in candidates && IsAncestor(tree, b, m) && tree[b].prev == chain.Tip()
      requires 0 < tree[b].height
      modifies this`status, this`candidates, this`coins, this`trail, chain
      ensures Hunting() && Progressed(old(status), status, good)
      ensures candidates <= old(candidates)
      ensures ok ==> S().tip == b && Clear(S(), m) && m in candidates
      ensures !ok ==> S().tip == old(S().tip) && Unflagged(status) < Unflagged(old(status))
      ensures Climbed(old(S()), old(coins), S(), coins, connect, m, tree[b].height - 1, !ok)
    {
      hide Core, Connected, CandidatesOk, PathOf, SkipsBuilt, Moved, Climbed, Reach, CoinsUp;
      ghost var s, c := S(), coins;
      CandidateIsLinked(s, base, m);
      LinkedAncestor(s, [], m, tree[b].height);
      PrevOfAncestor(tree, m, tree[b].height);
      assert !status[AncestorAt(tree, m, tree[b].height)].Failed();
      ok := ConnectTip(b);
      if ok {
        ConnectKeeps(s, base, b);
        AncestorWork(tree, m, tree[b].height);
        assert NoWorse(S(), m, b);
        PruneBlockIndexCandidates();
        ClimbOne(s, c, S(), connect, m, tree[b].height - 1);
      } else {
        RejectedIsOutside(s, b, s.tip);
        RejectedIsOutside(s, b, base);
        MarkInvalidKeeps(s, base, b);
        assert b in Unflagged(s.status) && b !in Unflagged(status);
        ClimbFails(s, c, S(), connect, m, tree[b].height - 1);
      }
    }

    /**
     The inner loop of ActivateBestChainStep.  It stops early once the tip has more work than the
     tip the step started from, or at the first block that turns out to be invalid.
     */
    method ConnectSlice(slice: seq<BlockId>, m: BlockId, oldTip: BlockId, ghost to: nat)
      returns (fContinue: bool, fInvalid: bool)
      requires Hunting() && Clear(S(), m) && m in candidates && oldTip in tree
      requires |slice| <= to <= tree[m].height && S().tip == AncestorAt(tree, m, to - |slice|)
      requires forall i :: 0 <= i < |slice| ==> slice[i] == AncestorAt(tree, m, to - i)
      modifies this`status, this`candidates, this`coins, this`trail, chain
      ensures Hunting() && Progressed(old(status), status, good)
      ensures candidates <= old(candidates)
      ensures fInvalid ==> !fContinue && Unflagged(status) < Unflagged(old(status))
      ensures !fInvalid && !fContinue ==> tree[oldTip].work < tree[S().tip].work
      ensures fContinue ==> S().tip == AncestorAt(tree, m, to) && Clear(S(), m) && m in candidates
      ensures Climbed(old(S()), old(coins), S(), coins, connect, m, to - |slice|, fInvalid)
    {
      hide Rooted, Worse, NoWorse, Invalid, Progressed, Unflagged;
      hide Climbed, Moved;
      hide Core, Connected, CandidatesOk, PathOf, Clear, SkipsBuilt;
      ghost var s, c := S(), coins;
      ClimbedNowhere(s, c, connect, m);
      ProgressedStart(status, good);
      var i := |slice|;
      while i > 0
        invariant 0 <= i <= |slice|
        invariant Hunting() && Progressed(old(status), status, good)
        invariant Clear(S(), m) && m in candidates && candidates <= old(candidates)
        invariant S().tip == AncestorAt(tree, m, to - i)
        invariant Climbed(s, c, S(), coins, connect, m, to - |slice|, false)
      {
        i := i - 1;
        PrevOfAncestor(tree, m, to - i);
        ghost var s1, c1 := S(), coins;
        var ok := ConnectOne(slice[i], m);
        ClimbOn(s, c, s1, c1, S(), coins, connect, m, to - |slice|, !ok);
        ProgressedOn(s.status, s1.status, status, good);
        if !ok {
          return false, true;
        } else if tree[chain.Tip().value].work > tree[oldTip].work {
          return false, false;
        }
      }
      return true, false;
    }

    /** The fork with the chain to be connected: genesis is shared, so there is one. */
    method FindForkWith(m: BlockId) returns (fork: BlockId)
      requires Repr() && Shaped(S()) && Core(S(), []) && m in tree
      ensures LastShared(tree, fork, m, S().tip)
    {
      GenesisIsAncestor(S(), [], m);
      GenesisIsAncestor(S(), [], S().tip);
      var found := chain.FindFork(tree, m);
      assert At(chain.vChain, 0) == Some(genesis);
      fork := found.value;
      ContainsAncestors(tree, chain.vChain, S().tip, fork);
      forall c | IsAncestor(tree, c, m) && IsAncestor(tree, c, S().tip) ensures tree[c].height <= tree[fork].height {
        ContainsAncestors(tree, chain.vChain, S().tip, c);
        assert At(chain.vChain, tree[c].height) == Some(AncestorAt(tree, m, tree[c].height));
      }
    }

    /** One slice of at most 32 blocks from height `from` towards m. */
    method ConnectNextSlice(m: BlockId, from: nat, oldTip: BlockId)
      returns (nHeight: nat, fContinue: bool, fInvalid: bool)
      requires Hunting() && Clear(S(), m) && m in candidates && oldTip in tree
      requires from < tree[m].height && S().tip == AncestorAt(tree, m, from)
      modifies this`status, this`candidates, this`coins, this`trail, chain
      ensures Hunting() && Progressed(old(status), status, good)
      ensures candidates <= old(candidates) && from < nHeight <= from + 32 && nHeight <= tree[m].height
      ensures nHeight == from + 32 || nHeight == tree[m].height
      ensures fInvalid ==> !fContinue && Unflagged(status) < Unflagged(old(status))
      ensures !fInvalid && !fContinue ==> tree[oldTip].work < tree[S().tip].work
      ensures fContinue ==> S().tip == AncestorAt(tree, m, nHeight) && Clear(S(), m) && m in candidates
      ensures Climbed(old(S()), old(coins), S(), coins, connect, m, from, fInvalid)
    {
      nHeight := if from + 32 < tree[m].height then from + 32 else tree[m].height;
      var slice := BuildSlice(m, from, nHeight);
      fContinue, fInvalid := ConnectSlice(slice, m, oldTip, nHeight);
    }

    /** The slices of ActivateBestChainStep from height `from` up to m. */
    method ConnectUpTo(m: BlockId, from: nat, oldTip: BlockId) returns (ghost failed: bool)
      requires Hunting() && Clear(S(), m) && m in candidates && oldTip in tree
      requires from <= tree[m].height && S().tip == AncestorAt(tree, m, from)
      modifies this`status, this`candidates, this`coins, this`trail, chain
      ensures Hunting() && Progressed(old(status), status, good)
      ensures candidates <= old(candidates)
      ensures || Unflagged(status) < Unflagged(old(status))
              || S().tip == m
              || tree[oldTip].work < tree[S().tip].work
      ensures Climbed(old(S()), old(coins), S(), coins, connect, m, from, failed)
      ensures failed ==> Unflagged(status) < Unflagged(old(status))
    {
      hide Climbed, Moved;
      hide Core, Connected, CandidatesOk, PathOf, Clear, SkipsBuilt;
      ghost var s, c := S(), coins;
      ClimbedNowhere(s, c, connect, m);
      var fContinue, fInvalid := true, false;
      var nHeight := from;
      while fContinue && nHeight != tree[m].height
        invariant Hunting() && Progressed(old(status), status, good)
        invariant nHeight <= tree[m].height && candidates <= old(candidates)
        invariant fInvalid ==> !fContinue && Unflagged(status) < Unflagged(old(status))
        invariant !fInvalid && !fContinue ==> tree[oldTip].work < tree[S().tip].work
        invariant fContinue ==> S().tip == AncestorAt(tree, m, nHeight) && Clear(S(), m) && m in candidates
        invariant Climbed(s, c, S(), coins, connect, m, from, fInvalid)
        decreases fContinue, tree[m].height - nHeight
      {
        ghost var s1, c1 := S(), coins;
        nHeight, fContinue, fInvalid := ConnectNextSlice(m, nHeight, oldTip);
        ClimbOn(s, c, s1, c1, S(), coins, connect, m, from, fInvalid);
      }
      failed := fInvalid;
    }

    /**
     ActivateBestChainStep: towards m.  It fails if and only if some active block above the fork
     cannot be disconnected in its turn, and then ends on the first such block.  Otherwise, unless a
     block proves invalid, it ends on m itself or on a tip with more work than before.
     */
    method ActivateBestChainStep(m: BlockId) returns (ok: bool, ghost fork: BlockId, ghost failed: bool)
      requires Hunting() && Clear(S(), m) && m in candidates && NoWorse(S(), base, S().tip)
      modifies this`status, this`candidates, this`coins, this`trail, chain
      ensures Hunting() && Progressed(old(status), status, good)
      ensures candidates <= old(candidates)
      ensures LastShared(tree, fork, m, old(S().tip))
      ensures ok <==> Undoable(tree, disconnect, old(coins), old(S().tip), tree[fork].height)
      ensures !ok ==> S() == old(S()).(tip := S().tip)
                      && (coins, S().tip) == Walk(tree, disconnect, old(coins), old(S().tip), tree[fork].height)
      ensures ok ==> || Unflagged(status) < Unflagged(old(status))
                     || S().tip == m
                     || tree[old(S().tip)].work < tree[S().tip].work
      ensures ok ==>
        Climbed(old(S()).(tip := fork), Walk(tree, disconnect, old(coins), old(S().tip), tree[fork].height).0,
                S(), coins, connect, m, tree[fork].height, failed)
    {
      var oldTip := chain.Tip().value;
      var f := FindForkWith(m);
      fork, failed := f, false;
      ok := DisconnectToFork(f);
      if ok {
        failed := ConnectUpTo(m, tree[f].height, oldTip);
      }
    }

    /** A step that failed leaves the tip on a block off the way to m that cannot be disconnected. */
    lemma FailedStep(s: State, base: BlockId, c: C, m: BlockId, fork: BlockId, s': State, c': C)
      requires Searching(s, base) && Target(s, m) && LastShared(s.tree, fork, m, s.tip)
      requires !Undoable(s.tree, disconnect, c, s.tip, s.tree[fork].height)
      requires Shaped(s') && s' == s.(tip := s'.tip)
      requires (c', s'.tip) == Walk(s.tree, disconnect, c, s.tip, s.tree[fork].height)
      ensures disconnect(c', s'.tip) == None && OffTarget(s')
      ensures s'.tip == s.tip || s'.tip !in s.candidates
    {
      hide Core, Connected, CandidatesOk, Target, OffTarget;
      WalkEnds(s.tree, disconnect, c, s.tip, s.tree[fork].height);
      if s'.tip != s.tip { LeftBehind(s, base, s'.tip); }
      TargetInTree(s, m);
      TargetStays(s, s', m);
      OffTheTarget(s', m);
    }

    /** A step whose first disconnection fails changes nothing. */
    lemma StuckStep(s: State, c: C, m: BlockId, fork: BlockId)
      requires Shaped(s) && m in s.tree && LastShared(s.tree, fork, m, s.tip)
      requires disconnect(c, s.tip) == None && !IsAncestor(s.tree, s.tip, m)
      ensures !Undoable(s.tree, disconnect, c, s.tip, s.tree[fork].height)
      ensures Walk(s.tree, disconnect, c, s.tip, s.tree[fork].height) == (c, s.tip)
    {
      assert fork != s.tip;
      assert s.tree[s.tip].height != s.tree[fork].height;
    }

    /** Once the tip is as good as the best tip so far, it is that. */
    ghost method RaiseBase()
      requires Hunting()
      modifies this`base
      ensures Hunting() && S() == old(S()) && NoWorse(S(), base, S().tip) && NoWorse(S(), base, old(base))
    {
      hide Core, Connected, CandidatesOk, PathOf, Rooted, SkipsBuilt;
      if NoWorse(S(), S().tip, base) {
        Rebase(S(), base);
        base := S().tip;
      }
    }

    /**
     One round of ActivateBestChain: it ends the search, comes closer to the end, or gets stuck.
     Other operations may come between two rounds.
     */
    method SearchRound() returns (done: bool, ok: bool)
      requires Hunting()
      modifies this`status, this`candidates, this`coins, this`trail, this`base, chain
      ensures Hunting() && Progressed(old(status), status, good) && NoWorse(old(S()), base, old(base))
      ensures done ==> ok && forall c :: c in candidates ==> NoWorse(S(), S().tip, c)
      ensures ok && !done ==> Closer(old(S()), S())
      ensures !ok ==> Stuck() && (S().tip == old(S().tip) || S().tip !in candidates)
      ensures old(Stuck()) ==> !ok && S() == old(S()) && coins == old(coins)
      ensures if ok && !done
        then Succeeds(S(), coins, connect, disconnect) == Succeeds(old(S()), old(coins), connect, disconnect)
        else Succeeds(old(S()), old(coins), connect, disconnect) == ok
    {
      hide Moved, Climbed, Succeeds, SameKeys;
      hide Core, Connected, CandidatesOk, Undoable, Walk, OffTarget, LastShared, Worse, PathOf, Rooted;
      hide SkipsBuilt, Clear;
      ghost var start, stuck := S(), Stuck();
      if stuck { HasTarget(start); }
      var found := FindMostWorkChain();
      var m := found.value;
      OffTheTarget(S(), m);
      SameOrder(start, S(), base, base);
      WorseIsStrictTotalOrder(tree, status, base, base, base);
      if found == None || found == chain.Tip() {
        RoundDone(start, S(), base, coins, connect, disconnect);
        return true, true;
      }
      RaiseBase();
      SameOrder(start, S(), base, old(base));
      ghost var best, c := S(), coins;
      ghost var fork, failed;
      ok, fork, failed := ActivateBestChainStep(m);
      if stuck { StuckStep(best, c, m, fork); }
      if !ok {
        RoundFails(start, old(base), best, base, c, connect, disconnect, m, fork);
        FailedStep(best, base, c, m, fork, S(), coins);
        return false, false;
      }
      ForkParts(tree, fork, m, best.tip);
      RoundGoesOn(start, old(base), best, base, c, connect, disconnect, m, fork, S(), coins, failed);
      done := found == chain.Tip();
      if done {
        StillBest(best, S(), m);
      } else {
        assert Unflagged(status) < Unflagged(best.status) ==> Unflagged(status) < Unflagged(start.status);
        RoundComesCloser(start, S());
      }
    }

    /** The best candidate stays the best while candidates are only removed. */
    static lemma StillBest(s: State, s': State, m: BlockId)
      requires Shaped(s) && Shaped(s') && s'.tree == s.tree && Progressed(s.status, s'.status, s.good)
      requires m in s.tree && s'.candidates <= s.candidates && forall c :: c in s.candidates ==> NoWorse(s, m, c)
      ensures forall c :: c in s'.candidates ==> NoWorse(s', m, c)
    {
      forall c | c in s'.candidates ensures NoWorse(s', m, c) { assert NoWorse(s, m, c); }
    }

    /** What one more round adds to a search that has come from `start` to s. */
    static lemma OneMoreRound(start: State, s: State, s': State, a: BlockId, b: BlockId, c: BlockId)
      requires Shaped(start) && Shaped(s) && s.tree == start.tree && Progressed(start.status, s.status, start.good)
      requires Progressed(s.status, s'.status, start.good)
      requires a in s.tree && b in s.tree && c in s.tree && NoWorse(s, a, b) && NoWorse(start, b, c)
      ensures NoWorse(start, a, c) && Progressed(start.status, s'.status, start.good)
    {
      SameOrder(start, s, a, b);
      WorseIsStrictTotalOrder(start.tree, start.status, a, b, c);
    }

    /** The loop of ActivateBestChain: rounds until nothing is better than the tip, or until one gets stuck. */
    method Search() returns (ok: bool)
      requires Hunting()
      modifies this`status, this`candidates, this`coins, this`trail, this`base, chain
      ensures Hunting() && Progressed(old(status), status, good) && NoWorse(old(S()), base, old(base))
      ensures if ok then forall c :: c in candidates ==> NoWorse(S(), S().tip, c) else Stuck()
      ensures ok <==> Succeeds(old(S()), old(coins), connect, disconnect)
      ensures old(Stuck()) ==> !ok && S() == old(S()) && coins == old(coins)
    {
      hide Core, Connected, CandidatesOk, Stuck, Succeeds, Moved, Progressed, NoWorse, Unflagged, Heavier;
      hide PathOf, Rooted;
      hide SkipsBuilt, Worse;
      ghost var start, c, from, stuck := S(), coins, base, Stuck();
      var done: bool;
      done, ok := SearchRound();
      while ok && !done
        invariant Hunting() && Progressed(start.status, status, good) && NoWorse(start, base, from)
        invariant done ==> ok && forall c :: c in candidates ==> NoWorse(S(), S().tip, c)
        invariant !ok ==> Stuck()
        invariant stuck ==> !ok && S() == start && coins == old(coins)
        invariant if ok && !done
          then Succeeds(S(), coins, connect, disconnect) == Succeeds(start, c, connect, disconnect)
          else Succeeds(start, c, connect, disconnect) == ok
        decreases ok && !done, Unflagged(status), Heavier(tree, S().tip)
      {
        ghost var round, before := S(), base;
        done, ok := SearchRound();
        OneMoreRound(start, round, S(), base, before, from);
      }
    }

    /**
     ActivateBestChain.  It terminates.  Either it ends on the one comparator-maximal linked block whose
     whole ancestry ConnectBlock accepts and nobody marked invalid, which is the first linked of those
     with the most work, never below the old tip; or it fails, on a tip that would have to be
     disconnected and cannot.  Which it is can be told from the state before (Succeeds). After a failure
     the best tip so far keeps its place, so that a later search can still return to it, but another try
     from the same state changes nothing.
     */
    method ActivateBestChain() returns (ok: bool)
      requires Valid()
      modifies this`status, this`candidates, this`coins, this`trail, this`base, chain
      ensures Valid() && Progressed(old(status), status, good) && NoWorse(old(S()), base, old(base))
      ensures ok ==> Settled() && IsBest(S(), S().tip) && IsBest(old(S()), S().tip)
      ensures ok ==> FirstOfHeaviest(old(S()), S().tip) && Leads(S(), S().tip)
      ensures ok ==> NoWorse(old(S()), S().tip, old(S().tip)) && NoWorse(old(S()), S().tip, old(base))
      ensures ok <==> Succeeds(old(S()), old(coins), connect, disconnect)
      ensures !ok <==> Stuck()
      ensures old(Stuck()) ==> !ok && S() == old(S()) && coins == old(coins)
    {
      hide Moved, Succeeds;
      hide Core, Connected, CandidatesOk, OffTarget, IsBest, AncestorAt, PathOf, Rooted, SkipsBuilt, Worse, IdsOk;
      hide Ahead, Aim, Leads, FirstOfHeaviest;
      ghost var start, from := S(), base;
      ok := Search();
      IdsKept(start.status, status, nextSequenceId);
      if ok {
        SearchConcludes(start, from, S(), base);
        OverIsAim(S());
        AimLeads(S(), nextSequenceId, S().tip);
        BestIsFirst(start, nextSequenceId, S().tip);
        base := chain.Tip().value;
      }
    }

    // ----- InvalidateBlock -----

    /** One round of the walk back: the tip is flagged, leaves the candidates and is disconnected if it can be. */
    method UnwindTip() returns (ok: bool)
      requires Repr() && Shaped(S()) && tree[S().tip].prev.Some?
      modifies this`status, this`candidates, this`coins, this`trail, chain
      ensures Repr() && ok == disconnect(old(coins), old(S().tip)).Some?
      ensures S() == if ok then Unwound(old(S())) else FlaggedChild(old(S()), old(S().tip))
      ensures coins == if ok then disconnect(old(coins), old(S().tip)).value else old(coins)
    {
      var tip := chain.Tip().value;
      status := status[tip := status[tip].(failedChild := true)];
      candidates := candidates - {tip};
      ok := DisconnectTip();
    }

    /** The scan of mapBlockIndex at the end of InvalidateBlock. */
    method RefillCandidates()
      requires Repr() && Shaped(S())
      modifies this`candidates
      ensures Repr() && S() == Refilled(old(S()))
    {
      ghost var s := S();
      var tip := chain.Tip().value;
      var rest := tree.Keys;
      while rest != {}
        invariant rest <= tree.Keys
        invariant candidates == s.candidates + set b | b in s.tree && b !in rest && Eligible(s, b)
        decreases rest
      {
        var b :| b in rest;
        if status[b].IsValid(VALID_TRANSACTIONS) && status[b].chainTx > 0 && !Worse(tree, status, b, tip) {
          candidates := candidates + {b};
        }
        rest := rest - {b};
      }
      assert S().candidates == Refilled(s).candidates;
    }

    /**
     The loop of InvalidateBlock: the tip is walked back until x is off the active chain, or up to
     the first block that cannot be disconnected.
     */
    method UnwindBelow(x: BlockId) returns (ok: bool)
      requires Repr() && Unwinding(S(), x)
      modifies this`status, this`candidates, this`coins, this`trail, chain
      ensures Repr() && Unwinding(S(), x)
      ensures ok <==> !IsAncestor(tree, x, S().tip)
      ensures !IsAncestor(tree, x, old(S().tip)) ==> S() == old(S()) && coins == old(coins)
      ensures IsAncestor(tree, x, old(S().tip)) ==>
        var top := old(S().tip);
        && (ok <==> Undoable(tree, disconnect, old(coins), top, Below(tree, x)))
        && (coins, S().tip) == Walk(tree, disconnect, old(coins), top, Below(tree, x))
        && (ok ==> tree[x].prev == Some(S().tip))
        && FlaggedDownTo(old(S()), S(), top, if ok then Below(tree, x) else tree[S().tip].height - 1)
    {
      hide Moved;
      hide Core, Connected, Floor, Undoable, Walk, FlaggedDownTo;
      ghost var s, h := S(), Below(tree, x);
      ok := true;
      NoneFlagged(s, s.tip);
      ContainsAncestors(tree, chain.vChain, S().tip, x);
      while chain.Contains(tree, x)
        invariant Repr() && Unwinding(S(), x)
        invariant chain.Contains(tree, x) <==> IsAncestor(tree, x, S().tip)
        invariant IsAncestor(tree, x, s.tip) ==> IsAncestor(tree, x, S().tip) || tree[x].prev == Some(S().tip)
        invariant !IsAncestor(tree, x, s.tip) ==> S() == s && coins == old(coins)
        invariant IsAncestor(tree, S().tip, s.tip) && FlaggedDownTo(s, S(), s.tip, tree[S().tip].height)
        invariant IsAncestor(tree, x, s.tip) ==>
          Undoable(tree, disconnect, old(coins), s.tip, h) == Undoable(tree, disconnect, coins, S().tip, h)
        invariant IsAncestor(tree, x, s.tip) ==>
          Walk(tree, disconnect, old(coins), s.tip, h) == Walk(tree, disconnect, coins, S().tip, h)
        decreases tree[S().tip].height
      {
        UnwindFlag(S(), x);
        UnwindStep(S(), x);
        UnwindStays(tree, x, S().tip);
        UnwindTrack(s, S());
        ghost var top := S().tip;
        ghost var c := coins;
        ok := UnwindTip();
        if !ok {
          WalkStops(tree, disconnect, c, top, h);
          return;
        }
        WalkStep(tree, disconnect, c, top, h);
        ContainsAncestors(tree, chain.vChain, S().tip, x);
      }
      assert RootedAt(tree, x);
      if IsAncestor(tree, x, s.tip) { WalkStops(tree, disconnect, coins, S().tip, h); }
    }

    /** The first lines of InvalidateBlock: the block itself is marked and leaves the candidates. */
    method MarkInvalid(x: BlockId)
      requires Valid() && x in tree && x != genesis
      modifies this`status, this`candidates
      ensures Repr() && Unwinding(S(), x) && S() == MarkedInvalid(old(S()), x)
    {
      ghost var s := S();
      assert BlockOk(s, [], x) && RootedAt(s.tree, x);
      StartUnwinding(s, base, x);
      status := status[x := status[x].(failedValid := true)];
      candidates := candidates - {x};
      assert S() == MarkedInvalid(s, x);
    }

    /**
     InvalidateBlock, for any block but genesis.  It succeeds if and only if every active block from x up
     can be disconnected in its turn.  Then the block and the active blocks above it are flagged and no
     candidates any more, the tip drops below it, and the candidates are completed for the lower tip.
     Otherwise the tip ends on the first block that cannot be disconnected, on a chain now marked
     invalid, and the candidates stay incomplete.
     */
    method InvalidateBlock(x: BlockId) returns (ok: bool)
      requires Valid() && x in tree && x != genesis
      modifies this`status, this`candidates, this`coins, this`trail, this`base, chain
      ensures ok <==> IsAncestor(tree, x, old(S().tip)) ==>
        Undoable(tree, disconnect, old(coins), old(S().tip), Below(tree, x))
      ensures ok ==> Settled() && !IsAncestor(tree, x, S().tip)
      ensures ok ==>
        if IsAncestor(tree, x, old(S().tip)) then tree[x].prev == Some(S().tip) else S().tip == old(S().tip)
      ensures !ok ==> Repr() && Unwinding(S(), x) && IsAncestor(tree, x, S().tip)
      ensures !ok ==> IsAncestor(tree, S().tip, old(S().tip)) && disconnect(coins, S().tip) == None
      ensures !ok ==> IdsOk(status, nextSequenceId)
      ensures !ok ==> candidates == old(candidates) - {x} - AncestorsAbove(tree, old(S().tip), tree[S().tip].height - 1)
      ensures InvalidFlags(old(S()), S(), x, ok)
      ensures ok ==> CandidatesWithout(old(S()), S(), x)
    {
      hide Core, Connected, CandidatesOk, Floor, Undoable, Walk, FlaggedDownTo, AncestorAt, InvalidFlags;
      hide PathOf, Refilled, Rooted, SkipsBuilt, MarkedInvalid, IdsOk, AncestorsAbove, Invalid, CandidatesWithout;
      ghost var s, c := S(), coins;
      MarkInvalid(x);
      ok := UnwindBelow(x);
      ghost var s' := S();
      InvalidatedFlags(s, s', x, ok);
      KeptIds(s, s', x, ok, nextSequenceId);
      if IsAncestor(tree, x, s.tip) { WalkEnds(tree, disconnect, c, s.tip, Below(tree, x)); }
      if ok {
        RefillIsConsistent(S(), x);
        UnwoundCandidates(s, S(), x);
        InvalidatedCandidates(s, S(), x, nextSequenceId);
        RefillCandidates();
        base := chain.Tip().value;
        SameFlags(s, s', S(), x, ok);
      }
    }

    /**
     What an invalidation of x does to the statuses: x is marked, and the active blocks from x up are
     flagged, or, when it failed, those that the walk reached.
     */
    static ghost predicate InvalidFlags(s: State, s': State, x: BlockId, ok: bool)
      requires Shaped(s) && Shaped(s') && s'.tree == s.tree
    {
      forall b :: b in s.tree ==>
        var wasActiveAbove := IsAncestor(s.tree, b, s.tip) && IsAncestor(s.tree, x, b);
        var reached := ok || s.tree[s'.tip].height <= s.tree[b].height;
        s'.status[b] == s.status[b].(failedValid := b == x || s.status[b].failedValid,
                                     failedChild := (wasActiveAbove && reached) || s.status[b].failedChild)
    }

    static lemma UnwoundCandidates(s: State, s1: State, x: BlockId)
      requires Shaped(s) && x in s.tree && s.tree[x].height > 0 && Shaped(MarkedInvalid(s, x)) && Unwinding(s1, x)
      requires s1.tree == s.tree && !IsAncestor(s.tree, x, s1.tip)
      requires !IsAncestor(s.tree, x, s.tip) ==> s1 == MarkedInvalid(s, x)
      requires IsAncestor(s.tree, x, s.tip) ==> FlaggedDownTo(MarkedInvalid(s, x), s1, s.tip, Below(s.tree, x))
      ensures Linked(s1, s1.tip)
      ensures s1.candidates == s.candidates - {x} -
        if IsAncestor(s.tree, x, s.tip) then AncestorsAbove(s.tree, s.tip, s.tree[x].height - 1) else {}
    {
      hide Core, FlaggedAbove;
      ConnectedNotInvalid(s1, s1.tip);
    }

    static lemma SameFlags(s: State, s1: State, s2: State, x: BlockId, ok: bool)
      requires Shaped(s) && Shaped(s1) && s1.tree == s.tree && InvalidFlags(s, s1, x, ok)
      requires Shaped(s2) && s2 == s1.(candidates := s2.candidates)
      ensures InvalidFlags(s, s2, x, ok)
    {
    }

    static lemma KeptIds(s: State, s': State, x: BlockId, ok: bool, next: nat)
      requires Shaped(s) && Shaped(s') && s'.tree == s.tree && InvalidFlags(s, s', x, ok) && IdsOk(s.status, next)
      ensures IdsOk(s'.status, next)
    {
      hide IdsOk;
      IdsKept(s.status, s'.status, next);
    }

    /** The flags set on the way down, block by block. */
    static lemma InvalidatedFlags(s: State, s': State, x: BlockId, ok: bool)
      requires Shaped(s) && Shaped(s') && s'.tree == s.tree && x in s.tree && s.tree[x].height > 0
      requires Shaped(MarkedInvalid(s, x))
      requires !IsAncestor(s.tree, x, s.tip) ==> s' == MarkedInvalid(s, x) && ok
      requires IsAncestor(s.tree, x, s.tip) ==>
        FlaggedDownTo(MarkedInvalid(s, x), s', s.tip, if ok then Below(s.tree, x) else s.tree[s'.tip].height - 1)
      requires !ok ==> IsAncestor(s.tree, x, s'.tip)
      ensures InvalidFlags(s, s', x, ok)
      ensures !ok ==> s'.candidates == s.candidates - {x} - AncestorsAbove(s.tree, s.tip, s.tree[s'.tip].height - 1)
    {
      forall b | b in s.tree
        ensures var wasActiveAbove := IsAncestor(s.tree, b, s.tip) && IsAncestor(s.tree, x, b);
          s'.status[b] == MarkedInvalid(s, x).status[b].(failedChild :=
            (wasActiveAbove && (ok || s.tree[s'.tip].height <= s.tree[b].height)) || s.status[b].failedChild)
      {
        if IsAncestor(s.tree, x, s.tip) {
          FlaggedFrom(MarkedInvalid(s, x), s', s.tip, x, if ok then Below(s.tree, x) else s.tree[s'.tip].height - 1, b);
        } else {
          NotActiveAbove(s.tree, x, b, s.tip);
        }
      }
    }

    static lemma NotActiveAbove(t: Tree, x: BlockId, b: BlockId, tip: BlockId)
      requires Rooted(t) && b in t && tip in t && !IsAncestor(t, x, tip)
      ensures !(IsAncestor(t, b, tip) && IsAncestor(t, x, b))
    {
      if IsAncestor(t, b, tip) && IsAncestor(t, x, b) { AncestorTransitive(t, x, b, tip); }
    }
  }
}
