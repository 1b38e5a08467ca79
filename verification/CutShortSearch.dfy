/**
 A search for the best chain that is cut short (src/main.cpp): a block index over real coins, in good
 order, whose active chain has to be left for a better one and cannot be.
 */
module CutShortSearch {
  import opened Wrappers
  import opened BlockTree
  import opened ChainModel
  import opened CheckBlockIndex
  import opened Ledgers
  import opened SearchCourse
  import opened SearchSteps
  import opened TipWalk
  import opened UncleanChains

  /** The chain of UncleanChains up to block `top`, and one more child of block 1, with more work than all of it. */
  function Forked(top: nat): Tree {
    map b: BlockId | 0 <= b <= top + 1 ::
      if b <= top then ChainNode(b) else Node(Some(1), 2, Some(0), top + 1)
  }

  function StatusOf(top: nat, b: nat): Status {
    if b <= top then Status(VALID_SCRIPTS, true, false, false, 1, b + 1, b + 1)
    else Status(VALID_TRANSACTIONS, true, false, false, 1, 3, b + 1)
  }

  /** Block `top` is active and the other block is the better candidate. */
  ghost function Index(top: nat): State {
    State(Forked(top), map b: BlockId | 0 <= b <= top + 1 :: StatusOf(top, b), {top, top + 1}, map[], top, 0, _ => true)
  }

  lemma ForkedIsRooted(top: nat)
    requires top >= 3
    ensures HasChain(Forked(top), top)
  {
    var t := Forked(top);
    forall b | b in t ensures RootedAt(t, b) {}
  }

  lemma ForkedShape(top: nat)
    requires top >= 3
    ensures Shaped(Index(top))
  {
    var t := Forked(top);
    ForkedIsRooted(top);
    forall b | b in t ensures SkipBuiltAt(t, b) {
      if 0 < b <= top {
        ChainAncestors(t, top, b, GetSkipHeight(b));
      } else if b == top + 1 {
        InvertLowestOneClears(2);
        InvertLowestOneClears(1);
        ChainAncestors(t, top, 1, 0);
        assert AncestorAt(t, b, 0) == AncestorAt(t, 1, 0);
      }
    }
  }

  lemma BlockIsOk(top: nat, b: BlockId)
    requires top >= 3 && Shaped(Index(top)) && b in Index(top).tree
    ensures BlockOk(Index(top), [], b)
  {
    var s := Index(top);
    assert RootedAt(s.tree, b);
    assert s.status[b] == StatusOf(top, b) && s.status[1] == StatusOf(top, 1);
    if 0 < b <= top { assert s.status[b - 1] == StatusOf(top, b - 1); }
  }

  lemma {:induction false} ChainConnected(top: nat, b: BlockId)
    requires top >= 3 && Shaped(Index(top)) && b <= top
    ensures b in Index(top).tree && Connected(Index(top), b)
    decreases b
  {
    var s := Index(top);
    assert RootedAt(s.tree, b) && s.tree[b] == ChainNode(b) && s.status[b] == StatusOf(top, b);
    if b > 0 { ChainConnected(top, b - 1); }
  }

  lemma IndexIsConsistent(top: nat)
    requires top >= 3
    ensures Consistent(Index(top))
  {
    hide Connected, Invalid, BlockOk;
    var s := Index(top);
    ForkedShape(top);
    forall b | b in s.tree ensures BlockOk(s, [], b) { BlockIsOk(top, b); }
    ChainConnected(top, top);
    forall p ensures FiledOk(s, p) {}
    forall b | b in s.tree ensures CandidateAt(s, top, b) { assert s.status[b] == StatusOf(top, b); }
  }

  lemma BetterIsTarget(top: nat)
    requires top >= 3 && Consistent(Index(top))
    ensures Target(Index(top), top + 1) && Acceptable(Index(top), top + 1)
    ensures LastShared(Index(top).tree, 1, top + 1, top)
  {
    hide Core, CandidatesOk;
    var s := Index(top);
    var t := s.tree;
    ForkedIsRooted(top);
    forall b | b in t ensures !s.status[b].Failed() { assert s.status[b] == StatusOf(top, b); }
    ChainConnected(top, 1);
    ConnectedNotInvalid(s, 1);
    ChainAncestors(t, top, top, 1);
    ChainAncestors(t, top, top, 2);
    ChainAncestors(t, top, 1, 1);
    assert AncestorAt(t, top + 1, 1) == AncestorAt(t, 1, 1);
    assert RootedAt(t, top + 1) && s.status[top + 1] == StatusOf(top, top + 1);
  }

  /**
   A search of s for the better chain up to m, which forks at f, is cut short: it fails, and leaves the
   tip on a lower block, where the node's own check of the index fails.
   */
  ghost predicate CutShort<C>(s: State, c: C, connect: (C, BlockId) -> C, undo: (C, BlockId) -> Option<C>,
                              m: BlockId, f: BlockId) {
    && Consistent(s) && Target(s, m) && IsBest(s, m) && LastShared(s.tree, f, m, s.tip)
    && !Succeeds(s, c, connect, undo)
    && var b := Walk(s.tree, undo, c, s.tip, s.tree[f].height).1;
    && b in s.tree && undo(Walk(s.tree, undo, c, s.tip, s.tree[f].height).0, b) == None
    && Searching(s.(tip := b), s.tip) && Worse(s.tree, s.status, b, s.tip) && !Passes(s.(tip := b), b)
  }

  /** That is what happens whenever the tip, but not everything above the fork, can be disconnected. */
  lemma WhenCutShort<C>(s: State, c: C, connect: (C, BlockId) -> C, undo: (C, BlockId) -> Option<C>,
                        m: BlockId, f: BlockId)
    requires Consistent(s) && Target(s, m) && Acceptable(s, m) && LastShared(s.tree, f, m, s.tip) && f != s.tip
    requires undo(c, s.tip).Some? && !Undoable(s.tree, undo, c, s.tip, s.tree[f].height)
    ensures CutShort(s, c, connect, undo, m, f)
  {
    hide Core, Connected, CandidatesOk, Succeeds, Passes, Acceptable, IsBest, Target;
    var h := s.tree[f].height;
    var b := Walk(s.tree, undo, c, s.tip, h).1;
    WalkEnds(s.tree, undo, c, s.tip, h);
    LeftTheTip(s, c, undo, h);
    SearchingIsPosed(s, s.tip);
    TargetIsAim(s, s.tip, m);
    SucceedsIffUndoable(s, c, connect, undo, m, f);
    WorseIsStrictTotalOrder(s.tree, s.status, s.tip, s.tip, s.tip);
    BackOn(s, s.tip, b);
    LeftBehind(s, s.tip, b);
    AncestorWork(s.tree, s.tip, s.tree[b].height);
    CutShortFails(s.(tip := b), s.tip);
  }

  lemma LeftTheTip<C>(s: State, c: C, undo: (C, BlockId) -> Option<C>, h: nat)
    requires Shaped(s) && h < s.tree[s.tip].height && undo(c, s.tip).Some?
    ensures Walk(s.tree, undo, c, s.tip, h).1 != s.tip
    ensures Walk(s.tree, undo, c, s.tip, h).1 in s.tree
  {
    assert RootedAt(s.tree, s.tip);
    var p := s.tree[s.tip].prev.value;
    WalkEnds(s.tree, undo, undo(c, s.tip).value, p, h);
  }

  /**
   It does happen, for every maturity, over the coins of UncleanChains: everything is in good order,
   but the search has to go back over the block of the coinstake.
   */
  lemma SearchIsCutShort(maturity: nat, connect: (Ledger, BlockId) -> Ledger, undo: (Ledger, BlockId) -> Option<Ledger>)
    requires maturity >= 1 && forall l, b :: undo(l, b) == Disconnect(Blocks(maturity), l, b)
    ensures CutShort(Index(maturity + 2), TopLedger(maturity), connect, undo, maturity + 3, 1)
  {
    hide Core, Connected, CandidatesOk, Walk, Succeeds, Passes, Acceptable, IsBest, Target, CutShort, Disconnect;
    hide Blocks, TopLedger;
    var top := maturity + 2;
    var s, l := Index(top), TopLedger(maturity);
    ForkedIsRooted(top);
    IndexIsConsistent(top);
    BetterIsTarget(top);
    UncleanReorganisation(s.tree, maturity, undo);
    ChainAncestors(s.tree, top, 1, 1);
    ChainAncestors(s.tree, top, top, 2);
    WhenCutShort(s, l, connect, undo, top + 1, 1);
  }
}
