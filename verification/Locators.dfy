/** What a peer's locator finds in our active chain (src/main.cpp, FindForkInGlobalIndex). */
module Locators {
  import opened Wrappers
  import opened BlockTree
  import opened ActiveChain

  predicate Shared(t: Tree, c: seq<Option<BlockId>>, b: BlockId) {
    b in t && In(t, c, b)
  }

  /** The first locator entry that is in our index and in our active chain. */
  function FirstShared(t: Tree, c: seq<Option<BlockId>>, have: seq<BlockId>): Option<BlockId> {
    if have == [] then None
    else if Shared(t, c, have[0]) then Some(have[0])
    else FirstShared(t, c, have[1..])
  }

  method FindForkInGlobalIndex(t: Tree, chain: CChain, have: seq<BlockId>) returns (fork: Option<BlockId>)
    ensures fork == if FirstShared(t, chain.vChain, have).Some? then FirstShared(t, chain.vChain, have)
                    else At(chain.vChain, 0)
  {
    var i := 0;
    while i < |have|
      invariant i <= |have|
      invariant FirstShared(t, chain.vChain, have) == FirstShared(t, chain.vChain, have[i..])
    {
      if have[i] in t && chain.Contains(t, have[i]) {
        return Some(have[i]);
      }
      i := i + 1;
    }
    return At(chain.vChain, 0);
  }

  /**
   A block's hash covers the hash of its parent, so two nodes that both know a block agree on its
   parent (and by induction on its whole ancestry).
   */
  ghost predicate AgreeAt(ts: Tree, tr: Tree, b: BlockId)
    requires b in ts && b in tr
  {
    ts[b].prev == tr[b].prev
  }

  ghost predicate Agree(ts: Tree, tr: Tree) {
    forall b {:trigger AgreeAt(ts, tr, b)} :: b in ts && b in tr ==> AgreeAt(ts, tr, b)
  }

  lemma {:induction false} AgreeOnAncestors(ts: Tree, tr: Tree, b: BlockId)
    requires Rooted(ts) && Rooted(tr) && Agree(ts, tr) && b in ts && b in tr
    ensures ts[b].height == tr[b].height
    ensures forall h :: 0 <= h <= ts[b].height ==> AncestorAt(ts, b, h) == AncestorAt(tr, b, h)
    decreases ts[b].height
  {
    assert AgreeAt(ts, tr, b) && RootedAt(ts, b) && RootedAt(tr, b);
    if ts[b].prev.Some? { AgreeOnAncestors(ts, tr, ts[b].prev.value); }
  }

  /** If one node's chain holds the block at height f of the other's, it holds all blocks below. */
  lemma SharedBelowFork(ts: Tree, tr: Tree, c: seq<Option<BlockId>>, b: BlockId, f: nat, h: nat)
    requires Rooted(ts) && Rooted(tr) && Agree(ts, tr) && WellFormed(tr, c)
    requires b in ts && h <= f <= ts[b].height && Shared(tr, c, AncestorAt(ts, b, f))
    ensures Shared(tr, c, AncestorAt(ts, b, h)) && At(c, h) == Some(AncestorAt(ts, b, h))
  {
    var a := AncestorAt(ts, b, f);
    AgreeOnAncestors(ts, tr, a);
    AncestorOfAncestor(ts, b, f, h);
    SharedBelow(tr, c[|c| - 1].value, a, f, h);
  }

  /** The true fork height: the highest block of b's ancestry on the receiver's active chain. */
  ghost predicate ForkHeight(ts: Tree, tr: Tree, c: seq<Option<BlockId>>, b: BlockId, f: nat)
    requires Rooted(ts) && b in ts
  {
    f <= ts[b].height && Shared(tr, c, AncestorAt(ts, b, f)) &&
    forall h :: f < h <= ts[b].height ==> !Shared(tr, c, AncestorAt(ts, b, h))
  }

  /** The height of the first locator entry at or below f. */
  function FirstAtOrBelow(h: nat, step: nat, size: nat, f: nat): (l: nat)
    requires step > 0
    ensures l <= f
    decreases h
  {
    if h <= f then h
    else FirstAtOrBelow(Max(h - step, 0), if size + 1 > 10 then step * 2 else step, size + 1, f)
  }

  /** Scanning the rest of a locator from height h stops at the first entry at or below the fork. */
  lemma {:induction false} ScanFindsFirst(ts: Tree, tr: Tree, c: seq<Option<BlockId>>, b: BlockId, f: nat,
                                          h: nat, step: nat, size: nat)
    requires Rooted(ts) && Rooted(tr) && Agree(ts, tr) && WellFormed(tr, c)
    requires b in ts && ForkHeight(ts, tr, c, b, f) && h <= ts[b].height && step > 0
    ensures FirstShared(tr, c, LocatorFrom(ts, b, h, step, size))
         == Some(AncestorAt(ts, b, FirstAtOrBelow(h, step, size, f)))
    decreases h
  {
    var have := LocatorFrom(ts, b, h, step, size);
    assert have[0] == AncestorAt(ts, b, h);
    if h <= f {
      SharedBelowFork(ts, tr, c, b, f, h);
    } else {
      var h' := Max(h - step, 0);
      var step' := if size + 1 > 10 then step * 2 else step;
      assert have[1..] == LocatorFrom(ts, b, h', step', size + 1);
      ScanFindsFirst(ts, tr, c, b, f, h', step', size + 1);
    }
  }

  /** top - h blocks below its start, a locator's next step is 1 up to 11 blocks and then 9 less than the distance. */
  lemma {:induction false} GapFrom(top: nat, h: nat, step: nat, size: nat, f: nat)
    requires f < h <= top && LocatorAt(top - h, step, size)
    ensures f - FirstAtOrBelow(h, step, size, f) <= Max(0, top - f - 11)
    decreases h
  {
    var h' := Max(h - step, 0);
    if h' > f {
      GapFrom(top, h', if size + 1 > 10 then step * 2 else step, size + 1, f);
    }
  }

  /**
   The block found through a peer's locator is on both chains, and it is at most
   max(0, (H - F) - 11) below the true fork, where H is the height of the locator's start.
   */
  lemma LocatorFindsFork(ts: Tree, tr: Tree, c: seq<Option<BlockId>>, b: BlockId, f: nat)
    requires Rooted(ts) && Rooted(tr) && Agree(ts, tr) && WellFormed(tr, c)
    requires b in ts && ForkHeight(ts, tr, c, b, f)
    ensures var found := FirstShared(tr, c, Locator(ts, b));
      exists l :: 0 <= l <= f && found == Some(AncestorAt(ts, b, l)) && At(c, l) == found
               && f - l <= Max(0, ts[b].height - f - 11)
  {
    var l := FirstAtOrBelow(ts[b].height, 1, 0, f);
    ScanFindsFirst(ts, tr, c, b, f, ts[b].height, 1, 0);
    SharedBelowFork(ts, tr, c, b, f, l);
    if f < ts[b].height {
      GapFrom(ts[b].height, ts[b].height, 1, 0, f);
    }
  }

  /** With no block in common the whole locator is passed over, and the answer is our genesis. */
  lemma {:induction false} NothingShared(t: Tree, c: seq<Option<BlockId>>, have: seq<BlockId>)
    requires forall i :: 0 <= i < |have| ==> !Shared(t, c, have[i])
    ensures FirstShared(t, c, have) == None
  {
    if have != [] { NothingShared(t, c, have[1..]); }
  }
}
