/**
 Walking a tip back down the tree, one disconnected block after the other (src/main.cpp).

 The coins are any value; `undo` is DisconnectBlock on them, None when it is not clean, which makes
 DisconnectTip give up (src/main.cpp:2104-2109, 2451).
 */
module TipWalk {
  import opened Wrappers
  import opened BlockTree

  /** The height just below b. */
  ghost function Below(t: Tree, b: BlockId): nat
    requires b in t
  {
    if t[b].height == 0 then 0 else t[b].height - 1
  }

  /** Every block from b down to just above height h can be disconnected in its turn. */
  ghost predicate Undoable<C>(t: Tree, undo: (C, BlockId) -> Option<C>, coins: C, b: BlockId, h: nat)
    requires Rooted(t) && b in t
    decreases t[b].height
  {
    assert RootedAt(t, b);
    t[b].height <= h || (undo(coins, b).Some? && Undoable(t, undo, undo(coins, b).value, t[b].prev.value, h))
  }

  /** Where the walk ends, and the coins then: at height h, or at the first block that cannot be disconnected. */
  ghost function Walk<C>(t: Tree, undo: (C, BlockId) -> Option<C>, coins: C, b: BlockId, h: nat): (C, BlockId)
    requires Rooted(t) && b in t
    decreases t[b].height
  {
    assert RootedAt(t, b);
    if t[b].height <= h || undo(coins, b) == None then (coins, b)
    else Walk(t, undo, undo(coins, b).value, t[b].prev.value, h)
  }

  lemma WalkStep<C>(t: Tree, undo: (C, BlockId) -> Option<C>, coins: C, b: BlockId, h: nat)
    requires Rooted(t) && b in t && h < t[b].height && undo(coins, b).Some?
    ensures t[b].prev.Some? && t[b].prev.value in t
    ensures Undoable(t, undo, coins, b, h) == Undoable(t, undo, undo(coins, b).value, t[b].prev.value, h)
    ensures Walk(t, undo, coins, b, h) == Walk(t, undo, undo(coins, b).value, t[b].prev.value, h)
  {
    assert RootedAt(t, b);
  }

  lemma WalkStops<C>(t: Tree, undo: (C, BlockId) -> Option<C>, coins: C, b: BlockId, h: nat)
    requires Rooted(t) && b in t && (t[b].height <= h || undo(coins, b) == None)
    ensures Undoable(t, undo, coins, b, h) == (t[b].height <= h)
    ensures Walk(t, undo, coins, b, h) == (coins, b)
  {
  }

  /** The walk never leaves the ancestry of its start, and it arrives exactly when everything on it can be undone. */
  lemma {:induction false} WalkEnds<C>(t: Tree, undo: (C, BlockId) -> Option<C>, coins: C, b: BlockId, h: nat)
    requires Rooted(t) && b in t && h <= t[b].height
    ensures var (c', b') := Walk(t, undo, coins, b, h);
      IsAncestor(t, b', b) && h <= t[b'].height &&
      (if Undoable(t, undo, coins, b, h) then b' == AncestorAt(t, b, h)
       else h < t[b'].height && undo(c', b') == None)
    decreases t[b].height
  {
    assert RootedAt(t, b);
    if h < t[b].height && undo(coins, b).Some? {
      var p := t[b].prev.value;
      WalkEnds(t, undo, undo(coins, b).value, p, h);
      PrevOfAncestor(t, b, t[b].height);
      AncestorTransitive(t, Walk(t, undo, undo(coins, b).value, p, h).1, p, b);
    }
  }

  /** A walk can be made in two. */
  lemma {:induction false} WalkThrough<C>(t: Tree, undo: (C, BlockId) -> Option<C>, coins: C, b: BlockId,
                                          k: nat, h: nat)
    requires Rooted(t) && b in t && h <= k <= t[b].height && Undoable(t, undo, coins, b, k)
    ensures var (c', b') := Walk(t, undo, coins, b, k);
      && b' in t && Walk(t, undo, coins, b, h) == Walk(t, undo, c', b', h)
      && Undoable(t, undo, coins, b, h) == Undoable(t, undo, c', b', h)
    decreases t[b].height
  {
    assert RootedAt(t, b);
    if k < t[b].height {
      WalkThrough(t, undo, undo(coins, b).value, t[b].prev.value, k, h);
    }
  }

  // ----- The history of the coins -----

  /** A move of the tip: up to a child, or back to the parent. */
  datatype Move = Up(b: BlockId) | Down

  /** Coins and tip after the moves; None when one of them was not possible. */
  ghost function Replay<C>(t: Tree, good: BlockId -> bool, connect: (C, BlockId) -> C,
                           undo: (C, BlockId) -> Option<C>, start: (C, BlockId), trail: seq<Move>): Option<(C, BlockId)>
    decreases |trail|
  {
    if trail == [] then Some(start) else MoveOn(t, good, connect, undo,
      Replay(t, good, connect, undo, start, trail[..|trail| - 1]), trail[|trail| - 1])
  }

  ghost function MoveOn<C>(t: Tree, good: BlockId -> bool, connect: (C, BlockId) -> C,
                           undo: (C, BlockId) -> Option<C>, x: Option<(C, BlockId)>, m: Move): Option<(C, BlockId)> {
    match x
    case None => None
    case Some((c, b)) =>
      match m
      case Up(d) => if d in t && t[d].prev == Some(b) && good(d) then Some((connect(c, d), d)) else None
      case Down =>
        if b in t && t[b].prev.Some? && undo(c, b).Some? then Some((undo(c, b).value, t[b].prev.value)) else None
  }

  lemma OneMove<C>(t: Tree, good: BlockId -> bool, connect: (C, BlockId) -> C, undo: (C, BlockId) -> Option<C>,
                   start: (C, BlockId), trail: seq<Move>, m: Move)
    ensures Replay(t, good, connect, undo, start, trail + [m])
      == MoveOn(t, good, connect, undo, Replay(t, good, connect, undo, start, trail), m)
  {
    assert (trail + [m])[..|trail|] == trail;
  }

  /** A new entry of the tree makes no difference to what has happened. */
  lemma {:induction false} ReplayInTree<C>(t: Tree, n: BlockId, node: Node, good: BlockId -> bool,
                                           connect: (C, BlockId) -> C, undo: (C, BlockId) -> Option<C>,
                                           start: (C, BlockId), trail: seq<Move>)
    requires n !in t && Replay(t, good, connect, undo, start, trail).Some?
    ensures Replay(t[n := node], good, connect, undo, start, trail) == Replay(t, good, connect, undo, start, trail)
    decreases |trail|
  {
    if trail != [] {
      ReplayInTree(t, n, node, good, connect, undo, start, trail[..|trail| - 1]);
    }
  }
}
