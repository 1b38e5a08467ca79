/**
 The tree of block headers (CBlockIndex in src/chain.h).

 A block index entry is never removed and its parent, height, skip pointer and chain work are
 written once, by AddToBlockIndex.  That fixed part is a Node here; the part that changes
 afterwards (status, transaction counts, sequence id) lives in ChainState.
 */
module BlockTree {
  import opened Wrappers

  /** The address of a CBlockIndex.  Addresses are ordered: the work comparator breaks ties on them. */
  type BlockId = nat

  datatype Node = Node(prev: Option<BlockId>, height: nat, skip: Option<BlockId>, work: nat)

  type Tree = map<BlockId, Node>

  /** The parent of b is present, sits one level lower and has strictly less chain work. */
  ghost predicate RootedAt(t: Tree, b: BlockId)
    requires b in t
  {
    match t[b].prev
    case None => t[b].height == 0
    case Some(p) => p in t && t[b].height == t[p].height + 1 && t[p].work < t[b].work
  }

  ghost predicate Rooted(t: Tree) {
    forall b {:trigger RootedAt(t, b)} :: b in t ==> RootedAt(t, b)
  }

  /** The entry reached from b by following pprev down to height h. */
  ghost function AncestorAt(t: Tree, b: BlockId, h: nat): (a: BlockId)
    requires Rooted(t) && b in t && h <= t[b].height
    ensures a in t && t[a].height == h
    decreases t[b].height
  {
    assert RootedAt(t, b);
    if h == t[b].height then b else AncestorAt(t, t[b].prev.value, h)
  }

  ghost predicate IsAncestor(t: Tree, a: BlockId, b: BlockId)
    requires Rooted(t) && b in t
  {
    a in t && t[a].height <= t[b].height && AncestorAt(t, b, t[a].height) == a
  }

  /** Walking down to h and then on to k is walking down to k. */
  lemma {:induction false} AncestorOfAncestor(t: Tree, b: BlockId, h: nat, k: nat)
    requires Rooted(t) && b in t && k <= h <= t[b].height
    ensures AncestorAt(t, AncestorAt(t, b, h), k) == AncestorAt(t, b, k)
    decreases t[b].height
  {
    assert RootedAt(t, b);
    if h < t[b].height {
      AncestorOfAncestor(t, t[b].prev.value, h, k);
    }
  }

  /** The parent of the ancestor at height h is the ancestor at height h - 1. */
  lemma PrevOfAncestor(t: Tree, b: BlockId, h: nat)
    requires Rooted(t) && b in t && 0 < h <= t[b].height
    ensures t[AncestorAt(t, b, h)].prev == Some(AncestorAt(t, b, h - 1))
  {
    AncestorOfAncestor(t, b, h, h - 1);
    var a := AncestorAt(t, b, h);
    assert RootedAt(t, a);
    assert AncestorAt(t, a, h - 1) == AncestorAt(t, t[a].prev.value, h - 1);
  }

  lemma AncestorTransitive(t: Tree, a: BlockId, b: BlockId, c: BlockId)
    requires Rooted(t) && c in t && IsAncestor(t, b, c) && IsAncestor(t, a, b)
    ensures IsAncestor(t, a, c)
  {
    AncestorOfAncestor(t, c, t[b].height, t[a].height);
  }

  /** An ancestor has no more chain work, and strictly less unless it is the block itself. */
  lemma {:induction false} AncestorWork(t: Tree, b: BlockId, h: nat)
    requires Rooted(t) && b in t && h <= t[b].height
    ensures t[AncestorAt(t, b, h)].work <= t[b].work
    ensures h < t[b].height ==> t[AncestorAt(t, b, h)].work < t[b].work
    decreases t[b].height
  {
    assert RootedAt(t, b);
    if h < t[b].height {
      AncestorWork(t, t[b].prev.value, h);
    }
  }

  /** Adding a fresh entry changes no ancestor of the entries that were there. */
  lemma {:induction false} AncestorAfterInsert(t: Tree, n: BlockId, node: Node, b: BlockId, h: nat)
    requires Rooted(t) && n !in t && Rooted(t[n := node]) && b in t && h <= t[b].height
    ensures AncestorAt(t[n := node], b, h) == AncestorAt(t, b, h)
    decreases t[b].height
  {
    assert RootedAt(t, b);
    if h < t[b].height {
      AncestorAfterInsert(t, n, node, t[b].prev.value, h);
    }
  }

  // ----- The skip list (src/main.cpp, GetSkipHeight / GetAncestor / BuildSkip) -----

  /** Bitwise "and" of two non-negative integers, bit by bit from the lowest. */
  function And(a: nat, b: nat): (r: nat)
    ensures r <= a && r <= b
  {
    if a == 0 || b == 0 then 0
    else 2 * And(a / 2, b / 2) + (if a % 2 == 1 && b % 2 == 1 then 1 else 0)
  }

  /** n & (n - 1); for n == 0 the second operand is -1, all ones. */
  function InvertLowestOne(n: nat): nat {
    if n == 0 then 0 else And(n, n - 1)
  }

  function GetSkipHeight(height: int): (s: int)
    ensures height >= 1 ==> 0 <= s < height
    ensures height < 1 ==> s == 0
  {
    if height < 2 then 0
    else if height % 2 == 1 then InvertLowestOne(InvertLowestOne(height - 1)) + 1
    else InvertLowestOne(height)
  }

  /** Turning the lowest one bit off leaves a number that is even one place further up. */
  lemma {:induction false} InvertLowestOneClears(n: nat)
    requires n > 0
    ensures InvertLowestOne(n) == if n % 2 == 1 then n - 1 else 2 * InvertLowestOne(n / 2)
  {
    if n % 2 == 1 {
      AndSelf(n / 2);
    } else {
      assert (n - 1) / 2 == n / 2 - 1;
    }
  }

  lemma {:induction false} AndSelf(n: nat)
    ensures And(n, n) == n
  {
    if n > 0 { AndSelf(n / 2); }
  }

  /** The greatest power of two that divides n. */
  function LowestOne(n: nat): (l: nat)
    requires n > 0
    ensures 0 < l <= n
  {
    if n % 2 == 1 then 1 else 2 * LowestOne(n / 2)
  }

  lemma {:induction false} InvertedIsLess(n: nat)
    requires n > 0
    ensures InvertLowestOne(n) == n - LowestOne(n)
  {
    InvertLowestOneClears(n);
    if n % 2 == 0 { InvertedIsLess(n / 2); }
  }

  /**
   The skip height: an even height loses its lowest one bit, an odd one the lowest two above the last.
   Heights 0 and 1 go to 0.
   */
  lemma SkipHeightIs(n: nat)
    ensures n < 2 ==> GetSkipHeight(n) == 0
    ensures n >= 2 && n % 2 == 0 ==> GetSkipHeight(n) == n - LowestOne(n)
    ensures n >= 2 && n % 2 == 1 ==>
      var x := n - 1 - LowestOne(n - 1);
      GetSkipHeight(n) == if x == 0 then 1 else x - LowestOne(x) + 1
  {
    if n >= 2 && n % 2 == 0 { InvertedIsLess(n); }
    if n >= 2 && n % 2 == 1 {
      InvertedIsLess(n - 1);
      if InvertLowestOne(n - 1) > 0 { InvertedIsLess(InvertLowestOne(n - 1)); }
    }
  }

  /** An entry above genesis points back to its ancestor at the skip height. */
  ghost predicate SkipBuiltAt(t: Tree, b: BlockId)
    requires Rooted(t) && b in t
  {
    t[b].height > 0 ==> t[b].skip == Some(AncestorAt(t, b, GetSkipHeight(t[b].height)))
  }

  ghost predicate SkipsBuilt(t: Tree)
    requires Rooted(t)
  {
    forall b {:trigger SkipBuiltAt(t, b)} :: b in t ==> SkipBuiltAt(t, b)
  }

  /**
   CBlockIndex::GetAncestor.  Every pointer the loop follows is non-null, and the entry it ends on
   is the one that walking pprev would reach; None is the NULL answer for a height out of range.
   */
  method GetAncestor(t: Tree, b: BlockId, height: int) returns (a: Option<BlockId>)
    requires Rooted(t) && SkipsBuilt(t) && b in t
    ensures height < 0 || height > t[b].height ==> a == None
    ensures 0 <= height <= t[b].height ==> a == Some(AncestorAt(t, b, height))
  {
    if height > t[b].height || height < 0 {
      return None;
    }
    var indexWalk := b;
    var heightWalk := t[b].height;
    while heightWalk > height
      invariant height <= heightWalk <= t[b].height
      invariant indexWalk == AncestorAt(t, b, heightWalk)
    {
      var heightSkip := GetSkipHeight(heightWalk);
      var heightSkipPrev := GetSkipHeight(heightWalk - 1);
      if heightSkip == height ||
         (heightSkip > height && !(heightSkipPrev < heightSkip - 2 && heightSkipPrev >= height))
      {
        AncestorOfAncestor(t, b, heightWalk, heightSkip);
        assert SkipBuiltAt(t, indexWalk);
        indexWalk := t[indexWalk].skip.value;
        heightWalk := heightSkip;
      } else {
        PrevOfAncestor(t, b, heightWalk);
        indexWalk := t[indexWalk].prev.value;
        heightWalk := heightWalk - 1;
      }
    }
    return Some(indexWalk);
  }

  /** CBlockIndex::BuildSkip for an entry about to be inserted under prev: what pskip becomes. */
  method BuildSkip(t: Tree, prev: BlockId) returns (skip: Option<BlockId>)
    requires Rooted(t) && SkipsBuilt(t) && prev in t
    ensures skip == Some(AncestorAt(t, prev, GetSkipHeight(t[prev].height + 1)))
  {
    skip := GetAncestor(t, prev, GetSkipHeight(t[prev].height + 1));
  }

  /** The entry AddToBlockIndex creates keeps the tree rooted and the skip list built. */
  lemma InsertKeepsTree(t: Tree, n: BlockId, node: Node)
    requires Rooted(t) && SkipsBuilt(t) && n !in t
    requires node.prev.Some? && node.prev.value in t
    requires node.height == t[node.prev.value].height + 1 && t[node.prev.value].work < node.work
    requires node.skip == Some(AncestorAt(t, node.prev.value, GetSkipHeight(node.height)))
    ensures Rooted(t[n := node]) && SkipsBuilt(t[n := node])
  {
    var t' := t[n := node];
    forall b | b in t' ensures RootedAt(t', b) {
      assert b != n ==> RootedAt(t, b);
    }
    forall b | b in t' ensures SkipBuiltAt(t', b) {
      if b == n {
        AncestorAfterInsert(t, n, node, node.prev.value, GetSkipHeight(node.height));
      } else if t[b].height > 0 {
        assert SkipBuiltAt(t, b);
        AncestorAfterInsert(t, n, node, b, GetSkipHeight(t[b].height));
      }
    }
  }
}
