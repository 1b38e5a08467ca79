/** CChain: the active chain as a vector of entries indexed by height (src/chain.h, src/chain.cpp). */
module ActiveChain {
  import opened Wrappers
  import opened Positional
  import opened BlockTree

  /** c is exactly the pprev path from genesis to tip. */
  ghost predicate PathOf(t: Tree, c: seq<Option<BlockId>>, tip: BlockId)
    requires Rooted(t) && tip in t
  {
    |c| == t[tip].height + 1 && forall h :: 0 <= h < |c| ==> c[h] == Some(AncestorAt(t, tip, h))
  }

  ghost predicate WellFormed(t: Tree, c: seq<Option<BlockId>>)
    requires Rooted(t)
  {
    c == [] || (c[|c| - 1].Some? && c[|c| - 1].value in t && PathOf(t, c, c[|c| - 1].value))
  }

  /** operator[]: null outside the vector. */
  function At(c: seq<Option<BlockId>>, height: int): Option<BlockId> {
    if height < 0 || height >= |c| then None else c[height]
  }

  predicate In(t: Tree, c: seq<Option<BlockId>>, b: BlockId)
    requires b in t
  {
    At(c, t[b].height) == Some(b)
  }

  /** A chain contains exactly the ancestors of its tip. */
  lemma ContainsAncestors(t: Tree, c: seq<Option<BlockId>>, tip: BlockId, b: BlockId)
    requires Rooted(t) && tip in t && PathOf(t, c, tip) && b in t
    ensures In(t, c, b) <==> IsAncestor(t, b, tip)
  {
  }

  /** Two paths that share a block share everything below it. */
  lemma SharedBelow(t: Tree, a: BlockId, b: BlockId, h: nat, k: nat)
    requires Rooted(t) && a in t && b in t && k <= h <= t[a].height && h <= t[b].height
    requires AncestorAt(t, a, h) == AncestorAt(t, b, h)
    ensures AncestorAt(t, a, k) == AncestorAt(t, b, k)
  {
    AncestorOfAncestor(t, a, h, k);
    AncestorOfAncestor(t, b, h, k);
  }

  /** A path is still that path after a fresh entry is added to the tree. */
  lemma PathAfterInsert(t: Tree, n: BlockId, node: Node, c: seq<Option<BlockId>>, tip: BlockId)
    requires Rooted(t) && n !in t && Rooted(t[n := node]) && tip in t && PathOf(t, c, tip)
    ensures PathOf(t[n := node], c, tip)
  {
    forall h | 0 <= h < |c| ensures c[h] == Some(AncestorAt(t[n := node], tip, h)) {
      AncestorAfterInsert(t, n, node, tip, h);
    }
  }

  class CChain {
    var vChain: seq<Option<BlockId>>

    constructor ()
      ensures vChain == []
    {
      vChain := [];
    }

    function Tip(): Option<BlockId>
      reads this
    {
      if |vChain| < 1 then None else vChain[|vChain| - 1]
    }

    function Height(): int
      reads this
    {
      |vChain| - 1
    }

    predicate Contains(t: Tree, b: BlockId)
      requires b in t
      reads this
    {
      In(t, vChain, b)
    }

    /**
     CChain::SetTip.  The loop stops at the first slot that already holds the right entry; from any
     well-formed chain that is enough to leave exactly the path of the new tip.
     */
    method SetTip(t: Tree, tip: Option<BlockId>)
      requires Rooted(t) && WellFormed(t, vChain)
      requires tip.Some? ==> tip.value in t
      modifies this
      ensures tip == None ==> vChain == []
      ensures tip.Some? ==> PathOf(t, vChain, tip.value)
    {
      if tip == None {
        vChain := [];
        return;
      }
      ghost var before := vChain;
      var size := t[tip.value].height + 1;
      if size <= |vChain| {
        vChain := vChain[..size];
      } else {
        vChain := vChain + seq(size - |vChain|, _ => None);
      }
      ghost var resized := vChain;
      var index := tip;
      while index.Some? && vChain[t[index.value].height] != index
        invariant |vChain| == size
        invariant index.Some? ==> index.value in t && t[index.value].height < size
        invariant index.Some? ==> index.value == AncestorAt(t, tip.value, t[index.value].height)
        invariant forall h {:trigger vChain[h]} :: (if index.Some? then t[index.value].height else -1) < h < size ==>
          vChain[h] == Some(AncestorAt(t, tip.value, h))
        invariant forall h {:trigger vChain[h]} :: 0 <= h <= (if index.Some? then t[index.value].height else -1) ==>
          vChain[h] == resized[h]
        decreases if index.Some? then t[index.value].height + 1 else 0
      {
        assert RootedAt(t, index.value);
        if t[index.value].height > 0 {
          PrevOfAncestor(t, tip.value, t[index.value].height);
        }
        vChain := vChain[t[index.value].height := index];
        index := t[index.value].prev;
      }
      if index.Some? {
        var stop := t[index.value].height;
        assert before[stop] == index;
        var oldTip := before[|before| - 1].value;
        forall h | 0 <= h <= stop ensures vChain[h] == Some(AncestorAt(t, tip.value, h)) {
          SharedBelow(t, oldTip, tip.value, stop, h);
        }
      }
    }

    /** CChain::FindFork: the highest block common to this chain and the ancestry of b. */
    method FindFork(t: Tree, b: BlockId) returns (fork: Option<BlockId>)
      requires Rooted(t) && SkipsBuilt(t) && WellFormed(t, vChain) && b in t
      ensures fork.Some? ==> IsAncestor(t, fork.value, b) && Contains(t, fork.value)
      ensures forall h :: (if fork.Some? then t[fork.value].height else -1) < h <= t[b].height ==>
        At(vChain, h) != Some(AncestorAt(t, b, h))
    {
      fork := Some(b);
      if t[b].height > Height() {
        fork := GetAncestor(t, b, Height());
      }
      while fork.Some? && !Contains(t, fork.value)
        invariant fork.Some? ==> IsAncestor(t, fork.value, b)
        invariant forall h :: (if fork.Some? then t[fork.value].height else -1) < h <= t[b].height ==>
          At(vChain, h) != Some(AncestorAt(t, b, h))
        decreases if fork.Some? then t[fork.value].height + 1 else 0
      {
        assert RootedAt(t, fork.value);
        if t[fork.value].height > 0 {
          PrevOfAncestor(t, b, t[fork.value].height);
        }
        fork := t[fork.value].prev;
      }
    }

    /** CChain::GetLocator: the locator of b, or of the tip when b is null. */
    method GetLocator(t: Tree, b: Option<BlockId>) returns (have: seq<BlockId>)
      requires Rooted(t) && SkipsBuilt(t) && WellFormed(t, vChain)
      requires b.Some? ==> b.value in t
      ensures var start := if b.Some? then b else Tip();
        (start.Some? ==> start.value in t) &&
        have == if start.Some? then Locator(t, start.value) else []
    {
      hide Rooted, SkipsBuilt, WellFormed, LocatorFrom, AncestorAt;
      have := [];
      var index := if b.Some? then b else Tip();
      if index == None {
        return;
      }
      ghost var start := index.value;
      StartsInTree(t, vChain, start);
      var step := 1;
      while true
        invariant step > 0
        invariant index.Some? && IsAncestor(t, index.value, start)
        invariant have + LocatorFrom(t, start, t[index.value].height, step, |have|) == Locator(t, start)
        decreases t[index.value].height
      {
        var h: int := t[index.value].height;
        LocatorStep(t, start, h, step, have);
        assert have + [index.value] + [] == have + [index.value];
        have := have + [index.value];
        if h == 0 {
          break;
        }
        var height: int := Max(h - step, 0);
        AncestorOfAncestor(t, start, h, height);
        index := StepBack(t, index.value, height);
        if |have| > 10 {
          step := step * 2;
        }
      }
    }

    /** One step of GetLocator: the O(1) chain index when it applies, the skip list otherwise. */
    method StepBack(t: Tree, b: BlockId, height: nat) returns (a: Option<BlockId>)
      requires Rooted(t) && SkipsBuilt(t) && WellFormed(t, vChain)
      requires b in t && height <= t[b].height
      ensures a == Some(AncestorAt(t, b, height))
    {
      if Contains(t, b) {
        SharedBelow(t, vChain[|vChain| - 1].value, b, t[b].height, height);
        a := At(vChain, height);
      } else {
        a := GetAncestor(t, b, height);
      }
    }
  }

  lemma StartsInTree(t: Tree, c: seq<Option<BlockId>>, b: BlockId)
    requires Rooted(t) && WellFormed(t, c) && (b in t || (c != [] && c[|c| - 1] == Some(b)))
    ensures b in t && IsAncestor(t, b, b)
  {
  }

  // ----- Locators -----

  /** Heights of the entries from h on, when size entries were pushed before and nStep is step. */
  function LocatorHeights(h: nat, step: nat, size: nat): (s: seq<nat>)
    requires step > 0
    ensures |s| > 0 && s[0] == h
    ensures forall i :: 0 <= i < |s| ==> s[i] <= h
    decreases h
  {
    if h == 0 then [0]
    else [h] + LocatorHeights(Max(h - step, 0), if size + 1 > 10 then step * 2 else step, size + 1)
  }

  /** The entries from height h on of a locator that starts at b. */
  ghost function LocatorFrom(t: Tree, b: BlockId, h: nat, step: nat, size: nat): (s: seq<BlockId>)
    requires Rooted(t) && b in t && h <= t[b].height && step > 0
    ensures |s| == |LocatorHeights(h, step, size)|
    ensures forall i :: 0 <= i < |s| ==> s[i] == AncestorAt(t, b, LocatorHeights(h, step, size)[i])
    decreases h
  {
    if h == 0 then [AncestorAt(t, b, 0)]
    else
      var rest := LocatorFrom(t, b, Max(h - step, 0), if size + 1 > 10 then step * 2 else step, size + 1);
      [AncestorAt(t, b, h)] + rest
  }

  lemma LocatorStep(t: Tree, b: BlockId, h: nat, step: nat, pushed: seq<BlockId>)
    requires Rooted(t) && b in t && h <= t[b].height && step > 0
    ensures var next := if |pushed| + 1 > 10 then step * 2 else step;
      pushed + LocatorFrom(t, b, h, step, |pushed|)
      == pushed + [AncestorAt(t, b, h)] +
         if h == 0 then [] else LocatorFrom(t, b, Max(h - step, 0), next, |pushed| + 1)
  {
  }

  ghost function Locator(t: Tree, b: BlockId): seq<BlockId>
    requires Rooted(t) && b in t
  {
    LocatorFrom(t, b, t[b].height, 1, 0)
  }

  /** Where the construction of a locator stands: o blocks below its start, with size entries pushed. */
  ghost predicate LocatorAt(o: nat, step: nat, size: nat) {
    if size <= 10 then o == size && step == 1 else o == 9 + step && step >= 2
  }

  /** The place of the highest one bit. */
  function Log2(n: nat): (l: nat)
    requires n > 0
    ensures Pow(2, l) <= n < Pow(2, l + 1)
  {
    if n == 1 then 0 else 1 + Log2(n / 2)
  }

  lemma {:induction false} Log2AtLeast(n: nat, k: nat)
    requires Pow(2, k) <= n
    ensures Log2(n) >= k
  {
    if k > 0 { Log2AtLeast(n / 2, k - 1); }
  }

  /** A locator strictly descends and ends at genesis. */
  lemma {:induction false} LocatorDescends(h: nat, step: nat, size: nat)
    requires step > 0
    ensures var s := LocatorHeights(h, step, size);
      s[|s| - 1] == 0 && forall i, j :: 0 <= i < j < |s| ==> s[i] > s[j]
    decreases h
  {
    if h > 0 {
      LocatorDescends(Max(h - step, 0), if size + 1 > 10 then step * 2 else step, size + 1);
    }
  }

  /** A locator from height top >= 1 has at most 12 + floor(log2 top) entries. */
  lemma LocatorIsShort(top: nat)
    requires top >= 1
    ensures |LocatorHeights(top, 1, 0)| <= 12 + Log2(top)
  {
    LocatorLength(top, top, 1, 0);
  }

  lemma {:induction false} LocatorLength(top: nat, h: nat, step: nat, size: nat)
    requires 1 <= top && h <= top && step > 0
    requires size <= 10 ==> top - h == size && step == 1
    requires size > 10 ==> step == Pow(2, size - 10) && (h > 0 ==> top - h == 9 + step)
    requires size > 11 && h == 0 ==> Pow(2, size - 11) <= top
    ensures size + |LocatorHeights(h, step, size)| <= 12 + Log2(top)
    decreases h
  {
    if h == 0 {
      if size > 11 { Log2AtLeast(top, size - 11); }
    } else {
      LocatorLength(top, Max(h - step, 0), if size + 1 > 10 then step * 2 else step, size + 1);
    }
  }
}
