/** The block index run on real coins: after any run the coins are those of the tip's own path (src/main.cpp). */
module LedgerRuns {
  import opened Wrappers
  import opened BlockTree
  import opened TipWalk
  import opened Coins
  import opened CoinsStack
  import opened Utxo
  import opened UtxoBlocks
  import opened Ledgers
  import ChainModel
  import ChainRuns
  import ChainState

  // ----- Connecting does not look at coinstake marks -----

  /** The coins v are u without some coinstake marks. */
  ghost predicate UpToMarks(u: Map, v: Map) {
    exists s: set<Txid> :: v == Destaked(u, s)
  }

  function WithoutMark(c: CCoins, unmark: bool): CCoins {
    if unmark then c.(coinStake := false) else c
  }

  lemma SpendUnmarked(c: CCoins, n: nat, unmark: bool)
    requires c.IsAvailable(n)
    ensures SpentCoins(WithoutMark(c, unmark), n) == WithoutMark(SpentCoins(c, n), unmark)
    ensures SameUndo(SpendUndo(WithoutMark(c, unmark), n), SpendUndo(c, n))
  {
  }

  lemma PutUnmarked(u: Map, s: set<Txid>, t: Txid, c: CCoins)
    ensures Put(Destaked(u, s), t, WithoutMark(c, t in s)) == Destaked(Put(u, t, c), s)
    ensures Put(Destaked(u, s), t, c) == Destaked(Put(u, t, c), s - {t})
  {
    SameMap(Put(Destaked(u, s), t, WithoutMark(c, t in s)), Destaked(Put(u, t, c), s));
    SameMap(Put(Destaked(u, s), t, c), Destaked(Put(u, t, c), s - {t}));
  }

  lemma SpendOneUnmarked(u: Map, s: set<Txid>, out: OutPoint)
    ensures CanSpend(Destaked(u, s), out) == CanSpend(u, out)
    ensures CanSpend(u, out) ==> SpendFrom(Destaked(u, s), out) == Destaked(SpendFrom(u, out), s)
    ensures CanSpend(u, out) ==>
      SameUndo(SpendUndo(Destaked(u, s)[out.hash], out.n), SpendUndo(u[out.hash], out.n))
  {
    hide SpentCoins, SpendUndo, SameUndo, Put;
    if out.hash in u && u[out.hash].IsAvailable(out.n) {
      SpendUnmarked(u[out.hash], out.n, out.hash in s);
      PutUnmarked(u, s, out.hash, SpentCoins(u[out.hash], out.n));
    }
  }

  lemma {:induction false} SpendAllUnmarked(u: Map, s: set<Txid>, vin: seq<OutPoint>, i: nat)
    requires i <= |vin|
    ensures SpendAll(Destaked(u, s), vin, i).0 == Destaked(SpendAll(u, vin, i).0, s)
    ensures SameList(SpendAll(Destaked(u, s), vin, i).1, SpendAll(u, vin, i).1)
    decreases i
  {
    hide CanSpend, SpendFrom, SpendUndo, SameUndo, Destaked;
    if i > 0 {
      SpendAllUnmarked(u, s, vin, i - 1);
      SpendOneUnmarked(SpendAll(u, vin, i - 1).0, s, vin[i - 1]);
    }
  }

  lemma ApplyTxUnmarked(u: Map, s: set<Txid>, tx: Tx, height: int)
    ensures ApplyTx(Destaked(u, s), tx, height).0 == Destaked(ApplyTx(u, tx, height).0, s - {tx.id})
    ensures SameList(ApplyTx(Destaked(u, s), tx, height).1, ApplyTx(u, tx, height).1)
  {
    hide SpendAll, Put, FromTx, Destaked, SameList;
    SpendAllUnmarked(u, s, Inputs(tx), |Inputs(tx)|);
    PutUnmarked(Spent(u, tx).0, s, tx.id, FromTx(tx, height));
  }

  lemma {:induction false} ApplyAllUnmarked(u: Map, s: set<Txid>, txs: seq<Tx>, height: int, i: nat)
    requires i <= |txs|
    ensures ApplyAll(Destaked(u, s), txs, height, i).0 == Destaked(ApplyAll(u, txs, height, i).0, s - Ids(txs, i))
    ensures SameUndos(ApplyAll(Destaked(u, s), txs, height, i).1, ApplyAll(u, txs, height, i).1)
    decreases i
  {
    hide ApplyTx, Destaked, SameList;
    if i == 0 {
      assert s - Ids(txs, 0) == s;
    } else {
      ApplyAllUnmarked(u, s, txs, height, i - 1);
      ApplyTxUnmarked(ApplyAll(u, txs, height, i - 1).0, s - Ids(txs, i - 1), txs[i - 1], height);
      assert s - Ids(txs, i - 1) - {txs[i - 1].id} == s - Ids(txs, i);
    }
  }

  // ----- The coins of a path -----

  /** The coins after the blocks from genesis up to b were connected in order. */
  ghost function CoinsOf(t: Tree, bodies: BlockId -> Body, start: Map, b: BlockId): Map
    requires Rooted(t) && b in t
    decreases t[b].height
  {
    assert RootedAt(t, b);
    if t[b].prev == None then start
    else BlockConnected(CoinsOf(t, bodies, start, t[b].prev.value), bodies(b).txs, bodies(b).height).0
  }

  /** ConnectBlock accepts b and all its ancestors but genesis. */
  ghost predicate GoodPath(t: Tree, good: BlockId -> bool, b: BlockId)
    requires Rooted(t) && b in t
    decreases t[b].height
  {
    assert RootedAt(t, b);
    t[b].prev.Some? ==> good(b) && GoodPath(t, good, t[b].prev.value)
  }

  ghost predicate FitsIn(t: Tree, bodies: BlockId -> Body, start: Map, b: BlockId)
    requires Rooted(t) && b in t
  {
    assert RootedAt(t, b);
    t[b].prev.Some? ==> Fits(CoinsOf(t, bodies, start, t[b].prev.value), bodies(b).txs, bodies(b).height)
  }

  /** What ConnectBlock accepts finds its inputs. */
  ghost predicate GoodFits(t: Tree, good: BlockId -> bool, bodies: BlockId -> Body, start: Map)
    requires Rooted(t)
  {
    forall b {:trigger FitsIn(t, bodies, start, b)} :: b in t && GoodPath(t, good, b) ==> FitsIn(t, bodies, start, b)
  }

  ghost predicate UndoFits(t: Tree, good: BlockId -> bool, bodies: BlockId -> Body, start: Map, l: Ledger, a: BlockId)
    requires Rooted(t) && a in l.undo
  {
    && a in t && t[a].prev.Some? && t[a].prev.value in t && GoodPath(t, good, a)
    && SameUndos(l.undo[a],
                 BlockConnected(CoinsOf(t, bodies, start, t[a].prev.value), bodies(a).txs, bodies(a).height).1)
  }

  /** The ledger is the one of b's path, up to coinstake marks; so is the undo data it holds. */
  ghost predicate LedgerOf(t: Tree, good: BlockId -> bool, bodies: BlockId -> Body, start: Map, l: Ledger, b: BlockId)
    requires Rooted(t) && b in t
  {
    && GoodPath(t, good, b) && UpToMarks(CoinsOf(t, bodies, start, b), l.coins)
    && forall a {:trigger UndoFits(t, good, bodies, start, l, a)} :: a in l.undo ==>
         UndoFits(t, good, bodies, start, l, a)
  }

  lemma UpKeeps(t: Tree, good: BlockId -> bool, bodies: BlockId -> Body, start: Map, l: Ledger, b: BlockId, d: BlockId)
    requires Rooted(t) && b in t && LedgerOf(t, good, bodies, start, l, b) && d in t && t[d].prev == Some(b) && good(d)
    ensures LedgerOf(t, good, bodies, start, Connect(bodies, l, d), d)
  {
    hide ApplyAll, SameUndos, Destaked;
    var u := CoinsOf(t, bodies, start, b);
    var s :| l.coins == Destaked(u, s);
    var body := bodies(d);
    ApplyAllUnmarked(u, s, body.txs, body.height, |body.txs|);
    var l' := Connect(bodies, l, d);
    assert l'.coins == Destaked(CoinsOf(t, bodies, start, d), s - Ids(body.txs, |body.txs|));
    forall a | a in l'.undo ensures UndoFits(t, good, bodies, start, l', a) {
      if a in l.undo { assert UndoFits(t, good, bodies, start, l, a); }
    }
  }

  lemma DownKeeps(t: Tree, good: BlockId -> bool, bodies: BlockId -> Body, start: Map, l: Ledger, b: BlockId)
    requires Rooted(t) && b in t && LedgerOf(t, good, bodies, start, l, b) && GoodFits(t, good, bodies, start)
    requires t[b].prev.Some? && Disconnect(bodies, l, b).Some?
    ensures t[b].prev.value in t && LedgerOf(t, good, bodies, start, Disconnect(bodies, l, b).value, t[b].prev.value)
  {
    hide ApplyAll, SameUndos, Destaked, DisconnectAll, SizesMatch, Fits, Lost;
    assert RootedAt(t, b) && UndoFits(t, good, bodies, start, l, b) && FitsIn(t, bodies, start, b);
    var u, body := CoinsOf(t, bodies, start, t[b].prev.value), bodies(b);
    var (u', undos) := BlockConnected(u, body.txs, body.height);
    var s :| l.coins == Destaked(u', s);
    DisconnectAfter(u, body.txs, body.height, s);
    DisconnectAllAlike(Restored(l.coins, true, true), body.txs, l.undo[b], undos, body.height, |body.txs|);
    var l' := Disconnect(bodies, l, b).value;
    assert l'.coins == Destaked(u, Lost(u, u', s));
    forall a | a in l'.undo ensures UndoFits(t, good, bodies, start, l', a) {
      assert UndoFits(t, good, bodies, start, l, a);
    }
  }

  /** Whatever moves the tip made. */
  lemma {:induction false} ReplayKeeps(t: Tree, good: BlockId -> bool, bodies: BlockId -> Body,
                                       connect: (Ledger, BlockId) -> Ledger, undo: (Ledger, BlockId) -> Option<Ledger>,
                                       start: Map, genesis: BlockId, trail: seq<Move>)
    requires Rooted(t) && genesis in t && t[genesis].prev == None && GoodFits(t, good, bodies, start)
    requires forall l, b :: connect(l, b) == Connect(bodies, l, b) && undo(l, b) == Disconnect(bodies, l, b)
    ensures var x := Replay(t, good, connect, undo, (Ledger(start, map[]), genesis), trail);
      x.Some? ==> x.value.1 in t && LedgerOf(t, good, bodies, start, x.value.0, x.value.1)
    decreases |trail|
  {
    hide LedgerOf, GoodFits, Connect, Disconnect, Rooted;
    var first := (Ledger(start, map[]), genesis);
    if trail == [] {
      StartsOut(t, good, bodies, start, genesis);
    } else {
      var before, m := trail[..|trail| - 1], trail[|trail| - 1];
      ReplayKeeps(t, good, bodies, connect, undo, start, genesis, before);
      var x := Replay(t, good, connect, undo, first, before);
      if MoveOn(t, good, connect, undo, x, m).Some? {
        var (l, b) := x.value;
        match m
        case Up(d) => UpKeeps(t, good, bodies, start, l, b, d);
        case Down => DownKeeps(t, good, bodies, start, l, b);
      }
    }
  }

  lemma StartsOut(t: Tree, good: BlockId -> bool, bodies: BlockId -> Body, start: Map, genesis: BlockId)
    requires Rooted(t) && genesis in t && t[genesis].prev == None
    ensures LedgerOf(t, good, bodies, start, Ledger(start, map[]), genesis)
  {
    Unmarked(start);
    assert Ledger(start, map[]).coins == Destaked(start, {});
  }

  /**
   Any run from the genesis block on, with searches cut short, failed invalidations and whatever else
   happens in it: the coins are those of the tip's own path, up to coinstake marks lost on the way.
   */
  method RunOnLedgers(genesis: BlockId, work: nat, nTx: nat, good: BlockId -> bool, bodies: BlockId -> Body, start: Map,
                      ops: seq<ChainRuns.Op>)
    returns (c: ChainState.Chainstate<Ledger>, oks: seq<bool>)
    requires nTx > 0 && good(genesis)
    ensures c.Repr() && ChainModel.Shaped(c.S())
    ensures GoodFits(c.tree, good, bodies, start) ==>
      UpToMarks(CoinsOf(c.tree, bodies, start, c.S().tip), c.coins.coins)
  {
    hide Connect, Disconnect, Replay, CoinsOf, GoodPath;
    var connect := (l: Ledger, b: BlockId) => Connect(bodies, l, b);
    var disconnect := (l: Ledger, b: BlockId) => Disconnect(bodies, l, b);
    c, oks := ChainRuns.RunFromGenesis(genesis, work, nTx, good, Ledger(start, map[]), connect, disconnect, ops);
    if GoodFits(c.tree, good, bodies, start) {
      ReplayKeeps(c.tree, good, bodies, connect, disconnect, start, genesis, c.trail);
    }
  }
}
