/**
 The coins under a chain of blocks: how far back it can be disconnected (src/main.cpp, DisconnectTip
 and DisconnectBlock).  Undo data is written when a block is connected for the first time and stays.
 */
module Ledgers {
  import opened Wrappers
  import opened BlockTree
  import opened TipWalk
  import opened Coins
  import opened Utxo
  import opened UtxoBlocks

  datatype Ledger = Ledger(coins: Map, undo: map<BlockId, seq<seq<Undo>>>)

  datatype Body = Body(txs: seq<Tx>, height: int)

  // ----- Undo data that undoes alike -----

  /** Equal but for fCoinStake, which is written and never read. */
  predicate SameUndo(a: Undo, b: Undo) {
    a.(coinStake := false) == b.(coinStake := false)
  }

  predicate SameList(a: seq<Undo>, b: seq<Undo>) {
    |a| == |b| && forall j {:trigger a[j]} {:trigger b[j]} :: 0 <= j < |a| ==> SameUndo(a[j], b[j])
  }

  predicate SameUndos(a: seq<seq<Undo>>, b: seq<seq<Undo>>) {
    |a| == |b| && forall i {:trigger a[i]} {:trigger b[i]} :: 0 <= i < |a| ==> SameList(a[i], b[i])
  }

  lemma RestoreAlike(r: Restored, out: OutPoint, a: Undo, b: Undo)
    requires SameUndo(a, b)
    ensures RestoreOne(r, out, a) == RestoreOne(r, out, b)
  {
    assert a.txout == b.txout && a.coinBase == b.coinBase && a.height == b.height && a.version == b.version;
  }

  lemma {:induction false} RestoreAllAlike(r: Restored, vin: seq<OutPoint>, a: seq<Undo>, b: seq<Undo>, i: nat)
    requires i <= |vin| && i <= |a| && SameList(a, b)
    ensures RestoreAll(r, vin, a, i) == RestoreAll(r, vin, b, i)
    decreases i
  {
    hide RestoreOne, SameUndo;
    if i > 0 {
      assert SameUndo(a[i - 1], b[i - 1]);
      RestoreAlike(r, vin[i - 1], a[i - 1], b[i - 1]);
      RestoreAllAlike(RestoreOne(r, vin[i - 1], a[i - 1]), vin, a, b, i - 1);
    }
  }

  lemma DisconnectTxAlike(r: Restored, tx: Tx, a: seq<Undo>, b: seq<Undo>, height: int)
    requires SameList(a, b)
    ensures DisconnectTx(r, tx, a, height) == DisconnectTx(r, tx, b, height)
  {
    hide SameList, RestoreAll, SameCoins, FoundOutputs, FromTx, Seen;
    assert |a| == |b| by { SameSize(a, b); }
    if |a| == |Inputs(tx)| {
      var ok := SameCoins(FoundOutputs(Seen(r.u, tx.id), tx), FromTx(tx, height));
      RestoreAllAlike(Restored(r.u - {tx.id}, r.clean && ok, r.known), Inputs(tx), a, b, |a|);
    }
  }

  lemma SameSize(a: seq<Undo>, b: seq<Undo>)
    requires SameList(a, b)
    ensures |a| == |b|
  {
  }

  lemma {:induction false} DisconnectAllAlike(r: Restored, txs: seq<Tx>, a: seq<seq<Undo>>, b: seq<seq<Undo>>,
                                              height: int, i: nat)
    requires i <= |txs| && i <= |a| && SameUndos(a, b)
    ensures DisconnectAll(r, txs, a, height, i) == DisconnectAll(r, txs, b, height, i)
    ensures SizesMatch(txs, a, i) == SizesMatch(txs, b, i)
    decreases i
  {
    hide DisconnectTx, SameList;
    if i > 0 {
      assert SameList(a[i - 1], b[i - 1]);
      SameSize(a[i - 1], b[i - 1]);
      DisconnectTxAlike(r, txs[i - 1], a[i - 1], b[i - 1], height);
      DisconnectAllAlike(DisconnectTx(r, txs[i - 1], a[i - 1], height), txs, a, b, height, i - 1);
      DisconnectAllAlike(r, txs, a, b, height, i - 1);
    }
  }

  // ----- Connecting and disconnecting the tip -----

  /** ConnectTip on the coins; undo data is written unless the block has some. */
  function Connect(bodies: BlockId -> Body, l: Ledger, b: BlockId): Ledger {
    var (u, undos) := BlockConnected(l.coins, bodies(b).txs, bodies(b).height);
    Ledger(u, if b in l.undo then l.undo else l.undo[b := undos])
  }

  /** DisconnectTip on the coins: the block is undone, unless its undo data does not fit it or it is not clean. */
  function Disconnect(bodies: BlockId -> Body, l: Ledger, b: BlockId): Option<Ledger> {
    var body := bodies(b);
    if b in l.undo && |l.undo[b]| == |body.txs| && SizesMatch(body.txs, l.undo[b], |body.txs|) then
      var r := BlockDisconnected(l.coins, body.txs, l.undo[b], body.height);
      if r.clean then Some(l.(coins := r.u)) else None
    else None
  }

  /** The ledger after the first i blocks above path[0] were connected. */
  function After(bodies: BlockId -> Body, l: Ledger, path: seq<BlockId>, i: nat): Ledger
    requires i < |path|
    decreases i
  {
    if i == 0 then l else Connect(bodies, After(bodies, l, path, i - 1), path[i])
  }

  ghost predicate FitsAt(bodies: BlockId -> Body, l: Ledger, path: seq<BlockId>, i: nat)
    requires 0 < i < |path|
  {
    Fits(After(bodies, l, path, i - 1).coins, bodies(path[i]).txs, bodies(path[i]).height)
  }

  /** A chain of blocks, each the child of the one before, connected in good order, for the first time or again. */
  ghost predicate Chained(t: Tree, bodies: BlockId -> Body, l: Ledger, path: seq<BlockId>) {
    && Rooted(t) && path != [] && path[0] in t
    && (forall i {:trigger path[i]} :: 0 < i < |path| ==> path[i] in t && t[path[i]].prev == Some(path[i - 1]))
    && (forall i {:trigger FitsAt(bodies, l, path, i)} :: 0 < i < |path| ==> FitsAt(bodies, l, path, i))
    && (forall i {:trigger UndoAt(bodies, l, path, l, i)} :: 0 < i < |path| ==>
          path[i] in l.undo ==> UndoAt(bodies, l, path, l, i))
  }

  /** The undo data of block i is the one that connecting it gives. */
  ghost predicate UndoAt(bodies: BlockId -> Body, l: Ledger, path: seq<BlockId>, m: Ledger, i: nat)
    requires 0 < i < |path|
  {
    path[i] in m.undo &&
    SameUndos(m.undo[path[i]],
              BlockConnected(After(bodies, l, path, i - 1).coins, bodies(path[i]).txs, bodies(path[i]).height).1)
  }

  /** The coinstakes of block i. */
  function Stakes(bodies: BlockId -> Body, path: seq<BlockId>, i: nat): set<Txid>
    requires i < |path|
  {
    StakeIds(bodies(path[i]).txs, bodies(path[i]).height, |bodies(path[i]).txs|)
  }

  /** Entries present after block i that some block above it used up. */
  function Gone(bodies: BlockId -> Body, l: Ledger, path: seq<BlockId>, i: nat): set<Txid>
    requires i < |path|
    decreases |path| - i
  {
    if i == |path| - 1 then {}
    else Lost(After(bodies, l, path, i).coins, After(bodies, l, path, i + 1).coins, Gone(bodies, l, path, i + 1))
  }

  /** No coinstake of block i was used up by the end of the chain. */
  ghost predicate StakesLast(bodies: BlockId -> Body, l: Ledger, path: seq<BlockId>, i: nat)
    requires i < |path|
  {
    forall j {:trigger After(bodies, l, path, j)} :: i <= j < |path| ==>
      Stakes(bodies, path, i) <= After(bodies, l, path, j).coins.Keys
  }

  ghost predicate Absent(bodies: BlockId -> Body, l: Ledger, path: seq<BlockId>, j: nat, x: Txid)
    requires j < |path|
  {
    x !in After(bodies, l, path, j).coins
  }

  lemma {:induction false} GoneMeans(bodies: BlockId -> Body, l: Ledger, path: seq<BlockId>, i: nat, x: Txid)
    requires i < |path|
    ensures x in Gone(bodies, l, path, i) ==> exists j :: i <= j < |path| && Absent(bodies, l, path, j, x)
    ensures !Absent(bodies, l, path, i, x) && (exists j :: i <= j < |path| && Absent(bodies, l, path, j, x)) ==>
      x in Gone(bodies, l, path, i)
    decreases |path| - i
  {
    hide After;
    if i < |path| - 1 {
      GoneMeans(bodies, l, path, i + 1, x);
      assert Absent(bodies, l, path, i, x) || !Absent(bodies, l, path, i, x);
      assert Absent(bodies, l, path, i + 1, x) || !Absent(bodies, l, path, i + 1, x);
    }
  }

  lemma LastIffIntact(bodies: BlockId -> Body, l: Ledger, path: seq<BlockId>, i: nat)
    requires i < |path|
    ensures StakesLast(bodies, l, path, i) <==>
      Stakes(bodies, path, i) <= After(bodies, l, path, i).coins.Keys - Gone(bodies, l, path, i)
  {
    hide After, Gone, Stakes;
    forall x | x in Stakes(bodies, path, i)
      ensures (x in After(bodies, l, path, i).coins.Keys - Gone(bodies, l, path, i))
        <==> forall j :: i <= j < |path| ==> !Absent(bodies, l, path, j, x)
    {
      GoneMeans(bodies, l, path, i, x);
      assert Absent(bodies, l, path, i, x) || !Absent(bodies, l, path, i, x);
    }
    if Stakes(bodies, path, i) <= After(bodies, l, path, i).coins.Keys - Gone(bodies, l, path, i) {
      forall j | i <= j < |path| ensures Stakes(bodies, path, i) <= After(bodies, l, path, j).coins.Keys {
        forall x | x in Stakes(bodies, path, i) ensures x in After(bodies, l, path, j).coins {
          assert !Absent(bodies, l, path, j, x);
        }
      }
    }
  }

  lemma {:induction false} HeightsRise(t: Tree, bodies: BlockId -> Body, l: Ledger, path: seq<BlockId>, i: nat)
    requires Chained(t, bodies, l, path) && i < |path|
    ensures path[i] in t && t[path[i]].height == t[path[0]].height + i
    decreases i
  {
    if i > 0 {
      assert RootedAt(t, path[i]);
      HeightsRise(t, bodies, l, path, i - 1);
    }
  }

  /** Until block i is connected, its undo data is what it was. */
  lemma {:induction false} UndoBefore(t: Tree, bodies: BlockId -> Body, l: Ledger, path: seq<BlockId>, i: nat, j: nat)
    requires Chained(t, bodies, l, path) && j < i < |path|
    ensures path[i] in After(bodies, l, path, j).undo <==> path[i] in l.undo
    ensures path[i] in l.undo ==> After(bodies, l, path, j).undo[path[i]] == l.undo[path[i]]
    decreases j
  {
    hide BlockConnected, Fits, SameUndos;
    if j > 0 {
      UndoBefore(t, bodies, l, path, i, j - 1);
      HeightsRise(t, bodies, l, path, i);
      HeightsRise(t, bodies, l, path, j);
    }
  }

  lemma {:induction false} UndoStays(t: Tree, bodies: BlockId -> Body, l: Ledger, path: seq<BlockId>, i: nat, j: nat)
    requires Chained(t, bodies, l, path) && 0 < i <= j < |path|
    ensures UndoAt(bodies, l, path, After(bodies, l, path, j), i)
    decreases j
  {
    hide BlockConnected, Fits, SameUndos;
    if i < j {
      UndoStays(t, bodies, l, path, i, j - 1);
      HeightsRise(t, bodies, l, path, i);
      HeightsRise(t, bodies, l, path, j);
    } else {
      UndoBefore(t, bodies, l, path, i, i - 1);
      SameAsItself(BlockConnected(After(bodies, l, path, i - 1).coins, bodies(path[i]).txs, bodies(path[i]).height).1);
      if path[i] in l.undo { assert UndoAt(bodies, l, path, l, i); }
    }
  }

  lemma SameAsItself(a: seq<seq<Undo>>)
    ensures SameUndos(a, a)
  {
  }

  /** The ledger when the chain has been walked back to block i. */
  ghost predicate BackAt(bodies: BlockId -> Body, l: Ledger, path: seq<BlockId>, m: Ledger, i: nat)
    requires i < |path|
  {
    && m.coins == Destaked(After(bodies, l, path, i).coins, Gone(bodies, l, path, i))
    && (forall j {:trigger UndoAt(bodies, l, path, m, j)} :: 0 < j < |path| ==> UndoAt(bodies, l, path, m, j))
  }

  /** One block back: possible if and only if its coinstakes last, and then the ledger is as described. */
  lemma OneBack(bodies: BlockId -> Body, l: Ledger, path: seq<BlockId>, m: Ledger, i: nat)
    requires 0 < i < |path| && FitsAt(bodies, l, path, i) && BackAt(bodies, l, path, m, i)
    ensures Disconnect(bodies, m, path[i]).Some? <==> StakesLast(bodies, l, path, i)
    ensures Disconnect(bodies, m, path[i]).Some? ==>
      BackAt(bodies, l, path, Disconnect(bodies, m, path[i]).value, i - 1)
  {
    hide Fits, BlockConnected, SizesMatch, StakesLast, Destaked, Lost, DisconnectAll, SameList;
    var u, body, s := After(bodies, l, path, i - 1).coins, bodies(path[i]), Gone(bodies, l, path, i);
    assert UndoAt(bodies, l, path, m, i);
    DisconnectAfter(u, body.txs, body.height, s);
    var undos := BlockConnected(u, body.txs, body.height).1;
    DisconnectAllAlike(Restored(m.coins, true, true), body.txs, m.undo[path[i]], undos, body.height, |body.txs|);
    LastIffIntact(bodies, l, path, i);
    var d := Disconnect(bodies, m, path[i]);
    if d.Some? {
      forall j | 0 < j < |path| ensures UndoAt(bodies, l, path, d.value, j) { assert UndoAt(bodies, l, path, m, j); }
    }
  }

  lemma {:induction false} WalkBack(t: Tree, bodies: BlockId -> Body, undo: (Ledger, BlockId) -> Option<Ledger>,
                                    l: Ledger, path: seq<BlockId>, m: Ledger, i: nat, k: nat)
    requires Chained(t, bodies, l, path) && k <= i < |path| && path[i] in t && path[k] in t
    requires BackAt(bodies, l, path, m, i) && forall c, b :: undo(c, b) == Disconnect(bodies, c, b)
    ensures Undoable(t, undo, m, path[i], t[path[k]].height)
      <==> forall j :: k < j <= i ==> StakesLast(bodies, l, path, j)
    decreases i
  {
    hide BackAt, Disconnect, StakesLast, FitsAt;
    HeightsRise(t, bodies, l, path, i);
    HeightsRise(t, bodies, l, path, k);
    if k < i {
      HeightsRise(t, bodies, l, path, i - 1);
      assert FitsAt(bodies, l, path, i);
      OneBack(bodies, l, path, m, i);
      if undo(m, path[i]).Some? {
        WalkBack(t, bodies, undo, l, path, undo(m, path[i]).value, i - 1, k);
      }
    }
  }

  /**
   A reorganisation of any depth.  A chain of blocks, connected in good order, can be walked back to
   its k-th block if and only if no coinstake of the blocks above that was used up by the end of the
   chain, not even for a while.
   */
  lemma ReorganisationPossible(t: Tree, bodies: BlockId -> Body, undo: (Ledger, BlockId) -> Option<Ledger>,
                               l: Ledger, path: seq<BlockId>, k: nat)
    requires Chained(t, bodies, l, path) && k < |path| && path[|path| - 1] in t && path[k] in t
    requires forall c, b :: undo(c, b) == Disconnect(bodies, c, b)
    ensures Undoable(t, undo, After(bodies, l, path, |path| - 1), path[|path| - 1], t[path[k]].height)
      <==> forall i :: k < i < |path| ==> StakesLast(bodies, l, path, i)
  {
    hide After, Disconnect, FitsAt, StakesLast;
    var n := |path| - 1;
    var m := After(bodies, l, path, n);
    forall j | 0 < j < |path| ensures UndoAt(bodies, l, path, m, j) { UndoStays(t, bodies, l, path, j, n); }
    Unmarked(m.coins);
    WalkBack(t, bodies, undo, l, path, m, n, k);
  }
}
