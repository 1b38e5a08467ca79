/** Whole blocks: disconnecting undoes connecting, up to the coinstake mark of what the block used up. */
module UtxoBlocks {
  import opened Wrappers
  import opened Coins
  import opened Utxo

  function ApplyOne(x: (Map, seq<seq<Undo>>), tx: Tx, height: int): (Map, seq<seq<Undo>>) {
    var (u, undo) := ApplyTx(x.0, tx, height);
    (u, x.1 + [undo])
  }

  /** The first i transactions of a block, in order; the undo data of each. */
  function ApplyAll(u: Map, txs: seq<Tx>, height: int, i: nat): (Map, seq<seq<Undo>>)
    requires i <= |txs|
    decreases i
  {
    if i == 0 then (u, []) else ApplyOne(ApplyAll(u, txs, height, i - 1), txs[i - 1], height)
  }

  /** The first i transactions find their inputs. */
  predicate CanApplyAll(u: Map, txs: seq<Tx>, height: int, i: nat)
    requires i <= |txs|
    decreases i
  {
    i == 0 || (CanApplyAll(u, txs, height, i - 1) && CanApply(ApplyAll(u, txs, height, i - 1).0, txs[i - 1]))
  }

  /** The undo data has one entry for every input of each of the first i transactions. */
  predicate SizesMatch(txs: seq<Tx>, undos: seq<seq<Undo>>, i: nat)
    requires i <= |txs| && i <= |undos|
    decreases i
  {
    i == 0 || (SizesMatch(txs, undos, i - 1) && |undos[i - 1]| == |Inputs(txs[i - 1])|)
  }

  /** DisconnectBlock, from the i-th transaction back to the first. */
  function DisconnectAll(r: Restored, txs: seq<Tx>, undos: seq<seq<Undo>>, height: int, i: nat): Restored
    requires i <= |txs| && i <= |undos|
    decreases i
  {
    if i == 0 then r
    else DisconnectAll(DisconnectTx(r, txs[i - 1], undos[i - 1], height), txs, undos, height, i - 1)
  }

  function Ids(txs: seq<Tx>, i: nat): set<Txid>
    requires i <= |txs|
    decreases i
  {
    if i == 0 then {} else Ids(txs, i - 1) + {txs[i - 1].id}
  }

  /** Valid outputs, and transaction ids that are new to the coins (BIP 30) and distinct. */
  predicate AllNew(u: Map, txs: seq<Tx>, i: nat)
    requires i <= |txs|
    decreases i
  {
    i == 0 ||
    (OutputsOk(txs[i - 1]) && txs[i - 1].id !in u && txs[i - 1].id !in Ids(txs, i - 1) && AllNew(u, txs, i - 1))
  }

  ghost predicate FitsUpTo(u: Map, txs: seq<Tx>, height: int, i: nat)
    requires i <= |txs|
  {
    MapOk(u) && height > 0 && AllNew(u, txs, i) && CanApplyAll(u, txs, height, i)
  }

  /** What a block must meet; its inputs must be there when their turn comes. */
  ghost predicate Fits(u: Map, txs: seq<Tx>, height: int) {
    FitsUpTo(u, txs, height, |txs|)
  }

  ghost predicate KeysFrom(ua: Map, u: Map, ids: set<Txid>) {
    ua.Keys <= u.Keys + ids
  }

  /** After some transactions: the coins are well formed and hold nothing but old entries and new outputs. */
  lemma {:induction false} ApplyAllOk(u: Map, txs: seq<Tx>, height: int, i: nat)
    requires i <= |txs| && FitsUpTo(u, txs, height, i)
    ensures MapOk(ApplyAll(u, txs, height, i).0) && |ApplyAll(u, txs, height, i).1| == i
    ensures KeysFrom(ApplyAll(u, txs, height, i).0, u, Ids(txs, i))
    decreases i
  {
    hide MapOk, Spent, CanApply, OutputsOk, FromTx, Pruned;
    if i > 0 {
      ApplyAllOk(u, txs, height, i - 1);
      var ua := ApplyAll(u, txs, height, i - 1).0;
      ApplyTxShape(ua, txs[i - 1], height);
      ApplyTxOk(ua, txs[i - 1], height);
    }
  }

  /** The undo data of the first i transactions is what connecting them produced. */
  ghost predicate UndoFrom(undos: seq<seq<Undo>>, u: Map, txs: seq<Tx>, height: int, i: nat)
    requires i <= |txs|
  {
    i <= |undos| && undos[..i] == ApplyAll(u, txs, height, i).1
  }

  ghost predicate UndoOf(undo: seq<Undo>, u: Map, tx: Tx, height: int) {
    undo == ApplyTx(u, tx, height).1
  }

  lemma UndosSplit(u: Map, txs: seq<Tx>, height: int, undos: seq<seq<Undo>>, i: nat)
    requires 0 < i <= |txs| && UndoFrom(undos, u, txs, height, i) && |ApplyAll(u, txs, height, i - 1).1| == i - 1
    ensures UndoFrom(undos, u, txs, height, i - 1)
    ensures i <= |undos| && UndoOf(undos[i - 1], ApplyAll(u, txs, height, i - 1).0, txs[i - 1], height)
  {
    hide ApplyTx;
    assert undos[..i][i - 1] == undos[i - 1] && undos[..i - 1] == undos[..i][..i - 1];
  }

  lemma UndoSize(u: Map, tx: Tx, height: int, undo: seq<Undo>)
    requires MapOk(u) && CanApply(u, tx) && OutputsOk(tx) && tx.id !in u && UndoOf(undo, u, tx, height)
    ensures |undo| == |Inputs(tx)|
  {
    ApplyTxShape(u, tx, height);
  }

  lemma {:induction false} UndoSizes(u: Map, txs: seq<Tx>, height: int, undos: seq<seq<Undo>>, i: nat)
    requires i <= |txs| && FitsUpTo(u, txs, height, i) && UndoFrom(undos, u, txs, height, i)
    ensures i <= |undos| && SizesMatch(txs, undos, i)
    decreases i
  {
    hide *;
    if i == 0 {
      NoSizes(txs, undos);
    } else {
      LastStep(u, txs, height, i);
      ApplyAllOk(u, txs, height, i - 1);
      UndosSplit(u, txs, height, undos, i);
      UndoSize(ApplyAll(u, txs, height, i - 1).0, txs[i - 1], height, undos[i - 1]);
      UndoSizes(u, txs, height, undos, i - 1);
      SizesStep(txs, undos, i);
    }
  }

  lemma NoSizes(txs: seq<Tx>, undos: seq<seq<Undo>>)
    ensures SizesMatch(txs, undos, 0)
  {
  }

  lemma SizesStep(txs: seq<Tx>, undos: seq<seq<Undo>>, i: nat)
    requires 0 < i <= |txs| && i <= |undos|
    ensures SizesMatch(txs, undos, i) <==> SizesMatch(txs, undos, i - 1) && |undos[i - 1]| == |Inputs(txs[i - 1])|
  {
  }

  /** The transactions of the block whose new entries carry the coinstake mark. */
  function StakeIds(txs: seq<Tx>, height: int, i: nat): set<Txid>
    requires i <= |txs|
    decreases i
  {
    if i == 0 then {}
    else StakeIds(txs, height, i - 1) + if MakesStake(txs[i - 1], height) then {txs[i - 1].id} else {}
  }

  lemma {:induction false} StakesAreIds(txs: seq<Tx>, height: int, i: nat)
    requires i <= |txs|
    ensures StakeIds(txs, height, i) <= Ids(txs, i)
    decreases i
  {
    if i > 0 { StakesAreIds(txs, height, i - 1); }
  }

  /**
   No coinstake of the block has lost its mark by the time it is disconnected: none was restored
   without it, neither by this block (then it is gone from `after`) nor by a later one (s).
   */
  predicate StakesIntact(txs: seq<Tx>, height: int, i: nat, after: Map, s: set<Txid>)
    requires i <= |txs|
  {
    StakeIds(txs, height, i) <= after.Keys - s
  }

  lemma UsedUp(u: Map, ua: Map, u': Map, t: Txid, s: set<Txid>)
    requires t !in u && u'.Keys <= ua.Keys + {t}
    ensures Destaked(u, Lost(u, ua, Lost(ua, u', s))) == Destaked(u, Lost(u, u', s))
  {
    var f, g := Destaked(u, Lost(u, ua, Lost(ua, u', s))), Destaked(u, Lost(u, u', s));
    forall x ensures (x in f <==> x in g) && (x in f ==> f[x] == g[x]) {}
    SameMap(f, g);
  }

  /** A transaction adds its own entry only, and a coinstake's is there right after it. */
  lemma LastStep(u: Map, txs: seq<Tx>, height: int, i: nat)
    requires 0 < i <= |txs| && FitsUpTo(u, txs, height, i)
    ensures height > 0 && FitsUpTo(u, txs, height, i - 1) && txs[i - 1].id !in Ids(txs, i - 1) && txs[i - 1].id !in u
    ensures var ua := ApplyAll(u, txs, height, i - 1).0; var u' := ApplyAll(u, txs, height, i).0; var tx := txs[i - 1];
      && MapOk(ua) && CanApply(ua, tx) && OutputsOk(tx) && tx.id !in ua && u' == ApplyTx(ua, tx, height).0
      && u'.Keys <= ua.Keys + {tx.id} && (MakesStake(tx, height) ==> tx.id in u')
  {
    ApplyAllOk(u, txs, height, i - 1);
    ApplyTxShape(ApplyAll(u, txs, height, i - 1).0, txs[i - 1], height);
  }

  /** Whether stakes are intact is decided by the last transaction and, with its losses added, by the ones before. */
  lemma IntactStep(txs: seq<Tx>, height: int, i: nat, ua: Map, u': Map, s: set<Txid>)
    requires 0 < i <= |txs| && u'.Keys <= ua.Keys + {txs[i - 1].id} && txs[i - 1].id !in Ids(txs, i - 1)
    requires MakesStake(txs[i - 1], height) ==> txs[i - 1].id in u'
    ensures StakesIntact(txs, height, i, u', s) <==>
      !(MakesStake(txs[i - 1], height) && txs[i - 1].id in s) &&
      StakesIntact(txs, height, i - 1, ua, Lost(ua, u', s))
  {
    StakesAreIds(txs, height, i - 1);
  }

  /**
   Disconnecting a block from what it left, when later blocks that used up the coins in s were
   already disconnected: the coins from before come back without the coinstake mark of the used-up
   ones, and the disconnection is clean unless a coinstake of the block is among those.
   */
  lemma {:induction false} BlockRoundTrip(u: Map, txs: seq<Tx>, height: int, undos: seq<seq<Undo>>, i: nat,
                                          s: set<Txid>, clean: bool)
    requires i <= |txs| && FitsUpTo(u, txs, height, i) && UndoFrom(undos, u, txs, height, i)
    ensures var u' := ApplyAll(u, txs, height, i).0;
      i <= |undos| && SizesMatch(txs, undos, i) &&
        DisconnectAll(Restored(Destaked(u', s), clean, true), txs, undos, height, i)
      == Restored(Destaked(u, Lost(u, u', s)), clean && StakesIntact(txs, height, i, u', s), true)
    decreases i
  {
    hide *;
    UndoSizes(u, txs, height, undos, i);
    if i == 0 {
      NothingToUndo(u, txs, height, undos, s, clean);
    } else {
      LastStep(u, txs, height, i);
      ApplyAllOk(u, txs, height, i - 1);
      UndosSplit(u, txs, height, undos, i);
      var ua, u', tx := ApplyAll(u, txs, height, i - 1).0, ApplyAll(u, txs, height, i).0, txs[i - 1];
      var s2 := Lost(ua, u', s);
      var clean2 := clean && !(MakesStake(tx, height) && tx.id in s);
      var r := Restored(Destaked(u', s), clean, true);
      calc {
        DisconnectAll(r, txs, undos, height, i);
        { DisconnectFirst(r, txs, undos, height, i); }
        DisconnectAll(DisconnectTx(r, tx, undos[i - 1], height), txs, undos, height, i - 1);
        { UndoBack(ua, tx, height, undos[i - 1], s, clean); }
        DisconnectAll(Restored(Destaked(ua, s2), clean2, true), txs, undos, height, i - 1);
        { BlockRoundTrip(u, txs, height, undos, i - 1, s2, clean2); }
        Restored(Destaked(u, Lost(u, ua, s2)), clean2 && StakesIntact(txs, height, i - 1, ua, s2), true);
        { UsedUp(u, ua, u', tx.id, s); IntactStep(txs, height, i, ua, u', s); }
        Restored(Destaked(u, Lost(u, u', s)), clean && StakesIntact(txs, height, i, u', s), true);
      }
    }
  }

  lemma NothingToUndo(u: Map, txs: seq<Tx>, height: int, undos: seq<seq<Undo>>, s: set<Txid>, clean: bool)
    ensures SizesMatch(txs, undos, 0) && ApplyAll(u, txs, height, 0).0 == u
    ensures DisconnectAll(Restored(Destaked(u, s), clean, true), txs, undos, height, 0)
      == Restored(Destaked(u, Lost(u, u, s)), clean && StakesIntact(txs, height, 0, u, s), true)
  {
    assert Lost(u, u, s) == s;
  }

  /** TxRoundTrip for undo data known by its origin. */
  lemma UndoBack(u: Map, tx: Tx, height: int, undo: seq<Undo>, s: set<Txid>, clean: bool)
    requires MapOk(u) && CanApply(u, tx) && OutputsOk(tx) && height > 0 && tx.id !in u && UndoOf(undo, u, tx, height)
    ensures |undo| == |Inputs(tx)|
    ensures DisconnectTx(Restored(Destaked(ApplyTx(u, tx, height).0, s), clean, true), tx, undo, height)
      == Restored(Destaked(u, Lost(u, ApplyTx(u, tx, height).0, s)),
                  clean && !(MakesStake(tx, height) && tx.id in s), true)
  {
    hide DisconnectTx, ApplyTx, Destaked, MakesStake, Lost, MapOk, CanApply, OutputsOk, Inputs;
    TxRoundTrip(u, tx, height, s, clean);
  }

  lemma DisconnectFirst(r: Restored, txs: seq<Tx>, undos: seq<seq<Undo>>, height: int, i: nat)
    requires 0 < i <= |txs| && i <= |undos|
    ensures DisconnectAll(r, txs, undos, height, i)
      == DisconnectAll(DisconnectTx(r, txs[i - 1], undos[i - 1], height), txs, undos, height, i - 1)
  {
    hide DisconnectTx;
  }

  // ----- The main statements -----

  /** A whole block connected. */
  function BlockConnected(u: Map, txs: seq<Tx>, height: int): (Map, seq<seq<Undo>>) {
    ApplyAll(u, txs, height, |txs|)
  }

  /** A whole block disconnected. */
  function BlockDisconnected(u: Map, txs: seq<Tx>, undos: seq<seq<Undo>>, height: int): Restored
    requires |undos| == |txs|
  {
    DisconnectAll(Restored(u, true, true), txs, undos, height, |txs|)
  }

  lemma Unmarked(u: Map)
    ensures Destaked(u, {}) == u
  {
  }

  lemma DisconnectAfter(u: Map, txs: seq<Tx>, height: int, s: set<Txid>)
    requires Fits(u, txs, height)
    ensures var (u', undos) := BlockConnected(u, txs, height);
      |undos| == |txs| && SizesMatch(txs, undos, |txs|) &&
      BlockDisconnected(Destaked(u', s), txs, undos, height)
      == Restored(Destaked(u, Lost(u, u', s)), StakesIntact(txs, height, |txs|, u', s), true)
  {
    hide ApplyOne, MapOk, CanApplyAll, Destaked, StakesIntact, AllNew, DisconnectTx;
    ApplyAllOk(u, txs, height, |txs|);
    var undos := BlockConnected(u, txs, height).1;
    assert UndoFrom(undos, u, txs, height, |txs|);
    BlockRoundTrip(u, txs, height, undos, |txs|, s, true);
  }

  /**
   DisconnectBlock right after the block was connected.  It is clean if and only if no coinstake of
   the block was used up within the block, and what it restores differs from the coins before the
   block at most in fCoinStake of the entries the block used up.
   */
  lemma DisconnectUndoesConnect(u: Map, txs: seq<Tx>, height: int)
    requires Fits(u, txs, height)
    ensures var (u', undos) := BlockConnected(u, txs, height);
      |undos| == |txs| && SizesMatch(txs, undos, |txs|) &&
      BlockDisconnected(u', txs, undos, height)
      == Restored(Destaked(u, Lost(u, u', {})), StakeIds(txs, height, |txs|) <= u'.Keys, true)
  {
    var u' := BlockConnected(u, txs, height).0;
    Unmarked(u');
    DisconnectAfter(u, txs, height, {});
    assert u'.Keys - {} == u'.Keys;
  }

  /** The coins come back exactly if and only if no coinstake entry was used up. */
  lemma RestoredExactly(u: Map, after: Map)
    ensures Destaked(u, u.Keys - after.Keys) == u <==> forall t :: t in u && t !in after ==> !u[t].coinStake
  {
    var d := Destaked(u, u.Keys - after.Keys);
    if d == u {
      forall t | t in u && t !in after ensures !u[t].coinStake { assert d[t] == u[t].(coinStake := false); }
    } else {
      if forall t :: t in u && t !in after ==> !u[t].coinStake {
        forall t ensures (t in d <==> t in u) && (t in d ==> d[t] == u[t]) {}
        SameMap(d, u);
      }
    }
  }

  /**
   A reorganisation over two blocks: the second is disconnected, then the first.  The second step is
   clean if and only if no coinstake of the first block was used up by the end of the second;
   otherwise DisconnectTip gives up although both blocks were connected in good order.
   */
  lemma ReorganisationClean(u: Map, txs1: seq<Tx>, h1: int, txs2: seq<Tx>, h2: int)
    requires Fits(u, txs1, h1)
    requires Fits(BlockConnected(u, txs1, h1).0, txs2, h2)
    ensures var (u1, undos1) := BlockConnected(u, txs1, h1); var (u2, undos2) := BlockConnected(u1, txs2, h2);
      |undos1| == |txs1| && SizesMatch(txs1, undos1, |txs1|) && |undos2| == |txs2| &&
        SizesMatch(txs2, undos2, |txs2|) &&
      var r1 := BlockDisconnected(u2, txs2, undos2, h2);
      BlockDisconnected(r1.u, txs1, undos1, h1).clean <==> StakeIds(txs1, h1, |txs1|) <= u1.Keys * u2.Keys
  {
    hide *;
    var u1 := BlockConnected(u, txs1, h1).0;
    var u2 := BlockConnected(u1, txs2, h2).0;
    DisconnectUndoesConnect(u1, txs2, h2);
    DisconnectAfter(u, txs1, h1, Lost(u1, u2, {}));
    IntactAfter(txs1, h1, u1, u2);
  }

  lemma IntactAfter(txs: seq<Tx>, height: int, u1: Map, u2: Map)
    ensures StakesIntact(txs, height, |txs|, u1, Lost(u1, u2, {})) <==>
      StakeIds(txs, height, |txs|) <= u1.Keys * u2.Keys
  {
    assert u1.Keys - Lost(u1, u2, {}) == u1.Keys * u2.Keys;
  }
}
