/**
 Blocks in good order that cannot be disconnected (src/main.cpp): a coinstake is spent, completely,
 by a block a maturity above it.  The chain is given for every maturity.
 */
module UncleanChains {
  import opened Wrappers
  import opened BlockTree
  import opened TipWalk
  import opened Coins
  import opened Utxo
  import opened UtxoBlocks
  import opened MoneySupply
  import opened ConnectDisconnect
  import opened Ledgers

  // ----- The transactions -----

  const FIVE: TxOut := TxOut(5, [])
  const EMPTY: TxOut := TxOut(0, [])

  /** One coin; a coinstake that spends it; a transaction that spends all of the coinstake. */
  const OLD_COINS: Map := map[1 := CCoins(false, false, [FIVE], 1, 1)]
  const STAKE: Tx := Tx(2, [OutPoint(1, 0)], [EMPTY, FIVE], 1)
  const SPENDER: Tx := Tx(3, [OutPoint(2, 0), OutPoint(2, 1)], [FIVE], 1)

  /** The coinbase of block i, with an empty output. */
  function Coinbase(i: nat): Tx {
    Tx(100 + i, [OutPoint(0, 0xffff_ffff)], [EMPTY], 1)
  }

  function CoinbaseCoins(height: int): CCoins {
    CCoins(true, false, [EMPTY], height, 1)
  }

  function StakeCoins(height: int): CCoins {
    CCoins(false, true, [EMPTY, FIVE], height, 1)
  }

  function SpenderCoins(height: int): CCoins {
    CCoins(false, false, [FIVE], height, 1)
  }

  lemma Trims()
    ensures Trim([NULL_OUT]) == [] && Trim([NULL_OUT, NULL_OUT]) == [] && Trim([NULL_OUT, FIVE]) == [NULL_OUT, FIVE]
    ensures Trim(Spendable([FIVE])) == [FIVE] && Trim(Spendable([EMPTY])) == [EMPTY]
    ensures Trim(Spendable([EMPTY, FIVE])) == [EMPTY, FIVE]
  {
    hide Trim, Spendable;
    assert Spendable([FIVE]) == [FIVE] && Spendable([EMPTY]) == [EMPTY] && Spendable([EMPTY, FIVE]) == [EMPTY, FIVE];
    TrimUnique([NULL_OUT], 0);
    TrimUnique([NULL_OUT, NULL_OUT], 0);
    TrimUnique([NULL_OUT, FIVE], 2);
    TrimUnique([FIVE], 1);
    TrimUnique([EMPTY], 1);
    TrimUnique([EMPTY, FIVE], 2);
  }

  /** What a transaction does, from what it takes and what it makes. */
  lemma Applied(u: Map, tx: Tx, height: int, u1: Map, c: CCoins)
    requires MapOk(u) && CanApply(u, tx) && OutputsOk(tx) && height > 0 && tx.id !in u
    requires Spent(u, tx).0 == u1 && FromTx(tx, height) == c && !Pruned(c)
    ensures ApplyTx(u, tx, height).0 == u1[tx.id := c] && MapOk(u1[tx.id := c])
    ensures MakesStake(tx, height) == tx.IsCoinStake()
  {
    hide MapOk, CanApply, OutputsOk, Spent, FromTx;
    ApplyTxShape(u, tx, height);
    ApplyTxOk(u, tx, height);
  }

  lemma Makes(i: nat, height: int)
    ensures FromTx(Coinbase(i), height) == CoinbaseCoins(height) && !Pruned(CoinbaseCoins(height))
    ensures FromTx(STAKE, height) == StakeCoins(height) && !Pruned(StakeCoins(height))
    ensures FromTx(SPENDER, height) == SpenderCoins(height) && !Pruned(SpenderCoins(height))
    ensures OutputsOk(Coinbase(i)) && OutputsOk(STAKE) && OutputsOk(SPENDER)
  {
    hide Trim, Spendable;
    Trims();
    assert !CoinbaseCoins(height).vout[0].IsNull() && !StakeCoins(height).vout[0].IsNull();
    assert !SpenderCoins(height).vout[0].IsNull();
  }

  lemma CoinbaseApplied(u: Map, i: nat, height: int)
    requires MapOk(u) && height > 0 && 100 + i !in u
    ensures CanApply(u, Coinbase(i)) && OutputsOk(Coinbase(i)) && !MakesStake(Coinbase(i), height)
    ensures ApplyTx(u, Coinbase(i), height).0 == u[100 + i := CoinbaseCoins(height)]
    ensures MapOk(u[100 + i := CoinbaseCoins(height)])
  {
    hide MapOk, FromTx, Pruned, OutputsOk, ApplyTx, MakesStake;
    Makes(i, height);
    assert Coinbase(i).IsCoinBase() && Spent(u, Coinbase(i)) == (u, []);
    Applied(u, Coinbase(i), height, u, CoinbaseCoins(height));
  }

  lemma StakeTakes(u: Map)
    requires 1 in u && u[1] == OLD_COINS[1]
    ensures CanApply(u, STAKE) && Spent(u, STAKE).0 == u - {1}
  {
    hide Trim;
    Trims();
    assert u[1].vout[0 := NULL_OUT] == [NULL_OUT];
    assert SpendAll(u, STAKE.vin, 0) == (u, []);
    assert SpendAll(u, STAKE.vin, 1).0 == u - {1};
  }

  lemma StakeApplied(u: Map, height: int)
    requires MapOk(u) && height > 0 && 2 !in u && 1 in u && u[1] == OLD_COINS[1]
    ensures CanApply(u, STAKE) && OutputsOk(STAKE) && MakesStake(STAKE, height)
    ensures ApplyTx(u, STAKE, height).0 == (u - {1})[2 := StakeCoins(height)]
    ensures MapOk((u - {1})[2 := StakeCoins(height)])
  {
    hide MapOk, CanApply, Spent, FromTx, Pruned, OutputsOk, ApplyTx, MakesStake;
    Makes(0, height);
    StakeTakes(u);
    Applied(u, STAKE, height, u - {1}, StakeCoins(height));
  }

  lemma SpenderTakes(u: Map, staked: int)
    requires 2 in u && u[2] == StakeCoins(staked)
    ensures CanApply(u, SPENDER) && Spent(u, SPENDER).0 == u - {2}
  {
    hide Trim;
    Trims();
    var c := u[2];
    assert c.vout[0 := NULL_OUT] == [NULL_OUT, FIVE] && [NULL_OUT, FIVE][1 := NULL_OUT] == [NULL_OUT, NULL_OUT];
    assert SpendAll(u, SPENDER.vin, 0) == (u, []);
    var u1 := u[2 := c.(vout := [NULL_OUT, FIVE])];
    assert SpendAll(u, SPENDER.vin, 1).0 == u1 by { assert ![NULL_OUT, FIVE][1].IsNull(); }
    assert u1 - {2} == u - {2};
    assert SpendAll(u, SPENDER.vin, 2).0 == u - {2};
  }

  lemma SpenderApplied(u: Map, height: int, staked: int)
    requires MapOk(u) && height > 0 && 3 !in u && 2 in u && u[2] == StakeCoins(staked)
    ensures CanApply(u, SPENDER) && OutputsOk(SPENDER) && !MakesStake(SPENDER, height)
    ensures ApplyTx(u, SPENDER, height).0 == (u - {2})[3 := SpenderCoins(height)]
    ensures MapOk((u - {2})[3 := SpenderCoins(height)])
  {
    hide MapOk, CanApply, Spent, FromTx, Pruned, OutputsOk, ApplyTx, MakesStake;
    Makes(0, height);
    SpenderTakes(u, staked);
    Applied(u, SPENDER, height, u - {2}, SpenderCoins(height));
  }

  // ----- The blocks -----

  lemma OneTx(u: Map, tx: Tx, height: int)
    requires MapOk(u) && height > 0 && OutputsOk(tx) && tx.id !in u && CanApply(u, tx)
    ensures Fits(u, [tx], height) && BlockConnected(u, [tx], height).0 == ApplyTx(u, tx, height).0
    ensures StakeIds([tx], height, 1) == if MakesStake(tx, height) then {tx.id} else {}
  {
    hide MapOk, CanApply, OutputsOk, MakesStake, ApplyTx;
    assert ApplyAll(u, [tx], height, 0) == (u, []);
    assert Ids([tx], 0) == {} && CanApplyAll(u, [tx], height, 0) && AllNew(u, [tx], 0);
  }

  lemma TwoTxs(u: Map, tx1: Tx, tx2: Tx, height: int)
    requires MapOk(u) && height > 0 && OutputsOk(tx1) && OutputsOk(tx2)
    requires tx1.id !in u && tx2.id !in u && tx1.id != tx2.id
    requires CanApply(u, tx1) && CanApply(ApplyTx(u, tx1, height).0, tx2)
    ensures Fits(u, [tx1, tx2], height)
    ensures BlockConnected(u, [tx1, tx2], height).0 == ApplyTx(ApplyTx(u, tx1, height).0, tx2, height).0
    ensures StakeIds([tx1, tx2], height, 2)
      == (if MakesStake(tx1, height) then {tx1.id} else {}) + if MakesStake(tx2, height) then {tx2.id} else {}
  {
    hide MapOk, CanApply, OutputsOk, MakesStake, ApplyTx;
    var txs := [tx1, tx2];
    assert ApplyAll(u, txs, height, 0) == (u, []);
    assert ApplyAll(u, txs, height, 1).0 == ApplyTx(u, tx1, height).0;
    assert Ids(txs, 0) == {} && CanApplyAll(u, txs, height, 0) && AllNew(u, txs, 0) && StakeIds(txs, height, 0) == {};
    assert Ids(txs, 1) == {tx1.id} && CanApplyAll(u, txs, height, 1) && AllNew(u, txs, 1);
  }

  lemma ThreeTxs(u: Map, tx1: Tx, tx2: Tx, tx3: Tx, height: int)
    requires MapOk(u) && height > 0 && OutputsOk(tx1) && OutputsOk(tx2) && OutputsOk(tx3)
    requires tx1.id !in u && tx2.id !in u && tx3.id !in u && tx1.id != tx2.id && tx1.id != tx3.id && tx2.id != tx3.id
    requires CanApply(u, tx1) && CanApply(ApplyTx(u, tx1, height).0, tx2)
    requires CanApply(ApplyTx(ApplyTx(u, tx1, height).0, tx2, height).0, tx3)
    ensures var txs := [tx1, tx2, tx3];
      && Fits(u, txs, height)
      && BlockConnected(u, txs, height).0 == ApplyTx(ApplyTx(ApplyTx(u, tx1, height).0, tx2, height).0, tx3, height).0
      && (MakesStake(tx2, height) ==> tx2.id in StakeIds(txs, height, 3))
  {
    hide MapOk, CanApply, OutputsOk, MakesStake, ApplyTx;
    var txs := [tx1, tx2, tx3];
    assert ApplyAll(u, txs, height, 0) == (u, []);
    assert ApplyAll(u, txs, height, 1).0 == ApplyTx(u, tx1, height).0;
    assert ApplyAll(u, txs, height, 2).0 == ApplyTx(ApplyTx(u, tx1, height).0, tx2, height).0;
    assert Ids(txs, 0) == {} && CanApplyAll(u, txs, height, 0) && AllNew(u, txs, 0);
    assert Ids(txs, 1) == {tx1.id} && CanApplyAll(u, txs, height, 1) && AllNew(u, txs, 1);
    assert Ids(txs, 2) == {tx1.id, tx2.id} && CanApplyAll(u, txs, height, 2) && AllNew(u, txs, 2);
    assert MakesStake(tx2, height) ==> tx2.id in StakeIds(txs, height, 2);
  }

  lemma OldCoinsOk()
    ensures MapOk(OLD_COINS)
  {
    assert EntryAt(OLD_COINS, 1) by { assert !OLD_COINS[1].vout[0].IsNull(); }
  }

  lemma SmallOuts()
    ensures ValueOut(STAKE) <= MAX_INT64 && ValueOut(SPENDER) <= MAX_INT64
    ensures forall i :: ValueOut(Coinbase(i)) <= MAX_INT64
  {
    assert SumOuts(STAKE.vout, 1) == 0 && SumOuts(SPENDER.vout, 0) == 0;
    forall i ensures ValueOut(Coinbase(i)) <= MAX_INT64 { assert SumOuts(Coinbase(i).vout, 0) == 0; }
  }

  // ----- One block -----

  /**
   A block that spends its own coinstake.  CheckInputs calls that premature, but ConnectBlock minds only
   where a checkpoint does not match (src/main.cpp:2244-2246).
   */
  const OWN_STAKE: seq<Tx> := [Coinbase(0), STAKE, SPENDER]

  /** It connects, and cannot be disconnected right after. */
  lemma UncleanBlock(height: int)
    requires height > 0
    ensures WellFormedBlock(OWN_STAKE) && Fits(OLD_COINS, OWN_STAKE, height)
    ensures var (u, undos) := BlockConnected(OLD_COINS, OWN_STAKE, height);
      |undos| == |OWN_STAKE| && !BlockDisconnected(u, OWN_STAKE, undos, height).clean
    ensures var bodies := (b: BlockId) => Body(OWN_STAKE, height);
      forall b :: Disconnect(bodies, Connect(bodies, Ledger(OLD_COINS, map[]), b), b) == None
  {
    hide ApplyTx, CanApply, MapOk, MakesStake, OutputsOk, DisconnectAll, ValueOut;
    SmallOuts();
    OldCoinsOk();
    CoinbaseApplied(OLD_COINS, 0, height);
    var u1 := OLD_COINS[100 := CoinbaseCoins(height)];
    StakeApplied(u1, height);
    var u2 := (u1 - {1})[2 := StakeCoins(height)];
    SpenderApplied(u2, height, height);
    ThreeTxs(OLD_COINS, Coinbase(0), STAKE, SPENDER, height);
    DisconnectUndoesConnect(OLD_COINS, OWN_STAKE, height);
    assert 2 !in BlockConnected(OLD_COINS, OWN_STAKE, height).0;
  }

  // ----- A chain of blocks -----

  /**
   Block b at height b.  Block 2 holds the coinstake, and the last one, a maturity above it, its
   spender; the blocks between hold a coinbase only.
   */
  function Blocks(maturity: nat): BlockId -> Body {
    (b: BlockId) =>
      Body([Coinbase(b)] + (if b == 2 then [STAKE] else if b == maturity + 2 then [SPENDER] else []), b)
  }

  /** The blocks from height 1 up. */
  function Path(maturity: nat): seq<BlockId> {
    seq(maturity + 2, i => i + 1)
  }

  /** Genesis, and the chain above it. */
  function Chain(top: nat): Tree {
    map b: BlockId | 0 <= b <= top :: ChainNode(b)
  }

  function ChainNode(b: BlockId): Node {
    Node(if b == 0 then None else Some(b - 1), b, if b == 0 then None else Some(GetSkipHeight(b)), b)
  }

  /** The coinbases of the blocks from 2 to b. */
  function Coinbases(b: nat): Map
    decreases b
  {
    if b < 2 then map[] else Coinbases(b - 1)[100 + b := CoinbaseCoins(b)]
  }

  lemma {:induction false} CoinbaseKeys(b: nat)
    ensures forall t :: t in Coinbases(b) <==> 102 <= t <= 100 + b
    decreases b
  {
    if b >= 2 { CoinbaseKeys(b - 1); }
  }

  /** The coins after block b. */
  function CoinsAt(maturity: nat, b: nat): Map {
    if b < 2 then OLD_COINS
    else if b < maturity + 2 then Coinbases(b)[2 := StakeCoins(2)]
    else Coinbases(b)[3 := SpenderCoins(b)]
  }

  lemma StakeBlock(maturity: nat)
    requires maturity >= 1
    ensures Fits(OLD_COINS, Blocks(maturity)(2).txs, 2) && MapOk(CoinsAt(maturity, 2))
    ensures BlockConnected(OLD_COINS, Blocks(maturity)(2).txs, 2).0 == CoinsAt(maturity, 2)
    ensures StakeIds(Blocks(maturity)(2).txs, 2, 2) == {2}
  {
    hide ApplyTx, CanApply, MapOk, MakesStake, OutputsOk;
    OldCoinsOk();
    CoinbaseApplied(OLD_COINS, 2, 2);
    var u1 := OLD_COINS[102 := CoinbaseCoins(2)];
    StakeApplied(u1, 2);
    TwoTxs(OLD_COINS, Coinbase(2), STAKE, 2);
    assert Blocks(maturity)(2).txs == [Coinbase(2), STAKE];
    assert Coinbases(1) == map[];
    assert (u1 - {1})[2 := StakeCoins(2)] == CoinsAt(maturity, 2);
  }

  lemma PlainBlock(maturity: nat, b: nat)
    requires 2 < b < maturity + 2 && MapOk(CoinsAt(maturity, b - 1))
    ensures Fits(CoinsAt(maturity, b - 1), Blocks(maturity)(b).txs, b) && MapOk(CoinsAt(maturity, b))
    ensures BlockConnected(CoinsAt(maturity, b - 1), Blocks(maturity)(b).txs, b).0 == CoinsAt(maturity, b)
    ensures StakeIds(Blocks(maturity)(b).txs, b, 1) == {}
  {
    hide ApplyTx, CanApply, MapOk, MakesStake, OutputsOk;
    CoinbaseKeys(b - 1);
    CoinbaseApplied(CoinsAt(maturity, b - 1), b, b);
    OneTx(CoinsAt(maturity, b - 1), Coinbase(b), b);
    assert Blocks(maturity)(b).txs == [Coinbase(b)];
    assert CoinsAt(maturity, b - 1)[100 + b := CoinbaseCoins(b)] == CoinsAt(maturity, b);
  }

  lemma SpenderMaps(maturity: nat)
    requires maturity >= 1
    ensures var b := maturity + 2; var u := CoinsAt(maturity, b - 1);
      && 100 + b !in u && 3 !in u && 2 in u && u[2] == StakeCoins(2)
      && (u[100 + b := CoinbaseCoins(b)] - {2})[3 := SpenderCoins(b)] == CoinsAt(maturity, b)
  {
    CoinbaseKeys(maturity + 1);
  }

  lemma SpenderBlock(maturity: nat, b: nat)
    requires maturity >= 1 && b == maturity + 2 && MapOk(CoinsAt(maturity, b - 1))
    ensures Fits(CoinsAt(maturity, b - 1), Blocks(maturity)(b).txs, b) && MapOk(CoinsAt(maturity, b))
    ensures BlockConnected(CoinsAt(maturity, b - 1), Blocks(maturity)(b).txs, b).0 == CoinsAt(maturity, b)
    ensures StakeIds(Blocks(maturity)(b).txs, b, 2) == {}
  {
    hide ApplyTx, CanApply, MapOk, MakesStake, OutputsOk, CoinsAt;
    var u := CoinsAt(maturity, b - 1);
    SpenderMaps(maturity);
    CoinbaseApplied(u, b, b);
    var u1 := u[100 + b := CoinbaseCoins(b)];
    SpenderApplied(u1, b, 2);
    TwoTxs(u, Coinbase(b), SPENDER, b);
    assert Blocks(maturity)(b).txs == [Coinbase(b), SPENDER];
    assert (u1 - {2})[3 := SpenderCoins(b)] == CoinsAt(maturity, b);
  }

  lemma {:induction false} CoinsAfter(maturity: nat, i: nat)
    requires maturity >= 1 && i < maturity + 2
    ensures After(Blocks(maturity), Ledger(OLD_COINS, map[]), Path(maturity), i).coins == CoinsAt(maturity, i + 1)
    ensures MapOk(CoinsAt(maturity, i + 1))
    ensures i > 0 ==> FitsAt(Blocks(maturity), Ledger(OLD_COINS, map[]), Path(maturity), i)
    ensures i > 0 ==> Stakes(Blocks(maturity), Path(maturity), i) == if i == 1 then {2} else {}
    decreases i
  {
    hide MapOk, Fits, BlockConnected, CoinsAt, StakeIds;
    if i == 0 {
      OldCoinsOk();
      FirstCoins(maturity);
    } else {
      CoinsAfter(maturity, i - 1);
      var b := i + 1;
      assert Path(maturity)[i] == b && Blocks(maturity)(b).height == b;
      if b == 2 {
        FirstCoins(maturity);
        StakeBlock(maturity);
      } else if b < maturity + 2 {
        PlainBlock(maturity, b);
      } else {
        SpenderBlock(maturity, b);
      }
    }
  }

  lemma FirstCoins(maturity: nat)
    ensures CoinsAt(maturity, 1) == OLD_COINS
  {
  }

  lemma BlocksAreWellFormed(maturity: nat, b: BlockId)
    ensures WellFormedBlock(Blocks(maturity)(b).txs)
  {
    hide ValueOut;
    SmallOuts();
  }

  lemma ChainIsRooted(top: nat)
    ensures Rooted(Chain(top))
  {
    forall b | b in Chain(top) ensures RootedAt(Chain(top), b) {}
  }

  ghost predicate HasChain(t: Tree, top: nat) {
    Rooted(t) && forall b: nat {:trigger ChainNode(b)} :: b <= top ==> b in t && t[b] == ChainNode(b)
  }

  lemma {:induction false} ChainAncestors(t: Tree, top: nat, b: nat, h: nat)
    requires HasChain(t, top) && h <= b <= top
    ensures b in t && t[b].height == b && AncestorAt(t, b, h) == h
    decreases b
  {
    assert t[b] == ChainNode(b);
    if h < b { ChainAncestors(t, top, b - 1, h); }
  }

  lemma PathIsChained(t: Tree, maturity: nat)
    requires maturity >= 1 && HasChain(t, maturity + 2)
    ensures Chained(t, Blocks(maturity), Ledger(OLD_COINS, map[]), Path(maturity))
  {
    hide FitsAt, UndoAt;
    forall i | 0 <= i < |Path(maturity)| ensures Path(maturity)[i] in t && t[Path(maturity)[i]] == ChainNode(i + 1) {
      ChainAncestors(t, maturity + 2, i + 1, i + 1);
    }
    forall i | 0 < i < |Path(maturity)| ensures FitsAt(Blocks(maturity), Ledger(OLD_COINS, map[]), Path(maturity), i) {
      CoinsAfter(maturity, i);
    }
  }

  /** The coins at the top of the chain, with the undo data of all blocks. */
  function TopLedger(maturity: nat): Ledger {
    After(Blocks(maturity), Ledger(OLD_COINS, map[]), Path(maturity), maturity + 1)
  }

  lemma NoStakeAtTop(maturity: nat)
    ensures 2 !in CoinsAt(maturity, maturity + 2)
  {
    CoinbaseKeys(maturity + 2);
  }

  lemma StakeSpent(maturity: nat)
    requires maturity >= 1
    ensures 2 !in TopLedger(maturity).coins
  {
    hide After, CoinsAt, Blocks, MapOk, FitsAt, Stakes;
    PathLength(maturity);
    CoinsAfter(maturity, maturity + 1);
    NoStakeAtTop(maturity);
  }

  lemma OnlyStakeGone(maturity: nat, i: nat)
    requires maturity >= 1 && 0 < i < maturity + 2
    ensures StakesLast(Blocks(maturity), Ledger(OLD_COINS, map[]), Path(maturity), i) <==> i > 1
  {
    hide After, Stakes, CoinsAt, Path, Blocks, MapOk, FitsAt;
    assert |Path(maturity)| == maturity + 2 by { PathLength(maturity); }
    CoinsAfter(maturity, i);
    if i == 1 {
      StakeSpent(maturity);
      assert 2 in Stakes(Blocks(maturity), Path(maturity), 1);
    }
  }

  lemma PathLength(maturity: nat)
    ensures |Path(maturity)| == maturity + 2
  {
  }

  /**
   For every maturity: a chain of well-formed blocks, connected in good order, with the coinstake spent
   only once it is mature, whose blocks above the coinstake can all be disconnected, but not the
   coinstake's own block then.
   */
  lemma UncleanReorganisation(t: Tree, maturity: nat, undo: (Ledger, BlockId) -> Option<Ledger>)
    requires maturity >= 1 && HasChain(t, maturity + 2)
    requires forall l, b :: undo(l, b) == Disconnect(Blocks(maturity), l, b)
    ensures var bodies := Blocks(maturity); var top := maturity + 2;
      && Chained(t, bodies, Ledger(OLD_COINS, map[]), Path(maturity))
      && (forall b :: WellFormedBlock(bodies(b).txs) && bodies(b).height == b)
      && STAKE in bodies(2).txs && SPENDER in bodies(top).txs && bodies(top).height - bodies(2).height == maturity
    ensures var top := maturity + 2; var l := TopLedger(maturity); var (stuck, tip) := Walk(t, undo, l, top, 1);
      && top in t && Undoable(t, undo, l, top, 2) && !Undoable(t, undo, l, top, 1)
      && tip == 2 && Disconnect(Blocks(maturity), stuck, 2) == None
  {
    hide Disconnect, WellFormedBlock, StakesLast, Undoable, Walk, After, FitsAt, Chained;
    var bodies, top, l0 := Blocks(maturity), maturity + 2, Ledger(OLD_COINS, map[]);
    forall b ensures WellFormedBlock(bodies(b).txs) { BlocksAreWellFormed(maturity, b); }
    PathIsChained(t, maturity);
    assert Path(maturity)[0] == 1 && Path(maturity)[1] == 2 && Path(maturity)[maturity + 1] == top;
    ChainAncestors(t, top, 1, 1);
    ChainAncestors(t, top, 2, 2);
    ChainAncestors(t, top, top, 2);
    forall i | 0 < i < maturity + 2 ensures StakesLast(bodies, l0, Path(maturity), i) <==> i > 1 {
      OnlyStakeGone(maturity, i);
    }
    ReorganisationPossible(t, bodies, undo, l0, Path(maturity), 0);
    ReorganisationPossible(t, bodies, undo, l0, Path(maturity), 1);
    var l := TopLedger(maturity);
    assert !StakesLast(bodies, l0, Path(maturity), 1);
    WalkEnds(t, undo, l, top, 2);
    WalkThrough(t, undo, l, top, 2, 1);
    var (c', b') := Walk(t, undo, l, top, 2);
    LastOneBack(t, undo, c', b');
  }

  /** From height 2 down to height 1 there is one step. */
  lemma LastOneBack(t: Tree, undo: (Ledger, BlockId) -> Option<Ledger>, l: Ledger, b: BlockId)
    requires Rooted(t) && b in t && t[b].height == 2 && !Undoable(t, undo, l, b, 1)
    ensures undo(l, b) == None && Walk(t, undo, l, b, 1) == (l, b)
  {
    assert RootedAt(t, b);
  }
}
