/** The value accounting of ConnectBlock against the value of the unspent coins (src/main.cpp, src/coins.cpp). */
module MoneySupply {
  import opened Wrappers
  import opened Coins
  import opened CoinsStack
  import opened CoinsCache
  import opened Utxo
  import opened UtxoBlocks

  // ----- The value of coins -----

  function OutValue(o: TxOut): int {
    if o.IsNull() then 0 else o.value
  }

  /** The value of the first i outputs. */
  function SumOuts(vout: seq<TxOut>, i: nat): int
    requires i <= |vout|
    decreases i
  {
    if i == 0 then 0 else SumOuts(vout, i - 1) + OutValue(vout[i - 1])
  }

  function Value(c: CCoins): int {
    SumOuts(c.vout, |c.vout|)
  }

  /** The value of all unspent coins. */
  ghost function Total(u: Map): int
    decreases |u|
  {
    if u == map[] then 0
    else
      var t :| t in u;
      Total(u - {t}) + Value(u[t])
  }

  /** Total does not depend on the order in which it is taken. */
  lemma {:induction false} TotalOf(u: Map, t: Txid)
    requires t in u
    ensures Total(u) == Total(u - {t}) + Value(u[t])
    decreases |u|
  {
    hide Value;
    var x :| x in u && Total(u) == Total(u - {x}) + Value(u[x]);
    if x != t {
      TotalOf(u - {x}, t);
      TotalOf(u - {t}, x);
      assert u - {x} - {t} == u - {t} - {x};
    }
  }

  function ValueAt(u: Map, t: Txid): int {
    if t in u then Value(u[t]) else 0
  }

  lemma TotalWithout(u: Map, t: Txid)
    ensures Total(u - {t}) == Total(u) - ValueAt(u, t)
  {
    hide Total;
    if t in u { TotalOf(u, t); } else { assert u - {t} == u; }
  }

  lemma TotalWith(u: Map, t: Txid, c: CCoins)
    ensures Total(u[t := c]) == Total(u) - ValueAt(u, t) + Value(c)
  {
    hide Total, Value;
    TotalWithout(u, t);
    TotalOf(u[t := c], t);
    assert u[t := c] - {t} == u - {t};
  }

  lemma {:induction false} PrefixSum(a: seq<TxOut>, b: seq<TxOut>, i: nat)
    requires i <= |a| && i <= |b| && forall j :: 0 <= j < i ==> a[j] == b[j]
    ensures SumOuts(a, i) == SumOuts(b, i)
    decreases i
  {
    if i > 0 { PrefixSum(a, b, i - 1); }
  }

  lemma {:induction false} NullsAreWorthless(vout: seq<TxOut>, k: nat, n: nat)
    requires k <= n <= |vout| && forall i :: k <= i < n ==> vout[i].IsNull()
    ensures SumOuts(vout, n) == SumOuts(vout, k)
    decreases n
  {
    if k < n { NullsAreWorthless(vout, k, n - 1); }
  }

  lemma TrimKeepsValue(c: CCoins)
    ensures Value(Trimmed(c)) == Value(c)
    ensures Pruned(c) ==> Value(c) == 0
  {
    var r := Trim(c.vout);
    PrefixSum(c.vout, r, |r|);
    NullsAreWorthless(c.vout, |r|, |c.vout|);
    if Pruned(c) { NullsAreWorthless(c.vout, 0, |c.vout|); }
  }

  lemma TotalPut(u: Map, t: Txid, c: CCoins)
    ensures Total(Put(u, t, c)) == Total(u) - ValueAt(u, t) + Value(c)
  {
    hide Total, Value, Trimmed, Pruned;
    TrimKeepsValue(c);
    if Pruned(c) { TotalWithout(u, t); } else { TotalWith(u, t, Trimmed(c)); }
  }

  // ----- Spending -----

  /** Replacing one output changes the sum by the difference. */
  lemma {:induction false} SumUpdated(vout: seq<TxOut>, n: nat, o: TxOut, i: nat)
    requires n < |vout| && i <= |vout|
    ensures SumOuts(vout[n := o], i) == SumOuts(vout, i) + if n < i then OutValue(o) - OutValue(vout[n]) else 0
    decreases i
  {
    if i > 0 { SumUpdated(vout, n, o, i - 1); }
  }

  lemma SpentValue(c: CCoins, n: nat)
    requires c.IsAvailable(n)
    ensures Value(SpentCoins(c, n)) == Value(c) - c.vout[n].value
  {
    SumUpdated(c.vout, n, NULL_OUT, |c.vout|);
    TrimKeepsValue(c.(vout := c.vout[n := NULL_OUT]));
  }

  /** GetOutputFor(...).nValue: 0 stands for its assertion failure on a missing output. */
  function InputValue(u: Map, out: OutPoint): int {
    if CanSpend(u, out) then u[out.hash].vout[out.n].value else 0
  }

  /** The value of the first i inputs, in the coins as they are before the transaction. */
  function SumInputs(u: Map, vin: seq<OutPoint>, i: nat): int
    requires i <= |vin|
    decreases i
  {
    if i == 0 then 0 else SumInputs(u, vin, i - 1) + InputValue(u, vin[i - 1])
  }

  /** CCoinsViewCache::GetValueIn. */
  function ValueIn(u: Map, tx: Tx): int {
    SumInputs(u, Inputs(tx), |Inputs(tx)|)
  }

  /** CTransaction::GetValueOut. */
  function ValueOut(tx: Tx): int {
    SumOuts(tx.vout, |tx.vout|)
  }

  lemma SpendTakesValue(u: Map, out: OutPoint)
    requires CanSpend(u, out)
    ensures Total(SpendFrom(u, out)) == Total(u) - u[out.hash].vout[out.n].value
  {
    hide Total, Put, SpentCoins, Value;
    TotalPut(u, out.hash, SpentCoins(u[out.hash], out.n));
    SpentValue(u[out.hash], out.n);
  }

  /**
   The inputs of a transaction are worth, one after the other, what GetValueIn found before any of
   them was spent: no output can be counted twice.
   */
  lemma {:induction false} SpendingTakesValueIn(u: Map, vin: seq<OutPoint>, i: nat)
    requires i <= |vin| && CanSpendAll(u, vin, i)
    ensures Total(SpendAll(u, vin, i).0) == Total(u) - SumInputs(u, vin, i)
    decreases i
  {
    hide Total, SpendFrom, SpendUndo, CanSpend;
    if i > 0 {
      SpendingTakesValueIn(u, vin, i - 1);
      StillThere(u, vin, i - 1, vin[i - 1]);
      SpendTakesValue(SpendAll(u, vin, i - 1).0, vin[i - 1]);
      InputFound(u, vin[i - 1]);
    }
  }

  lemma InputFound(u: Map, out: OutPoint)
    requires CanSpend(u, out)
    ensures InputValue(u, out) == u[out.hash].vout[out.n].value
  {
  }

  // ----- One transaction -----

  /** The value of the first i outputs that are provably unspendable, hence never stored. */
  function Burnt(vout: seq<TxOut>, i: nat): int
    requires i <= |vout|
    decreases i
  {
    if i == 0 then 0 else Burnt(vout, i - 1) + if Unspendable(vout[i - 1].script) then OutValue(vout[i - 1]) else 0
  }

  lemma {:induction false} SpendableValue(vout: seq<TxOut>, i: nat)
    requires i <= |vout|
    ensures SumOuts(Spendable(vout), i) == SumOuts(vout, i) - Burnt(vout, i)
    decreases i
  {
    if i > 0 { SpendableValue(vout, i - 1); }
  }

  lemma MadeValue(tx: Tx, height: int)
    ensures Value(FromTx(tx, height)) == ValueOut(tx) - Burnt(tx.vout, |tx.vout|)
  {
    hide Spendable, Trim;
    SpendableValue(tx.vout, |tx.vout|);
    TrimKeepsValue(CCoins(tx.IsCoinBase(), tx.IsCoinStake(), Spendable(tx.vout), height, tx.version));
  }

  /** What a transaction destroys: unspendable outputs, and coins it overwrites because its id is already there. */
  function Destroyed(u: Map, tx: Tx): int {
    Burnt(tx.vout, |tx.vout|) + ValueAt(Spent(u, tx).0, tx.id)
  }

  /** One transaction changes the total by its outputs less its inputs less what it destroys. */
  lemma TxConserves(u: Map, tx: Tx, height: int)
    requires CanApply(u, tx)
    ensures Total(ApplyTx(u, tx, height).0) == Total(u) + ValueOut(tx) - ValueIn(u, tx) - Destroyed(u, tx)
  {
    hide Total, Put, FromTx, Value, ValueOut, Burnt, ValueAt, SpendAll, SumInputs, CanSpendAll;
    SpendingTakesValueIn(u, Inputs(tx), |Inputs(tx)|);
    TotalPut(Spent(u, tx).0, tx.id, FromTx(tx, height));
    MadeValue(tx, height);
  }

  // ----- Blocks -----

  /** nValueOut of the first i transactions. */
  function BlockValueOut(txs: seq<Tx>, i: nat): int
    requires i <= |txs|
    decreases i
  {
    if i == 0 then 0 else BlockValueOut(txs, i - 1) + ValueOut(txs[i - 1])
  }

  /** nValueIn: every transaction's inputs, in the coins the ones before it left. */
  function BlockValueIn(u: Map, txs: seq<Tx>, height: int, i: nat): int
    requires i <= |txs|
    decreases i
  {
    if i == 0 then 0
    else BlockValueIn(u, txs, height, i - 1) + ValueIn(ApplyAll(u, txs, height, i - 1).0, txs[i - 1])
  }

  function BlockDestroyed(u: Map, txs: seq<Tx>, height: int, i: nat): int
    requires i <= |txs|
    decreases i
  {
    if i == 0 then 0
    else BlockDestroyed(u, txs, height, i - 1) + Destroyed(ApplyAll(u, txs, height, i - 1).0, txs[i - 1])
  }

  /** The total changes by exactly nValueOut - nValueIn, less what the block destroys. */
  lemma {:induction false} BlockConserves(u: Map, txs: seq<Tx>, height: int, i: nat)
    requires i <= |txs| && CanApplyAll(u, txs, height, i)
    ensures Total(ApplyAll(u, txs, height, i).0)
      == Total(u) + BlockValueOut(txs, i) - BlockValueIn(u, txs, height, i) - BlockDestroyed(u, txs, height, i)
    decreases i
  {
    hide Total, ApplyTx, CanApply, ValueOut, ValueIn, Destroyed;
    if i > 0 {
      BlockConserves(u, txs, height, i - 1);
      TxConserves(ApplyAll(u, txs, height, i - 1).0, txs[i - 1], height);
    }
  }

  // ----- Chains -----

  predicate NonNegative(c: CCoins) {
    forall i {:trigger c.vout[i]} :: 0 <= i < |c.vout| ==> OutValue(c.vout[i]) >= 0
  }

  ghost predicate AllNonNegative(u: Map) {
    forall t {:trigger u[t]} :: t in u ==> NonNegative(u[t])
  }

  lemma {:induction false} SumNonNegative(vout: seq<TxOut>, i: nat)
    requires i <= |vout| && forall j :: 0 <= j < |vout| ==> OutValue(vout[j]) >= 0
    ensures SumOuts(vout, i) >= 0 && Burnt(vout, i) >= 0
    decreases i
  {
    if i > 0 { SumNonNegative(vout, i - 1); }
  }

  lemma SpentNonNegative(c: CCoins, n: nat)
    requires NonNegative(c) && c.IsAvailable(n)
    ensures NonNegative(SpentCoins(c, n))
  {
    var spent := c.vout[n := NULL_OUT];
    forall i | 0 <= i < |Trim(spent)| ensures OutValue(Trim(spent)[i]) >= 0 { assert Trim(spent)[i] == spent[i]; }
  }

  lemma MadeNonNegative(tx: Tx, height: int)
    requires OutputsOk(tx)
    ensures NonNegative(FromTx(tx, height))
  {
    var made := Spendable(tx.vout);
    forall i | 0 <= i < |Trim(made)| ensures OutValue(Trim(made)[i]) >= 0 { assert Trim(made)[i] == made[i]; }
  }

  lemma PutNonNegative(u: Map, t: Txid, c: CCoins)
    requires AllNonNegative(u) && NonNegative(c)
    ensures AllNonNegative(Put(u, t, c))
  {
    hide Pruned;
    assert NonNegative(Trimmed(c)) by {
      forall i | 0 <= i < |Trim(c.vout)| ensures OutValue(Trim(c.vout)[i]) >= 0 { assert Trim(c.vout)[i] == c.vout[i]; }
    }
  }

  lemma {:induction false} SpendingNonNegative(u: Map, vin: seq<OutPoint>, i: nat)
    requires i <= |vin| && CanSpendAll(u, vin, i) && AllNonNegative(u)
    ensures AllNonNegative(SpendAll(u, vin, i).0)
    decreases i
  {
    hide NonNegative, SpentCoins, SpendUndo, Put;
    if i > 0 {
      SpendingNonNegative(u, vin, i - 1);
      var ua := SpendAll(u, vin, i - 1).0;
      SpentNonNegative(ua[vin[i - 1].hash], vin[i - 1].n);
      PutNonNegative(ua, vin[i - 1].hash, SpentCoins(ua[vin[i - 1].hash], vin[i - 1].n));
    }
  }

  lemma DestroyedNonNegative(u: Map, tx: Tx, height: int)
    requires CanApply(u, tx) && AllNonNegative(u) && OutputsOk(tx)
    ensures Destroyed(u, tx) >= 0 && AllNonNegative(ApplyTx(u, tx, height).0)
  {
    hide Put, FromTx, SpendAll, CanSpendAll;
    SpendingNonNegative(u, Inputs(tx), |Inputs(tx)|);
    MadeNonNegative(tx, height);
    var u1 := Spent(u, tx).0;
    PutNonNegative(u1, tx.id, FromTx(tx, height));
    SumNonNegative(tx.vout, |tx.vout|);
    if tx.id in u1 { SumNonNegative(u1[tx.id].vout, |u1[tx.id].vout|); }
  }

  predicate AllOutputsOk(txs: seq<Tx>) {
    forall i {:trigger txs[i]} :: 0 <= i < |txs| ==> OutputsOk(txs[i])
  }

  lemma {:induction false} BlockDestroysNonNegative(u: Map, txs: seq<Tx>, height: int, i: nat)
    requires i <= |txs| && CanApplyAll(u, txs, height, i) && AllNonNegative(u) && AllOutputsOk(txs)
    ensures BlockDestroyed(u, txs, height, i) >= 0 && AllNonNegative(ApplyAll(u, txs, height, i).0)
    decreases i
  {
    hide Destroyed, CanApply, ApplyTx, AllNonNegative, OutputsOk;
    if i > 0 {
      BlockDestroysNonNegative(u, txs, height, i - 1);
      DestroyedNonNegative(ApplyAll(u, txs, height, i - 1).0, txs[i - 1], height);
    }
  }

  /**
   The coins and nMoneySupply after the first n blocks above genesis.  The genesis block's own
   transactions are never connected and its nMoneySupply stays 0.
   */
  function Chain(blocks: seq<seq<Tx>>, n: nat): (Map, int)
    requires n <= |blocks|
    decreases n
  {
    if n == 0 then (map[], 0)
    else
      var (u, supply) := Chain(blocks, n - 1);
      (BlockConnected(u, blocks[n - 1], n).0, supply + BlockValueOut(blocks[n - 1], |blocks[n - 1]|)
        - BlockValueIn(u, blocks[n - 1], n, |blocks[n - 1]|))
  }

  /** Every block finds its inputs and has no negative outputs. */
  predicate ChainOk(blocks: seq<seq<Tx>>, n: nat)
    requires n <= |blocks|
    decreases n
  {
    n == 0 || (ChainOk(blocks, n - 1) && AllOutputsOk(blocks[n - 1]) &&
               CanApplyAll(Chain(blocks, n - 1).0, blocks[n - 1], n, |blocks[n - 1]|))
  }

  /** nMoneySupply less the value of the unspent coins. */
  ghost function Gap(blocks: seq<seq<Tx>>, n: nat): int
    requires n <= |blocks|
  {
    Chain(blocks, n).1 - Total(Chain(blocks, n).0)
  }

  lemma GapGrows(blocks: seq<seq<Tx>>, n: nat)
    requires n < |blocks| && ChainOk(blocks, n + 1)
    ensures Gap(blocks, n + 1) == Gap(blocks, n) + BlockDestroyed(Chain(blocks, n).0, blocks[n], n + 1, |blocks[n]|)
  {
    hide Total, ApplyAll, CanApplyAll, BlockValueIn, BlockValueOut, BlockDestroyed, AllOutputsOk;
    BlockConserves(Chain(blocks, n).0, blocks[n], n + 1, |blocks[n]|);
  }

  lemma {:induction false} ChainNonNegative(blocks: seq<seq<Tx>>, n: nat)
    requires n <= |blocks| && ChainOk(blocks, n)
    ensures AllNonNegative(Chain(blocks, n).0)
    decreases n
  {
    hide ApplyAll, CanApplyAll, BlockValueIn, BlockValueOut, BlockDestroyed, AllOutputsOk, NonNegative;
    if n > 0 {
      ChainNonNegative(blocks, n - 1);
      BlockDestroysNonNegative(Chain(blocks, n - 1).0, blocks[n - 1], n, |blocks[n - 1]|);
    }
  }

  /**
   Along any chain nMoneySupply stays at or above the value of the unspent coins, and the difference
   never decreases: it grows by what the blocks destroy.
   */
  lemma {:induction false} SupplyCoversCoins(blocks: seq<seq<Tx>>, m: nat, n: nat)
    requires m <= n <= |blocks| && ChainOk(blocks, n)
    ensures ChainOk(blocks, m) && 0 <= Gap(blocks, m) <= Gap(blocks, n)
    decreases n
  {
    hide Gap, Chain, CanApplyAll, BlockDestroyed, AllOutputsOk, AllNonNegative;
    if n == 0 {
      NoGap(blocks);
    } else {
      SupplyCoversCoins(blocks, if m == n then n - 1 else m, n - 1);
      GapGrows(blocks, n - 1);
      ChainNonNegative(blocks, n - 1);
      BlockDestroysNonNegative(Chain(blocks, n - 1).0, blocks[n - 1], n, |blocks[n - 1]|);
    }
  }

  lemma NoGap(blocks: seq<seq<Tx>>)
    ensures Gap(blocks, 0) == 0
  {
  }

  // ----- On the cache -----

  lemma {:induction false} SumInputsStep(u: Map, vin: seq<OutPoint>, i: nat)
    requires i < |vin|
    ensures SumInputs(u, vin, i + 1) == SumInputs(u, vin, i) + InputValue(u, vin[i])
  {
    hide InputValue;
  }

  /** GetValueIn, once HaveInputs has answered yes: its assertion on every output holds. */
  method GetValueIn(v: CoinsViewCache, tx: Tx) returns (sum: int)
    requires v.Ok() && forall out :: out in Inputs(tx) ==> CanSpend(Flat(v.Abs()), out)
    modifies v.Repr
    ensures v.Ok() && Flat(v.Abs()) == Flat(old(v.Abs())) && sum == ValueIn(Flat(old(v.Abs())), tx)
  {
    hide Flat, SumInputs;
    if tx.IsCoinBase() {
      NoInputs(Flat(v.Abs()));
      return 0;
    }
    ghost var u := Flat(v.Abs());
    NoInputs(u);
    sum := 0;
    var i := 0;
    while i < |tx.vin|
      invariant 0 <= i <= |tx.vin| && v.Ok() && Flat(v.Abs()) == u && sum == SumInputs(u, tx.vin, i)
    {
      SumInputsStep(u, tx.vin, i);
      var out := tx.vin[i];
      assert out in Inputs(tx);
      var c := v.GetCoins(out.hash);
      assert c.Some? && c.value.IsAvailable(out.n);
      sum := sum + c.value.vout[out.n].value;
      i := i + 1;
    }
  }

  const MAX_INT64: int := 0x7fff_ffff_ffff_ffff

  lemma {:induction false} SumRises(vout: seq<TxOut>, i: nat, n: nat)
    requires i <= n <= |vout| && forall j :: 0 <= j < n ==> vout[j].value >= 0
    ensures 0 <= SumOuts(vout, i) <= SumOuts(vout, n)
    decreases n
  {
    if i < n { SumRises(vout, i, n - 1); } else if n > 0 { SumRises(vout, i - 1, n - 1); }
  }

  /** GetValueOut; None is its exception, for a negative output or a sum beyond 64 bits. */
  method GetValueOut(tx: Tx) returns (sum: Option<int>)
    ensures sum == if OutputsOk(tx) && ValueOut(tx) <= MAX_INT64 then Some(ValueOut(tx)) else None
  {
    var nValueOut := 0;
    for i := 0 to |tx.vout|
      invariant forall j :: 0 <= j < i ==> tx.vout[j].value >= 0
      invariant nValueOut == SumOuts(tx.vout, i)
      invariant nValueOut <= MAX_INT64
    {
      if tx.vout[i].value < 0 {
        return None;
      }
      if nValueOut + tx.vout[i].value > MAX_INT64 {
        if OutputsOk(tx) { SumRises(tx.vout, i + 1, |tx.vout|); }
        return None;
      }
      nValueOut := nValueOut + tx.vout[i].value;
    }
    return Some(nValueOut);
  }

  lemma NoInputs(u: Map)
    ensures forall vin :: SumInputs(u, vin, 0) == 0
  {
  }
}
