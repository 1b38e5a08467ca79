/** CCoins: the unspent outputs of one transaction (src/coins.h, src/coins.cpp). */
module Coins {
  type Txid = nat

  /** CScript, as its bytes. */
  type Script = seq<nat>

  const OP_RETURN: nat := 0x6a

  predicate Unspendable(s: Script) {
    |s| > 0 && s[0] == OP_RETURN
  }

  /** CTxOut; SetNull gives value -1 and an empty script. */
  datatype TxOut = TxOut(value: int, script: Script)
  {
    predicate IsNull() { value == -1 }
    predicate IsEmpty() { value == 0 && script == [] }
  }

  const NULL_OUT := TxOut(-1, [])

  datatype OutPoint = OutPoint(hash: Txid, n: nat)
  {
    predicate IsNull() { hash == 0 && n == 0xffff_ffff }
  }

  /** CTransaction: its id, the outputs it spends and the outputs it makes. */
  datatype Tx = Tx(id: Txid, vin: seq<OutPoint>, vout: seq<TxOut>, version: int)
  {
    predicate IsCoinBase() { |vin| == 1 && vin[0].IsNull() }
    predicate IsCoinStake() { |vin| > 0 && !vin[0].IsNull() && |vout| >= 2 && vout[0].IsEmpty() }
  }

  datatype CCoins = CCoins(coinBase: bool, coinStake: bool, vout: seq<TxOut>, height: int, version: int)
  {
    predicate IsAvailable(n: nat) { n < |vout| && !vout[n].IsNull() }
  }

  /** The empty constructor, and Clear. */
  const NO_COINS := CCoins(false, false, [], 0, 0)

  predicate AllNull(vout: seq<TxOut>) {
    forall i :: 0 <= i < |vout| ==> vout[i].IsNull()
  }

  predicate Pruned(c: CCoins) {
    AllNull(c.vout)
  }

  /** Spent outputs are exactly what SetNull leaves. */
  predicate Canonical(vout: seq<TxOut>) {
    forall i {:trigger vout[i]} :: 0 <= i < |vout| && vout[i].IsNull() ==> vout[i] == NULL_OUT
  }

  /** Without the spent outputs at the end. */
  function Trim(vout: seq<TxOut>): (r: seq<TxOut>)
    ensures |r| <= |vout| && r == vout[..|r|]
    ensures |r| > 0 ==> !r[|r| - 1].IsNull()
    ensures forall i :: |r| <= i < |vout| ==> vout[i].IsNull()
  {
    if |vout| > 0 && vout[|vout| - 1].IsNull() then Trim(vout[..|vout| - 1]) else vout
  }

  function Trimmed(c: CCoins): CCoins {
    c.(vout := Trim(c.vout))
  }

  /** No spent outputs at the end: what Cleanup establishes. */
  predicate Normal(c: CCoins) {
    |c.vout| > 0 ==> !c.vout[|c.vout| - 1].IsNull()
  }

  /** Trim is determined by what it keeps: a prefix with a live end, before nulls only. */
  lemma TrimUnique(vout: seq<TxOut>, k: nat)
    requires k <= |vout| && (k > 0 ==> !vout[k - 1].IsNull()) && forall i :: k <= i < |vout| ==> vout[i].IsNull()
    ensures Trim(vout) == vout[..k]
  {
    var r := Trim(vout);
    assert !(|r| < k);
    assert !(|r| > k);
  }

  /** A cleaned-up entry is pruned exactly when it has no outputs left: HaveCoins tests vout.empty(). */
  lemma PrunedIffEmpty(c: CCoins)
    ensures Normal(c) ==> (Pruned(c) <==> c.vout == [])
    ensures Pruned(Trimmed(c)) <==> Pruned(c)
  {
    assert Pruned(Trimmed(c)) ==> |Trim(c.vout)| == 0;
  }

  /** CCoins::Cleanup. */
  method Cleanup(c: CCoins) returns (r: CCoins)
    ensures r == Trimmed(c)
  {
    var vout := c.vout;
    while |vout| > 0 && vout[|vout| - 1].IsNull()
      invariant |vout| <= |c.vout| && vout == c.vout[..|vout|]
      invariant forall i :: |vout| <= i < |c.vout| ==> c.vout[i].IsNull()
      decreases |vout|
    {
      vout := vout[..|vout| - 1];
    }
    TrimUnique(c.vout, |vout|);
    r := c.(vout := vout);
  }

  function Spendable(vout: seq<TxOut>): (r: seq<TxOut>)
    ensures |r| == |vout|
    ensures forall i :: 0 <= i < |vout| ==> r[i] == if Unspendable(vout[i].script) then NULL_OUT else vout[i]
  {
    if vout == [] then []
    else Spendable(vout[..|vout| - 1]) +
         [if Unspendable(vout[|vout| - 1].script) then NULL_OUT else vout[|vout| - 1]]
  }

  /** CCoins::ClearUnspendable. */
  method ClearUnspendable(c: CCoins) returns (r: CCoins)
    ensures r == Trimmed(c.(vout := Spendable(c.vout)))
  {
    var vout := c.vout;
    var i := 0;
    while i < |vout|
      invariant 0 <= i <= |vout| == |c.vout|
      invariant forall j :: 0 <= j < i ==> vout[j] == if Unspendable(c.vout[j].script) then NULL_OUT else c.vout[j]
      invariant forall j :: i <= j < |vout| ==> vout[j] == c.vout[j]
    {
      if Unspendable(vout[i].script) {
        vout := vout[i := NULL_OUT];
      }
      i := i + 1;
    }
    assert vout == Spendable(c.vout);
    r := Cleanup(c.(vout := vout));
  }

  /** CCoins(tx, height). */
  function FromTx(tx: Tx, height: int): CCoins {
    CCoins(tx.IsCoinBase(), tx.IsCoinStake(), Trim(Spendable(tx.vout)), height, tx.version)
  }

  /** operator==: pruned entries are all equal. */
  predicate SameCoins(a: CCoins, b: CCoins) {
    (Pruned(a) && Pruned(b)) || a == b
  }

  /** CTxInUndo: the spent output, with the metadata if it was the last one. */
  datatype Undo = Undo(txout: TxOut, coinBase: bool, coinStake: bool, height: int, version: int)

  function SpentCoins(c: CCoins, n: nat): CCoins
    requires c.IsAvailable(n)
  {
    Trimmed(c.(vout := c.vout[n := NULL_OUT]))
  }

  function SpendUndo(c: CCoins, n: nat): Undo
    requires c.IsAvailable(n)
  {
    if SpentCoins(c, n).vout == [] then Undo(c.vout[n], c.coinBase, c.coinStake, c.height, c.version)
    else Undo(c.vout[n], false, false, 0, 0)
  }

  /** CCoins::Spend(out, undo). */
  method Spend(c: CCoins, n: nat) returns (ok: bool, r: CCoins, undo: Undo)
    ensures ok == c.IsAvailable(n)
    ensures if ok then r == SpentCoins(c, n) && undo == SpendUndo(c, n) else r == c
  {
    undo := Undo(NULL_OUT, false, false, 0, 0);
    if n >= |c.vout| || c.vout[n].IsNull() {
      return false, c, undo;
    }
    undo := Undo(c.vout[n], false, false, 0, 0);
    r := c.(vout := c.vout[n := NULL_OUT]);
    r := Cleanup(r);
    if |r.vout| == 0 {
      undo := undo.(height := r.height, coinBase := r.coinBase, coinStake := r.coinStake, version := r.version);
    }
    ok := true;
  }
}
