/** What UpdateCoins does to the coins, output by output and field by field (src/main.cpp, src/coins.h). */
module UtxoEffect {
  import opened Coins
  import opened CoinsStack
  import opened Utxo

  /** Output n of transaction t is among the coins. */
  predicate There(u: Map, t: Txid, n: nat) {
    t in u && n < |u[t].vout| && u[t].vout[n].value != -1
  }

  /** Output n of tx is kept: it is not null, and its script does not start with OP_RETURN. */
  predicate Kept(tx: Tx, n: nat) {
    n < |tx.vout| && tx.vout[n].value != -1 && !(|tx.vout[n].script| > 0 && tx.vout[n].script[0] == 0x6a)
  }

  /** The only input is the null outpoint. */
  predicate MakesMoney(tx: Tx) {
    |tx.vin| == 1 && tx.vin[0].hash == 0 && tx.vin[0].n == 0xffff_ffff
  }

  /** The first input is not the null outpoint, and the first of two or more outputs has no value and no script. */
  predicate MarksStake(tx: Tx) {
    && |tx.vin| > 0 && (tx.vin[0].hash != 0 || tx.vin[0].n != 0xffff_ffff)
    && |tx.vout| >= 2 && tx.vout[0].value == 0 && |tx.vout[0].script| == 0
  }

  /** What the coins hold of tx itself: exactly the outputs kept, as they are, with its height, version and marks. */
  ghost predicate Stored(u: Map, tx: Tx, height: int) {
    && (forall n: nat {:trigger There(u, tx.id, n)} :: There(u, tx.id, n) <==> Kept(tx, n))
    && (forall n: nat {:trigger There(u, tx.id, n)} :: There(u, tx.id, n) ==> u[tx.id].vout[n] == tx.vout[n])
    && (tx.id in u ==>
          && (exists n: nat {:trigger There(u, tx.id, n)} :: There(u, tx.id, n))
          && u[tx.id].coinBase == MakesMoney(tx) && u[tx.id].coinStake == MarksStake(tx)
          && u[tx.id].height == height && u[tx.id].version == tx.version)
  }

  /** Output n of t is one of the first i inputs. */
  predicate Named(vin: seq<OutPoint>, i: nat, t: Txid, n: nat)
    requires i <= |vin|
  {
    OutPoint(t, n) in vin[..i]
  }

  /** Of transaction t exactly the outputs that the first i inputs name are gone, and nothing else changed. */
  ghost predicate SpentOf(u: Map, u': Map, vin: seq<OutPoint>, i: nat, t: Txid)
    requires i <= |vin|
  {
    && (forall n: nat {:trigger There(u', t, n)} :: There(u', t, n) <==> There(u, t, n) && !Named(vin, i, t, n))
    && (forall n: nat {:trigger There(u', t, n)} :: There(u', t, n) ==> u'[t].vout[n] == u[t].vout[n])
    && (t in u' ==> t in u && u'[t] == u[t].(vout := u'[t].vout))
  }

  /** And so of every transaction but tx itself; the input of a coinbase names nothing. */
  ghost predicate InputsGone(u: Map, u': Map, tx: Tx) {
    var k := if MakesMoney(tx) then 0 else |tx.vin|;
    forall t: Txid :: t != tx.id ==> SpentOf(u, u', tx.vin, k, t)
  }

  /**
   The undo data of input i: the output it spends, with the fields of its transaction when that was the
   last output left there.
   */
  ghost predicate UndoAt(u: Map, vin: seq<OutPoint>, undo: Undo, i: nat)
    requires i < |vin|
  {
    var t := vin[i].hash;
    && There(u, t, vin[i].n) && undo.txout == u[t].vout[vin[i].n]
    && var last := forall n: nat {:trigger There(u, t, n)} :: There(u, t, n) ==> Named(vin, i + 1, t, n);
       undo == if last then Undo(undo.txout, u[t].coinBase, u[t].coinStake, u[t].height, u[t].version)
               else Undo(undo.txout, false, false, 0, 0)
  }

  ghost predicate UndosFor(u: Map, tx: Tx, undos: seq<Undo>) {
    && |undos| == (if MakesMoney(tx) then 0 else |tx.vin|)
    && forall i {:trigger undos[i]} :: 0 <= i < |undos| ==> UndoAt(u, tx.vin, undos[i], i)
  }

  lemma ThereIsSpendable(u: Map, t: Txid, n: nat)
    ensures There(u, t, n) <==> CanSpend(u, OutPoint(t, n))
  {
  }

  /** Which outputs the entry made from a transaction has. */
  lemma KeptOutputs(tx: Tx, height: int, n: nat)
    ensures var c := FromTx(tx, height);
      && (n < |c.vout| && c.vout[n].value != -1 <==> Kept(tx, n))
      && (Kept(tx, n) ==> c.vout[n] == tx.vout[n])
  {
    var all := Spendable(tx.vout);
    var r := Trim(all);
    if n < |all| && n >= |r| { assert all[n].IsNull(); }
    if n < |r| { assert r[n] == all[n]; }
  }

  lemma PutFrom(u: Map, tx: Tx, height: int)
    ensures var c, u' := FromTx(tx, height), Put(u, tx.id, FromTx(tx, height));
      && (tx.id in u' <==> c.vout != []) && (c.vout != [] ==> u'[tx.id] == c && c.vout[|c.vout| - 1].value != -1)
      && (c.vout == [] ==> tx.id !in u')
  {
    TrimTwice(Spendable(tx.vout));
    PrunedIffEmpty(FromTx(tx, height));
  }

  /** What is stored of a transaction, whatever was there before. */
  lemma StoredByApply(u: Map, tx: Tx, height: int)
    ensures Stored(ApplyTx(u, tx, height).0, tx, height)
  {
    hide Put, Kept, Trim, Spendable, Spent;
    var c, u' := FromTx(tx, height), Put(Spent(u, tx).0, tx.id, FromTx(tx, height));
    PutFrom(Spent(u, tx).0, tx, height);
    forall n: nat
      ensures There(u', tx.id, n) <==> Kept(tx, n)
      ensures There(u', tx.id, n) ==> u'[tx.id].vout[n] == tx.vout[n]
    {
      KeptOutputs(tx, height, n);
    }
    if tx.id in u' { assert There(u', tx.id, |c.vout| - 1); }
  }

  lemma SpentFrom(u: Map, out: OutPoint, t: Txid)
    requires CanSpend(u, out)
    ensures t in SpendFrom(u, out) ==> t in u && SpendFrom(u, out)[t] == u[t].(vout := SpendFrom(u, out)[t].vout)
  {
  }

  lemma NamedOneMore(vin: seq<OutPoint>, i: nat, t: Txid, n: nat)
    requires i < |vin|
    ensures Named(vin, i + 1, t, n) <==> Named(vin, i, t, n) || vin[i] == OutPoint(t, n)
  {
    assert vin[..i + 1] == vin[..i] + [vin[i]];
  }

  lemma SpentOneMore(u: Map, u1: Map, vin: seq<OutPoint>, i: nat, t: Txid)
    requires i < |vin| && CanSpend(u1, vin[i]) && SpentOf(u, u1, vin, i, t)
    ensures SpentOf(u, SpendFrom(u1, vin[i]), vin, i + 1, t)
  {
    hide SpendFrom, CanSpend, Named;
    var u' := SpendFrom(u1, vin[i]);
    forall n: nat
      ensures There(u', t, n) <==> There(u, t, n) && !Named(vin, i + 1, t, n)
      ensures There(u', t, n) ==> u'[t].vout[n] == u[t].vout[n]
    {
      ThereIsSpendable(u', t, n);
      ThereIsSpendable(u1, t, n);
      OtherOutput(u1, vin[i], OutPoint(t, n));
      NamedOneMore(vin, i, t, n);
    }
    SpentFrom(u1, vin[i], t);
  }

  lemma {:induction false} SpentByAll(u: Map, vin: seq<OutPoint>, i: nat, t: Txid)
    requires i <= |vin| && CanSpendAll(u, vin, i)
    ensures SpentOf(u, SpendAll(u, vin, i).0, vin, i, t)
    decreases i
  {
    hide SpentOf, SpendFrom, SpendUndo, CanSpend;
    if i == 0 {
      SpentNone(u, vin, t);
    } else {
      SpentByAll(u, vin, i - 1, t);
      SpentOneMore(u, SpendAll(u, vin, i - 1).0, vin, i - 1, t);
    }
  }

  lemma SpentNone(u: Map, vin: seq<OutPoint>, t: Txid)
    ensures SpentOf(u, u, vin, 0, t)
  {
  }

  lemma InputsOf(tx: Tx)
    ensures tx.IsCoinBase() == MakesMoney(tx)
    ensures Inputs(tx) == if MakesMoney(tx) then [] else tx.vin
  {
  }

  lemma GoneByApply(u: Map, tx: Tx, height: int)
    requires CanApply(u, tx)
    ensures InputsGone(u, ApplyTx(u, tx, height).0, tx)
  {
    hide SpentOf, FromTx, SpendAll, CanSpendAll;
    InputsOf(tx);
    var u1, u' := Spent(u, tx).0, ApplyTx(u, tx, height).0;
    var k := if MakesMoney(tx) then 0 else |tx.vin|;
    forall t: Txid | t != tx.id ensures SpentOf(u, u', tx.vin, k, t) {
      SpentByAll(u, Inputs(tx), |Inputs(tx)|, t);
      SpentElsewhereToo(u, u1, u', Inputs(tx), |Inputs(tx)|, t);
      if MakesMoney(tx) { SpentOfNothing(u, u', tx.vin, t); }
    }
  }

  lemma SpentElsewhereToo(u: Map, u1: Map, u': Map, vin: seq<OutPoint>, i: nat, t: Txid)
    requires i <= |vin| && SpentOf(u, u1, vin, i, t) && (t in u1 <==> t in u') && (t in u1 ==> u'[t] == u1[t])
    ensures SpentOf(u, u', vin, i, t)
  {
    assert forall n: nat :: There(u', t, n) <==> There(u1, t, n);
  }

  lemma SpentOfNothing(u: Map, u': Map, vin: seq<OutPoint>, t: Txid)
    requires SpentOf(u, u', [], 0, t)
    ensures SpentOf(u, u', vin, 0, t)
  {
    assert forall n: nat :: !Named([], 0, t, n) && !Named(vin, 0, t, n);
  }

  /** One undo, given what the inputs before it did. */
  lemma UndoOfOne(u: Map, u1: Map, vin: seq<OutPoint>, i: nat)
    requires i < |vin| && CanSpend(u1, vin[i])
    requires SpentOf(u, u1, vin, i, vin[i].hash) && SpentOf(u, SpendFrom(u1, vin[i]), vin, i + 1, vin[i].hash)
    ensures UndoAt(u, vin, SpendUndo(u1[vin[i].hash], vin[i].n), i)
  {
    hide Named;
    var t, c := vin[i].hash, u1[vin[i].hash];
    var u2, c2 := SpendFrom(u1, vin[i]), SpentCoins(c, vin[i].n);
    ThereIsSpendable(u1, t, vin[i].n);
    TrimTwice(c.vout[vin[i].n := NULL_OUT]);
    PrunedIffEmpty(c2);
    assert t in u2 <==> c2.vout != [];
    if c2.vout != [] { assert There(u2, t, |c2.vout| - 1) && There(u, t, |c2.vout| - 1); }
    forall n: nat | There(u, t, n) && c2.vout == [] ensures Named(vin, i + 1, t, n) { assert !There(u2, t, n); }
  }

  lemma {:induction false} UndosByAll(u: Map, vin: seq<OutPoint>, i: nat)
    requires i <= |vin| && CanSpendAll(u, vin, i)
    ensures |SpendAll(u, vin, i).1| == i
    ensures forall k :: 0 <= k < i ==> UndoAt(u, vin, SpendAll(u, vin, i).1[k], k)
    decreases i
  {
    hide SpentOf, SpendFrom, SpendUndo, CanSpend, UndoAt;
    if i > 0 {
      UndosByAll(u, vin, i - 1);
      SpentByAll(u, vin, i - 1, vin[i - 1].hash);
      SpentByAll(u, vin, i, vin[i - 1].hash);
      UndoOfOne(u, SpendAll(u, vin, i - 1).0, vin, i - 1);
    }
  }

  lemma UndosByApply(u: Map, tx: Tx, height: int)
    requires CanApply(u, tx)
    ensures UndosFor(u, tx, ApplyTx(u, tx, height).1)
  {
    hide UndoAt, SpendAll, CanSpendAll, FromTx;
    InputsOf(tx);
    UndosByAll(u, Inputs(tx), |Inputs(tx)|);
  }
}
