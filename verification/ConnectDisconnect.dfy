/** UpdateCoins, the transaction loop of ConnectBlock and DisconnectBlock, run on a cache (src/main.cpp). */
module ConnectDisconnect {
  import opened Wrappers
  import opened Coins
  import opened CoinsStack
  import opened CoinsCache
  import opened Utxo
  import opened UtxoBlocks
  import opened UtxoEffect
  import opened MoneySupply

  // ----- Connecting -----

  /** One input: the modifier's holder calls Spend.  The assert on its answer holds. */
  method SpendInput(v: CoinsViewCache, out: OutPoint) returns (undo: Undo)
    requires v.Ok() && CanSpend(Flat(v.Abs()), out)
    modifies v.Repr
    ensures v.Ok() && Flat(v.Abs()) == SpendFrom(Flat(old(v.Abs())), out)
    ensures undo == SpendUndo(Flat(old(v.Abs()))[out.hash], out.n)
  {
    ghost var s := v.Abs();
    ModifierSeesFlat(s, out.hash);
    var c := v.ModifyCoins(out.hash);
    var ok, r, u := Spend(c, out.n);
    assert ok;
    ModifyIsPut(s, out.hash, r);
    v.Release(out.hash, r);
    undo := u;
  }

  lemma {:induction false} CanSpendPrefix(u: Map, vin: seq<OutPoint>, i: nat, n: nat)
    requires i <= n <= |vin| && CanSpendAll(u, vin, n)
    ensures CanSpendAll(u, vin, i)
    decreases n
  {
    hide CanSpend, SpendAll;
    if i < n { CanSpendPrefix(u, vin, i, n - 1); }
  }

  lemma SpendStep(u: Map, vin: seq<OutPoint>, i: nat)
    requires i < |vin| && CanSpendAll(u, vin, |vin|)
    ensures var (ua, undos) := SpendAll(u, vin, i);
      CanSpend(ua, vin[i]) &&
      SpendAll(u, vin, i + 1) == (SpendFrom(ua, vin[i]), undos + [SpendUndo(ua[vin[i].hash], vin[i].n)])
  {
    hide CanSpend, SpendFrom, SpendUndo;
    CanSpendPrefix(u, vin, i + 1, |vin|);
  }

  /** The first loop of UpdateCoins. */
  method SpendInputs(v: CoinsViewCache, vin: seq<OutPoint>) returns (undos: seq<Undo>)
    requires v.Ok() && CanSpendAll(Flat(v.Abs()), vin, |vin|)
    modifies v.Repr
    ensures v.Ok() && Flat(v.Abs()) == SpendAll(Flat(old(v.Abs())), vin, |vin|).0
    ensures undos == SpendAll(Flat(old(v.Abs())), vin, |vin|).1
  {
    hide CanSpend, SpendFrom, SpendUndo, Flat, CanSpendAll;
    ghost var u := Flat(v.Abs());
    undos := [];
    var i := 0;
    while i < |vin|
      invariant 0 <= i <= |vin| && v.Ok()
      invariant Flat(v.Abs()) == SpendAll(u, vin, i).0 && undos == SpendAll(u, vin, i).1
    {
      SpendStep(u, vin, i);
      var undo := SpendInput(v, vin[i]);
      undos := undos + [undo];
      i := i + 1;
    }
  }

  /** UpdateCoins. */
  method UpdateCoins(v: CoinsViewCache, tx: Tx, height: int) returns (undos: seq<Undo>)
    requires v.Ok() && CanApply(Flat(v.Abs()), tx)
    modifies v.Repr
    ensures v.Ok() && Flat(v.Abs()) == ApplyTx(Flat(old(v.Abs())), tx, height).0
    ensures undos == ApplyTx(Flat(old(v.Abs())), tx, height).1
    ensures Stored(Flat(v.Abs()), tx, height) && InputsGone(Flat(old(v.Abs())), Flat(v.Abs()), tx)
    ensures UndosFor(Flat(old(v.Abs())), tx, undos)
  {
    hide CanSpendAll, SpendAll, Flat, FromTx, Stored, InputsGone, UndosFor;
    ghost var u := Flat(v.Abs());
    if tx.IsCoinBase() {
      undos := [];
      assert SpendAll(u, [], 0) == (u, []) by { NothingSpent(u); }
    } else {
      undos := SpendInputs(v, tx.vin);
    }
    v.Replace(tx.id, FromTx(tx, height));
    StoredByApply(u, tx, height);
    GoneByApply(u, tx, height);
    UndosByApply(u, tx, height);
  }

  lemma NothingSpent(u: Map)
    ensures SpendAll(u, [], 0) == (u, [])
  {
  }

  lemma AvailableIffSpendable(u: Map, out: OutPoint, c: Option<CCoins>)
    requires out.hash in u <==> c.Some? && !Pruned(c.value)
    requires out.hash in u ==> u[out.hash] == c.value
    ensures CanSpend(u, out) <==> c.Some? && c.value.IsAvailable(out.n)
  {
  }

  /** HaveInputs: every input is available in the coins as they are. */
  method HaveInputs(v: CoinsViewCache, tx: Tx) returns (have: bool)
    requires v.Ok()
    modifies v.Repr
    ensures v.Ok() && Flat(v.Abs()) == Flat(old(v.Abs()))
    ensures have <==> forall out :: out in Inputs(tx) ==> CanSpend(Flat(v.Abs()), out)
  {
    if tx.IsCoinBase() {
      return true;
    }
    ghost var u := Flat(v.Abs());
    var i := 0;
    while i < |tx.vin|
      invariant 0 <= i <= |tx.vin| && v.Ok() && Flat(v.Abs()) == u
      invariant forall j :: 0 <= j < i ==> CanSpend(u, tx.vin[j])
    {
      var out := tx.vin[i];
      var c := v.GetCoins(out.hash);
      AvailableIffSpendable(u, out, c);
      if c == None || !c.value.IsAvailable(out.n) {
        assert out in Inputs(tx);
        return false;
      }
      i := i + 1;
    }
    return true;
  }

  lemma {:induction false} OtherKept(u: Map, vin: seq<OutPoint>, i: nat, other: OutPoint)
    requires i <= |vin| && CanSpendAll(u, vin, i) && CanSpend(u, other)
    requires forall j :: 0 <= j < i ==> vin[j] != other
    ensures CanSpend(SpendAll(u, vin, i).0, other)
    decreases i
  {
    hide SpendFrom, SpendUndo, CanSpend;
    if i > 0 {
      OtherKept(u, vin, i - 1, other);
      OtherOutput(SpendAll(u, vin, i - 1).0, vin[i - 1], other);
    }
  }

  /** The duplicate-input test of CheckTransaction. */
  predicate Distinct(vin: seq<OutPoint>) {
    forall i, j :: 0 <= j < i < |vin| ==> vin[j] != vin[i]
  }

  /** With distinct inputs HaveInputs is enough: the assert in UpdateCoins cannot fail. */
  lemma {:induction false} HaveInputsSuffices(u: Map, vin: seq<OutPoint>, i: nat)
    requires i <= |vin| && Distinct(vin) && forall out :: out in vin ==> CanSpend(u, out)
    ensures CanSpendAll(u, vin, i)
    decreases i
  {
    hide CanSpend, SpendAll;
    if i > 0 {
      HaveInputsSuffices(u, vin, i - 1);
      OtherKept(u, vin, i - 1, vin[i - 1]);
    }
  }

  /** An output that was spent stays spent. */
  lemma {:induction false} SpentStaysSpent(u: Map, vin: seq<OutPoint>, j: nat, i: nat)
    requires j < i <= |vin| && CanSpendAll(u, vin, i)
    ensures !CanSpend(SpendAll(u, vin, i).0, vin[j])
    decreases i
  {
    hide CanSpend, SpendFrom, SpendUndo;
    OtherOutput(SpendAll(u, vin, i - 1).0, vin[i - 1], vin[j]);
    if j < i - 1 { SpentStaysSpent(u, vin, j, i - 1); }
  }

  /** Spending everything in turn needs distinct inputs. */
  lemma SpendingNeedsDistinct(u: Map, vin: seq<OutPoint>)
    requires CanSpendAll(u, vin, |vin|)
    ensures Distinct(vin)
  {
    hide CanSpend, SpendAll;
    forall i, j | 0 <= j < i < |vin| ensures vin[j] != vin[i] {
      CanSpendPrefix(u, vin, i + 1, |vin|);
      SpentStaysSpent(u, vin, j, i);
    }
  }

  /**
   When HaveInputs said yes, the assert in UpdateCoins holds if and only if the transaction names no
   input twice: the test made in CheckTransaction is exactly what HaveInputs leaves out.
   */
  lemma SafeIffDistinct(u: Map, tx: Tx)
    requires forall out :: out in Inputs(tx) ==> CanSpend(u, out)
    ensures CanApply(u, tx) <==> Distinct(Inputs(tx))
  {
    hide CanSpend, CanSpendAll;
    if CanApply(u, tx) { SpendingNeedsDistinct(u, Inputs(tx)); }
    if Distinct(Inputs(tx)) { HaveInputsSuffices(u, Inputs(tx), |Inputs(tx)|); }
  }

  /** And without that test it is not: an output named twice passes HaveInputs. */
  lemma DoubleSpendPassesHaveInputs()
    ensures exists u: Map, vin: seq<OutPoint> ::
      MapOk(u) && (forall out :: out in vin ==> CanSpend(u, out)) && !CanSpendAll(u, vin, |vin|)
  {
    var c := CCoins(false, false, [TxOut(1, [])], 1, 1);
    var u: Map := map[1 := c];
    var out := OutPoint(1, 0);
    assert EntryAt(u, 1) by { assert !c.vout[0].IsNull(); }
    var vin := [out, out];
    assert SpendAll(u, vin, 0) == (u, []);
    assert Trim([NULL_OUT]) == [] by { TrimUnique([NULL_OUT], 0); }
    assert c.vout[0 := NULL_OUT] == [NULL_OUT];
    assert out.hash !in SpendAll(u, vin, 1).0;
    assert !CanSpendAll(u, vin, |vin|);
    assert forall o :: o in vin ==> CanSpend(u, o);
    assert MapOk(u);
  }

  lemma {:induction false} CanApplyPrefix(u: Map, txs: seq<Tx>, height: int, i: nat, n: nat)
    requires i <= n <= |txs| && CanApplyAll(u, txs, height, n)
    ensures CanApplyAll(u, txs, height, i)
    decreases n
  {
    hide CanApply, ApplyAll;
    if i < n { CanApplyPrefix(u, txs, height, i, n - 1); }
  }

  /** HaveInputs, before a transaction with distinct inputs, decides whether it can be connected. */
  lemma HaveInputsDecides(u: Map, tx: Tx)
    requires Distinct(Inputs(tx))
    ensures CanApply(u, tx) <==> forall out :: out in Inputs(tx) ==> CanSpend(u, out)
  {
    if CanApply(u, tx) {
      AllSpendable(u, Inputs(tx), |Inputs(tx)|);
    }
    if forall out :: out in Inputs(tx) ==> CanSpend(u, out) {
      HaveInputsSuffices(u, Inputs(tx), |Inputs(tx)|);
    }
  }

  lemma {:induction false} AllSpendable(u: Map, vin: seq<OutPoint>, i: nat)
    requires i <= |vin| && CanSpendAll(u, vin, i)
    ensures forall j :: 0 <= j < i ==> CanSpend(u, vin[j])
    decreases i
  {
    hide CanSpend, SpendAll;
    if i > 0 {
      AllSpendable(u, vin, i - 1);
      StillThere(u, vin, i - 1, vin[i - 1]);
    }
  }

  lemma ApplyStep(u: Map, txs: seq<Tx>, height: int, i: nat)
    requires i < |txs| && CanApplyAll(u, txs, height, i)
    ensures var (ua, undos) := ApplyAll(u, txs, height, i);
      && (CanApplyAll(u, txs, height, i + 1) <==> CanApply(ua, txs[i]))
      && ApplyAll(u, txs, height, i + 1) == (ApplyTx(ua, txs[i], height).0, undos + [ApplyTx(ua, txs[i], height).1])
  {
    hide CanApply, ApplyTx;
  }

  lemma ValueStep(u: Map, txs: seq<Tx>, height: int, i: nat)
    requires i < |txs|
    ensures BlockValueOut(txs, i + 1) == BlockValueOut(txs, i) + ValueOut(txs[i])
    ensures BlockValueIn(u, txs, height, i + 1)
      == BlockValueIn(u, txs, height, i) + ValueIn(ApplyAll(u, txs, height, i).0, txs[i])
  {
    hide ValueOut, ValueIn, ApplyAll;
  }

  lemma CoinbaseSpendsNothing(u: Map, tx: Tx)
    requires tx.IsCoinBase()
    ensures CanApply(u, tx) && ValueIn(u, tx) == 0
  {
  }

  /**
   The transaction loop of ConnectBlock.  It fails exactly when some input is missing when its turn
   comes; otherwise valueOut and valueIn are nValueOut and nValueIn.  CheckBlock has made sure that
   no transaction has a negative output, outputs beyond 64 bits or an input named twice.
   */
  method ConnectTransactions(v: CoinsViewCache, txs: seq<Tx>, height: int)
    returns (ok: bool, undos: seq<seq<Undo>>, valueOut: int, valueIn: int)
    requires v.Ok() && AllOutputsOk(txs)
    requires forall i :: 0 <= i < |txs| ==> Distinct(Inputs(txs[i])) && ValueOut(txs[i]) <= MAX_INT64
    modifies v.Repr
    ensures v.Ok() && ok == CanApplyAll(Flat(old(v.Abs())), txs, height, |txs|)
    ensures ok ==> Flat(v.Abs()) == BlockConnected(Flat(old(v.Abs())), txs, height).0
    ensures ok ==> undos == BlockConnected(Flat(old(v.Abs())), txs, height).1
    ensures ok ==> valueOut == BlockValueOut(txs, |txs|)
    ensures ok ==> valueIn == BlockValueIn(Flat(old(v.Abs())), txs, height, |txs|)
  {
    hide CanApply, ApplyTx, ApplyAll, CanApplyAll, Inputs, Distinct, CanSpend, Flat;
    hide ValueOut, ValueIn, BlockValueIn, BlockValueOut, OutputsOk;
    ghost var u := Flat(v.Abs());
    NothingApplied(u, txs, height);
    undos, valueOut, valueIn := [], 0, 0;
    var i := 0;
    while i < |txs|
      invariant 0 <= i <= |txs| && v.Ok() && CanApplyAll(u, txs, height, i)
      invariant Flat(v.Abs()) == ApplyAll(u, txs, height, i).0 && undos == ApplyAll(u, txs, height, i).1
      invariant valueOut == BlockValueOut(txs, i) && valueIn == BlockValueIn(u, txs, height, i)
    {
      ApplyStep(u, txs, height, i);
      ValueStep(u, txs, height, i);
      if txs[i].IsCoinBase() {
        CoinbaseSpendsNothing(Flat(v.Abs()), txs[i]);
      } else {
        HaveInputsDecides(Flat(v.Abs()), txs[i]);
        var have := HaveInputs(v, txs[i]);
        if !have {
          NotConnected(u, txs, height, i);
          return false, undos, valueOut, valueIn;
        }
        var value := GetValueIn(v, txs[i]);
        valueIn := valueIn + value;
      }
      var value := GetValueOut(txs[i]);
      valueOut := valueOut + value.value;
      var undo := UpdateCoins(v, txs[i], height);
      undos := undos + [undo];
      i := i + 1;
    }
    ok := true;
  }

  lemma NothingApplied(u: Map, txs: seq<Tx>, height: int)
    ensures CanApplyAll(u, txs, height, 0) && ApplyAll(u, txs, height, 0) == (u, [])
    ensures BlockValueOut(txs, 0) == 0 && BlockValueIn(u, txs, height, 0) == 0
  {
  }

  lemma NotConnected(u: Map, txs: seq<Tx>, height: int, i: nat)
    requires i < |txs| && !CanApplyAll(u, txs, height, i + 1)
    ensures !CanApplyAll(u, txs, height, |txs|)
  {
    hide *;
    if CanApplyAll(u, txs, height, |txs|) { CanApplyPrefix(u, txs, height, i + 1, |txs|); }
  }

  // ----- Disconnecting -----

  /** What the running method knows of the model run: the same coins and fClean, as far as they are determined. */
  ghost predicate Tracks(r: Restored, u: Map, clean: bool) {
    if r.known then r.u == u && r.clean == clean else !r.clean && !clean
  }

  /** What the restore loop does with the coins a modifier hands out. */
  method RestoreOutput(c: CCoins, n: nat, undo: Undo, fClean: bool) returns (r: CCoins, clean: bool)
    ensures r == RestoredCoins(c, n, undo) && clean == (fClean && RestoresCleanly(c, n, undo))
  {
    clean := fClean;
    r := c;
    if undo.height != 0 {
      if !Pruned(c) {
        clean := false;
      }
      r := NO_COINS.(coinBase := undo.coinBase, height := undo.height, version := undo.version);
    } else {
      if Pruned(c) {
        clean := false;
      }
    }
    if r.IsAvailable(n) {
      clean := false;
    }
    if |r.vout| < n + 1 {
      r := r.(vout := Resized(r.vout, n + 1));
    }
    r := r.(vout := r.vout[n := undo.txout]);
  }

  /** A modifier hands out the coins of the flat map, or something pruned: that is enough to track the model. */
  lemma RestoreTracked(r: Restored, u: Map, fClean: bool, out: OutPoint, undo: Undo, c: CCoins)
    requires Tracks(r, u, fClean) && (out.hash in u <==> !Pruned(c)) && (out.hash in u ==> u[out.hash] == c)
    ensures Tracks(RestoreOne(r, out, undo), Put(u, out.hash, RestoredCoins(c, out.n, undo)),
                   fClean && RestoresCleanly(c, out.n, undo))
  {
    hide Put;
    assert Pruned(NO_COINS);
  }

  /** The restore of one input. */
  method RestoreInput(v: CoinsViewCache, out: OutPoint, undo: Undo, fClean: bool, ghost r: Restored)
    returns (clean: bool)
    requires v.Ok() && Tracks(r, Flat(v.Abs()), fClean)
    modifies v.Repr
    ensures v.Ok() && Tracks(RestoreOne(r, out, undo), Flat(v.Abs()), clean)
  {
    hide Flat, Valid, Fetched, Lookup, Put, Tracks, RestoreOne, RestoredCoins, RestoresCleanly, Pruned;
    ghost var s := v.Abs();
    ModifierSeesFlat(s, out.hash);
    var c := v.ModifyCoins(out.hash);
    RestoreTracked(r, Flat(s), fClean, out, undo, c);
    var c1, ok := RestoreOutput(c, out.n, undo, fClean);
    ModifyIsPut(s, out.hash, c1);
    v.Release(out.hash, c1);
    clean := ok;
  }

  /** Whether the coins are the ones the block's transaction made. */
  method MatchOutputs(c: CCoins, tx: Tx, height: int) returns (ok: bool)
    ensures ok == SameCoins(FoundOutputs(c, tx), FromTx(tx, height))
  {
    var outs := ClearUnspendable(c);
    var block := FromTx(tx, height);
    if block.version < 0 {
      outs := outs.(version := block.version);
    }
    ok := SameCoins(outs, block);
  }

  lemma MatchSeen(u: Map, tx: Tx, height: int, c: CCoins)
    requires Normal(c) && (tx.id in u <==> !Pruned(c)) && (tx.id in u ==> u[tx.id] == c)
    ensures SameCoins(FoundOutputs(Seen(u, tx.id), tx), FromTx(tx, height))
      == SameCoins(FoundOutputs(c, tx), FromTx(tx, height))
  {
    hide SameCoins, FoundOutputs, FromTx;
    if tx.id !in u {
      assert Normal(NO_COINS) && Pruned(NO_COINS);
      PrunedFound(c, tx, height);
      PrunedFound(NO_COINS, tx, height);
    }
  }

  lemma PutNothing(u: Map, t: Txid)
    ensures Put(u, t, NO_COINS) == u - {t}
  {
    assert Pruned(NO_COINS);
  }

  /** The removal of the outputs of one transaction, and whether they were the expected ones. */
  method RemoveOutputs(v: CoinsViewCache, tx: Tx, height: int) returns (ok: bool)
    requires v.Ok()
    modifies v.Repr
    ensures v.Ok() && Flat(v.Abs()) == Flat(old(v.Abs())) - {tx.id}
    ensures ok == SameCoins(FoundOutputs(Seen(Flat(old(v.Abs())), tx.id), tx), FromTx(tx, height))
  {
    hide Flat, Valid, Fetched, Lookup, Put, SameCoins, FoundOutputs, FromTx, Seen, Pruned;
    ghost var s := v.Abs();
    ModifierSeesFlat(s, tx.id);
    var c := v.ModifyCoins(tx.id);
    MatchSeen(Flat(s), tx, height, c);
    ok := MatchOutputs(c, tx, height);
    ModifyIsPut(s, tx.id, NO_COINS);
    PutNothing(Flat(s), tx.id);
    v.Release(tx.id, NO_COINS);
  }

  /** Whatever a pruned entry still holds, it only matches a transaction without spendable outputs. */
  lemma PrunedFound(c: CCoins, tx: Tx, height: int)
    requires Normal(c) && Pruned(c)
    ensures SameCoins(FoundOutputs(c, tx), FromTx(tx, height)) == Pruned(FromTx(tx, height))
  {
    PrunedIffEmpty(c);
    assert Spendable(c.vout) == [];
    TrimTwice(Spendable(tx.vout));
    PrunedIffEmpty(FromTx(tx, height));
  }

  /** The restore loop for one transaction. */
  method RestoreInputs(v: CoinsViewCache, vin: seq<OutPoint>, undos: seq<Undo>, fClean: bool, ghost r: Restored)
    returns (clean: bool)
    requires v.Ok() && |undos| == |vin| && Tracks(r, Flat(v.Abs()), fClean)
    modifies v.Repr
    ensures v.Ok() && Tracks(RestoreAll(r, vin, undos, |vin|), Flat(v.Abs()), clean)
  {
    hide Tracks, RestoreOne, Flat;
    clean := fClean;
    ghost var r1 := r;
    var j := |vin|;
    while j > 0
      invariant 0 <= j <= |vin| && v.Ok() && Tracks(r1, Flat(v.Abs()), clean)
      invariant RestoreAll(r1, vin, undos, j) == RestoreAll(r, vin, undos, |vin|)
    {
      j := j - 1;
      clean := RestoreInput(v, vin[j], undos[j], clean, r1);
      r1 := RestoreOne(r1, vin[j], undos[j]);
    }
  }

  /** The coins and flags DisconnectTx has after the removal of the outputs. */
  ghost function WithoutOutputs(r: Restored, tx: Tx, height: int): Restored {
    Restored(r.u - {tx.id}, r.clean && SameCoins(FoundOutputs(Seen(r.u, tx.id), tx), FromTx(tx, height)), r.known)
  }

  lemma RestoredAfterRemoval(r: Restored, tx: Tx, undos: seq<Undo>, height: int)
    requires |undos| == |Inputs(tx)|
    ensures DisconnectTx(r, tx, undos, height) == RestoreAll(WithoutOutputs(r, tx, height), Inputs(tx), undos, |undos|)
    ensures undos == [] ==> DisconnectTx(r, tx, undos, height) == WithoutOutputs(r, tx, height)
  {
    hide FoundOutputs, FromTx, Seen, SameCoins;
  }

  /** One transaction of DisconnectBlock. */
  method DisconnectTransaction(v: CoinsViewCache, tx: Tx, undos: seq<Undo>, height: int, fClean: bool,
    ghost r: Restored)
    returns (clean: bool)
    requires v.Ok() && |undos| == |Inputs(tx)| && Tracks(r, Flat(v.Abs()), fClean)
    modifies v.Repr
    ensures v.Ok() && Tracks(DisconnectTx(r, tx, undos, height), Flat(v.Abs()), clean)
  {
    hide FoundOutputs, FromTx, Seen, SameCoins, RestoreAll, DisconnectTx, Flat;
    RestoredAfterRemoval(r, tx, undos, height);
    ghost var r1 := WithoutOutputs(r, tx, height);
    var ok := RemoveOutputs(v, tx, height);
    clean := fClean && ok;
    assert Tracks(r1, Flat(v.Abs()), clean);
    if !tx.IsCoinBase() {
      clean := RestoreInputs(v, tx.vin, undos, clean, r1);
    }
  }

  lemma DisconnectStep(r: Restored, txs: seq<Tx>, undos: seq<seq<Undo>>, height: int, i: nat)
    requires i < |txs| && i < |undos|
    ensures DisconnectAll(r, txs, undos, height, i + 1)
      == DisconnectAll(DisconnectTx(r, txs[i], undos[i], height), txs, undos, height, i)
  {
    hide DisconnectTx;
  }

  lemma {:induction false} SizesPrefix(txs: seq<Tx>, undos: seq<seq<Undo>>, i: nat, n: nat)
    requires i <= n <= |txs| && n <= |undos| && SizesMatch(txs, undos, n)
    ensures SizesMatch(txs, undos, i)
    decreases n
  {
    hide Inputs;
    if i < n { SizesPrefix(txs, undos, i, n - 1); }
  }

  /** With the sizes matching from i on, the rest decides. */
  lemma SizesRest(txs: seq<Tx>, undos: seq<seq<Undo>>, i: nat, n: nat)
    requires i < n <= |txs| && n <= |undos|
    ensures SizesMatch(txs, undos, n) ==> |undos[i]| == |Inputs(txs[i])|
  {
    hide Inputs;
    if SizesMatch(txs, undos, n) { SizesPrefix(txs, undos, i + 1, n); }
  }

  lemma {:induction false} SizesAll(txs: seq<Tx>, undos: seq<seq<Undo>>, n: nat)
    requires n <= |txs| && n <= |undos| && forall i :: 0 <= i < n ==> |undos[i]| == |Inputs(txs[i])|
    ensures SizesMatch(txs, undos, n)
    decreases n
  {
    hide Inputs;
    if n > 0 { SizesAll(txs, undos, n - 1); }
  }

  /** Block undo data has no entry for the coinbase; give it an empty one. */
  function WithCoinbase(vtxundo: seq<seq<Undo>>): seq<seq<Undo>> {
    [[]] + vtxundo
  }

  /**
   DisconnectBlock.  None is its error return for undo data of the wrong size; otherwise the answer
   is fClean.  CheckBlock has the first transaction, and no other, be a coinbase.
   */
  method DisconnectBlock(v: CoinsViewCache, txs: seq<Tx>, vtxundo: seq<seq<Undo>>, height: int)
    returns (fClean: Option<bool>)
    requires v.Ok() && |txs| > 0 && forall i :: 0 <= i < |txs| ==> (txs[i].IsCoinBase() <==> i == 0)
    modifies v.Repr
    ensures v.Ok()
    ensures fClean.Some? <==>
      |vtxundo| + 1 == |txs| && SizesMatch(txs, WithCoinbase(vtxundo), |txs|)
    ensures fClean.Some? ==>
      Tracks(BlockDisconnected(Flat(old(v.Abs())), txs, WithCoinbase(vtxundo), height), Flat(v.Abs()), fClean.value)
  {
    hide DisconnectTx, SizesMatch, Tracks, Flat, DisconnectAll;
    if |vtxundo| + 1 != |txs| {
      return None;
    }
    ghost var undos := WithCoinbase(vtxundo);
    ghost var start := Restored(Flat(v.Abs()), true, true);
    assert Tracks(start, Flat(v.Abs()), true) by { StartsTracked(Flat(v.Abs())); }
    ghost var r := start;
    var clean := true;
    var i := |txs|;
    while i > 0
      invariant 0 <= i <= |txs| && v.Ok() && Tracks(r, Flat(v.Abs()), clean)
      invariant forall j :: i <= j < |txs| ==> |undos[j]| == |Inputs(txs[j])|
      invariant DisconnectAll(r, txs, undos, height, i) == DisconnectAll(start, txs, undos, height, |txs|)
    {
      i := i - 1;
      assert i > 0 ==> undos[i] == vtxundo[i - 1];
      SizesRest(txs, undos, i, |txs|);
      if !txs[i].IsCoinBase() && |vtxundo[i - 1]| != |txs[i].vin| {
        return None;
      }
      DisconnectStep(r, txs, undos, height, i);
      clean := DisconnectTransaction(v, txs[i], if i == 0 then [] else vtxundo[i - 1], height, clean, r);
      r := DisconnectTx(r, txs[i], undos[i], height);
    }
    SizesAll(txs, undos, |txs|);
    NothingLeft(r, txs, undos, height);
    return Some(clean);
  }

  lemma StartsTracked(u: Map)
    ensures Tracks(Restored(u, true, true), u, true)
  {
  }

  lemma NothingLeft(r: Restored, txs: seq<Tx>, undos: seq<seq<Undo>>, height: int)
    ensures DisconnectAll(r, txs, undos, height, 0) == r
  {
  }

  /** The undo data DisconnectBlock is given is what connecting produced: the coinbase has none. */
  lemma CoinbaseHasNoUndo(u: Map, txs: seq<Tx>, height: int)
    requires Fits(u, txs, height) && |txs| > 0 && txs[0].IsCoinBase()
    ensures |BlockConnected(u, txs, height).1| == |txs|
    ensures WithCoinbase(BlockConnected(u, txs, height).1[1..]) == BlockConnected(u, txs, height).1
  {
    hide ApplyAll, CanApplyAll, MapOk, AllNew, DisconnectAll;
    var undos := BlockConnected(u, txs, height).1;
    DisconnectUndoesConnect(u, txs, height);
    SizesPrefix(txs, undos, 1, |txs|);
    assert undos[0] == [];
    assert [[]] + undos[1..] == undos;
  }

  // ----- There and back on one cache -----

  /** CheckBlock: the first transaction is the only coinbase, no input is named twice, and the outputs fit 64 bits. */
  predicate WellFormedBlock(txs: seq<Tx>) {
    && |txs| > 0
    && (forall i :: 0 <= i < |txs| ==> (txs[i].IsCoinBase() <==> i == 0))
    && (forall i :: 0 <= i < |txs| ==> Distinct(Inputs(txs[i])) && ValueOut(txs[i]) <= MAX_INT64)
  }

  /** The undo data of a block, as it is stored. */
  lemma StoredUndo(u: Map, txs: seq<Tx>, height: int)
    requires Fits(u, txs, height) && |txs| > 0 && txs[0].IsCoinBase()
    ensures var undos := BlockConnected(u, txs, height).1;
      |undos| == |txs| && WithCoinbase(undos[1..]) == undos && SizesMatch(txs, undos, |txs|)
  {
    hide ApplyAll, CanApplyAll, MapOk, AllNew, DisconnectAll;
    CoinbaseHasNoUndo(u, txs, height);
    DisconnectUndoesConnect(u, txs, height);
  }

  lemma AllNewOutputs(u: Map, txs: seq<Tx>, i: nat)
    requires i <= |txs| && AllNew(u, txs, i)
    ensures forall j :: 0 <= j < i ==> OutputsOk(txs[j])
    decreases i
  {
    hide OutputsOk;
    if i > 0 { AllNewOutputs(u, txs, i - 1); }
  }

  /**
   ConnectBlock's transaction loop, then DisconnectBlock with the undo data it stored, on one cache.
   Both succeed.  The coins are back up to the coinstake mark of the entries the block used up, and
   fClean says whether the block used up no coinstake of its own.
   */
  method ConnectThenDisconnect(v: CoinsViewCache, txs: seq<Tx>, height: int) returns (fClean: Option<bool>)
    requires v.Ok() && Fits(Flat(v.Abs()), txs, height) && WellFormedBlock(txs)
    modifies v.Repr
    ensures v.Ok() && fClean.Some?
    ensures var u := Flat(old(v.Abs())); var u' := BlockConnected(u, txs, height).0;
      && Flat(v.Abs()) == Destaked(u, Lost(u, u', {}))
      && (fClean.value <==> StakeIds(txs, height, |txs|) <= u'.Keys)
  {
    hide Flat, ApplyAll, CanApplyAll, MapOk, AllNew, DisconnectAll, SizesMatch, StakeIds, Destaked, Lost, OutputsOk;
    ghost var u := Flat(v.Abs());
    AllNewOutputs(u, txs, |txs|);
    StoredUndo(u, txs, height);
    DisconnectUndoesConnect(u, txs, height);
    var ok, undos, valueOut, valueIn := ConnectTransactions(v, txs, height);
    assert ok;
    fClean := DisconnectBlock(v, txs, undos[1..], height);
  }
}
