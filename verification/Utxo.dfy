/**
 Connecting and disconnecting blocks on the flat map of unspent coins (src/main.cpp, UpdateCoins and
 DisconnectBlock), and how far the one undoes the other.
 */
module Utxo {
  import opened Wrappers
  import opened Coins
  import opened CoinsStack

  type Map = map<Txid, CCoins>

  /**
   Entries are cleaned up, have an unspent output and a positive height.  Undo data marks the
   spending of a last output by a non-zero height, so height 0 would not be recognised.
   */
  ghost predicate MapOk(u: Map) {
    forall t {:trigger EntryAt(u, t)} :: t in u ==> EntryAt(u, t)
  }

  ghost predicate EntryAt(u: Map, t: Txid)
    requires t in u
  {
    Normal(u[t]) && !Pruned(u[t]) && Canonical(u[t].vout) && u[t].height > 0
  }

  predicate CanSpend(u: Map, out: OutPoint) {
    out.hash in u && u[out.hash].IsAvailable(out.n)
  }

  function SpendFrom(u: Map, out: OutPoint): Map
    requires CanSpend(u, out)
  {
    Put(u, out.hash, SpentCoins(u[out.hash], out.n))
  }

  function SpendOne(x: (Map, seq<Undo>), out: OutPoint): (Map, seq<Undo>) {
    if CanSpend(x.0, out) then (SpendFrom(x.0, out), x.1 + [SpendUndo(x.0[out.hash], out.n)]) else x
  }

  /** The first loop of UpdateCoins: the coins left and the undo data after i inputs. */
  function SpendAll(u: Map, vin: seq<OutPoint>, i: nat): (Map, seq<Undo>)
    requires i <= |vin|
    decreases i
  {
    if i == 0 then (u, []) else SpendOne(SpendAll(u, vin, i - 1), vin[i - 1])
  }

  /** The first i inputs are there when their turn comes; in particular no output is spent twice. */
  predicate CanSpendAll(u: Map, vin: seq<OutPoint>, i: nat)
    requires i <= |vin|
    decreases i
  {
    i == 0 || (CanSpendAll(u, vin, i - 1) && CanSpend(SpendAll(u, vin, i - 1).0, vin[i - 1]))
  }

  function Inputs(tx: Tx): seq<OutPoint> {
    if tx.IsCoinBase() then [] else tx.vin
  }

  /** All inputs of tx can be spent. */
  predicate CanApply(u: Map, tx: Tx) {
    CanSpendAll(u, Inputs(tx), |Inputs(tx)|)
  }

  function Spent(u: Map, tx: Tx): (Map, seq<Undo>) {
    SpendAll(u, Inputs(tx), |Inputs(tx)|)
  }

  /** UpdateCoins. */
  function ApplyTx(u: Map, tx: Tx, height: int): (Map, seq<Undo>) {
    var (u1, undos) := Spent(u, tx);
    (Put(u1, tx.id, FromTx(tx, height)), undos)
  }

  // ----- DisconnectBlock -----

  /**
   The coins afterwards, fClean, and whether the coins are known.  They are not once undo data
   without metadata was applied to missing coins: what a pruned cache entry still holds then shows.
   */
  datatype Restored = Restored(u: Map, clean: bool, known: bool)

  function Seen(u: Map, t: Txid): CCoins {
    if t in u then u[t] else NO_COINS
  }

  function Resized(vout: seq<TxOut>, n: nat): (r: seq<TxOut>)
    ensures |r| == if |vout| < n then n else |vout|
    ensures forall i :: 0 <= i < |r| ==> r[i] == if i < |vout| then vout[i] else NULL_OUT
  {
    if |vout| < n then vout + seq(n - |vout|, _ => NULL_OUT) else vout
  }

  /** What the restore loop makes of the coins it finds.  fCoinStake of the undo data is not used. */
  function RestoredCoins(c: CCoins, n: nat, undo: Undo): CCoins {
    var c1 := if undo.height != 0 then CCoins(undo.coinBase, false, [], undo.height, undo.version) else c;
    c1.(vout := Resized(c1.vout, n + 1)[n := undo.txout])
  }

  /** Whether the restore of one input raises no error. */
  predicate RestoresCleanly(c: CCoins, n: nat, undo: Undo) {
    && (if undo.height != 0 then Pruned(c) else !Pruned(c))
    && !(if undo.height != 0 then NO_COINS else c).IsAvailable(n)
  }

  function RestoreOne(r: Restored, out: OutPoint, undo: Undo): Restored {
    var c := Seen(r.u, out.hash);
    Restored(Put(r.u, out.hash, RestoredCoins(c, out.n, undo)),
             r.clean && RestoresCleanly(c, out.n, undo),
             r.known && (undo.height != 0 || out.hash in r.u))
  }

  /** The first i inputs are restored, from the last to the first. */
  function RestoreAll(r: Restored, vin: seq<OutPoint>, undos: seq<Undo>, i: nat): Restored
    requires i <= |vin| && i <= |undos|
    decreases i
  {
    if i == 0 then r else RestoreAll(RestoreOne(r, vin[i - 1], undos[i - 1]), vin, undos, i - 1)
  }

  /** The outputs of tx as DisconnectBlock finds them: unspendable ones cleared, a negative version corrected. */
  function FoundOutputs(c: CCoins, tx: Tx): CCoins {
    var c1 := Trimmed(c.(vout := Spendable(c.vout)));
    if tx.version < 0 then c1.(version := tx.version) else c1
  }

  /** One transaction of DisconnectBlock; undo data of another size is an error there and never gets this far. */
  function DisconnectTx(r: Restored, tx: Tx, undos: seq<Undo>, height: int): Restored {
    if |undos| != |Inputs(tx)| then r else
    var ok := SameCoins(FoundOutputs(Seen(r.u, tx.id), tx), FromTx(tx, height));
    RestoreAll(Restored(r.u - {tx.id}, r.clean && ok, r.known), Inputs(tx), undos, |undos|)
  }

  // ----- One input -----

  /** The map without the coinstake mark of the transactions in s. */
  ghost function Destaked(u: Map, s: set<Txid>): (r: Map)
    ensures r.Keys == u.Keys
  {
    map t | t in u :: if t in s then u[t].(coinStake := false) else u[t]
  }

  /** The transactions in s, and those with coins in u but none in u'. */
  function Lost(u: Map, u': Map, s: set<Txid>): set<Txid> {
    s + (u.Keys - u'.Keys)
  }

  lemma TrimTwice(vout: seq<TxOut>)
    ensures Trim(Trim(vout)) == Trim(vout)
  {
    TrimUnique(Trim(vout), |Trim(vout)|);
  }

  lemma SpentIsOk(c: CCoins, n: nat)
    requires Normal(c) && Canonical(c.vout) && c.IsAvailable(n)
    ensures Normal(SpentCoins(c, n)) && Canonical(SpentCoins(c, n).vout) &&
      Trimmed(SpentCoins(c, n)) == SpentCoins(c, n)
    ensures SpentCoins(c, n).vout == [] <==> Pruned(SpentCoins(c, n))
  {
    TrimTwice(c.vout[n := NULL_OUT]);
    PrunedIffEmpty(SpentCoins(c, n));
  }

  lemma SpendFromOk(u: Map, out: OutPoint)
    requires MapOk(u) && CanSpend(u, out)
    ensures MapOk(SpendFrom(u, out))
    ensures SpendFrom(u, out) ==
      if SpentCoins(u[out.hash], out.n).vout == [] then u - {out.hash}
      else u[out.hash := SpentCoins(u[out.hash], out.n)]
  {
    assert EntryAt(u, out.hash);
    SpentIsOk(u[out.hash], out.n);
    var u' := SpendFrom(u, out);
    forall t | t in u' ensures EntryAt(u', t) { if t != out.hash { assert EntryAt(u, t); } }
  }

  /** Restoring a spent output gives back the outputs exactly as they were. */
  lemma OutputsRestored(c: CCoins, n: nat)
    requires Normal(c) && Canonical(c.vout) && c.IsAvailable(n)
    ensures Resized(SpentCoins(c, n).vout, n + 1)[n := c.vout[n]] == c.vout
  {
    var spent := c.vout[n := NULL_OUT];
    var r := Trim(spent);
    if n < |c.vout| - 1 { TrimUnique(spent, |c.vout|); }
    var back := Resized(r, n + 1)[n := c.vout[n]];
    assert |back| == |c.vout|;
    forall i | 0 <= i < |back| ensures back[i] == c.vout[i] {
      if i != n && i >= |r| { assert spent[i].IsNull(); }
    }
  }

  /** The coins the restore of one input leaves: the ones spent from, coinstake mark aside if they were fully spent. */
  lemma CoinsRestored(c: CCoins, n: nat, s: bool)
    requires Normal(c) && Canonical(c.vout) && c.IsAvailable(n) && c.height > 0
    ensures var undo := SpendUndo(c, n); var c' := SpentCoins(c, n);
      var full := c'.vout == []; var found := if full then NO_COINS else if s then c'.(coinStake := false) else c';
      && RestoresCleanly(found, n, undo) && (undo.height != 0 <==> full)
      && RestoredCoins(found, n, undo) == if s || full then c.(coinStake := false) else c
  {
    SpentIsOk(c, n);
    OutputsRestored(c, n);
    var r := Trim(c.vout[n := NULL_OUT]);
    assert n < |r| ==> r[n] == NULL_OUT;
  }

  lemma PutBack(u: Map, t: Txid, c: CCoins)
    requires Normal(c) && !Pruned(c)
    ensures Put(u, t, c) == u[t := c]
  {
    TrimUnique(c.vout, |c.vout|);
    assert c.vout[..|c.vout|] == c.vout;
  }

  lemma SpentSeen(u: Map, out: OutPoint, s: set<Txid>)
    requires MapOk(u) && CanSpend(u, out)
    ensures var c' := SpentCoins(u[out.hash], out.n);
      Seen(Destaked(SpendFrom(u, out), s), out.hash) ==
      if c'.vout == [] then NO_COINS else if out.hash in s then c'.(coinStake := false) else c'
  {
    SpendFromOk(u, out);
  }

  lemma DestakedBack(u: Map, out: OutPoint, s: set<Txid>)
    requires MapOk(u) && CanSpend(u, out)
    ensures var u' := SpendFrom(u, out); var t, c := out.hash, u[out.hash];
      var c2 := if t in s || SpentCoins(c, out.n).vout == [] then c.(coinStake := false) else c;
      Destaked(u', s)[t := c2] == Destaked(u, Lost(u, u', s))
  {
    SpendFromOk(u, out);
    var u' := SpendFrom(u, out);
    var t, c := out.hash, u[out.hash];
    var c2 := if t in s || SpentCoins(c, out.n).vout == [] then c.(coinStake := false) else c;
    var f, g := Destaked(u', s)[t := c2], Destaked(u, Lost(u, u', s));
    forall x ensures (x in f <==> x in g) && (x in f ==> f[x] == g[x]) {}
    SameMap(f, g);
  }

  /** Spending one output and restoring it: clean, and only the coinstake mark can be lost. */
  lemma OneRoundTrip(u: Map, out: OutPoint, s: set<Txid>, clean: bool)
    requires MapOk(u) && CanSpend(u, out)
    ensures var u' := SpendFrom(u, out);
      RestoreOne(Restored(Destaked(u', s), clean, true), out, SpendUndo(u[out.hash], out.n))
      == Restored(Destaked(u, Lost(u, u', s)), clean, true)
  {
    var t, c, n := out.hash, u[out.hash], out.n;
    assert EntryAt(u, t);
    SpentSeen(u, out, s);
    DestakedBack(u, out, s);
    CoinsRestored(c, n, t in s);
    SpentKeys(u, out, s);
    PutBack(Destaked(SpendFrom(u, out), s), t,
            if t in s || SpentCoins(c, n).vout == [] then c.(coinStake := false) else c);
  }

  lemma SpentKeys(u: Map, out: OutPoint, s: set<Txid>)
    requires MapOk(u) && CanSpend(u, out)
    ensures out.hash in Destaked(SpendFrom(u, out), s) <==> SpentCoins(u[out.hash], out.n).vout != []
  {
    SpendFromOk(u, out);
  }

  // ----- All inputs of a transaction -----

  lemma {:induction false} SpendAllOk(u: Map, vin: seq<OutPoint>, i: nat)
    requires MapOk(u) && i <= |vin| && CanSpendAll(u, vin, i)
    ensures MapOk(SpendAll(u, vin, i).0) && SpendAll(u, vin, i).0.Keys <= u.Keys && |SpendAll(u, vin, i).1| == i
    decreases i
  {
    hide MapOk, SpendUndo;
    if i > 0 {
      SpendAllOk(u, vin, i - 1);
      SpendFromOk(SpendAll(u, vin, i - 1).0, vin[i - 1]);
    }
  }

  lemma {:induction false} SpendRoundTrip(u: Map, vin: seq<OutPoint>, undos: seq<Undo>, i: nat, s: set<Txid>,
    clean: bool)
    requires MapOk(u) && i <= |vin| && CanSpendAll(u, vin, i)
    requires i <= |undos| && undos[..i] == SpendAll(u, vin, i).1
    ensures var u' := SpendAll(u, vin, i).0;
      RestoreAll(Restored(Destaked(u', s), clean, true), vin, undos, i)
      == Restored(Destaked(u, Lost(u, u', s)), clean, true)
    decreases i
  {
    hide SpendFrom, RestoreOne, MapOk, Destaked, SpendUndo;
    if i == 0 {
      assert Lost(u, u, s) == s;
    } else {
      var (ua, undosA) := SpendAll(u, vin, i - 1);
      var u' := SpendAll(u, vin, i).0;
      var out := vin[i - 1];
      SpendAllOk(u, vin, i - 1);
      assert undos[..i - 1] == undosA && undos[i - 1] == SpendUndo(ua[out.hash], out.n) by {
        assert undos[..i][i - 1] == undos[i - 1] && undos[..i - 1] == undos[..i][..i - 1];
      }
      var s2 := Lost(ua, u', s);
      OneRoundTrip(ua, out, s, clean);
      SpendRoundTrip(u, vin, undos, i - 1, s2, clean);
      LostKeys(u, ua, out, s);
    }
  }

  lemma LostKeys(u: Map, ua: Map, out: OutPoint, s: set<Txid>)
    requires MapOk(ua) && ua.Keys <= u.Keys && CanSpend(ua, out)
    ensures var u' := SpendFrom(ua, out); Lost(u, ua, Lost(ua, u', s)) == Lost(u, u', s)
  {
    SpendFromOk(ua, out);
  }

  /** Spending one output leaves every other one of the same entry as it was. */
  lemma SpentElsewhere(c: CCoins, n: nat, m: nat)
    requires c.IsAvailable(n) && m != n
    ensures SpentCoins(c, n).IsAvailable(m) <==> c.IsAvailable(m)
    ensures c.IsAvailable(m) ==> SpentCoins(c, n).vout[m] == c.vout[m]
    ensures !SpentCoins(c, n).IsAvailable(n)
  {
    var spent := c.vout[n := NULL_OUT];
    assert m < |spent| ==> spent[m] == c.vout[m];
    assert spent[n] == NULL_OUT;
  }

  lemma OtherOutput(u: Map, out: OutPoint, other: OutPoint)
    requires CanSpend(u, out)
    ensures CanSpend(SpendFrom(u, out), other) <==> CanSpend(u, other) && other != out
    ensures CanSpend(SpendFrom(u, out), other) ==>
      SpendFrom(u, out)[other.hash].vout[other.n] == u[other.hash].vout[other.n]
  {
    hide SpentCoins;
    var c := SpentCoins(u[out.hash], out.n);
    if other.hash == out.hash {
      SpentIsTrimmed(u[out.hash], out.n);
      if other.n != out.n {
        SpentElsewhere(u[out.hash], out.n, other.n);
      } else {
        SpentElsewhere(u[out.hash], out.n, out.n + 1);
      }
    }
  }

  lemma SpentIsTrimmed(c: CCoins, n: nat)
    requires c.IsAvailable(n)
    ensures Trimmed(SpentCoins(c, n)) == SpentCoins(c, n)
  {
    TrimTwice(c.vout[n := NULL_OUT]);
  }

  /** What is there after some inputs were spent was there before, and is the same output. */
  lemma {:induction false} StillThere(u: Map, vin: seq<OutPoint>, i: nat, out: OutPoint)
    requires i <= |vin| && CanSpendAll(u, vin, i) && CanSpend(SpendAll(u, vin, i).0, out)
    ensures CanSpend(u, out) && SpendAll(u, vin, i).0[out.hash].vout[out.n] == u[out.hash].vout[out.n]
    decreases i
  {
    hide SpendFrom, SpendUndo;
    if i > 0 {
      OtherOutput(SpendAll(u, vin, i - 1).0, vin[i - 1], out);
      StillThere(u, vin, i - 1, out);
    }
  }

  // ----- One transaction -----

  lemma SpendableTwice(vout: seq<TxOut>)
    ensures Trim(Spendable(Trim(Spendable(vout)))) == Trim(Spendable(vout))
  {
    var r := Trim(Spendable(vout));
    assert Spendable(r) == r;
    TrimTwice(Spendable(vout));
  }

  /** CheckTransaction: no output has a negative value. */
  predicate OutputsOk(tx: Tx) {
    forall i :: 0 <= i < |tx.vout| ==> tx.vout[i].value >= 0
  }

  lemma FromTxOk(tx: Tx, height: int)
    requires OutputsOk(tx)
    ensures Normal(FromTx(tx, height)) && Canonical(FromTx(tx, height).vout)
    ensures Trimmed(FromTx(tx, height)) == FromTx(tx, height)
  {
    TrimTwice(Spendable(tx.vout));
    var r := Trim(Spendable(tx.vout));
    forall i | 0 <= i < |r| && r[i].IsNull() ensures r[i] == NULL_OUT { assert r[i] == Spendable(tx.vout)[i]; }
  }

  lemma FoundUnchanged(tx: Tx, height: int)
    ensures FoundOutputs(FromTx(tx, height), tx) == FromTx(tx, height)
    ensures FoundOutputs(FromTx(tx, height).(coinStake := false), tx) == FromTx(tx, height).(coinStake := false)
  {
    SpendableTwice(tx.vout);
  }

  /** The transaction leaves coins that carry the coinstake mark. */
  predicate MakesStake(tx: Tx, height: int) {
    tx.IsCoinStake() && !Pruned(FromTx(tx, height))
  }

  lemma PutNew(u: Map, t: Txid, c: CCoins)
    requires t !in u && Trimmed(c) == c
    ensures Put(u, t, c) == if Pruned(c) then u else u[t := c]
  {
    assert u - {t} == u;
  }

  lemma ApplyTxShape(u: Map, tx: Tx, height: int)
    requires MapOk(u) && CanApply(u, tx) && OutputsOk(tx) && tx.id !in u
    ensures tx.id !in Spent(u, tx).0 && |ApplyTx(u, tx, height).1| == |Inputs(tx)|
    ensures Spent(u, tx).0.Keys <= u.Keys
    ensures var u1 := Spent(u, tx).0; var c := FromTx(tx, height);
      ApplyTx(u, tx, height).0 == if Pruned(c) then u1 else u1[tx.id := c]
  {
    var c := FromTx(tx, height);
    SpendAllOk(u, Inputs(tx), |Inputs(tx)|);
    FromTxOk(tx, height);
    var (u1, undos) := Spent(u, tx);
    assert tx.id !in u1;
    PutNew(u1, tx.id, c);
    assert ApplyTx(u, tx, height) == (Put(u1, tx.id, c), undos);
  }

  lemma ApplyTxOk(u: Map, tx: Tx, height: int)
    requires MapOk(u) && CanApply(u, tx) && OutputsOk(tx) && height > 0 && tx.id !in u
    ensures MapOk(ApplyTx(u, tx, height).0)
  {
    ApplyTxShape(u, tx, height);
    SpendAllOk(u, Inputs(tx), |Inputs(tx)|);
    FromTxOk(tx, height);
    var u1 := Spent(u, tx).0;
    var u' := ApplyTx(u, tx, height).0;
    forall t | t in u' ensures EntryAt(u', t) { if t != tx.id { assert EntryAt(u1, t); } }
  }

  /** What DisconnectBlock compares the transaction's outputs with. */
  lemma OutputsFound(u: Map, tx: Tx, height: int, s: set<Txid>)
    requires MapOk(u) && CanApply(u, tx) && OutputsOk(tx) && height > 0 && tx.id !in u
    ensures var u' := ApplyTx(u, tx, height).0;
      SameCoins(FoundOutputs(Seen(Destaked(u', s), tx.id), tx), FromTx(tx, height))
      <==> !(MakesStake(tx, height) && tx.id in s)
  {
    ApplyTxShape(u, tx, height);
    FoundUnchanged(tx, height);
    var c := FromTx(tx, height);
    assert Spendable([]) == [];
    if Pruned(c) {
      assert Pruned(FoundOutputs(NO_COINS, tx));
    }
  }

  lemma NewKey(u: Map, u1: Map, u': Map, t: Txid, c: CCoins, s: set<Txid>)
    requires t !in u && u1.Keys <= u.Keys && (u' == u1 || u' == u1[t := c])
    ensures Destaked(u', s) - {t} == Destaked(u1, s) && Lost(u, u1, s) == Lost(u, u', s)
  {
    var f, g := Destaked(u', s) - {t}, Destaked(u1, s);
    forall x ensures (x in f <==> x in g) && (x in f ==> f[x] == g[x]) {}
    SameMap(f, g);
  }

  lemma TxRoundTrip(u: Map, tx: Tx, height: int, s: set<Txid>, clean: bool)
    requires MapOk(u) && CanApply(u, tx) && OutputsOk(tx) && height > 0 && tx.id !in u
    ensures var (u', undos) := ApplyTx(u, tx, height);
      |undos| == |Inputs(tx)| && DisconnectTx(Restored(Destaked(u', s), clean, true), tx, undos, height)
      == Restored(Destaked(u, Lost(u, u', s)), clean && !(MakesStake(tx, height) && tx.id in s), true)
  {
    ApplyTxShape(u, tx, height);
    OutputsFound(u, tx, height, s);
    NewKey(u, Spent(u, tx).0, ApplyTx(u, tx, height).0, tx.id, FromTx(tx, height), s);
    var undos := Spent(u, tx).1;
    assert undos[..|undos|] == undos;
    SpendRoundTrip(u, Inputs(tx), undos, |undos|, s, clean && !(MakesStake(tx, height) && tx.id in s));
  }
}
