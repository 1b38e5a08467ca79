/** CCoinsViewDB and CCoinsViewCache: the layers themselves, updated in place (src/coins.cpp, src/txdb.cpp). */
module CoinsCache {
  import opened Wrappers
  import opened Coins
  import opened CoinsStack

  /** The entries of m for the transactions in done. */
  ghost function Only(m: Cache, done: set<Txid>): Cache {
    map t | t in m && t in done :: m[t]
  }

  lemma WrittenStep(c: Cache, m: Cache, done: set<Txid>, t: Txid)
    requires t in m && t !in done
    ensures Written(c, Only(m, done + {t})) == WriteOne(Written(c, Only(m, done)), t, m[t])
  {
    var f, g := Written(c, Only(m, done + {t})), WriteOne(Written(c, Only(m, done)), t, m[t]);
    forall x ensures (x in f <==> x in g) && (x in f ==> f[x] == g[x]) {}
    SameMap(f, g);
  }

  lemma WrittenEnds(c: Cache, m: Cache)
    ensures Written(c, Only(m, {})) == c && Written(c, Only(m, m.Keys)) == Written(c, m)
  {
    assert Only(m, m.Keys) == m;
  }

  lemma WrittenDbStep(d: map<Txid, CCoins>, m: Cache, done: set<Txid>, t: Txid)
    requires t in m && t !in done
    ensures WrittenDb(d, Only(m, done + {t})) ==
      var d1 := WrittenDb(d, Only(m, done));
      if !m[t].isDirty then d1 else if Pruned(m[t].coins) then d1 - {t} else d1[t := m[t].coins]
  {
    var d1 := WrittenDb(d, Only(m, done));
    var f := WrittenDb(d, Only(m, done + {t}));
    var g := if !m[t].isDirty then d1 else if Pruned(m[t].coins) then d1 - {t} else d1[t := m[t].coins];
    forall x ensures (x in f <==> x in g) && (x in f ==> f[x] == g[x]) {}
    SameMap(f, g);
  }

  class CoinsViewDB {
    var coins: map<Txid, CCoins>
    var best: Hash

    constructor (coins: map<Txid, CCoins>, best: Hash)
      ensures this.coins == coins && this.best == best
    {
      this.coins := coins;
      this.best := best;
    }

    /** CCoinsViewDB::BatchWrite: one erase or write for every dirty entry. */
    method BatchWrite(m: Cache, hash: Hash)
      modifies this
      ensures Db(coins, best) == BatchWritten(Db(old(coins), old(best)), m, hash)
    {
      var rest := m.Keys;
      ghost var d := coins;
      assert WrittenDb(d, Only(m, {})) == d;
      while rest != {}
        invariant rest <= m.Keys
        invariant coins == WrittenDb(d, Only(m, m.Keys - rest)) && best == old(best)
        decreases rest
      {
        var t :| t in rest;
        WrittenDbStep(d, m, m.Keys - rest, t);
        assert m.Keys - rest + {t} == m.Keys - (rest - {t});
        if m[t].isDirty {
          if Pruned(m[t].coins) {
            coins := coins - {t};
          } else {
            coins := coins[t := m[t].coins];
          }
        }
        rest := rest - {t};
      }
      assert Only(m, m.Keys - {}) == m;
      if hash != 0 {
        best := hash;
      }
    }
  }

  class CoinsViewCache {
    var cacheCoins: Cache
    var hashBlock: Hash
    var hasModifier: bool
    const base: CoinsViewCache?
    const db: CoinsViewDB
    ghost const Repr: set<object>

    /** The chain of base pointers ends at the database; no layer occurs twice. */
    ghost predicate Linked()
      decreases Repr
    {
      && this in Repr && db in Repr
      && (base == null ==> Repr == {this, db})
      && (base != null ==> base.Repr == Repr - {this} && this !in base.Repr && base.db == db && base.Linked())
    }

    ghost function Abs(): Stack
      requires Linked()
      reads Repr
      decreases Repr
    {
      Layer(cacheCoins, hashBlock, if base == null then Db(db.coins, db.best) else base.Abs())
    }

    /** No layer has a modifier outstanding. */
    ghost predicate Free()
      requires Linked()
      reads Repr
      decreases Repr
    {
      !hasModifier && (base != null ==> base.Free())
    }

    ghost predicate Ok()
      reads Repr
    {
      Linked() && Free() && Valid(Abs())
    }

    /** An empty cache on top of another. */
    constructor Over(base: CoinsViewCache)
      requires base.Ok()
      ensures Ok() && fresh(this) && Repr == {this} + base.Repr && this.base == base
      ensures Abs() == Layer(map[], 0, base.Abs()) && Flat(Abs()) == Flat(base.Abs())
    {
      this.base := base;
      this.db := base.db;
      cacheCoins, hashBlock, hasModifier := map[], 0, false;
      Repr := {this} + base.Repr;
      new;
      assert Flat(Abs()) == Flat(base.Abs());
    }

    /** An empty cache on top of the database. */
    constructor OverDb(db: CoinsViewDB)
      requires Valid(Db(db.coins, db.best))
      ensures Ok() && fresh(this) && Repr == {this, db}
      ensures Abs() == Layer(map[], 0, Db(db.coins, db.best)) && Flat(Abs()) == db.coins
    {
      this.base := null;
      this.db := db;
      cacheCoins, hashBlock, hasModifier := map[], 0, false;
      Repr := {this, db};
      new;
      assert Flat(Abs()) == db.coins;
    }

    /** FetchCoins, and GetCoins of every layer: a miss is answered from below and remembered. */
    method FetchCoins(t: Txid) returns (r: Option<CCoins>)
      requires Linked() && Free()
      modifies Repr
      ensures Linked() && Free() && Abs() == Fetched(old(Abs()), t) && r == Lookup(old(Abs()), t)
      decreases Repr
    {
      if t in cacheCoins {
        return Some(cacheCoins[t].coins);
      }
      if base != null {
        r := base.FetchCoins(t);
      } else {
        r := if t in db.coins then Some(db.coins[t]) else None;
      }
      if r == None {
        return;
      }
      cacheCoins := cacheCoins[t := Entry(r.value, false, Pruned(r.value))];
    }

    /** GetCoins: pruned or missing, the flat map has no such coins; otherwise exactly these. */
    method GetCoins(t: Txid) returns (r: Option<CCoins>)
      requires Ok()
      modifies Repr
      ensures Ok() && Flat(Abs()) == Flat(old(Abs())) && Abs() == Fetched(old(Abs()), t)
      ensures t in Flat(Abs()) <==> r.Some? && !Pruned(r.value)
      ensures t in Flat(Abs()) ==> r == Some(Flat(Abs())[t])
    {
      FetchKeeps(Abs(), t);
      LookupIsFlat(Abs(), t);
      r := FetchCoins(t);
    }

    /** HaveCoins, which looks only at whether the output vector is empty. */
    method HaveCoins(t: Txid) returns (have: bool)
      requires Ok()
      modifies Repr
      ensures Ok() && Flat(Abs()) == Flat(old(Abs())) && Abs() == Fetched(old(Abs()), t)
      ensures have <==> t in Flat(Abs())
    {
      FetchKeeps(Abs(), t);
      LookupIsFlat(Abs(), t);
      var r := FetchCoins(t);
      if r.Some? { PrunedIffEmpty(r.value); }
      have := r.Some? && r.value.vout != [];
    }

    /** ModifyCoins: hands out the entry and blocks further modifiers. */
    method ModifyCoins(t: Txid) returns (coins: CCoins)
      requires Linked() && Free()
      modifies Repr
      ensures Linked() && hasModifier && (base != null ==> base.Free())
      ensures Abs() == Modified(old(Abs()), t) && coins == ModifyEntry(old(Abs()), t).coins
    {
      if t !in cacheCoins {
        var r: Option<CCoins>;
        if base != null {
          r := base.FetchCoins(t);
        } else {
          r := if t in db.coins then Some(db.coins[t]) else None;
        }
        if r == None {
          cacheCoins := cacheCoins[t := Entry(NO_COINS, false, true)];
        } else {
          cacheCoins := cacheCoins[t := Entry(r.value, false, Pruned(r.value))];
        }
      }
      cacheCoins := cacheCoins[t := cacheCoins[t].(isDirty := true)];
      hasModifier := true;
      coins := cacheCoins[t].coins;
    }

    /** The destructor of CCoinsModifier, after the holder left `coins` in the entry. */
    method Release(t: Txid, coins: CCoins)
      requires Linked() && hasModifier && (base != null ==> base.Free()) && t in cacheCoins
      modifies this
      ensures Linked() && Free() && Abs() == Released(old(Abs()), t, coins)
    {
      hasModifier := false;
      var c := Cleanup(coins);
      PrunedIffEmpty(coins);
      if cacheCoins[t].isFresh && Pruned(c) {
        cacheCoins := cacheCoins - {t};
      } else {
        cacheCoins := cacheCoins[t := cacheCoins[t].(coins := c)];
      }
    }

    /** A modification from ModifyCoins to the end of the modifier's life: exactly one coin of the flat map changes. */
    method Replace(t: Txid, coins: CCoins)
      requires Ok()
      modifies Repr
      ensures Ok() && Flat(Abs()) == Put(Flat(old(Abs())), t, coins)
      ensures Abs() == Released(Modified(old(Abs()), t), t, coins)
    {
      ghost var s := Abs();
      ModifyIsPut(s, t, coins);
      var _ := ModifyCoins(t);
      Release(t, coins);
    }

    /** BatchWrite.  Its FRESH assertion is the last precondition, which every valid child meets. */
    method BatchWrite(m: Cache, hash: Hash)
      requires Linked() && Free()
      requires forall t :: t in m && m[t].isDirty && t !in cacheCoins && !Pruned(m[t].coins) ==> m[t].isFresh
      modifies this
      ensures Linked() && Free() && Abs() == BatchWritten(old(Abs()), m, hash)
    {
      ghost var c := cacheCoins;
      var rest := m.Keys;
      WrittenEnds(c, m);
      while rest != {}
        invariant rest <= m.Keys && !hasModifier
        invariant cacheCoins == Written(c, Only(m, m.Keys - rest))
        decreases rest
      {
        var t :| t in rest;
        WrittenStep(c, m, m.Keys - rest, t);
        assert m.Keys - rest + {t} == m.Keys - (rest - {t});
        if m[t].isDirty {
          if t !in cacheCoins {
            if !Pruned(m[t].coins) {
              assert m[t].isFresh;
              cacheCoins := cacheCoins[t := Entry(m[t].coins, true, true)];
            }
          } else if cacheCoins[t].isFresh && Pruned(m[t].coins) {
            cacheCoins := cacheCoins - {t};
          } else {
            cacheCoins := cacheCoins[t := Entry(m[t].coins, true, cacheCoins[t].isFresh)];
          }
        }
        rest := rest - {t};
      }
      assert m.Keys - {} == m.Keys;
      hashBlock := hash;
    }

    /** Flush: no answer changes, and the layer below now answers the same by itself. */
    method Flush()
      requires Ok()
      modifies Repr
      ensures Ok() && Flat(Abs()) == Flat(old(Abs())) && cacheCoins == map[] && Abs() == Flushed(old(Abs()))
      ensures base != null ==> base.Ok() && Flat(base.Abs()) == Flat(old(Abs()))
      ensures base == null ==> db.coins == Flat(old(Abs()))
    {
      ghost var s := Abs();
      FlushKeeps(s);
      if base != null {
        assert base.Linked() && base in base.Repr && s.below == base.Abs();
        forall t | t in cacheCoins && cacheCoins[t].isDirty && t !in base.cacheCoins ensures cacheCoins[t].isFresh {
          FreshAssertHolds(s, t);
        }
        base.BatchWrite(cacheCoins, hashBlock);
      } else {
        db.BatchWrite(cacheCoins, hashBlock);
      }
      cacheCoins := map[];
      assert Abs() == Flushed(s);
    }

    /** GetBestBlock, which remembers the answer of the layer below. */
    method GetBestBlock() returns (h: Hash)
      requires Linked() && Free()
      modifies Repr
      ensures Linked() && Free() && h == BestBlock(old(Abs())) && Abs() == Told(old(Abs()))
      decreases Repr
    {
      if hashBlock == 0 {
        if base != null {
          hashBlock := base.GetBestBlock();
        } else {
          hashBlock := db.best;
        }
      }
      h := hashBlock;
    }
  }

  // ----- Whole sequences of operations -----

  datatype Op = Get(t: Txid) | Have(t: Txid) | Modify(t: Txid, coins: CCoins) | FlushOp

  datatype Answer = Found(coins: CCoins) | Missing | Bool(b: bool) | Done

  /** What one flat map of unspent coins answers, and becomes. */
  function FlatStep(m: map<Txid, CCoins>, op: Op): (map<Txid, CCoins>, Answer) {
    match op
    case Get(t) => (m, if t in m then Found(m[t]) else Missing)
    case Have(t) => (m, Bool(t in m))
    case Modify(t, c) => (Put(m, t, c), Done)
    case FlushOp => (m, Done)
  }

  function FlatRun(m: map<Txid, CCoins>, ops: seq<Op>): (map<Txid, CCoins>, seq<Answer>) {
    if ops == [] then (m, [])
    else
      var (m1, answers) := FlatRun(m, ops[..|ops| - 1]);
      var (m2, a) := FlatStep(m1, ops[|ops| - 1]);
      (m2, answers + [a])
  }

  method Apply(v: CoinsViewCache, op: Op) returns (a: Answer)
    requires v.Ok()
    modifies v.Repr
    ensures v.Ok() && (Flat(v.Abs()), a) == FlatStep(Flat(old(v.Abs())), op)
  {
    match op
    case Get(t) =>
      var r := v.GetCoins(t);
      a := if r.Some? && !Pruned(r.value) then Found(r.value) else Missing;
    case Have(t) =>
      var b := v.HaveCoins(t);
      a := Bool(b);
    case Modify(t, c) =>
      v.Replace(t, c);
      a := Done;
    case FlushOp =>
      v.Flush();
      a := Done;
  }

  /** Any stack of caches, used and flushed from its top, answers as one flat map does. */
  method Run(v: CoinsViewCache, ops: seq<Op>) returns (answers: seq<Answer>)
    requires v.Ok()
    modifies v.Repr
    ensures v.Ok() && (Flat(v.Abs()), answers) == FlatRun(Flat(old(v.Abs())), ops)
  {
    answers := [];
    ghost var m := Flat(v.Abs());
    var i := 0;
    while i < |ops|
      invariant 0 <= i <= |ops| && v.Ok()
      invariant (Flat(v.Abs()), answers) == FlatRun(m, ops[..i])
    {
      assert ops[..i + 1][..i] == ops[..i] && ops[..i + 1][i] == ops[i];
      var a := Apply(v, ops[i]);
      answers := answers + [a];
      i := i + 1;
    }
    assert ops[..i] == ops;
  }
}
