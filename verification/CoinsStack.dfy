/**
 A stack of CCoinsViewCache layers over a coins database, as a value (src/coins.cpp, src/txdb.cpp),
 and the one flat map of unspent coins that it stands for.
 */
module CoinsStack {
  import opened Wrappers
  import opened Coins

  /** CCoinsCacheEntry. */
  datatype Entry = Entry(coins: CCoins, isDirty: bool, isFresh: bool)

  type Cache = map<Txid, Entry>

  /** Block hashes; 0 is the null hash. */
  type Hash = nat

  datatype Stack = Db(coins: map<Txid, CCoins>, best: Hash) | Layer(cache: Cache, best: Hash, below: Stack)

  function Live(c: Cache): map<Txid, CCoins> {
    map t | t in c && !Pruned(c[t].coins) :: c[t].coins
  }

  /** The unspent coins the stack stands for. */
  function Flat(s: Stack): map<Txid, CCoins> {
    match s
    case Db(m, _) => m
    case Layer(c, _, b) => (Flat(b) - c.Keys) + Live(c)
  }

  /** What GetCoins answers, before the caches are filled. */
  function Lookup(s: Stack, t: Txid): Option<CCoins> {
    match s
    case Db(m, _) => if t in m then Some(m[t]) else None
    case Layer(c, _, b) => if t in c then Some(c[t].coins) else Lookup(b, t)
  }

  /** The layer itself holds an entry for t; the database holds whatever it has. */
  predicate Holds(s: Stack, t: Txid) {
    s.Layer? ==> t in s.cache
  }

  predicate EntryOk(e: Entry, t: Txid, below: Stack) {
    && Normal(e.coins)
    && (e.isFresh ==> t !in Flat(below))
    && (!e.isFresh ==> Holds(below, t))
    && (!e.isDirty ==> if t in Flat(below) then e.coins == Flat(below)[t] else Pruned(e.coins))
  }

  predicate CacheOk(c: Cache, below: Stack) {
    forall t {:trigger EntryOk(c[t], t, below)} :: t in c ==> EntryOk(c[t], t, below)
  }

  predicate Valid(s: Stack) {
    match s
    case Db(m, _) => forall t :: t in m ==> Normal(m[t]) && !Pruned(m[t])
    case Layer(c, _, b) => Valid(b) && CacheOk(c, b)
  }

  /** Looking a coin up answers as the flat map does, pruned meaning absent. */
  lemma {:induction false} LookupIsFlat(s: Stack, t: Txid)
    requires Valid(s)
    ensures Lookup(s, t).Some? ==> Normal(Lookup(s, t).value)
    ensures t in Flat(s) <==> Lookup(s, t).Some? && !Pruned(Lookup(s, t).value)
    ensures t in Flat(s) ==> Flat(s)[t] == Lookup(s, t).value
  {
    match s
    case Db(_, _) =>
    case Layer(c, _, b) =>
      LookupIsFlat(b, t);
      if t in c { assert EntryOk(c[t], t, b); }
  }

  lemma {:induction false} FlatIsNormal(s: Stack, t: Txid)
    requires Valid(s) && t in Flat(s)
    ensures Normal(Flat(s)[t]) && !Pruned(Flat(s)[t])
  {
    LookupIsFlat(s, t);
  }

  // ----- FetchCoins / GetCoins -----

  /** The stack after a lookup: every layer passed on the way down keeps a clean copy. */
  function Fetched(s: Stack, t: Txid): Stack {
    match s
    case Db(_, _) => s
    case Layer(c, h, b) =>
      if t in c then s
      else
        match Lookup(b, t)
        case None => Layer(c, h, Fetched(b, t))
        case Some(coins) => Layer(c[t := Entry(coins, false, Pruned(coins))], h, Fetched(b, t))
  }

  lemma FetchEntries(c: Cache, b: Stack, b': Stack, x: Txid)
    requires x in c && EntryOk(c[x], x, b) && Flat(b') == Flat(b) && (Holds(b, x) ==> Holds(b', x))
    ensures EntryOk(c[x], x, b')
  {
  }

  /** Lookups change no answer. */
  lemma {:induction false} FetchKeeps(s: Stack, t: Txid)
    requires Valid(s)
    ensures Valid(Fetched(s, t)) && Flat(Fetched(s, t)) == Flat(s)
    ensures Lookup(Fetched(s, t), t) == Lookup(s, t)
    ensures forall x :: Holds(s, x) ==> Holds(Fetched(s, t), x)
    ensures s.Layer? && Lookup(s, t).Some? ==> Holds(Fetched(s, t), t)
  {
    match s
    case Db(_, _) =>
    case Layer(c, h, b) =>
      if t !in c {
        FetchKeeps(b, t);
        LookupIsFlat(b, t);
        var b' := Fetched(b, t);
        var s' := Fetched(s, t);
        forall x | x in s'.cache ensures EntryOk(s'.cache[x], x, b') {
          if x in c {
            assert EntryOk(c[x], x, b);
            FetchEntries(c, b, b', x);
          }
        }
        FlatOfFetched(c, h, b, b', t);
      }
  }

  /** A copy of what the map below holds changes nothing. */
  lemma CleanCopy(below: map<Txid, CCoins>, c: Cache, t: Txid, e: Entry)
    requires t !in c && (t in below <==> !Pruned(e.coins)) && (t in below ==> below[t] == e.coins)
    ensures (below - c[t := e].Keys) + Live(c[t := e]) == (below - c.Keys) + Live(c)
  {
    hide Pruned;
    var f, g := (below - c[t := e].Keys) + Live(c[t := e]), (below - c.Keys) + Live(c);
    forall x ensures (x in f <==> x in g) && (x in f ==> f[x] == g[x]) {}
    SameMap(f, g);
  }

  lemma FlatOfFetched(c: Cache, h: Hash, b: Stack, b': Stack, t: Txid)
    requires Valid(b) && t !in c && Flat(b') == Flat(b)
    ensures Lookup(b, t).Some? ==>
      Flat(Layer(c[t := Entry(Lookup(b, t).value, false, Pruned(Lookup(b, t).value))], h, b')) == Flat(Layer(c, h, b))
  {
    hide Pruned, Live, Valid;
    LookupIsFlat(b, t);
    if Lookup(b, t).Some? {
      CleanCopy(Flat(b), c, t, Entry(Lookup(b, t).value, false, Pruned(Lookup(b, t).value)));
    }
  }

  // ----- ModifyCoins and the modifier's destructor -----

  /** The entry ModifyCoins hands out. */
  function ModifyEntry(s: Stack, t: Txid): Entry
    requires s.Layer?
  {
    if t in s.cache then s.cache[t].(isDirty := true)
    else
      match Lookup(s.below, t)
      case None => Entry(NO_COINS, true, true)
      case Some(coins) => Entry(coins, true, Pruned(coins))
  }

  function Modified(s: Stack, t: Txid): Stack
    requires s.Layer?
  {
    Layer(s.cache[t := ModifyEntry(s, t)], s.best, if t in s.cache then s.below else Fetched(s.below, t))
  }

  /** The destructor: Cleanup, and a fresh entry that ended up pruned is erased. */
  function Released(s: Stack, t: Txid, coins: CCoins): Stack
    requires s.Layer? && t in s.cache
  {
    var c := Trimmed(coins);
    s.(cache := if s.cache[t].isFresh && Pruned(c) then s.cache - {t} else s.cache[t := s.cache[t].(coins := c)])
  }

  /** The flat map with t's coins replaced. */
  function Put(m: map<Txid, CCoins>, t: Txid, coins: CCoins): map<Txid, CCoins> {
    if Pruned(coins) then m - {t} else m[t := Trimmed(coins)]
  }

  /** What a modifier sees: the coins of the flat map, or something pruned. */
  lemma ModifierSeesFlat(s: Stack, t: Txid)
    requires Valid(s) && s.Layer?
    ensures Normal(ModifyEntry(s, t).coins)
    ensures t in Flat(s) <==> !Pruned(ModifyEntry(s, t).coins)
    ensures t in Flat(s) ==> Flat(s)[t] == ModifyEntry(s, t).coins
    ensures EntryOk(ModifyEntry(s, t), t, Modified(s, t).below)
    ensures Valid(Modified(s, t).below) && Flat(Modified(s, t).below) == Flat(s.below)
  {
    if t in s.cache {
      assert EntryOk(s.cache[t], t, s.below);
    } else {
      LookupIsFlat(s.below, t);
      FetchKeeps(s.below, t);
    }
  }

  lemma ModifyAt(s: Stack, t: Txid, coins: CCoins, x: Txid)
    requires Valid(s) && s.Layer?
    ensures var f := Flat(Released(Modified(s, t), t, coins));
      (x in f <==> x in Put(Flat(s), t, coins)) && (x in f ==> f[x] == Put(Flat(s), t, coins)[x])
  {
    hide Pruned, Trimmed, Normal, Lookup, Fetched, Valid, EntryOk;
    ModifierSeesFlat(s, t);
    PrunedIffEmpty(coins);
  }

  lemma ModifiedEntryOk(s: Stack, t: Txid, coins: CCoins)
    requires Valid(s) && s.Layer?
    ensures var s' := Released(Modified(s, t), t, coins); t in s'.cache ==> EntryOk(s'.cache[t], t, s'.below)
  {
    hide Flat, Pruned, Fetched, Lookup, Valid;
    ModifierSeesFlat(s, t);
  }

  lemma ModifyKeeps(s: Stack, t: Txid, coins: CCoins)
    requires Valid(s) && s.Layer?
    ensures Valid(Released(Modified(s, t), t, coins))
  {
    hide Flat, Pruned, Fetched, Lookup, EntryOk, Trimmed, Holds;
    var s' := Released(Modified(s, t), t, coins);
    ModifierSeesFlat(s, t);
    if t !in s.cache { FetchKeeps(s.below, t); }
    ModifiedEntryOk(s, t, coins);
    forall x | x in s'.cache ensures EntryOk(s'.cache[x], x, s'.below) {
      if x != t {
        assert EntryOk(s.cache[x], x, s.below);
        FetchEntries(s.cache, s.below, s'.below, x);
      }
    }
  }

  /** Modifying a coin through the top layer changes exactly that coin of the flat map. */
  lemma ModifyIsPut(s: Stack, t: Txid, coins: CCoins)
    requires Valid(s) && s.Layer?
    ensures Valid(Released(Modified(s, t), t, coins))
    ensures Flat(Released(Modified(s, t), t, coins)) == Put(Flat(s), t, coins)
  {
    hide Flat, Put, Released, Valid;
    ModifyKeeps(s, t, coins);
    var f, g := Flat(Released(Modified(s, t), t, coins)), Put(Flat(s), t, coins);
    forall x ensures (x in f <==> x in g) && (x in f ==> f[x] == g[x]) { ModifyAt(s, t, coins, x); }
    SameMap(f, g);
  }

  // ----- BatchWrite and Flush -----

  /** One entry of a child cache arrives in the cache of its parent. */
  function WriteOne(c: Cache, t: Txid, e: Entry): Cache {
    if !e.isDirty then c
    else if t !in c then
      if Pruned(e.coins) then c else c[t := Entry(e.coins, true, true)]
    else if c[t].isFresh && Pruned(e.coins) then c - {t}
    else c[t := Entry(e.coins, true, c[t].isFresh)]
  }

  /** All entries of a child cache arrive; entries of different transactions do not interact. */
  function Written(c: Cache, m: Cache): Cache {
    map t | t in c.Keys + m.Keys && (if t in m then t in WriteOne(c, t, m[t]) else t in c) ::
      if t in m then WriteOne(c, t, m[t])[t] else c[t]
  }

  function WrittenDb(d: map<Txid, CCoins>, m: Cache): map<Txid, CCoins> {
    map t | t in d.Keys + m.Keys && (if t in m && m[t].isDirty then !Pruned(m[t].coins) else t in d) ::
      if t in m && m[t].isDirty then m[t].coins else d[t]
  }

  function BatchWritten(s: Stack, m: Cache, best: Hash): Stack {
    match s
    case Db(d, h) => Db(WrittenDb(d, m), if best != 0 then best else h)
    case Layer(c, _, b) => Layer(Written(c, m), best, b)
  }

  function Flushed(s: Stack): Stack
    requires s.Layer?
  {
    Layer(map[], s.best, BatchWritten(s.below, s.cache, s.best))
  }

  /** The FRESH assertion of BatchWrite: what the parent lacks, unspent, the child knows as fresh. */
  lemma FreshAssertHolds(s: Stack, t: Txid)
    requires Valid(s) && s.Layer? && s.below.Layer? && t in s.cache && s.cache[t].isDirty && t !in s.below.cache
    ensures s.cache[t].isFresh
  {
    assert EntryOk(s.cache[t], t, s.below);
  }

  lemma WrittenEntry(s: Stack, t: Txid)
    requires Valid(s) && s.Layer? && s.below.Layer? && t in Written(s.below.cache, s.cache)
    ensures EntryOk(Written(s.below.cache, s.cache)[t], t, s.below.below)
  {
    if t in s.cache { assert EntryOk(s.cache[t], t, s.below); }
    if t in s.below.cache { assert EntryOk(s.below.cache[t], t, s.below.below); }
  }

  lemma FlushedAt(s: Stack, t: Txid)
    requires Valid(s) && s.Layer? && s.below.Layer?
    ensures var f := Flat(BatchWritten(s.below, s.cache, s.best));
      (t in f <==> t in Flat(s)) && (t in f ==> f[t] == Flat(s)[t])
  {
    if t in s.cache { assert EntryOk(s.cache[t], t, s.below); }
    if t in s.below.cache { assert EntryOk(s.below.cache[t], t, s.below.below); }
  }

  lemma FlushedToDbAt(s: Stack, t: Txid)
    requires Valid(s) && s.Layer? && s.below.Db?
    ensures var f := WrittenDb(s.below.coins, s.cache);
      (t in f <==> t in Flat(s)) && (t in f ==> f[t] == Flat(s)[t])
  {
    if t in s.cache { assert EntryOk(s.cache[t], t, s.below); }
  }

  lemma FlushedFlat(s: Stack)
    requires Valid(s) && s.Layer?
    ensures Flat(BatchWritten(s.below, s.cache, s.best)) == Flat(s)
  {
    var f, g := Flat(BatchWritten(s.below, s.cache, s.best)), Flat(s);
    forall t ensures (t in f <==> t in g) && (t in f ==> f[t] == g[t]) {
      if s.below.Layer? { FlushedAt(s, t); } else { FlushedToDbAt(s, t); }
    }
    SameMap(f, g);
  }

  lemma FlushedValid(s: Stack)
    requires Valid(s) && s.Layer?
    ensures Valid(BatchWritten(s.below, s.cache, s.best))
  {
    var b := BatchWritten(s.below, s.cache, s.best);
    if s.below.Layer? {
      forall t | t in b.cache ensures EntryOk(b.cache[t], t, b.below) { WrittenEntry(s, t); }
    } else {
      forall t | t in b.coins ensures Normal(b.coins[t]) && !Pruned(b.coins[t]) {
        FlushedToDbAt(s, t);
        FlatIsNormal(s, t);
      }
    }
  }

  /** Flushing the top layer changes no answer of the stack, and the layer below now gives them all. */
  lemma FlushKeeps(s: Stack)
    requires Valid(s) && s.Layer?
    ensures Valid(Flushed(s)) && Flat(Flushed(s)) == Flat(s)
    ensures Valid(Flushed(s).below) && Flat(Flushed(s).below) == Flat(s)
  {
    FlushedFlat(s);
    FlushedValid(s);
    var f, g := Flat(Flushed(s)), Flat(s);
    forall t ensures (t in f <==> t in g) && (t in f ==> f[t] == g[t]) {}
    SameMap(f, g);
  }

  // ----- The best block -----

  /** GetBestBlock: a layer that was never told asks the one below. */
  function BestBlock(s: Stack): Hash {
    match s
    case Db(_, h) => h
    case Layer(_, h, b) => if h != 0 then h else BestBlock(b)
  }

  /** After GetBestBlock every layer that asked below remembers the answer. */
  function Told(s: Stack): Stack {
    match s
    case Db(_, _) => s
    case Layer(c, h, b) => if h != 0 then s else Layer(c, BestBlock(b), Told(b))
  }

  lemma {:induction false} ToldKeeps(s: Stack)
    ensures Flat(Told(s)) == Flat(s) && BestBlock(Told(s)) == BestBlock(s)
    ensures forall x :: Holds(s, x) == Holds(Told(s), x)
    ensures Valid(s) ==> Valid(Told(s))
  {
    match s
    case Db(_, _) =>
    case Layer(c, h, b) =>
      ToldKeeps(b);
      if Valid(s) {
        forall t | t in c ensures EntryOk(c[t], t, Told(b)) {
          assert EntryOk(c[t], t, b);
          FetchEntries(c, b, Told(b), t);
        }
      }
  }

  /**
   Flush hands the layer's own hash down, even when it is still null.  The best block survives
   exactly when the layer has a hash, or sits on the database, or the layer below would have
   answered with its own base's block anyway.
   */
  lemma FlushKeepsBestBlock(s: Stack)
    requires s.Layer?
    ensures BestBlock(Flushed(s)) == BestBlock(s) <==>
      (s.best != 0 || s.below.Db? || s.below.best == 0 || s.below.best == BestBlock(s.below.below))
  {
    if s.below.Layer? && s.best == 0 {
      assert BestBlock(Flushed(s)) == BestBlock(s.below.below);
    }
  }

  /** A child flushed before anyone asked it for the best block makes its parent forget the block it was set to. */
  lemma BestBlockLost()
    ensures exists s: Stack :: Valid(s) && s.Layer? && BestBlock(s) == 7 && BestBlock(Flushed(s)) == 5
  {
    var s := Layer(map[], 0, Layer(map[], 7, Db(map[], 5)));
    assert Flushed(s) == Layer(map[], 0, Layer(map[], 0, Db(map[], 5))) by {
      assert Written(map[], map[]) == map[];
    }
    assert BestBlock(Flushed(s)) == BestBlock(Db(map[], 5));
  }
}
