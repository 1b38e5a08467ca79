/** The loops of CAddrMan::Serialize and CAddrMan::Unserialize (src/addrman.h). */
module AddrSerialize {
  import opened AddrModel
  import opened AddrDisk
  import opened AddrReload
  import opened LoadRules

  // ----- Serialize -----

  lemma NewCounted(b: Book, h: Hashes, id: nat)
    requires Consistent(b, h) && id in b.info && b.info[id].refCount != 0
    ensures |NewBelow(b, id)| < b.nNew && id < b.idCount
  {
    hide NewBelow;
    ReloadLosesNothing(b, h);
    OneTable(b, h, id);
    NewIndex(b, id, b.idCount);
  }

  lemma TriedCounted(b: Book, h: Hashes, id: nat)
    requires Consistent(b, h) && id in b.info && b.info[id].inTried
    ensures |TriedBelow(b, id)| < b.nTried && id < b.idCount
  {
    hide TriedBelow;
    ReloadLosesNothing(b, h);
    OneTable(b, h, id);
    TriedIndex(b, id, b.idCount);
  }

  lemma MoreNews(b: Book, id: nat)
    ensures if id in b.info && b.info[id].refCount != 0
            then NewBelow(b, id + 1) == NewBelow(b, id) + [id] &&
                 SavedAll(b, NewBelow(b, id + 1)) == SavedAll(b, NewBelow(b, id)) + [SavedInfo(b.info[id])]
            else NewBelow(b, id + 1) == NewBelow(b, id)
  {
    if id in b.info && b.info[id].refCount != 0 {
      assert NewBelow(b, id + 1)[..|NewBelow(b, id)|] == NewBelow(b, id);
    }
  }

  lemma MoreTrieds(b: Book, id: nat)
    ensures if id in b.info && b.info[id].inTried
            then TriedBelow(b, id + 1) == TriedBelow(b, id) + [id] &&
                 SavedAll(b, TriedBelow(b, id + 1)) == SavedAll(b, TriedBelow(b, id)) + [SavedInfo(b.info[id])]
            else TriedBelow(b, id + 1) == TriedBelow(b, id)
  {
    if id in b.info && b.info[id].inTried {
      assert TriedBelow(b, id + 1)[..|TriedBelow(b, id)|] == TriedBelow(b, id);
    }
  }

  /** The first loop over mapInfo, in the order of its keys: the addresses with references, and mapUnkIds. */
  method WriteNews(b: Book, ghost h: Hashes) returns (news: seq<Saved>, unkIds: map<int, int>)
    requires Consistent(b, h)
    ensures news == SavedAll(b, NewBelow(b, b.idCount))
    ensures forall id :: id in b.info ==> id in unkIds && unkIds[id] == UnkId(b, id)
  {
    hide NewBelow, SavedAll, Consistent;
    SoundBook(b, h);
    news, unkIds := [], map[];
    var nIds := 0;
    NoneBelow(b);
    for id := 0 to b.idCount
      invariant news == SavedAll(b, NewBelow(b, id)) && nIds == |NewBelow(b, id)|
      invariant forall i :: i in b.info && 0 <= i < id ==> i in unkIds && unkIds[i] == UnkId(b, i)
    {
      MoreNews(b, id);
      if id in b.info {
        unkIds := unkIds[id := nIds];
        if b.info[id].refCount != 0 {
          NewCounted(b, h, id);
          assert nIds != b.nNew;
          news := news + [SavedInfo(b.info[id])];
          nIds := nIds + 1;
        }
      }
    }
    forall id | id in b.info ensures 0 <= id < b.idCount { OneTable(b, h, id); }
  }

  /** The second loop: the addresses in tried. */
  method WriteTrieds(b: Book, ghost h: Hashes) returns (trieds: seq<Saved>)
    requires Consistent(b, h)
    ensures trieds == SavedAll(b, TriedBelow(b, b.idCount))
  {
    hide TriedBelow, SavedAll, Consistent;
    SoundBook(b, h);
    trieds := [];
    var nIds := 0;
    NoneBelow(b);
    for id := 0 to b.idCount
      invariant trieds == SavedAll(b, TriedBelow(b, id)) && nIds == |TriedBelow(b, id)|
    {
      MoreTrieds(b, id);
      if id in b.info && b.info[id].inTried {
        TriedCounted(b, h, id);
        assert nIds != b.nTried;
        trieds := trieds + [SavedInfo(b.info[id])];
        nIds := nIds + 1;
      }
    }
  }

  lemma NoneBelow(b: Book)
    ensures NewBelow(b, 0) == [] && TriedBelow(b, 0) == [] && SavedAll(b, []) == []
  {
  }

  /** One bucket of the new table. */
  method WriteBucket(b: Book, bucket: nat, unkIds: map<int, int>) returns (r: seq<int>)
    requires forall s :: s in b.newSlots ==> b.newSlots[s] in unkIds && unkIds[b.newSlots[s]] == UnkId(b, b.newSlots[s])
    ensures r == BucketUpTo(b, bucket, BUCKET_SIZE)
  {
    hide UnkId;
    r := [];
    for i := 0 to BUCKET_SIZE
      invariant r == BucketUpTo(b, bucket, i)
    {
      if (bucket, i) in b.newSlots {
        r := r + [unkIds[b.newSlots[(bucket, i)]]];
      }
    }
  }

  /** Serialize.  Its two assertions on nNew and nTried hold. */
  method Serialize(b: Book, ghost h: Hashes) returns (d: Disk)
    requires Consistent(b, h)
    ensures b.idCount >= 0 && d == Written(b)
  {
    hide NewBelow, TriedBelow, SavedAll, Consistent, UnkId, BucketUpTo;
    SoundBook(b, h);
    SlotIds(b, h);
    var news, unkIds := WriteNews(b, h);
    var trieds := WriteTrieds(b, h);
    var buckets := [];
    for bucket := 0 to NEW_BUCKET_COUNT
      invariant buckets == BucketsUpTo(b, bucket)
    {
      var one := WriteBucket(b, bucket, unkIds);
      buckets := buckets + [one];
    }
    d := Disk(1, news, trieds, buckets);
  }

  // ----- Unserialize -----

  ghost predicate Dense(b: Book, n: nat) {
    RandomOk(b) && |b.random| == n && (forall i :: i in b.info <==> 0 <= i < n)
  }

  lemma SlottedKeepsRandom(b: Book, s: Slot, id: int)
    requires RandomOk(b) && id in b.info
    ensures RandomOk(Slotted(b, s, id)) && Slotted(b, s, id).info.Keys == b.info.Keys
  {
    var b' := Slotted(b, s, id);
    forall i | i in b'.info ensures PlaceOf(b', i) { assert PlaceOf(b, i); }
    forall i | 0 <= i < |b'.random| ensures IdIn(b', i) { assert IdIn(b, i); }
  }

  lemma AppendKeepsRandom(b: Book, b': Book, n: nat, x: Info)
    requires Dense(b, n) && b'.info == b.info[n := x] && b'.random == b.random + [n] && x.randomPos == n
    ensures Dense(b', n + 1)
  {
    forall i | i in b'.info ensures PlaceOf(b', i) { if i != n { assert PlaceOf(b, i); } }
    forall i | 0 <= i < |b'.random| ensures IdIn(b', i) { if i < n { assert IdIn(b, i); } }
  }

  lemma LoadNewDense(b: Book, h: Hashes, s: Saved, n: nat, usable: bool)
    requires Dense(b, n)
    ensures Dense(LoadNew(b, h, s, n, usable), n + 1)
  {
    hide NewSlot, RandomOk;
    var x := InfoOf(s).(randomPos := |b.random|);
    var b1 := b.(info := b.info[n := x], ids := b.ids[x.Ip() := n], random := b.random + [n]);
    AppendKeepsRandom(b, b1, n, x);
    SlottedKeepsRandom(b1, NewSlot(h, x, h.NewBucket(x.address.service, x.source)), n);
  }

  lemma NothingDense(b: Book)
    requires b.info == map[] && b.random == []
    ensures Dense(b, 0)
  {
  }

  lemma LoadTriedDense(x: (Book, nat), h: Hashes, s: Saved)
    requires x.0.idCount >= 0 && Dense(x.0, x.0.idCount)
    ensures LoadTried(x, h, s).0.idCount >= 0 && Dense(LoadTried(x, h, s).0, LoadTried(x, h, s).0.idCount)
  {
    hide TriedSlot, RandomOk;
    var b, b' := x.0, LoadTried(x, h, s).0;
    if b'.idCount != b.idCount {
      AppendKeepsRandom(b, b', b.idCount, b'.info[b.idCount]);
    }
  }

  lemma LoadIndexRandom(b: Book, h: Hashes, bucket: nat, index: int, usable: bool)
    requires RandomOk(b)
    ensures var b' := LoadIndex(b, h, bucket, index, usable);
      RandomOk(b') && b'.info.Keys == b.info.Keys && b'.idCount == b.idCount && b'.nNew == b.nNew
  {
    hide NewSlot, RandomOk;
    if index in b.info { SlottedKeepsRandom(b, NewSlot(h, b.info[index], bucket), index); }
  }

  /** One address of the new table. */
  method ReadNew(b: Book, h: Hashes, info: Saved, n: nat, usable: bool) returns (r: Book)
    ensures r == LoadNew(b, h, info, n, usable)
  {
    var x := Info(info.address, info.source, info.lastSuccess, 0, info.attempts, 0, false, |b.random|);
    var newSlots := b.newSlots;
    if !usable {
      var nUBucket := h.NewBucket(x.address.service, x.source);
      var nUBucketPos := h.Position(x.address.service, true, nUBucket);
      if (nUBucket, nUBucketPos) !in newSlots {
        newSlots := newSlots[(nUBucket, nUBucketPos) := n];
        x := x.(refCount := x.refCount + 1);
      }
    }
    r := b.(info := b.info[n := x], ids := b.ids[x.Ip() := n], random := b.random + [n], newSlots := newSlots);
  }

  /** The loop over the addresses of the new table. */
  method ReadNews(d: Disk, h: Hashes) returns (b: Book)
    ensures b == LoadNews(d, h, |d.news|) && Dense(b, |d.news|)
  {
    hide LoadNew, Dense;
    b := NOTHING.(nNew := |d.news|, nTried := |d.trieds|);
    NothingDense(b);
    for n := 0 to |d.news|
      invariant b == LoadNews(d, h, n) && Dense(b, n)
    {
      LoadNewDense(b, h, d.news[n], n, Usable(d));
      b := ReadNew(b, h, d.news[n], n, d.version == 1 && |d.buckets| == NEW_BUCKET_COUNT);
    }
  }

  /** One address of the tried table. */
  method ReadTried(b: Book, nLost: nat, h: Hashes, info: Saved) returns (r: Book, lost: nat)
    ensures (r, lost) == LoadTried((b, nLost), h, info)
  {
    var x := Info(info.address, info.source, info.lastSuccess, 0, info.attempts, 0, false, -1);
    var nKBucket := h.TriedBucket(x.address.service);
    var nKBucketPos := h.Position(x.address.service, false, nKBucket);
    if (nKBucket, nKBucketPos) in b.triedSlots {
      return b, nLost + 1;
    }
    x := x.(randomPos := |b.random|, inTried := true);
    r := b.(random := b.random + [b.idCount], info := b.info[b.idCount := x], ids := b.ids[x.Ip() := b.idCount],
            triedSlots := b.triedSlots[(nKBucket, nKBucketPos) := b.idCount], idCount := b.idCount + 1);
    lost := nLost;
  }

  /** The loop over the addresses of the tried table. */
  method ReadTrieds(start: Book, d: Disk, h: Hashes) returns (b: Book, nLost: nat)
    requires start == LoadNews(d, h, |d.news|) && Dense(start, |d.news|)
    ensures (b, nLost) == LoadTrieds(d, h, |d.trieds|) && b.idCount >= 0 && Dense(b, b.idCount)
  {
    hide LoadTried, LoadNews;
    b, nLost := start.(idCount := |d.news|), 0;
    DenseInfo(start, b, |d.news|);
    hide Dense;
    for n := 0 to |d.trieds|
      invariant (b, nLost) == LoadTrieds(d, h, n) && b.idCount >= 0 && Dense(b, b.idCount)
    {
      LoadTriedDense((b, nLost), h, d.trieds[n]);
      b, nLost := ReadTried(b, nLost, h, d.trieds[n]);
    }
  }

  lemma DenseInfo(b: Book, b': Book, n: nat)
    requires Dense(b, n) && b'.info == b.info && b'.random == b.random
    ensures Dense(b', n)
  {
    forall i | i in b'.info ensures PlaceOf(b', i) { assert PlaceOf(b, i); }
    forall i | 0 <= i < |b'.random| ensures IdIn(b', i) { assert IdIn(b, i); }
  }

  /** One index of a bucket. */
  method ReadIndex(b: Book, h: Hashes, bucket: nat, nIndex: int, usable: bool) returns (r: Book)
    ensures r == LoadIndex(b, h, bucket, nIndex, usable)
  {
    r := b;
    if nIndex >= 0 && nIndex < b.nNew && nIndex in b.info {
      var x := b.info[nIndex];
      var nUBucketPos := h.Position(x.address.service, true, bucket);
      if usable && (bucket, nUBucketPos) !in b.newSlots && x.refCount < NEW_BUCKETS_PER_ADDRESS {
        r := b.(info := b.info[nIndex := x.(refCount := x.refCount + 1)],
                newSlots := b.newSlots[(bucket, nUBucketPos) := nIndex]);
      }
    }
  }

  /** The loop over the indices of a bucket. */
  method ReadBucket(start: Book, h: Hashes, bucket: nat, list: seq<int>, usable: bool) returns (b: Book)
    requires RandomOk(start)
    ensures b == LoadBucket(start, h, bucket, list, usable) && RandomOk(b)
    ensures b.info.Keys == start.info.Keys && b.idCount == start.idCount
  {
    hide LoadIndex, RandomOk;
    b := start;
    assert list[..0] == [];
    for n := 0 to |list|
      invariant b == LoadBucket(start, h, bucket, list[..n], usable) && RandomOk(b)
      invariant b.info.Keys == start.info.Keys && b.idCount == start.idCount
    {
      assert list[..n + 1][..n] == list[..n] && list[..n + 1][n] == list[n];
      LoadIndexRandom(b, h, bucket, list[n], usable);
      b := ReadIndex(b, h, bucket, list[n], usable);
    }
    assert list[..|list|] == list;
  }

  method ReadBuckets(start: Book, h: Hashes, d: Disk) returns (b: Book)
    requires RandomOk(start)
    ensures b == LoadBuckets(start, h, d, |d.buckets|) && RandomOk(b)
    ensures b.info.Keys == start.info.Keys && b.idCount == start.idCount
  {
    hide LoadBucket, RandomOk;
    b := start;
    for bucket := 0 to |d.buckets|
      invariant b == LoadBuckets(start, h, d, bucket) && RandomOk(b)
      invariant b.info.Keys == start.info.Keys && b.idCount == start.idCount
    {
      b := ReadBucket(b, h, bucket, d.buckets[bucket], d.version == 1 && |d.buckets| == NEW_BUCKET_COUNT);
    }
  }

  lemma DeletedKeepsRandom(b: Book, id: int)
    requires RandomOk(b) && id in b.info
    ensures Deletable(b, id) && RandomOk(Deleted(b, id))
  {
    hide RandomOk;
    SwapToEnd(b, id);
    SwapSame(b, id);
    DropRandomOk(Swapped(b, b.info[id].randomPos, |b.random| - 1), id);
  }

  lemma SwapSame(b: Book, id: int)
    requires RandomOk(b) && id in b.info && Deletable(b, id)
    ensures RandomOk(Swapped(b, b.info[id].randomPos, |b.random| - 1))
  {
    assert PlaceOf(b, id);
    SwapRandomOk(b, b.info[id].randomPos, |b.random| - 1);
  }

  /** SwapRandom, and the removal of the last id of vRandom with its entry. */
  method DeleteOrphan(b: Book, id: int) returns (r: Book)
    requires RandomOk(b) && Orphaned(b, id)
    ensures Deletable(b, id) && r == Deleted(b, id) && RandomOk(r)
  {
    hide RandomOk;
    DeletedKeepsRandom(b, id);
    r := Dropped(Swapped(b, b.info[id].randomPos, |b.random| - 1), id);
  }

  /** The last loop: entries of the new table without a slot are deleted, in the order of the id map. */
  method Prune(start: Book) returns (b: Book, nLostUnk: nat)
    requires RandomOk(start) && start.idCount >= 0
    ensures (b, nLostUnk) == Pruned(start, start.idCount)
  {
    hide RandomOk, Deleted, Deletable;
    b, nLostUnk := start, 0;
    for id := 0 to start.idCount
      invariant (b, nLostUnk) == Pruned(start, id) && RandomOk(b)
    {
      if id in b.info && b.info[id].inTried == false && b.info[id].refCount == 0 {
        b := DeleteOrphan(b, id);
        nLostUnk := nLostUnk + 1;
      }
    }
  }

  /** Unserialize into a fresh object. */
  method Unserialize(d: Disk, h: Hashes) returns (b: Book, nLost: nat, nLostUnk: nat)
    ensures (b, nLost, nLostUnk) == Loaded(d, h)
    ensures var start := Tables(d, h).0; start.idCount >= 0 && PrunedTo(start, b, nLostUnk, start.idCount)
  {
    hide RandomOk, LoadNews, LoadTrieds, LoadBuckets, Pruned, PrunedTo;
    b := ReadNews(d, h);
    b, nLost := ReadTrieds(b, d, h);
    ghost var dense := b;
    b := b.(nTried := b.nTried - nLost);
    DenseInfo(dense, b, b.idCount);
    b := ReadBuckets(b, h, d);
    PrunedRule(b, b.idCount);
    b, nLostUnk := Prune(b);
  }
}
