/** What CAddrMan::Serialize writes and CAddrMan::Unserialize makes of it (src/addrman.h). */
module AddrDisk {
  import opened AddrModel

  /** A CAddrInfo on disk: its memory-only fields and nLastTry are not written. */
  datatype Saved = Saved(address: Address, source: NetAddr, lastSuccess: int, attempts: int)

  /**
   The file: version, the addresses of the new table (nNew of them), those of the tried table
   (nTried), and for every bucket of the new table the indices of its addresses.
   */
  datatype Disk = Disk(version: nat, news: seq<Saved>, trieds: seq<Saved>, buckets: seq<seq<int>>)

  function SavedInfo(x: Info): Saved {
    Saved(x.address, x.source, x.lastSuccess, x.attempts)
  }

  /** A default CAddrInfo with the saved fields read into it. */
  function InfoOf(s: Saved): Info {
    NewInfo(s.address, s.source).(lastSuccess := s.lastSuccess, attempts := s.attempts)
  }

  // ----- Writing -----

  /** The ids below k that have references, in the order of the id map. */
  function NewBelow(b: Book, k: nat): (r: seq<int>)
    ensures forall i :: 0 <= i < |r| ==> 0 <= r[i] < k && r[i] in b.info && b.info[r[i]].refCount != 0
    decreases k
  {
    if k == 0 then []
    else NewBelow(b, k - 1) + if k - 1 in b.info && b.info[k - 1].refCount != 0 then [k - 1] else []
  }

  /** The ids below k that are in tried. */
  function TriedBelow(b: Book, k: nat): (r: seq<int>)
    ensures forall i :: 0 <= i < |r| ==> 0 <= r[i] < k && r[i] in b.info && b.info[r[i]].inTried
    decreases k
  {
    if k == 0 then []
    else TriedBelow(b, k - 1) + if k - 1 in b.info && b.info[k - 1].inTried then [k - 1] else []
  }

  function SavedAll(b: Book, list: seq<int>): (r: seq<Saved>)
    requires forall i :: 0 <= i < |list| ==> list[i] in b.info
    ensures |r| == |list| && forall i :: 0 <= i < |list| ==> r[i] == SavedInfo(b.info[list[i]])
    decreases |list|
  {
    if list == [] then [] else SavedAll(b, list[..|list| - 1]) + [SavedInfo(b.info[list[|list| - 1]])]
  }

  /** mapUnkIds: how many of the addresses written before id are in the new table. */
  function UnkId(b: Book, id: int): nat {
    if id < 0 then 0 else |NewBelow(b, id)|
  }

  /** The indices written for the first p positions of a bucket. */
  function BucketUpTo(b: Book, bucket: nat, p: nat): seq<int>
    decreases p
  {
    if p == 0 then []
    else BucketUpTo(b, bucket, p - 1) + if (bucket, p - 1) in b.newSlots then [UnkId(b, b.newSlots[(bucket, p - 1)])]
      else []
  }

  function BucketsUpTo(b: Book, n: nat): (r: seq<seq<int>>)
    ensures |r| == n && forall i :: 0 <= i < n ==> r[i] == BucketUpTo(b, i, BUCKET_SIZE)
    decreases n
  {
    if n == 0 then [] else BucketsUpTo(b, n - 1) + [BucketUpTo(b, n - 1, BUCKET_SIZE)]
  }

  function Written(b: Book): Disk
    requires b.idCount >= 0
  {
    Disk(1, SavedAll(b, NewBelow(b, b.idCount)), SavedAll(b, TriedBelow(b, b.idCount)),
      BucketsUpTo(b, NEW_BUCKET_COUNT))
  }

  // ----- Reading -----

  /** A freshly constructed object. */
  const NOTHING := Book(map[], map[], [], map[], map[], 0, 0, 0)

  /** The new table on disk can be used as it is. */
  predicate Usable(d: Disk) {
    d.version == 1 && |d.buckets| == NEW_BUCKET_COUNT
  }

  /** One address of the new table; if the table cannot be used it gets its primary slot if that is free. */
  function LoadNew(b: Book, h: Hashes, s: Saved, n: nat, usable: bool): Book {
    var x := InfoOf(s).(randomPos := |b.random|);
    var b1 := b.(info := b.info[n := x], ids := b.ids[x.Ip() := n], random := b.random + [n]);
    var slot := NewSlot(h, x, h.NewBucket(x.address.service, x.source));
    if !usable && slot !in b.newSlots then Slotted(b1, slot, n) else b1
  }

  function LoadNews(d: Disk, h: Hashes, n: nat): Book
    requires n <= |d.news|
    decreases n
  {
    if n == 0 then NOTHING.(nNew := |d.news|, nTried := |d.trieds|)
    else LoadNew(LoadNews(d, h, n - 1), h, d.news[n - 1], n - 1, Usable(d))
  }

  /** One address of the tried table; a taken slot loses it. */
  function LoadTried(x: (Book, nat), h: Hashes, s: Saved): (Book, nat) {
    var (b, nLost) := x;
    var info := InfoOf(s).(randomPos := |b.random|, inTried := true);
    var slot := TriedSlot(h, info);
    if slot in b.triedSlots then (b, nLost + 1)
    else (b.(random := b.random + [b.idCount], info := b.info[b.idCount := info], ids := b.ids[info.Ip() := b.idCount],
             triedSlots := b.triedSlots[slot := b.idCount], idCount := b.idCount + 1), nLost)
  }

  function LoadTrieds(d: Disk, h: Hashes, n: nat): (Book, nat)
    requires n <= |d.trieds|
    decreases n
  {
    if n == 0 then (LoadNews(d, h, |d.news|).(idCount := |d.news|), 0)
    else LoadTried(LoadTrieds(d, h, n - 1), h, d.trieds[n - 1])
  }

  /** One index of a bucket. */
  function LoadIndex(b: Book, h: Hashes, bucket: nat, index: int, usable: bool): Book {
    if 0 <= index < b.nNew && index in b.info && usable then
      var slot := NewSlot(h, b.info[index], bucket);
      if slot !in b.newSlots && b.info[index].refCount < NEW_BUCKETS_PER_ADDRESS then Slotted(b, slot, index) else b
    else b
  }

  function LoadBucket(b: Book, h: Hashes, bucket: nat, list: seq<int>, usable: bool): Book
    decreases |list|
  {
    if list == [] then b
    else LoadIndex(LoadBucket(b, h, bucket, list[..|list| - 1], usable), h, bucket, list[|list| - 1], usable)
  }

  function LoadBuckets(b: Book, h: Hashes, d: Disk, n: nat): Book
    requires n <= |d.buckets|
    decreases n
  {
    if n == 0 then b else LoadBucket(LoadBuckets(b, h, d, n - 1), h, n - 1, d.buckets[n - 1], Usable(d))
  }

  /** The entry has lost its place. */
  predicate Orphaned(b: Book, id: int) {
    id in b.info && !b.info[id].inTried && b.info[id].refCount == 0
  }

  /** Orphans among the first k ids are deleted; the second component counts them. */
  ghost function Pruned(b: Book, k: nat): (Book, nat)
    decreases k
  {
    if k == 0 then (b, 0)
    else
      var (b1, n) := Pruned(b, k - 1);
      if Orphaned(b1, k - 1) && Deletable(b1, k - 1) then (Deleted(b1, k - 1), n + 1) else (b1, n)
  }

  /** The book before pruning, with nTried corrected by nLost. */
  function Tables(d: Disk, h: Hashes): (Book, nat) {
    var (b, nLost) := LoadTrieds(d, h, |d.trieds|);
    (LoadBuckets(b.(nTried := b.nTried - nLost), h, d, |d.buckets|), nLost)
  }

  /** Unserialize: the book, nLost and nLostUnk. */
  ghost function Loaded(d: Disk, h: Hashes): (Book, nat, nat) {
    var (b, nLost) := Tables(d, h);
    var (b1, nLostUnk) := Pruned(b, if b.idCount < 0 then 0 else b.idCount);
    (b1, nLost, nLostUnk)
  }
}
